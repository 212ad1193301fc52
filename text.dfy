/**
 * The behaviour of the handful of Rust standard-library string and integer
 * routines the core relies on: `to_lowercase`, `starts_with`,
 * `trim_start_matches`, `trim_matches`, `i32::from_str_radix`, and the
 * `{}` / `{:x}` renderings of integers.
 */
module Text {
  import opened Results

  /** Rust's fixed-width integer types, as ranges of unbounded integers. */
  type i32 = x: int | -0x8000_0000 <= x < 0x8000_0000
  type u16 = x: int | 0 <= x < 0x1_0000
  type u8 = x: int | 0 <= x < 0x100

  const I32Min: int := -0x8000_0000
  const I32Max: int := 0x7fff_ffff

  // ---------------------------------------------------------------- case

  predicate IsUpper(c: char) { 'A' <= c <= 'Z' }

  /** True when no character of `s` is an upper-case ASCII letter. */
  predicate IsLower(s: string) { forall i :: 0 <= i < |s| ==> !IsUpper(s[i]) }

  function LowerChar(c: char): (r: char)
    ensures !IsUpper(r)
    ensures IsUpper(c) ==> r as int == c as int + 32
    ensures !IsUpper(c) ==> r == c
  {
    if IsUpper(c) then (c as int + 32) as char else c
  }

  /** `str::to_lowercase` on ASCII letters; every other character is kept. */
  function Lower(s: string): (r: string)
    ensures |r| == |s| && IsLower(r)
    ensures forall i :: 0 <= i < |s| ==> r[i] == LowerChar(s[i])
    ensures IsLower(s) ==> r == s
  {
    seq(|s|, i requires 0 <= i < |s| => LowerChar(s[i]))
  }

  lemma LowerIdempotent(s: string)
    ensures Lower(Lower(s)) == Lower(s)
  {
  }

  // ---------------------------------------------------------------- prefixes

  predicate StartsWith(s: string, p: string) { |p| <= |s| && s[..|p|] == p }

  /**
   * `str::trim_start_matches` with a string pattern: removes the pattern from
   * the front again and again, as long as the remainder still starts with it.
   */
  function TrimStartMatches(s: string, pat: string): (r: string)
    ensures |r| <= |s| && r == s[|s| - |r|..]
    ensures pat != [] ==> !StartsWith(r, pat)
    decreases |s|
  {
    if pat != [] && StartsWith(s, pat) then TrimStartMatches(s[|pat|..], pat) else s
  }

  /** One more leading copy of the pattern makes no difference. */
  lemma TrimStartMatchesRepeat(s: string, pat: string)
    requires pat != []
    ensures TrimStartMatches(pat + s, pat) == TrimStartMatches(s, pat)
  {
    assert StartsWith(pat + s, pat);
    assert (pat + s)[|pat|..] == s;
  }

  /** A string that does not start with the pattern is left as it is. */
  lemma TrimStartMatchesAbsent(s: string, pat: string)
    requires !StartsWith(s, pat)
    ensures TrimStartMatches(s, pat) == s
  {
  }

  // ------------------------------------------------- trimming a character

  /** `str::trim_start_matches` with a character pattern. */
  function TrimStart(s: string, c: char): (r: string)
    ensures |r| <= |s| && r == s[|s| - |r|..]
    ensures r != [] ==> r[0] != c
    ensures forall i :: 0 <= i < |s| - |r| ==> s[i] == c
    decreases |s|
  {
    if s != [] && s[0] == c then TrimStart(s[1..], c) else s
  }

  /** `str::trim_end_matches` with a character pattern. */
  function TrimEnd(s: string, c: char): (r: string)
    ensures |r| <= |s| && r == s[..|r|]
    ensures r != [] ==> r[|r| - 1] != c
    ensures forall i :: |r| <= i < |s| ==> s[i] == c
    decreases |s|
  {
    if s != [] && s[|s| - 1] == c then TrimEnd(s[..|s| - 1], c) else s
  }

  /**
   * `str::trim_matches` with a character pattern: every leading and every
   * trailing `c` removed.
   */
  function TrimMatches(s: string, c: char): (r: string)
    ensures |r| <= |s|
    ensures r != [] ==> r[0] != c && r[|r| - 1] != c
  {
    TrimEnd(TrimStart(s, c), c)
  }

  /**
   * What trimming leaves is a slice of `s`, and everything cut off on either
   * side of it is `c`.
   */
  lemma TrimMatchesSlice(s: string, c: char)
    ensures var t := TrimStart(s, c);
            var r := TrimMatches(s, c);
            var i := |s| - |t|;
            && i + |r| <= |s| && r == s[i..i + |r|]
            && (forall k :: 0 <= k < i ==> s[k] == c)
            && (forall k :: i + |r| <= k < |s| ==> s[k] == c)
  {
    var t := TrimStart(s, c);
    var r := TrimEnd(t, c);
    var i := |s| - |t|;
    assert t == s[i..];
    assert r == t[..|r|];
    assert s[i..i + |r|] == s[i..][..|r|];
    forall k | i + |r| <= k < |s|
      ensures s[k] == c
    {
      assert s[k] == t[k - i];
    }
  }

  /**
   * `base` followed by `s` with every leading and every trailing `c` of `s`
   * removed, computed one character at a time.
   */
  function AppendTrimmed(base: string, s: string, c: char): string
    decreases |s|
  {
    if s != [] && s[0] == c then AppendTrimmed(base, s[1..], c)
    else if s != [] && s[|s| - 1] == c then AppendTrimmed(base, s[..|s| - 1], c)
    else base + s
  }

  /** `AppendTrimmed` appends exactly what `TrimMatches` keeps. */
  lemma {:induction false} AppendTrimmedIsTrimMatches(base: string, s: string, c: char)
    ensures AppendTrimmed(base, s, c) == base + TrimMatches(s, c)
    decreases |s|
  {
    if s != [] && s[0] == c {
      AppendTrimmedIsTrimMatches(base, s[1..], c);
    } else if s != [] && s[|s| - 1] == c {
      var t := s[..|s| - 1];
      AppendTrimmedIsTrimMatches(base, t, c);
      assert TrimStart(s, c) == s;
      if t != [] {
        assert t[0] == s[0];
        assert TrimStart(t, c) == t;
      }
    } else {
      assert TrimStart(s, c) == s;
    }
  }

  /** Appending text behind a string that does not trim to nothing commutes with TrimStart. */
  lemma {:induction false} TrimStartAppend(s: string, t: string, c: char)
    requires TrimStart(s, c) != []
    ensures TrimStart(s + t, c) == TrimStart(s, c) + t
    decreases |s|
  {
    assert (s + t)[0] == s[0];
    if s[0] == c {
      assert (s + t)[1..] == s[1..] + t;
      TrimStartAppend(s[1..], t, c);
    }
  }

  /** A string made only of `c` trims to nothing, also after one more `c`. */
  lemma {:induction false} TrimStartAllPattern(s: string, c: char)
    requires TrimStart(s, c) == []
    ensures TrimStart(s + [c], c) == []
    decreases |s|
  {
    if s == [] {
      assert ([c])[1..] == [];
    } else {
      assert (s + [c])[1..] == s[1..] + [c];
      TrimStartAllPattern(s[1..], c);
    }
  }

  /** A leading pattern character does not change the trimmed string. */
  lemma TrimMatchesLeading(s: string, c: char)
    ensures TrimMatches([c] + s, c) == TrimMatches(s, c)
  {
    assert ([c] + s)[1..] == s;
  }

  /** A trailing pattern character does not change the trimmed string. */
  lemma TrimMatchesTrailing(s: string, c: char)
    ensures TrimMatches(s + [c], c) == TrimMatches(s, c)
  {
    var t := TrimStart(s, c);
    if t == [] {
      TrimStartAllPattern(s, c);
    } else {
      TrimStartAppend(s, [c], c);
      assert (t + [c])[..|t + [c]| - 1] == t;
    }
  }

  /** Trimming twice is trimming once. */
  lemma TrimMatchesIdempotent(s: string, c: char)
    ensures TrimMatches(TrimMatches(s, c), c) == TrimMatches(s, c)
  {
    var r := TrimMatches(s, c);
    if r != [] {
      assert TrimStart(r, c) == r;
      assert TrimEnd(r, c) == r;
    }
  }

  // ---------------------------------------------------------------- digits

  /** `char::to_digit(radix)`: the value of a digit in the given radix, if it is one. */
  function ToDigit(c: char, radix: nat): (r: Option<nat>)
    requires 2 <= radix <= 36
    ensures r.Some? ==> r.value < radix
    ensures r.Some? ==> ('0' <= c <= '9' || 'a' <= c <= 'z' || 'A' <= c <= 'Z')
  {
    var d := if '0' <= c <= '9' then c as int - '0' as int
             else if 'a' <= c <= 'z' then c as int - 'a' as int + 10
             else if 'A' <= c <= 'Z' then c as int - 'A' as int + 10
             else radix;
    if d < radix then Some(d) else None
  }

  predicate AllDigits(s: string, radix: nat)
    requires 2 <= radix <= 36
  {
    forall i :: 0 <= i < |s| ==> ToDigit(s[i], radix).Some?
  }

  /** The number a string of digits denotes, most significant digit first. */
  function Value(s: string, radix: nat): nat
    requires 2 <= radix <= 36 && AllDigits(s, radix)
    decreases |s|
  {
    if s == [] then 0
    else Value(s[..|s| - 1], radix) * radix + ToDigit(s[|s| - 1], radix).value
  }

  /** The lower-case digit character for `d`, as `{:x}` and `{}` print it. */
  function DigitChar(d: nat): (c: char)
    requires d < 16
    ensures !IsUpper(c) && c != '-' && c != '+'
    ensures forall radix :: 2 <= radix <= 36 && d < radix ==> ToDigit(c, radix) == Some(d)
  {
    if d < 10 then ('0' as int + d) as char else ('a' as int + d - 10) as char
  }

  /** The two radixes the core prints and parses in. */
  predicate IsRadix(radix: nat) { radix == 10 || radix == 16 }

  /** The minimal digit string of `n` in the given radix (no padding, lower case). */
  function Render(n: nat, radix: nat): (r: string)
    requires IsRadix(radix)
    ensures |r| >= 1 && IsLower(r) && AllDigits(r, radix)
    ensures r[0] != '-' && r[0] != '+'
    ensures r[0] == '0' ==> n == 0 && r == "0"
    decreases n
  {
    if n < radix then [DigitChar(n)] else Render(n / radix, radix) + [DigitChar(n % radix)]
  }

  /** Rendering and reading back digits are inverse. */
  lemma {:induction false} RenderValue(n: nat, radix: nat)
    requires IsRadix(radix)
    ensures Value(Render(n, radix), radix) == n
    decreases n
  {
    var r := Render(n, radix);
    if n < radix {
      assert r[..|r| - 1] == [];
    } else {
      RenderValue(n / radix, radix);
      assert r[..|r| - 1] == Render(n / radix, radix);
    }
  }

  /** Different numbers render differently. */
  lemma RenderInjective(m: nat, n: nat, radix: nat)
    requires IsRadix(radix)
    requires Render(m, radix) == Render(n, radix)
    ensures m == n
  {
    RenderValue(m, radix);
    RenderValue(n, radix);
  }

  /** `{}` on a non-negative integer. */
  function Decimal(n: nat): string
  {
    Render(n, 10)
  }

  /** `{}` (`to_string`) on a signed integer. */
  function SignedDecimal(v: int): (r: string)
    ensures |r| >= 1 && (v < 0 <==> r[0] == '-')
  {
    if v < 0 then "-" + Render(-v, 10) else Render(v, 10)
  }

  /** `{:x}` on an `i32`: a negative value prints as its 32-bit two's complement. */
  function Hex32(v: i32): (r: string)
    ensures v >= 0 ==> r == Render(v, 16)
    ensures v < 0 ==> r == Render(v + 0x1_0000_0000, 16)
  {
    Render(if v >= 0 then v else v + 0x1_0000_0000, 16)
  }

  /**
   * `i32::from_str_radix`: an optional single `+` or `-`, then at least one
   * digit of the radix; the value must fit in 32 signed bits.
   */
  function FromStrRadix(s: string, radix: nat): (r: Option<i32>)
    requires 2 <= radix <= 36
    ensures s == [] ==> r.None?
    ensures r.Some? && s[0] != '-' && s[0] != '+' ==> AllDigits(s, radix) && r.value == Value(s, radix)
    ensures r.Some? && s[0] == '+' ==> |s| > 1 && AllDigits(s[1..], radix) && r.value == Value(s[1..], radix)
    ensures r.Some? && s[0] == '-' ==> |s| > 1 && AllDigits(s[1..], radix) && r.value == -(Value(s[1..], radix) as int)
    ensures s != [] && s[0] != '-' && s[0] != '+' && AllDigits(s, radix) && Value(s, radix) <= I32Max ==>
              r == Some(Value(s, radix))
    ensures |s| > 1 && s[0] == '+' && AllDigits(s[1..], radix) && Value(s[1..], radix) <= I32Max ==>
              r == Some(Value(s[1..], radix))
    ensures |s| > 1 && s[0] == '-' && AllDigits(s[1..], radix) && Value(s[1..], radix) <= -I32Min ==>
              r == Some(-(Value(s[1..], radix) as int))
  {
    if s == [] then None
    else
      var negative := s[0] == '-';
      var digits := if s[0] == '-' || s[0] == '+' then s[1..] else s;
      if digits == [] || !AllDigits(digits, radix) then None
      else
        var v: int := if negative then -(Value(digits, radix) as int) else Value(digits, radix);
        if I32Min <= v <= I32Max then Some(v) else None
  }

  /** Every `i32` that is not negative reads back from its own rendering. */
  lemma FromStrRadixRender(n: nat, radix: nat)
    requires IsRadix(radix) && n <= I32Max
    ensures FromStrRadix(Render(n, radix), radix) == Some(n)
  {
    RenderValue(n, radix);
  }

  /** A digit string whose value exceeds the `i32` range is refused. */
  lemma FromStrRadixOverflow(n: nat, radix: nat)
    requires IsRadix(radix) && n > I32Max
    ensures FromStrRadix(Render(n, radix), radix).None?
  {
    RenderValue(n, radix);
  }

  /** A minus sign negates, down to the least `i32`. */
  lemma FromStrRadixNegative(n: nat, radix: nat)
    requires IsRadix(radix) && n <= -I32Min
    ensures FromStrRadix("-" + Render(n, radix), radix) == Some(-(n as int))
  {
    RenderValue(n, radix);
    assert ("-" + Render(n, radix))[1..] == Render(n, radix);
  }

  // ---------------------------------------------------------- sequences

  /** Regrouping a concatenation, for logs that grow one request at a time. */
  lemma AppendAssociative<T>(a: seq<T>, b: seq<T>, c: seq<T>)
    ensures a + (b + c) == a + b + c
  {
  }

  /** Two single appends are one append of a pair. */
  lemma AppendTwo<T>(s: seq<T>, x: T, y: T)
    ensures s + [x] + [y] == s + [x, y]
  {
  }
}

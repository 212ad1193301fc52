/**
 * What the core uses of the `url` crate: `Url::parse`, `host_str` and `port`.
 * Parsing is foreign code, so every operation that parses takes the parser as
 * a parameter (`Parser`). One property of the real parser matters to the model
 * (`RequiresScheme`): text without blanks or control characters parses only
 * when it is an absolute URL, which begins with a scheme such as `https:`, and
 * the host it reports neither begins with a scheme nor contains such a
 * character.
 */
module Url {
  import opened Results
  import opened Text

  /** The parts of a parsed URL the core reads: `host_str()` and `port()`. */
  datatype Url = Url(host: Option<string>, port: Option<u16>)

  /** `Url::parse`: `None` stands for a parse error. */
  type Parser = string -> Option<Url>

  predicate IsAlpha(c: char) { 'a' <= c <= 'z' || 'A' <= c <= 'Z' }

  predicate IsSchemeChar(c: char)
  {
    IsAlpha(c) || '0' <= c <= '9' || c == '+' || c == '-' || c == '.'
  }

  /** `s` begins with a URL scheme: a letter, scheme characters, then `:`. */
  predicate HasScheme(s: string)
  {
    exists i :: 1 <= i < |s| && s[i] == ':' && IsAlpha(s[0])
                && (forall k :: 1 <= k < i ==> IsSchemeChar(s[k]))
  }

  /**
   * No character of `s` is a space or a C0 control. `Url::parse` strips such
   * characters from both ends and drops tabs and newlines anywhere, so only
   * for text without them does parsing imply a scheme at the very start.
   */
  predicate NoControlOrSpace(s: string)
  {
    forall k :: 0 <= k < |s| ==> s[k] > ' '
  }

  /**
   * The behaviour of `Url::parse` that decides whether a bare host can be
   * re-parsed: text without blanks or control characters parses only when it
   * has a scheme, and no reported host has a scheme (a domain or an IPv4
   * address contains no `:`, an IPv6 host starts with `[`) or such a character.
   */
  ghost predicate RequiresScheme(parse: Parser)
  {
    && (forall s :: parse(s).Some? && NoControlOrSpace(s) ==> HasScheme(s))
    && (forall s :: parse(s).Some? && parse(s).value.host.Some? ==>
          !HasScheme(parse(s).value.host.value) && NoControlOrSpace(parse(s).value.host.value))
  }

  predicate IsHostChar(c: char)
  {
    IsAlpha(c) || '0' <= c <= '9' || c == '.' || c == '-'
  }

  /**
   * A small concrete parser, enough to exhibit concrete inputs: it accepts
   * `https://` followed by a non-empty host made of letters, digits, `.` and
   * `-`, and reports no port.
   */
  function HttpsHostParser(s: string): (r: Option<Url>)
    ensures r.Some? ==> r.value.host.Some? && r.value.port.None?
  {
    if StartsWith(s, "https://") && |s| > 8 && (forall k :: 8 <= k < |s| ==> IsHostChar(s[k]))
    then Some(Url(Some(s[8..]), None))
    else None
  }

  /** The concrete parser has the property the model relies on. */
  lemma HttpsHostParserRequiresScheme()
    ensures RequiresScheme(HttpsHostParser)
  {
    forall s | HttpsHostParser(s).Some?
      ensures HasScheme(s)
    {
      assert s[..8] == "https://";
      assert s[5] == ':' && forall k :: 1 <= k < 5 ==> IsSchemeChar(s[k]);
    }
    forall s | HttpsHostParser(s).Some? && HttpsHostParser(s).value.host.Some?
      ensures !HasScheme(HttpsHostParser(s).value.host.value)
      ensures NoControlOrSpace(HttpsHostParser(s).value.host.value)
    {
      var h := s[8..];
      assert forall k :: 0 <= k < |h| ==> IsHostChar(h[k]);
    }
  }
}

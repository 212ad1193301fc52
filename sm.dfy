/**
 * The subnet-manager client (libonm/src/sm/mod.rs): the partition-key codec,
 * port membership, the error mapping from the transport, `connect`, and the
 * partition and port operations, of which `list_port` merges a partition's
 * configured GUIDs with the live port inventory.
 *
 * Every operation that talks to the subnet manager takes the network `io` and
 * the JSON codecs it needs as parameters (see module Rest).
 */
module Sm {
  import opened Results
  import opened Text
  import Url
  import Rest
  import opened SmTypes

  // ------------------------------------------------------------ errors

  datatype UFMError =
    | Unknown(msg: string)
    | NotFound(msg: string)
    | InvalidPKey(msg: string)
    | InvalidConfig(msg: string)

  /** `From<RestError> for UFMError`: total, and keeps the message where it keeps the kind. */
  function FromRest(e: Rest.RestError): (r: UFMError)
    ensures e.NotFound? ==> r == NotFound(e.msg)
    ensures e.AuthFailure? || e.InvalidConfig? ==> r == InvalidConfig(e.msg)
    ensures e.Internal? || e.Json? || e.Http? ==> r == Unknown("Unknown Rest Error")
    ensures !r.InvalidPKey?
  {
    match e
    case NotFound(m) => NotFound(m)
    case AuthFailure(m) => InvalidConfig(m)
    case InvalidConfig(m) => InvalidConfig(m)
    case _ => Unknown("Unknown Rest Error")
  }

  /** The `?` on a transport result inside an operation of this module. */
  function Lift<T>(r: Result<T, Rest.RestError>): Result<T, UFMError>
  {
    r.MapErr(FromRest)
  }

  /**
   * Because the transport only ever fails with `Http` or `InvalidConfig`
   * (Rest.SendErrorKinds), a failing call here is `Unknown` or
   * `InvalidConfig`: the `NotFound` arm of the mapping is never reached.
   */
  lemma CallErrorsAreUnknownOrInvalidConfig<T>(c: Rest.RestClient, m: Rest.Method, path: string,
                                               data: Option<string>, io: Rest.Io, decode: string -> Option<T>)
    ensures var r := Lift(Rest.Call(c, m, path, data, io, decode));
            r.Err? ==> r.error == Unknown("Unknown Rest Error") || r.error == InvalidConfig("invalid response")
  {
  }

  // ------------------------------------------------------ partition keys

  datatype PartitionKey = PartitionKey(value: i32)

  const HexPrefix: string := "0x"
  const DefaultKey: PartitionKey := PartitionKey(0x7fff)

  /**
   * `is_default`: the reserved partition every port belongs to. Its key is
   * the largest one `TryFrom<i32>` accepts.
   */
  predicate IsDefault(k: PartitionKey)
    ensures IsDefault(k) ==> KeyFromInt(k.value) == Ok(k)
    ensures IsDefault(k) ==> forall v: i32 :: KeyFromInt(v).Ok? ==> v <= k.value
  {
    k.value == 0x7fff
  }

  /**
   * `pkey & 0x7fff` on an `i32`, modelled as the Euclidean remainder modulo
   * 2^15. That this remainder is the low 15 bits of the two's complement, also
   * for negative values, is taken as given and not proved here: the model does
   * no bit-vector arithmetic.
   */
  function Low15Bits(v: i32): (r: int)
    ensures 0 <= r < 0x8000
  {
    v % 0x8000
  }

  /** `TryFrom<i32> for PartitionKey`: accepts exactly the 15-bit values. */
  function KeyFromInt(v: i32): (r: Result<PartitionKey, UFMError>)
    ensures r.Ok? <==> 0 <= v <= 0x7fff
    ensures r.Ok? ==> r.value.value == v
    ensures r.Err? ==> r.error == InvalidPKey(SignedDecimal(v))
  {
    if v != Low15Bits(v) then Err(InvalidPKey(SignedDecimal(v))) else Ok(PartitionKey(v))
  }

  /**
   * `TryFrom<String> for PartitionKey`: lower-case the text; a `0x` prefix
   * selects base 16; strip every leading `0x`; parse as an `i32`. The parsed
   * value is not range-checked.
   */
  function KeyFromString(s: string): (r: Result<PartitionKey, UFMError>)
    ensures r.Err? ==> r.error == InvalidPKey(Lower(s))
    ensures s == [] ==> r.Err?
  {
    var lower := Lower(s);
    var radix := if StartsWith(lower, HexPrefix) then 16 else 10;
    match FromStrRadix(TrimStartMatches(lower, HexPrefix), radix)
    case Some(v) => Ok(PartitionKey(v))
    case None => Err(InvalidPKey(lower))
  }

  /**
   * `to_string`: `0x` and the minimal lower-case hex digits of the `i32`,
   * which for a negative value are those of its 32-bit two's complement.
   */
  function KeyToString(k: PartitionKey): (r: string)
    ensures |r| > |HexPrefix| && r[..|HexPrefix|] == HexPrefix && IsLower(r)
    ensures AllDigits(r[|HexPrefix|..], 16) && Value(r[|HexPrefix|..], 16) == k.value % 0x1_0000_0000
    ensures r[|HexPrefix|] == '0' ==> r == HexPrefix + "0"
  {
    var digits := Hex32(k.value);
    RenderValue(if k.value >= 0 then k.value else k.value + 0x1_0000_0000, 16);
    assert (HexPrefix + digits)[|HexPrefix|..] == digits;
    HexPrefix + digits
  }

  /** Digits after one `0x` are read in base 16. */
  lemma HexTextParses(d: string)
    requires IsLower(d) && !StartsWith(d, HexPrefix)
    ensures KeyFromString(HexPrefix + d) ==
              if FromStrRadix(d, 16).Some? then Ok(PartitionKey(FromStrRadix(d, 16).value))
              else Err(InvalidPKey(HexPrefix + d))
  {
    var s := HexPrefix + d;
    assert IsLower(s);
    assert StartsWith(s, HexPrefix);
    TrimStartMatchesRepeat(d, HexPrefix);
    TrimStartMatchesAbsent(d, HexPrefix);
  }

  /** Text without a `0x` prefix is read in base 10. */
  lemma DecimalTextParses(d: string)
    requires IsLower(d) && !StartsWith(d, HexPrefix)
    ensures KeyFromString(d) ==
              if FromStrRadix(d, 10).Some? then Ok(PartitionKey(FromStrRadix(d, 10).value))
              else Err(InvalidPKey(d))
  {
    TrimStartMatchesAbsent(d, HexPrefix);
  }

  /** A rendering never begins with `0x`: only zero starts with a `0`, and it is the single digit. */
  lemma RenderHasNoPrefix(n: nat, radix: nat)
    requires IsRadix(radix)
    ensures !StartsWith(Render(n, radix), HexPrefix)
  {
  }

  /** Rendered hex digits of a non-negative `i32` parse to that key. */
  lemma HexRenderingParses(n: nat)
    requires n <= I32Max
    ensures KeyFromString(HexPrefix + Render(n, 16)) == Ok(PartitionKey(n))
  {
    RenderHasNoPrefix(n, 16);
    HexTextParses(Render(n, 16));
    FromStrRadixRender(n, 16);
  }

  /** Decimal text of a non-negative `i32` parses to that key. */
  lemma DecimalRenderingParses(n: nat)
    requires n <= I32Max
    ensures KeyFromString(Decimal(n)) == Ok(PartitionKey(n))
  {
    RenderHasNoPrefix(n, 10);
    DecimalTextParses(Render(n, 10));
    FromStrRadixRender(n, 10);
  }

  /** Digits of base 10 or 16 are unsigned and never begin with `0x`: `x` is no such digit. */
  lemma DigitsHaveNoPrefix(d: string, radix: nat)
    requires IsRadix(radix) && d != [] && AllDigits(d, radix)
    ensures !StartsWith(d, HexPrefix) && d[0] != '-' && d[0] != '+'
  {
    assert ToDigit(d[0], radix).Some?;
    if |d| >= 2 {
      assert ToDigit(d[1], radix).Some?;
    }
  }

  /** In-range hex digits after `0x` parse to their value, leading zeros included. */
  lemma HexDigitsParse(d: string)
    requires d != [] && IsLower(d) && AllDigits(d, 16) && Value(d, 16) <= I32Max
    ensures KeyFromString(HexPrefix + d) == Ok(PartitionKey(Value(d, 16)))
  {
    DigitsHaveNoPrefix(d, 16);
    assert FromStrRadix(d, 16) == Some(Value(d, 16));
    HexTextParses(d);
  }

  /** Decimal digits are never upper-case letters. */
  lemma DecimalDigitsAreLower(d: string)
    requires AllDigits(d, 10)
    ensures IsLower(d)
  {
    forall i | 0 <= i < |d|
      ensures !IsUpper(d[i])
    {
      assert ToDigit(d[i], 10).Some?;
    }
  }

  /** In-range decimal digits, with or without a `+`, parse to their value, leading zeros included. */
  lemma DecimalDigitsParse(d: string)
    requires d != [] && AllDigits(d, 10) && Value(d, 10) <= I32Max
    ensures KeyFromString(d) == Ok(PartitionKey(Value(d, 10)))
    ensures KeyFromString("+" + d) == Ok(PartitionKey(Value(d, 10)))
  {
    DecimalDigitsAreLower(d);
    DigitsHaveNoPrefix(d, 10);
    assert FromStrRadix(d, 10) == Some(Value(d, 10));
    DecimalTextParses(d);
    var p := "+" + d;
    SignedText('+', d);
    assert FromStrRadix(p, 10) == Some(Value(d, 10));
    DecimalTextParses(p);
  }

  /** A sign in front of lower-case text keeps it lower-case and unprefixed. */
  lemma SignedText(sign: char, d: string)
    requires (sign == '-' || sign == '+') && IsLower(d)
    ensures IsLower([sign] + d) && !StartsWith([sign] + d, HexPrefix)
    ensures ([sign] + d)[0] == sign && ([sign] + d)[1..] == d
  {
    var p := [sign] + d;
    assert p[1..] == d;
    forall i | 0 <= i < |p|
      ensures !IsUpper(p[i])
    {
      if i > 0 {
        assert p[i] == d[i - 1];
      }
    }
    assert HexPrefix[0] == '0';
    if |p| >= 2 {
      assert p[..2][0] == sign;
    }
  }

  /** Round trip: every key with a non-negative value parses back from its rendering. */
  lemma KeyRoundTrip(k: PartitionKey)
    requires k.value >= 0
    ensures KeyFromString(KeyToString(k)) == Ok(k)
  {
    HexRenderingParses(k.value);
  }

  /** Every 15-bit key, the only kind `TryFrom<i32>` builds, survives the round trip. */
  lemma KeyFromIntRoundTrip(v: i32)
    requires KeyFromInt(v).Ok?
    ensures KeyFromString(KeyToString(KeyFromInt(v).value)) == KeyFromInt(v)
  {
    KeyRoundTrip(KeyFromInt(v).value);
  }

  /**
   * A negative key (which the string parser can build) renders as its 32-bit
   * two's complement, which is too large to parse back as an `i32`.
   */
  lemma NegativeKeyDoesNotRoundTrip(k: PartitionKey)
    requires k.value < 0
    ensures KeyFromString(KeyToString(k)).Err?
  {
    var n: nat := k.value + 0x1_0000_0000;
    assert Hex32(k.value) == Render(n, 16);
    RenderHasNoPrefix(n, 16);
    HexTextParses(Render(n, 16));
    FromStrRadixOverflow(n, 16);
  }

  /** Hex and decimal spellings of one number name the same key. */
  lemma HexAndDecimalAgree(n: nat)
    requires n <= I32Max
    ensures KeyFromString(HexPrefix + Render(n, 16)) == KeyFromString(Decimal(n)) == Ok(PartitionKey(n))
  {
    HexRenderingParses(n);
    DecimalRenderingParses(n);
  }

  /** `"0x10"` and `"16"` are the same key. */
  lemma HexAndDecimalExample()
    ensures KeyFromString("0x10") == KeyFromString("16") == Ok(PartitionKey(16))
  {
    HexExample();
    DecimalExample();
  }

  /** `"0x10"` is key 16. */
  lemma HexExample()
    ensures KeyFromString("0x10") == Ok(PartitionKey(16))
  {
    ExampleDigits();
    HexDigitsParse("10");
    assert HexPrefix + "10" == "0x10";
  }

  /** `"16"` is key 16. */
  lemma DecimalExample()
    ensures KeyFromString("16") == Ok(PartitionKey(16))
  {
    ExampleDigits();
    DecimalDigitsParse("16");
  }

  /** The digit strings of the example and their values. */
  lemma ExampleDigits()
    ensures AllDigits("10", 16) && IsLower("10") && Value("10", 16) == 16
    ensures AllDigits("16", 10) && Value("16", 10) == 16
  {
    var one: string := "1";
    assert one[..0] == [] && Value(one, 16) == 1 && Value(one, 10) == 1;
    assert "10"[..1] == one && "16"[..1] == one;
  }

  /** Parsing ignores letter case: an upper-case `0X` prefix or digit reads the same. */
  lemma KeyFromStringIgnoresCase(s: string)
    ensures KeyFromString(Lower(s)) == KeyFromString(s)
  {
    LowerIdempotent(s);
  }

  /** Any number of repeated `0x` prefixes parse like one. */
  lemma KeyFromStringRepeatedPrefix(t: string)
    requires IsLower(t)
    ensures KeyFromString(HexPrefix + HexPrefix + t).Ok? == KeyFromString(HexPrefix + t).Ok?
    ensures KeyFromString(HexPrefix + t).Ok? ==>
              KeyFromString(HexPrefix + HexPrefix + t).value == KeyFromString(HexPrefix + t).value
  {
    var once := HexPrefix + t;
    var twice := HexPrefix + once;
    assert HexPrefix + HexPrefix + t == twice;
    assert IsLower(once) && IsLower(twice);
    assert StartsWith(once, HexPrefix) && StartsWith(twice, HexPrefix);
    TrimStartMatchesRepeat(once, HexPrefix);
  }

  /**
   * Unlike `TryFrom<i32>`, the string constructor accepts keys outside
   * 0..0x7fff: every hex number up to the `i32` maximum parses, such as
   * `0x8000`, although `TryFrom<i32>` refuses the same value.
   */
  lemma KeyFromStringSkipsRangeCheck(n: nat)
    requires 0x7fff < n <= I32Max
    ensures KeyFromString(HexPrefix + Render(n, 16)) == Ok(PartitionKey(n))
    ensures KeyFromInt(n).Err?
  {
    HexRenderingParses(n);
  }

  /** The string constructor also accepts negative keys, such as `-1`, which `TryFrom<i32>` refuses. */
  lemma KeyFromStringAcceptsNegative(n: nat)
    requires 1 <= n <= -I32Min
    ensures KeyFromString("-" + Decimal(n)) == Ok(PartitionKey(-(n as int)))
    ensures KeyFromInt(-(n as int)).Err?
  {
    var d := Decimal(n);
    assert KeyFromString("-" + d) == Ok(PartitionKey(-(n as int))) by {
      SignedText('-', d);
      FromStrRadixNegative(n, 10);
      DecimalTextParses("-" + d);
    }
  }

  /** The default key is exactly the one rendered `0x7fff`. */
  lemma DefaultKeyRendering(k: PartitionKey)
    ensures IsDefault(k) <==> KeyToString(k) == "0x7fff"
  {
    assert Render(0x7fff, 16) == "7fff";
    if KeyToString(k) == "0x7fff" {
      var n := if k.value >= 0 then k.value else k.value + 0x1_0000_0000;
      assert Hex32(k.value) == KeyToString(k)[2..];
      RenderInjective(n, 0x7fff, 16);
    }
  }

  // --------------------------------------------------------- membership

  datatype PortMembership = Limited | Full

  /** The JSON spelling of a membership (`rename_all = "lowercase"`). */
  function MembershipName(m: PortMembership): string
  {
    match m
    case Full => "full"
    case Limited => "limited"
  }

  /** `TryFrom<String> for PortMembership`: case-insensitive `full` or `limited`. */
  function MembershipFromString(s: string): (r: Result<PortMembership, UFMError>)
    ensures r == Ok(Full) <==> Lower(s) == "full"
    ensures r == Ok(Limited) <==> Lower(s) == "limited"
    ensures r.Err? <==> Lower(s) != "full" && Lower(s) != "limited"
    ensures r.Err? ==> r.error == InvalidConfig("invalid membership")
  {
    var t := Lower(s);
    if t == "full" then Ok(Full)
    else if t == "limited" then Ok(Limited)
    else Err(InvalidConfig("invalid membership"))
  }

  /** Every membership parses back from its own spelling, in any letter case. */
  lemma MembershipRoundTrip(m: PortMembership, s: string)
    requires Lower(s) == MembershipName(m)
    ensures MembershipFromString(s) == Ok(m)
  {
  }

  // ------------------------------------------------------------- connect

  datatype UFMCert = UFMCert(caCrt: string, tlsKey: string, tlsCrt: string)

  datatype UFMConfig = UFMConfig(
    address: string,
    username: Option<string>,
    password: Option<string>,
    token: Option<string>,
    cert: Option<UFMCert>)

  datatype Ufm = Ufm(client: Rest.RestClient)

  /**
   * `connect` as written: after checking the URL, its host and both
   * credentials, it hands only the bare host to `RestClient::new`, which
   * parses it as a URL once more.
   */
  function ConnectAsWritten(conf: UFMConfig, parse: Url.Parser): (r: Result<Ufm, UFMError>)
    ensures r.Err? ==> r.error.InvalidConfig?
    ensures r.Ok? <==> && parse(conf.address).Some? && parse(conf.address).value.host.Some?
                       && conf.password.Some? && conf.username.Some?
                       && parse(parse(conf.address).value.host.value).Some?
                       && parse(parse(conf.address).value.host.value).value.host.Some?
  {
    match parse(conf.address)
    case None => Err(InvalidConfig("invalid UFM url"))
    case Some(url) =>
      match url.host
      case None => Err(InvalidConfig("invalid UFM host"))
      case Some(host) =>
        if conf.password.None? then Err(InvalidConfig("password is empty"))
        else if conf.username.None? then Err(InvalidConfig("username is empty"))
        else
          match Rest.NewClient(Rest.RestConfig(host, conf.username.value, conf.password.value), parse)
          case Err(e) => Err(FromRest(e))
          case Ok(c) => Ok(Ufm(c))
  }

  /**
   * With the real URL parser a bare host never parses again, so `connect`
   * as written can never succeed: it ends in `InvalidConfig` for every
   * configuration.
   */
  lemma ConnectAsWrittenAlwaysFails(conf: UFMConfig, parse: Url.Parser)
    requires Url.RequiresScheme(parse)
    ensures ConnectAsWritten(conf, parse).Err?
    ensures ConnectAsWritten(conf, parse).error.InvalidConfig?
  {
    var u := parse(conf.address);
    if u.Some? && u.value.host.Some? {
      var h := u.value.host.value;
      assert !Url.HasScheme(h) && Url.NoControlOrSpace(h);
      assert parse(h).None?;
    }
  }

  /**
   * `connect` as evidently intended: the same checks, then the configured
   * address itself goes to `RestClient::new`, so the client talks to the
   * configured host, on the configured port or 443.
   */
  function Connect(conf: UFMConfig, parse: Url.Parser): (r: Result<Ufm, UFMError>)
    ensures r.Err? ==> r.error.InvalidConfig?
    ensures r.Ok? <==> && parse(conf.address).Some? && parse(conf.address).value.host.Some?
                       && conf.password.Some? && conf.username.Some?
    ensures r.Ok? ==> && r.value.client.user == conf.username.value
                      && r.value.client.password == conf.password.value
                      && StartsWith(r.value.client.address, parse(conf.address).value.host.value + ":")
    ensures r.Ok? ==> r.value.client == Rest.NewClient(Rest.RestConfig(conf.address, conf.username.value,
                                                                       conf.password.value), parse).value
  {
    match parse(conf.address)
    case None => Err(InvalidConfig("invalid UFM url"))
    case Some(url) =>
      match url.host
      case None => Err(InvalidConfig("invalid UFM host"))
      case Some(host) =>
        if conf.password.None? then Err(InvalidConfig("password is empty"))
        else if conf.username.None? then Err(InvalidConfig("username is empty"))
        else
          var config := Rest.RestConfig(conf.address, conf.username.value, conf.password.value);
          match Rest.NewClient(config, parse)
          case Err(e) => Err(FromRest(e))
          case Ok(c) =>
            Rest.NewClientAddress(config, parse);
            assert c.address[..|host| + 1] == host + ":";
            Ok(Ufm(c))
  }

  /** A concrete configuration on which the two versions of `connect` differ. */
  lemma ConnectExample()
    ensures var conf := UFMConfig("https://ufm", Some("admin"), Some("123456"), None, None);
            && ConnectAsWritten(conf, Url.HttpsHostParser) == Err(InvalidConfig("invalid url"))
            && Connect(conf, Url.HttpsHostParser) == Ok(Ufm(Rest.RestClient("ufm:443", "admin", "123456")))
  {
    var conf := UFMConfig("https://ufm", Some("admin"), Some("123456"), None, None);
    assert StartsWith(conf.address, "https://");
    assert conf.address[8..] == "ufm";
    assert !StartsWith("ufm", "https://");
    assert Url.HttpsHostParser(conf.address) == Some(Url.Url(Some("ufm"), None));
    assert Decimal(443) == "443" by {
      assert Render(4, 10) == "4";
      assert Render(44, 10) == Render(4, 10) + [DigitChar(4)];
      assert Render(443, 10) == Render(44, 10) + [DigitChar(3)];
    }
    var config := Rest.RestConfig(conf.address, "admin", "123456");
    assert Rest.NewClient(config, Url.HttpsHostParser) == Ok(Rest.RestClient("ufm" + ":" + Decimal(443), "admin", "123456"));
    assert "ufm" + ":" + "443" == "ufm:443";
  }

  // ---------------------------------------------------------- partitions

  /** The rate limit is an `f64` passed through untouched. */
  datatype PartitionQoS = PartitionQoS(mtuLimit: u16, serviceLevel: u8, rateLimit: real)

  datatype PKeyQoS = PKeyQoS(pkey: string, mtuLimit: u16, serviceLevel: u8, rateLimit: real)

  datatype Partition = Partition(name: string, pkey: PartitionKey, ipoib: bool, qos: Option<PartitionQoS>)

  datatype PortConfig = PortConfig(guid: string, index0: bool, membership: PortMembership)

  /** The body `bind_ports` posts: one membership and one `index0` for all GUIDs. */
  datatype PkeyBinding = PkeyBinding(pkey: string, ipOverIb: bool, membership: PortMembership,
                                     index0: bool, guids: seq<string>)

  datatype PkeyGuids = PkeyGuids(pkey: string, guids: seq<string>)

  /** A partition as `get_partition` and `list_partition` read it. */
  datatype PkeyRecord = PkeyRecord(partition: string, ipOverIb: bool, qosConf: PartitionQoS)

  /** A partition with its configured ports, as `list_port` reads it. */
  datatype PkeyWithGuids = PkeyWithGuids(partition: string, ipOverIb: bool, guids: seq<PortConfig>)

  const QosPath: string := "/resources/pkeys/qos_conf"
  const PkeysPath: string := "/resources/pkeys"
  const UnbindPath: string := "/actions/remove_guids_from_pkey"
  const ListPartitionsPath: string := "/resources/pkeys?qos_conf=true"
  const PortsPath: string := "/resources/ports?sys_type=Computer"

  function PartitionPath(k: PartitionKey): string
  {
    "/resources/pkeys/" + KeyToString(k) + "?qos_conf=true"
  }

  function GuidsPath(k: PartitionKey): string
  {
    "resources/pkeys/" + KeyToString(k) + "?guids_data=true"
  }

  /** The QoS body of `update_partition_qos`: the partition's QoS under its rendered key. */
  function QosRequest(p: Partition): (r: Result<PKeyQoS, UFMError>)
    ensures r.Err? <==> p.qos.None?
    ensures r.Err? ==> r.error == InvalidConfig("no partition qos")
    ensures r.Ok? ==> && r.value.pkey == KeyToString(p.pkey)
                      && r.value.mtuLimit == p.qos.value.mtuLimit
                      && r.value.serviceLevel == p.qos.value.serviceLevel
                      && r.value.rateLimit == p.qos.value.rateLimit
  {
    match p.qos
    case None => Err(InvalidConfig("no partition qos"))
    case Some(q) => Ok(PKeyQoS(KeyToString(p.pkey), q.mtuLimit, q.serviceLevel, q.rateLimit))
  }

  /** `update_partition_qos`: a partition without QoS fails before any request. */
  function UpdatePartitionQos(u: Ufm, p: Partition, encode: PKeyQoS -> Option<string>, io: Rest.Io,
                              decode: string -> Option<()>): (r: Result<(), UFMError>)
    ensures p.qos.None? ==> r == Err(InvalidConfig("no partition qos"))
    ensures p.qos.Some? ==> r == Lift(Rest.Put(u.client, QosPath, QosRequest(p).value, encode, io, decode))
    ensures r.Err? ==> r.error.Unknown? || r.error.InvalidConfig?
  {
    match QosRequest(p)
    case Err(e) => Err(e)
    case Ok(q) => Lift(Rest.Put(u.client, QosPath, q, encode, io, decode))
  }

  /** Without QoS the network is never consulted: any two networks give the same outcome. */
  lemma UpdatePartitionQosWithoutQosSendsNothing(u: Ufm, p: Partition, encode: PKeyQoS -> Option<string>,
                                                 io1: Rest.Io, io2: Rest.Io, decode: string -> Option<()>)
    requires p.qos.None?
    ensures UpdatePartitionQos(u, p, encode, io1, decode) == UpdatePartitionQos(u, p, encode, io2, decode)
  {
  }

  /** The GUIDs of the bindings, in order. */
  function Guids(ports: seq<PortConfig>): (r: seq<string>)
    ensures |r| == |ports| && forall i :: 0 <= i < |ports| ==> r[i] == ports[i].guid
  {
    seq(|ports|, i requires 0 <= i < |ports| => ports[i].guid)
  }

  /**
   * The request `bind_ports` must post: every GUID in input order, with the
   * membership and `index0` of the LAST binding, or `Full` and `true` when
   * there is none.
   */
  function BindRequest(p: Partition, ports: seq<PortConfig>): (r: PkeyBinding)
    ensures r.pkey == KeyToString(p.pkey) && r.ipOverIb == p.ipoib
    ensures |r.guids| == |ports| && forall i :: 0 <= i < |ports| ==> r.guids[i] == ports[i].guid
    ensures ports == [] ==> r.membership == Full && r.index0
    ensures ports != [] ==> r.membership == ports[|ports| - 1].membership && r.index0 == ports[|ports| - 1].index0
  {
    PkeyBinding(KeyToString(p.pkey), p.ipoib,
                if ports == [] then Full else ports[|ports| - 1].membership,
                if ports == [] then true else ports[|ports| - 1].index0,
                Guids(ports))
  }

  /** `bind_ports`: folds the bindings into one request and posts it. */
  method BindPorts(u: Ufm, p: Partition, ports: seq<PortConfig>, encode: PkeyBinding -> Option<string>,
                   io: Rest.Io, decode: string -> Option<()>) returns (r: Result<(), UFMError>)
    ensures r == Lift(Rest.Post(u.client, PkeysPath, BindRequest(p, ports), encode, io, decode))
    ensures r.Err? ==> r.error.Unknown? || r.error.InvalidConfig?
  {
    var membership := Full;
    var index0 := true;
    var guids := [];
    for i := 0 to |ports|
      invariant guids == Guids(ports[..i])
      invariant membership == if i == 0 then Full else ports[i - 1].membership
      invariant index0 == if i == 0 then true else ports[i - 1].index0
    {
      membership := ports[i].membership;
      index0 := ports[i].index0;
      guids := guids + [ports[i].guid];
    }
    assert ports[..|ports|] == ports;
    var request := PkeyBinding(KeyToString(p.pkey), p.ipoib, membership, index0, guids);
    r := Lift(Rest.Post(u.client, PkeysPath, request, encode, io, decode));
  }

  /**
   * When the bindings disagree, the last one decides membership and `index0`
   * for all of them, and no GUID is lost or reordered.
   */
  lemma BindRequestLastWins(p: Partition, ports: seq<PortConfig>, i: nat)
    requires i < |ports|
    ensures BindRequest(p, ports).membership == ports[|ports| - 1].membership
    ensures BindRequest(p, ports).index0 == ports[|ports| - 1].index0
    ensures |BindRequest(p, ports).guids| == |ports| && BindRequest(p, ports).guids[i] == ports[i].guid
  {
  }

  /** `unbind_ports`: posts the rendered key and the GUIDs to remove. */
  function UnbindPorts(u: Ufm, k: PartitionKey, guids: seq<string>, encode: PkeyGuids -> Option<string>,
                       io: Rest.Io, decode: string -> Option<()>): (r: Result<(), UFMError>)
    ensures r.Err? ==> r.error.Unknown? || r.error.InvalidConfig?
  {
    Lift(Rest.Post(u.client, UnbindPath, PkeyGuids(KeyToString(k), guids), encode, io, decode))
  }

  /**
   * `get_partition`: the key text is parsed first (a bad key fails before any
   * request); the request uses the key's canonical rendering.
   */
  function GetPartition(u: Ufm, pkey: string, io: Rest.Io, decode: string -> Option<PkeyRecord>)
    : (r: Result<Partition, UFMError>)
    ensures KeyFromString(pkey).Err? ==> r == Err(InvalidPKey(Lower(pkey)))
    ensures KeyFromString(pkey).Ok? ==>
              var got := Rest.Get(u.client, PartitionPath(KeyFromString(pkey).value), io, decode);
              && (r.Ok? <==> got.Ok?)
              && (r.Ok? ==> r.value == Partition(got.value.partition, KeyFromString(pkey).value,
                                                 got.value.ipOverIb, Some(got.value.qosConf)))
              && (got.Err? ==> r == Err(FromRest(got.error)))
              && (r.Err? ==> r.error.Unknown? || r.error.InvalidConfig?)
  {
    match KeyFromString(pkey)
    case Err(e) => Err(e)
    case Ok(k) =>
      match Lift(Rest.Get(u.client, PartitionPath(k), io, decode))
      case Err(e) => Err(e)
      case Ok(pk) => Ok(Partition(pk.partition, k, pk.ipOverIb, Some(pk.qosConf)))
  }

  /** Hex and decimal spellings of a key fetch the same partition. */
  lemma GetPartitionSpellings(u: Ufm, n: nat, io: Rest.Io, decode: string -> Option<PkeyRecord>)
    requires n <= I32Max
    ensures GetPartition(u, HexPrefix + Render(n, 16), io, decode) == GetPartition(u, Decimal(n), io, decode)
  {
    HexAndDecimalAgree(n);
  }

  /** The partition `list_partition` builds from one listed entry. */
  function PartitionOf(entry: (string, PkeyRecord), k: PartitionKey): Partition
  {
    Partition(entry.1.partition, k, entry.1.ipOverIb, Some(entry.1.qosConf))
  }

  /** Every listed key parses. */
  predicate AllKeysParse(entries: seq<(string, PkeyRecord)>)
  {
    forall i :: 0 <= i < |entries| ==> KeyFromString(entries[i].0).Ok?
  }

  /** `j` is the position of the first listed key that does not parse. */
  predicate FirstBadKey(entries: seq<(string, PkeyRecord)>, j: int)
  {
    && 0 <= j < |entries| && KeyFromString(entries[j].0).Err?
    && forall i :: 0 <= i < j ==> KeyFromString(entries[i].0).Ok?
  }

  /** The partitions of entries whose keys all parse, in order. */
  predicate PartitionsOf(parts: seq<Partition>, entries: seq<(string, PkeyRecord)>)
    requires AllKeysParse(entries)
  {
    && |parts| == |entries|
    && forall i :: 0 <= i < |entries| ==> parts[i] == PartitionOf(entries[i], KeyFromString(entries[i].0).value)
  }

  /** A key that fails right after a run of good ones is the first bad key, and the only one. */
  lemma FirstBadKeyAt(entries: seq<(string, PkeyRecord)>, n: nat)
    requires n < |entries| && AllKeysParse(entries[..n]) && KeyFromString(entries[n].0).Err?
    ensures forall j :: FirstBadKey(entries, j) <==> j == n
  {
    forall j
      ensures FirstBadKey(entries, j) <==> j == n
    {
      if j == n {
        forall i | 0 <= i < n
          ensures KeyFromString(entries[i].0).Ok?
        {
          assert entries[..n][i] == entries[i];
        }
      } else if 0 <= j < n {
        assert entries[..n][j] == entries[j];
      }
    }
  }

  /** One more good key extends the converted prefix by its partition. */
  lemma PartitionsOfExtend(parts: seq<Partition>, entries: seq<(string, PkeyRecord)>, n: nat, k: PartitionKey)
    requires n < |entries| && AllKeysParse(entries[..n]) && PartitionsOf(parts, entries[..n])
    requires KeyFromString(entries[n].0) == Ok(k)
    ensures AllKeysParse(entries[..n + 1])
    ensures PartitionsOf(parts + [PartitionOf(entries[n], k)], entries[..n + 1])
  {
    var pre := entries[..n + 1];
    assert pre == entries[..n] + [entries[n]];
    forall i | 0 <= i < n + 1
      ensures KeyFromString(pre[i].0).Ok?
    {
      if i < n {
        assert pre[i] == entries[..n][i];
      }
    }
  }

  /**
   * The loop of `list_partition`: converts every listed key through the
   * codec, in order, and fails with the first key that does not parse.
   */
  method PartitionsFrom(entries: seq<(string, PkeyRecord)>) returns (r: Result<seq<Partition>, UFMError>)
    ensures AllKeysParse(entries) ==> r.Ok? && PartitionsOf(r.value, entries)
    ensures forall j :: FirstBadKey(entries, j) ==> r == Err(InvalidPKey(Lower(entries[j].0)))
    ensures r.Ok? ==> AllKeysParse(entries)
  {
    var parts: seq<Partition> := [];
    for n := 0 to |entries|
      invariant |parts| == n
      invariant AllKeysParse(entries[..n])
      invariant PartitionsOf(parts, entries[..n])
    {
      var key := KeyFromString(entries[n].0);
      if key.Err? {
        FirstBadKeyAt(entries, n);
        return Err(key.error);
      }
      PartitionsOfExtend(parts, entries, n, key.value);
      parts := parts + [PartitionOf(entries[n], key.value)];
    }
    assert entries[..|entries|] == entries;
    r := Ok(parts);
  }

  /** `list_partition`: lists the partitions with their QoS, then converts them. */
  method ListPartition(u: Ufm, io: Rest.Io, decode: string -> Option<seq<(string, PkeyRecord)>>)
    returns (r: Result<seq<Partition>, UFMError>)
    ensures var listed := Rest.List(u.client, ListPartitionsPath, io, decode);
            && (listed.Err? ==> r == Err(FromRest(listed.error)))
            && (listed.Ok? && AllKeysParse(listed.value) ==> r.Ok? && PartitionsOf(r.value, listed.value))
            && (listed.Ok? ==> forall j :: FirstBadKey(listed.value, j) ==> r == Err(InvalidPKey(Lower(listed.value[j].0))))
            && (r.Ok? ==> listed.Ok? && AllKeysParse(listed.value))
  {
    var listed := Rest.List(u.client, ListPartitionsPath, io, decode);
    if listed.Err? {
      return Err(FromRest(listed.error));
    }
    r := PartitionsFrom(listed.value);
  }

  /** `delete_partition`: the key text goes into the path as given, unvalidated. */
  function DeletePartition(u: Ufm, pkey: string, io: Rest.Io, decode: string -> Option<()>)
    : (r: Result<(), UFMError>)
    ensures r.Err? ==> r.error.Unknown? || r.error.InvalidConfig?
  {
    Lift(Rest.Delete(u.client, "/resources/pkeys/" + pkey, io, decode))
  }

  // --------------------------------------------------------------- ports

  /**
   * The inventory index `list_port` builds: each physical port converted
   * and inserted under its GUID, a later port replacing an earlier one with
   * the same GUID.
   */
  function PortIndex(pps: seq<PhysicalPort>): (index: map<string, Port>)
    ensures forall g :: g in index ==> index[g].guid == g && index[g].portType == Some(Physical)
    decreases |pps|
  {
    if pps == [] then map[]
    else PortIndex(pps[..|pps| - 1])[pps[|pps| - 1].guid := FromPhysical(pps[|pps| - 1])]
  }

  /** The index holds exactly the inventoried GUIDs. */
  lemma {:induction false} PortIndexKeys(pps: seq<PhysicalPort>, g: string)
    ensures g in PortIndex(pps) <==> exists i :: 0 <= i < |pps| && pps[i].guid == g
    decreases |pps|
  {
    if pps != [] {
      var init := pps[..|pps| - 1];
      PortIndexKeys(init, g);
      if g in PortIndex(init) {
        var i :| 0 <= i < |init| && init[i].guid == g;
        assert pps[i].guid == g;
      }
      if exists i :: 0 <= i < |pps| && pps[i].guid == g {
        var i :| 0 <= i < |pps| && pps[i].guid == g;
        if i < |init| {
          assert init[i].guid == g;
        }
      }
    }
  }

  /** Each indexed port is a physical port filed under its own GUID. */
  lemma {:induction false} PortIndexFiledByGuid(pps: seq<PhysicalPort>, g: string)
    requires g in PortIndex(pps)
    ensures PortIndex(pps)[g].guid == g && PortIndex(pps)[g].portType == Some(Physical)
    decreases |pps|
  {
    if g != pps[|pps| - 1].guid {
      PortIndexFiledByGuid(pps[..|pps| - 1], g);
    }
  }

  /** A later port with the same GUID replaces an earlier one: the last one stays. */
  lemma {:induction false} PortIndexLastWins(pps: seq<PhysicalPort>, j: nat)
    requires j < |pps|
    requires forall k :: j < k < |pps| ==> pps[k].guid != pps[j].guid
    ensures pps[j].guid in PortIndex(pps) && PortIndex(pps)[pps[j].guid] == FromPhysical(pps[j])
    decreases |pps|
  {
    if j < |pps| - 1 {
      var init := pps[..|pps| - 1];
      assert init[j] == pps[j];
      assert forall k :: j < k < |init| ==> init[k] == pps[k];
      PortIndexLastWins(init, j);
    }
  }

  /** The port `list_port` reports for one configured binding. */
  function Reconciled(pc: PortConfig, index: map<string, Port>): (p: Port)
    ensures p in index.Values || p == UnknownPort(pc.guid)
    ensures (forall g :: g in index ==> index[g].guid == g) ==> p.guid == pc.guid
  {
    if pc.guid in index then index[pc.guid] else UnknownPort(pc.guid)
  }

  /**
   * The reconciliation for a non-default key: one port per configured binding,
   * in order, the inventory record where there is one, a placeholder otherwise.
   */
  function Reconcile(configured: seq<PortConfig>, index: map<string, Port>): (r: seq<Port>)
    ensures |r| == |configured|
  {
    seq(|configured|, i requires 0 <= i < |configured| => Reconciled(configured[i], index))
  }

  /**
   * Against an inventory index, reconciliation never drops or reorders a
   * configured GUID, and a port is a placeholder exactly when its GUID is not
   * in the inventory.
   */
  lemma ReconcileAgainstInventory(configured: seq<PortConfig>, pps: seq<PhysicalPort>, i: nat)
    requires i < |configured|
    ensures var p := Reconcile(configured, PortIndex(pps))[i];
            && p.guid == configured[i].guid
            && (p.portType.None? <==> forall k :: 0 <= k < |pps| ==> pps[k].guid != configured[i].guid)
            && (p.portType.None? ==> p == UnknownPort(configured[i].guid))
            && (p.portType.Some? ==> p == PortIndex(pps)[configured[i].guid])
  {
    var g := configured[i].guid;
    PortIndexKeys(pps, g);
    if g in PortIndex(pps) {
      PortIndexFiledByGuid(pps, g);
    }
  }

  /** The example of a partition over {A, B} when only A is inventoried. */
  lemma ReconcileExample(a: PhysicalPort, b: string)
    requires a.guid != b
    ensures Reconcile([PortConfig(a.guid, true, Full), PortConfig(b, true, Full)], PortIndex([a]))
            == [FromPhysical(a), UnknownPort(b)]
  {
    assert [a][..0] == [];
  }

  /** The first loop of `list_port`: the inventory indexed by GUID. */
  method IndexPorts(pps: seq<PhysicalPort>) returns (portMap: map<string, Port>)
    ensures portMap == PortIndex(pps)
  {
    portMap := map[];
    for i := 0 to |pps|
      invariant portMap == PortIndex(pps[..i])
    {
      assert pps[..i + 1][..i] == pps[..i];
      portMap := portMap[pps[i].guid := FromPhysical(pps[i])];
    }
    assert pps[..|pps|] == pps;
  }

  /** The loop for a non-default key: one reported port per configured binding. */
  method ReconcilePorts(configured: seq<PortConfig>, portMap: map<string, Port>) returns (res: seq<Port>)
    ensures res == Reconcile(configured, portMap)
  {
    res := [];
    for i := 0 to |configured|
      invariant |res| == i
      invariant forall j :: 0 <= j < i ==> res[j] == Reconciled(configured[j], portMap)
    {
      var guid := configured[i].guid;
      if guid in portMap {
        res := res + [portMap[guid]];
      } else {
        res := res + [UnknownPort(guid)];
      }
    }
  }

  /**
   * `port_map.values().cloned().collect()` for the default key: every indexed
   * port exactly once, in an order the map does not promise.
   */
  method AllPorts(portMap: map<string, Port>) returns (res: seq<Port>)
    requires forall g :: g in portMap ==> portMap[g].guid == g
    ensures |res| == |portMap|
    ensures forall i :: 0 <= i < |res| ==> res[i] in portMap.Values
    ensures forall g :: g in portMap ==> portMap[g] in res
    ensures forall i, j :: 0 <= i < j < |res| ==> res[i] != res[j]
  {
    res := [];
    var pending := portMap.Keys;
    while pending != {}
      invariant pending <= portMap.Keys
      invariant |res| + |pending| == |portMap|
      invariant forall i :: 0 <= i < |res| ==> res[i] in portMap.Values && res[i].guid !in pending
      invariant forall g :: g in portMap && g !in pending ==> portMap[g] in res
      invariant forall i, j :: 0 <= i < j < |res| ==> res[i].guid != res[j].guid
      decreases |pending|
    {
      var g :| g in pending;
      res := res + [portMap[g]];
      pending := pending - {g};
    }
  }

  /**
   * `list_port`: fetch the partition's bindings, fetch the inventory, index
   * it by GUID, then reconcile; the default key reports the whole inventory
   * (in no particular order, each indexed port once).
   */
  method ListPort(u: Ufm, k: PartitionKey, io: Rest.Io, decodeGuids: string -> Option<PkeyWithGuids>,
                  decodePorts: string -> Option<seq<PhysicalPort>>) returns (r: Result<seq<Port>, UFMError>)
    ensures var cfg := Rest.Get(u.client, GuidsPath(k), io, decodeGuids);
            var inv := Rest.List(u.client, PortsPath, io, decodePorts);
            && (cfg.Err? ==> r == Err(FromRest(cfg.error)))
            && (cfg.Ok? && inv.Err? ==> r == Err(FromRest(inv.error)))
            && (cfg.Ok? && inv.Ok? && !IsDefault(k) ==> r == Ok(Reconcile(cfg.value.guids, PortIndex(inv.value))))
            && (cfg.Ok? && inv.Ok? && IsDefault(k) ==>
                  var index := PortIndex(inv.value);
                  && r.Ok? && |r.value| == |index|
                  && (forall i :: 0 <= i < |r.value| ==> r.value[i] in index.Values)
                  && (forall g :: g in index ==> index[g] in r.value)
                  && (forall i, j :: 0 <= i < j < |r.value| ==> r.value[i] != r.value[j]))
  {
    var cfg := Rest.Get(u.client, GuidsPath(k), io, decodeGuids);
    if cfg.Err? {
      return Err(FromRest(cfg.error));
    }
    var inv := Rest.List(u.client, PortsPath, io, decodePorts);
    if inv.Err? {
      return Err(FromRest(inv.error));
    }
    var portMap := IndexPorts(inv.value);
    var res;
    if !IsDefault(k) {
      res := ReconcilePorts(cfg.value.guids, portMap);
    } else {
      forall g | g in portMap
        ensures portMap[g].guid == g
      {
        PortIndexFiledByGuid(inv.value, g);
      }
      res := AllPorts(portMap);
    }
    r := Ok(res);
  }
}

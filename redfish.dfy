/**
 * The BMC side (libonm/src/xpu/redfish/mod.rs and bluefield.rs, with the
 * `BMC` and `BMCVersion` records of libonm/src/xpu/types.rs): the Redfish
 * error kinds, the only Redfish implementation, Bluefield, its two calls
 * (`bmc_version` and `change_password`) and the credential bootstrap
 * `discover`, which falls back to the vendor's default account to set the
 * caller's password.
 *
 * `discover` is specified by `DiscoverSpec`, which gives the requests it
 * sends and its outcome for a service that answers each request given the
 * ones before it; the `Discover` method performs it against an `Endpoint`.
 */
module Redfish {
  import opened Results
  import opened Text
  import Url
  import opened Rest
  import opened Remote

  // ------------------------------------------------------------- errors

  datatype RedfishError =
    | RestError(msg: string)
    | IOError(msg: string)
    | Json(msg: string)

  /** `From<RestError> for RedfishError`: the transport error survives only as its display text. */
  function FromRest(e: Rest.RestError): (r: RedfishError)
    ensures r.RestError? && r.msg == e.Message()
  {
    RedfishError.RestError(e.Message())
  }

  /** `From<std::io::Error> for RedfishError`, from the error's display text. */
  function FromIo(text: string): (r: RedfishError)
    ensures r.IOError? && r.msg == text
  {
    IOError(text)
  }

  /** The conversion forgets the transport error's kind: an HTTP and an internal error with one text meet. */
  lemma FromRestForgetsKind(m: string)
    ensures FromRest(Http(m)) == FromRest(Internal(m))
    ensures Http(m) != Internal(m)
  {
  }

  /** The `?` on a transport result inside a Bluefield call. */
  function Lift<T>(r: Result<T, Rest.RestError>): Result<T, RedfishError>
  {
    r.MapErr(FromRest)
  }

  // ------------------------------------------------------------ records

  /** Where a BMC is and how to log in to it. */
  datatype BMC = BMC(address: string, username: string, password: string)

  /** The firmware record `bmc_version` reads. */
  datatype BMCVersion = BMCVersion(description: string, id: string, version: string)

  /**
   * The `Redfish` capability (`discover`, `change_password`, `bmc_version`)
   * has one implementation; a value of it is a transport client and the BMC
   * it was built from.
   */
  datatype Bluefield = Bluefield(rest: RestClient, bmc: BMC)

  const DefaultPassword: string := "0penBmc"
  const DefaultUser: string := "root"
  const Vendor: string := "bluefield"

  const VersionPath: string := "redfish/v1/UpdateService/FirmwareInventory/BMC_Firmware"
  const AccountPath: string := "/redfish/v1/AccountService/Accounts/root"

  // ------------------------------------------------------- construction

  /** `Bluefield::new`: a client for the BMC's address and credentials, and a copy of the BMC. */
  function NewBluefield(bmc: BMC, parse: Url.Parser): (r: Result<Bluefield, RedfishError>)
    ensures var client := NewClient(RestConfig(bmc.address, bmc.username, bmc.password), parse);
            && (r.Ok? <==> client.Ok?)
            && (r.Ok? ==> r.value == Bluefield(client.value, bmc))
            && (r.Err? ==> r.error == FromRest(client.error))
  {
    match NewClient(RestConfig(bmc.address, bmc.username, bmc.password), parse)
    case Err(e) => Err(FromRest(e))
    case Ok(c) => Ok(Bluefield(c, bmc))
  }

  /** `build`: always a Bluefield, failing exactly when `Bluefield::new` does. */
  function Build(bmc: BMC, parse: Url.Parser): (r: Result<Bluefield, RedfishError>)
    ensures r.Ok? <==> NewClient(RestConfig(bmc.address, bmc.username, bmc.password), parse).Ok?
    ensures r.Ok? ==> r.value.bmc == bmc && r.value.rest.user == bmc.username && r.value.rest.password == bmc.password
    ensures r.Err? ==> r.error.RestError?
    ensures r.Err? ==> r.error == FromRest(NewClient(RestConfig(bmc.address, bmc.username, bmc.password), parse).error)
  {
    match NewBluefield(bmc, parse)
    case Err(e) => Err(e)
    case Ok(b) => Ok(b)
  }

  /** `default_bmc`: the vendor's factory account at the given address. */
  function DefaultBmc(name: string, addr: string): (b: BMC)
    ensures b.address == addr && b.username == DefaultUser && b.password == DefaultPassword
  {
    BMC(addr, DefaultUser, DefaultPassword)
  }

  /** The name handed to `default_bmc` plays no part. */
  lemma DefaultBmcIgnoresName(n1: string, n2: string, addr: string)
    ensures DefaultBmc(n1, addr) == DefaultBmc(n2, addr)
  {
  }

  /**
   * The fallback client of a Bluefield that was itself constructed can always
   * be constructed: it parses the same address, so it talks to the same
   * `host:port`, but with the factory account.
   */
  lemma FallbackReachesSameBmc(bmc: BMC, name: string, parse: Url.Parser)
    requires NewBluefield(bmc, parse).Ok?
    ensures var fb := NewBluefield(DefaultBmc(name, bmc.address), parse);
            && fb.Ok?
            && fb.value.rest.address == NewBluefield(bmc, parse).value.rest.address
            && fb.value.rest.user == DefaultUser && fb.value.rest.password == DefaultPassword
  {
  }

  // -------------------------------------------------------------- calls

  /** The request `bmc_version` sends. */
  function ProbeRequest(b: Bluefield): Request
  {
    BuildRequest(b.rest, GET, VersionPath, None)
  }

  /** The probe is a body-less GET, logged in with the account of the BMC the Bluefield was built for. */
  lemma ProbeUsesOwnAccount(bmc: BMC, parse: Url.Parser)
    requires NewBluefield(bmc, parse).Ok?
    ensures var req := ProbeRequest(NewBluefield(bmc, parse).value);
            && req.verb == GET && req.body == ""
            && req.user == bmc.username && req.password == bmc.password
  {
  }

  /** `bmc_version`: reads the firmware record; every failure is a `RestError`. */
  function BmcVersion(b: Bluefield, io: Io, decode: string -> Option<BMCVersion>): (r: Result<BMCVersion, RedfishError>)
    ensures r.Ok? <==> io(ProbeRequest(b)).Ok? && decode(io(ProbeRequest(b)).value).Some?
    ensures r.Ok? ==> decode(io(ProbeRequest(b)).value) == Some(r.value)
    ensures r.Err? ==> r.error.RestError?
  {
    Lift(Get(b.rest, VersionPath, io, decode))
  }

  /** The body of `change_password`: a map with the single key `Password`. */
  function PasswordBody(passwd: string): (m: map<string, string>)
    ensures m.Keys == {"Password"} && m["Password"] == passwd
  {
    map["Password" := passwd]
  }

  /** The request `change_password` sends once its body is encoded. */
  function ChangeRequest(b: Bluefield, body: string): Request
  {
    BuildRequest(b.rest, PATCH, AccountPath, Some(body))
  }

  /** `change_password`: PATCHes the root account with the new password. */
  function ChangePassword(b: Bluefield, passwd: string, encode: map<string, string> -> Option<string>,
                          io: Io, decode: string -> Option<()>): (r: Result<(), RedfishError>)
    ensures encode(PasswordBody(passwd)).None? ==> r == Err(FromRest(InvalidConfig("invalid input")))
    ensures encode(PasswordBody(passwd)).Some? ==>
              var resp := io(ChangeRequest(b, encode(PasswordBody(passwd)).value));
              && (r.Ok? <==> resp.Ok? && decode(resp.value).Some?)
              && (resp.Err? ==> r == Err(FromRest(Http(resp.error))))
              && (resp.Ok? && decode(resp.value).None? ==> r == Err(FromRest(InvalidConfig("invalid response"))))
    ensures r.Err? ==> r.error.RestError?
  {
    Lift(Patch(b.rest, AccountPath, PasswordBody(passwd), encode, io, decode))
  }

  // ----------------------------------------------------------- discover

  /** What `discover` does: the requests it sends, in order, and its outcome. */
  datatype Discovery = Discovery(sent: seq<Request>, result: Result<(), RedfishError>)

  /**
   * The second half of `discover`, once the probe has failed and the fallback
   * client for the factory account exists: set the caller's password through
   * it, then probe once more with the caller's account. `history` is what the
   * service received before the password change.
   */
  function RecoverSpec(b: Bluefield, fallback: Bluefield, encode: map<string, string> -> Option<string>,
                       decodeVersion: string -> Option<BMCVersion>, decodeUnit: string -> Option<()>,
                       respond: Service, history: seq<Request>): (d: Discovery)
    ensures |d.sent| <= 2
    ensures d.sent != [] ==> encode(PasswordBody(b.bmc.password)).Some?
                             && d.sent[0] == ChangeRequest(fallback, encode(PasswordBody(b.bmc.password)).value)
    ensures |d.sent| == 2 ==> d.sent[1] == ProbeRequest(b)
  {
    match encode(PasswordBody(b.bmc.password))
    case None => Discovery([], Err(FromRest(InvalidConfig("invalid input"))))
    case Some(body) =>
      var change := ChangeRequest(fallback, body);
      var changed := ChangePassword(fallback, b.bmc.password, encode, Answer(respond, history), decodeUnit);
      if changed.Err? then Discovery([change], Err(changed.error))
      else
        var retry := BmcVersion(b, Answer(respond, history + [change]), decodeVersion);
        Discovery([change, ProbeRequest(b)], if retry.Ok? then Ok(()) else Err(retry.error))
  }

  /**
   * `discover`: probe; if that fails, build a client for the factory account
   * at the same address and go on as `RecoverSpec` says. Each step's failure
   * ends it.
   */
  function DiscoverSpec(b: Bluefield, parse: Url.Parser, encode: map<string, string> -> Option<string>,
                        decodeVersion: string -> Option<BMCVersion>, decodeUnit: string -> Option<()>,
                        respond: Service, history: seq<Request>): (d: Discovery)
    ensures 1 <= |d.sent| <= 3 && d.sent[0] == ProbeRequest(b)
  {
    var probe := ProbeRequest(b);
    if BmcVersion(b, Answer(respond, history), decodeVersion).Ok? then Discovery([probe], Ok(()))
    else
      match NewBluefield(DefaultBmc(b.bmc.username, b.bmc.address), parse)
      case Err(e) => Discovery([probe], Err(e))
      case Ok(fallback) =>
        var rest := RecoverSpec(b, fallback, encode, decodeVersion, decodeUnit, respond, history + [probe]);
        Discovery([probe] + rest.sent, rest.result)
  }

  /** A first probe that succeeds ends `discover` at once: no password change, no second probe. */
  lemma DiscoverFirstProbeSucceeds(b: Bluefield, parse: Url.Parser, encode: map<string, string> -> Option<string>,
                                   decodeVersion: string -> Option<BMCVersion>, decodeUnit: string -> Option<()>,
                                   respond: Service, history: seq<Request>)
    requires BmcVersion(b, Answer(respond, history), decodeVersion).Ok?
    ensures DiscoverSpec(b, parse, encode, decodeVersion, decodeUnit, respond, history)
            == Discovery([ProbeRequest(b)], Ok(()))
  {
  }

  /**
   * At most two probes and one password change: the requests are the probe,
   * then possibly a PATCH of the root account, then possibly the same probe
   * again; nothing else is ever sent.
   */
  lemma DiscoverSendsAtMostTwoProbesAndOneChange(
      b: Bluefield, parse: Url.Parser, encode: map<string, string> -> Option<string>,
      decodeVersion: string -> Option<BMCVersion>, decodeUnit: string -> Option<()>,
      respond: Service, history: seq<Request>)
    ensures var d := DiscoverSpec(b, parse, encode, decodeVersion, decodeUnit, respond, history);
            && d.sent[0] == ProbeRequest(b)
            && (|d.sent| >= 2 ==> d.sent[1].verb == PATCH)
            && (|d.sent| == 3 ==> d.sent[2] == ProbeRequest(b))
            && |d.sent| <= 3
  {
    DiscoverOutcome(b, parse, encode, decodeVersion, decodeUnit, respond, history);
  }

  /**
   * The change goes through the fallback client: to the same BMC address,
   * logged in as `root` with the factory password, carrying the caller's
   * password as its only field.
   */
  lemma DiscoverChangeUsesFactoryAccount(
      b: Bluefield, parse: Url.Parser, encode: map<string, string> -> Option<string>,
      decodeVersion: string -> Option<BMCVersion>, decodeUnit: string -> Option<()>,
      respond: Service, history: seq<Request>)
    requires |DiscoverSpec(b, parse, encode, decodeVersion, decodeUnit, respond, history).sent| >= 2
    ensures var change := DiscoverSpec(b, parse, encode, decodeVersion, decodeUnit, respond, history).sent[1];
            var fallback := NewBluefield(DefaultBmc(b.bmc.username, b.bmc.address), parse);
            && fallback.Ok?
            && change == ChangeRequest(fallback.value, encode(PasswordBody(b.bmc.password)).value)
            && change.user == DefaultUser && change.password == DefaultPassword
  {
    DiscoverOutcome(b, parse, encode, decodeVersion, decodeUnit, respond, history);
  }

  /**
   * Once the fallback exists: a body that does not encode ends in
   * `InvalidConfig` with nothing sent; a failed change is the outcome and no
   * retry follows; after a change, the retry probe decides the outcome.
   */
  lemma RecoverOutcome(b: Bluefield, fallback: Bluefield, encode: map<string, string> -> Option<string>,
                       decodeVersion: string -> Option<BMCVersion>, decodeUnit: string -> Option<()>,
                       respond: Service, history: seq<Request>)
    ensures var d := RecoverSpec(b, fallback, encode, decodeVersion, decodeUnit, respond, history);
            var changed := ChangePassword(fallback, b.bmc.password, encode, Answer(respond, history), decodeUnit);
            && (d.sent == [] <==> encode(PasswordBody(b.bmc.password)).None?)
            && (d.sent == [] ==> d.result == Err(FromRest(InvalidConfig("invalid input"))))
            && (|d.sent| == 1 <==> encode(PasswordBody(b.bmc.password)).Some? && changed.Err?)
            && (|d.sent| == 1 ==> d.result == changed)
            && (|d.sent| == 2 ==>
                  var retry := BmcVersion(b, Answer(respond, history + d.sent[..1]), decodeVersion);
                  d.result == if retry.Ok? then Ok(()) else Err(retry.error))
  {
    var d := RecoverSpec(b, fallback, encode, decodeVersion, decodeUnit, respond, history);
    if |d.sent| == 2 {
      assert d.sent[..1] == [d.sent[0]];
    }
  }

  /**
   * `discover` as a whole: a probe that succeeds is the outcome; otherwise a
   * fallback client that cannot be built is; otherwise the probe is followed
   * by what `RecoverSpec` sends, and its outcome is `discover`'s. So
   * `discover` succeeds only through a successful probe.
   */
  lemma DiscoverOutcome(
      b: Bluefield, parse: Url.Parser, encode: map<string, string> -> Option<string>,
      decodeVersion: string -> Option<BMCVersion>, decodeUnit: string -> Option<()>,
      respond: Service, history: seq<Request>)
    ensures var d := DiscoverSpec(b, parse, encode, decodeVersion, decodeUnit, respond, history);
            var first := BmcVersion(b, Answer(respond, history), decodeVersion);
            var fallback := NewBluefield(DefaultBmc(b.bmc.username, b.bmc.address), parse);
            && (first.Ok? ==> d == Discovery([ProbeRequest(b)], Ok(())))
            && (first.Err? && fallback.Err? ==> d == Discovery([ProbeRequest(b)], Err(fallback.error)))
            && (first.Err? && fallback.Ok? ==>
                  var rest := RecoverSpec(b, fallback.value, encode, decodeVersion, decodeUnit, respond,
                                          history + [ProbeRequest(b)]);
                  d == Discovery([ProbeRequest(b)] + rest.sent, rest.result))
            && (d.result.Ok? ==> first.Ok? || |d.sent| == 3)
  {
    var d := DiscoverSpec(b, parse, encode, decodeVersion, decodeUnit, respond, history);
    var fallback := NewBluefield(DefaultBmc(b.bmc.username, b.bmc.address), parse);
    if BmcVersion(b, Answer(respond, history), decodeVersion).Err? && fallback.Ok? {
      var rest := RecoverSpec(b, fallback.value, encode, decodeVersion, decodeUnit, respond,
                              history + [ProbeRequest(b)]);
      RecoverOutcome(b, fallback.value, encode, decodeVersion, decodeUnit, respond, history + [ProbeRequest(b)]);
      assert |d.sent| == 1 + |rest.sent|;
    }
  }

  /** `bmc_version` against an endpoint: one GET. */
  method Probe(ep: Endpoint, b: Bluefield, decode: string -> Option<BMCVersion>) returns (r: Result<BMCVersion, RedfishError>)
    modifies ep
    ensures ep.log == old(ep.log) + [ProbeRequest(b)]
    ensures r == BmcVersion(b, Answer(ep.respond, old(ep.log)), decode)
  {
    var resp := ep.Call(b.rest, GET, VersionPath, None, decode);
    r := Lift(resp);
  }

  /** `change_password` against an endpoint: one PATCH, or nothing when the body does not encode. */
  method ChangePasswordOn(ep: Endpoint, b: Bluefield, passwd: string, encode: map<string, string> -> Option<string>,
                          decode: string -> Option<()>) returns (r: Result<(), RedfishError>)
    modifies ep
    ensures encode(PasswordBody(passwd)).None? ==> ep.log == old(ep.log)
    ensures encode(PasswordBody(passwd)).Some? ==>
              ep.log == old(ep.log) + [ChangeRequest(b, encode(PasswordBody(passwd)).value)]
    ensures r == ChangePassword(b, passwd, encode, Answer(ep.respond, old(ep.log)), decode)
  {
    var resp := ep.Send(b.rest, PATCH, AccountPath, PasswordBody(passwd), encode, decode);
    r := Lift(resp);
  }

  /** The second half of `discover` against an endpoint, as `RecoverSpec` says. */
  method RecoverOn(ep: Endpoint, b: Bluefield, fallback: Bluefield, encode: map<string, string> -> Option<string>,
                   decodeVersion: string -> Option<BMCVersion>, decodeUnit: string -> Option<()>)
    returns (r: Result<(), RedfishError>)
    modifies ep
    ensures var d := RecoverSpec(b, fallback, encode, decodeVersion, decodeUnit, ep.respond, old(ep.log));
            ep.log == old(ep.log) + d.sent && r == d.result
  {
    ghost var h := ep.log;
    ghost var d := RecoverSpec(b, fallback, encode, decodeVersion, decodeUnit, ep.respond, h);
    var changed := ChangePasswordOn(ep, fallback, b.bmc.password, encode, decodeUnit);
    if encode(PasswordBody(b.bmc.password)).None? {
      assert d == Discovery([], Err(FromRest(InvalidConfig("invalid input"))));
      assert ep.log == h + [];
      return Err(changed.error);
    }
    ghost var change := ChangeRequest(fallback, encode(PasswordBody(b.bmc.password)).value);
    if changed.Err? {
      assert d == Discovery([change], Err(changed.error));
      assert ep.log == h + [change];
      return Err(changed.error);
    }
    var retry := Probe(ep, b, decodeVersion);
    r := if retry.Ok? then Ok(()) else Err(retry.error);
    assert d == Discovery([change, ProbeRequest(b)], r);
    assert ep.log == h + [change] + [ProbeRequest(b)];
    AppendTwo(h, change, ProbeRequest(b));
  }

  /** `discover` against an endpoint: sends exactly what `DiscoverSpec` says, with its outcome. */
  method Discover(ep: Endpoint, b: Bluefield, parse: Url.Parser, encode: map<string, string> -> Option<string>,
                  decodeVersion: string -> Option<BMCVersion>, decodeUnit: string -> Option<()>)
    returns (r: Result<(), RedfishError>)
    modifies ep
    ensures var d := DiscoverSpec(b, parse, encode, decodeVersion, decodeUnit, ep.respond, old(ep.log));
            ep.log == old(ep.log) + d.sent && r == d.result
  {
    ghost var d := DiscoverSpec(b, parse, encode, decodeVersion, decodeUnit, ep.respond, ep.log);
    var first := Probe(ep, b, decodeVersion);
    if first.Ok? {
      assert d == Discovery([ProbeRequest(b)], Ok(()));
      return Ok(());
    }
    var fallback := NewBluefield(DefaultBmc(b.bmc.username, b.bmc.address), parse);
    if fallback.Err? {
      assert d == Discovery([ProbeRequest(b)], Err(fallback.error));
      return Err(fallback.error);
    }
    ghost var h := ep.log;
    ghost var rest := RecoverSpec(b, fallback.value, encode, decodeVersion, decodeUnit, ep.respond, h);
    assert d == Discovery([ProbeRequest(b)] + rest.sent, rest.result);
    r := RecoverOn(ep, b, fallback.value, encode, decodeVersion, decodeUnit);
    assert ep.log == h + rest.sent;
    assert h == old(ep.log) + [ProbeRequest(b)];
    AppendAssociative(old(ep.log), [ProbeRequest(b)], rest.sent);
  }
}

/**
 * The XPU record (libonm/src/xpu/types.rs): its status and error kinds, the
 * conversion from Redfish errors, and `XPU::new`, which builds the Redfish
 * client for a BMC and reads the BMC firmware version once.
 */
module Xpu {
  import opened Results
  import Url
  import Rest
  import Redfish

  datatype XPUStatus = Ready | Error | Unknown

  /** `XPUStatus::to_string`. */
  function StatusName(s: XPUStatus): (t: string)
    ensures s.Ready? ==> t == "Ready"
    ensures s.Error? ==> t == "Error"
    ensures s.Unknown? ==> t == "Unknown"
  {
    match s
    case Ready => "Ready"
    case Error => "Error"
    case Unknown => "Unknown"
  }

  /** Different statuses never print alike: the name identifies the status. */
  lemma StatusNameInjective(a: XPUStatus, b: XPUStatus)
    requires StatusName(a) == StatusName(b)
    ensures a == b
  {
    assert StatusName(a)[0] == StatusName(b)[0];
  }

  datatype XPUError =
    | Internal(msg: string)
    | NotFound(msg: string)
    | InvalidConfig(msg: string)

  /**
   * `From<RedfishError> for XPUError`: every Redfish error becomes `Internal`
   * with its display text (which, for every Redfish kind, is its message).
   */
  function FromRedfish(e: Redfish.RedfishError): (r: XPUError)
    ensures r.Internal? && r.msg == e.msg
    ensures !r.NotFound? && !r.InvalidConfig?
  {
    Internal(e.msg)
  }

  /** The XPU record; `redfish` is the client it was built with. */
  datatype Xpu = Xpu(
    redfish: Redfish.Bluefield,
    vendor: string,
    serialNumber: string,
    firmwareVersion: string,
    bmc: Redfish.BMC,
    bmcVersion: string,
    status: XPUStatus)

  /** The placeholder `XPU::new` puts in the fields it does not read. */
  const Unread: string := "-"

  /**
   * `XPU::new`: build the client, probe the BMC version once and fill the
   * record; a failure of either step is the result, as `Internal`.
   */
  function NewXpu(bmc: Redfish.BMC, parse: Url.Parser, io: Rest.Io,
                  decode: string -> Option<Redfish.BMCVersion>): (r: Result<Xpu, XPUError>)
    ensures var built := Redfish.Build(bmc, parse);
            && (r.Ok? <==> built.Ok? && Redfish.BmcVersion(built.value, io, decode).Ok?)
            && (built.Err? ==> r == Err(FromRedfish(built.error)))
            && (built.Ok? && Redfish.BmcVersion(built.value, io, decode).Err? ==>
                  r == Err(FromRedfish(Redfish.BmcVersion(built.value, io, decode).error)))
    ensures r.Ok? ==> && r.value.status == Ready
                      && r.value.vendor == Unread && r.value.serialNumber == Unread
                      && r.value.firmwareVersion == Unread
                      && r.value.bmc == bmc && r.value.redfish == Redfish.Build(bmc, parse).value
                      && r.value.bmcVersion == Redfish.BmcVersion(r.value.redfish, io, decode).value.version
    ensures r.Err? ==> r.error.Internal?
  {
    match Redfish.Build(bmc, parse)
    case Err(e) => Err(FromRedfish(e))
    case Ok(redfish) =>
      match Redfish.BmcVersion(redfish, io, decode)
      case Err(e) => Err(FromRedfish(e))
      case Ok(version) => Ok(Xpu(redfish, Unread, Unread, Unread, bmc, version.version, Ready))
  }

  /**
   * `XPU::new` exchanges one request with the BMC, the version probe: two
   * networks that answer it alike give the same outcome, whatever they would
   * answer to a password change or anything else `discover` might send.
   */
  lemma NewXpuSendsOnlyTheProbe(bmc: Redfish.BMC, parse: Url.Parser, io1: Rest.Io, io2: Rest.Io,
                                decode: string -> Option<Redfish.BMCVersion>)
    requires Redfish.Build(bmc, parse).Ok?
    requires io1(Redfish.ProbeRequest(Redfish.Build(bmc, parse).value))
             == io2(Redfish.ProbeRequest(Redfish.Build(bmc, parse).value))
    ensures NewXpu(bmc, parse, io1, decode) == NewXpu(bmc, parse, io2, decode)
  {
    var b := Redfish.Build(bmc, parse).value;
    assert Redfish.BmcVersion(b, io1, decode) == Redfish.BmcVersion(b, io2, decode);
  }

  /** A client that cannot be built fails `XPU::new` before anything is sent. */
  lemma NewXpuBuildFailureSendsNothing(bmc: Redfish.BMC, parse: Url.Parser, io1: Rest.Io, io2: Rest.Io,
                                       decode: string -> Option<Redfish.BMCVersion>)
    requires Redfish.Build(bmc, parse).Err?
    ensures NewXpu(bmc, parse, io1, decode) == NewXpu(bmc, parse, io2, decode)
    ensures NewXpu(bmc, parse, io1, decode).error.msg == Redfish.Build(bmc, parse).error.msg
  {
  }
}

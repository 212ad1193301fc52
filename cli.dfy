/**
 * The two command-line conversions that feed the library: the xpuctl BMC
 * entry turned into a library BMC (xpuctl/src/types.rs), and `smctl bind`
 * (smctl/src/bind.rs), which connects, makes one full binding per GUID and
 * binds them to the parsed partition key.
 */
module Cli {
  import opened Results
  import Url
  import Rest
  import Redfish
  import Sm

  // ------------------------------------------------------------- xpuctl

  /** A BMC entry of the xpuctl configuration; the credentials may be absent. */
  datatype CliBmc = CliBmc(
    name: string,
    vendor: string,
    address: string,
    username: Option<string>,
    password: Option<string>)

  /** The conversion unwraps both credentials, so an entry without them is not convertible. */
  predicate HasCredentials(b: CliBmc)
  {
    b.username.Some? && b.password.Some?
  }

  /** `From<&BMC> for libonm::xpu::BMC`: address and credentials copied unchanged. */
  function ToLibBmc(b: CliBmc): (r: Redfish.BMC)
    requires HasCredentials(b)
    ensures r.address == b.address
    ensures Some(r.username) == b.username && Some(r.password) == b.password
  {
    Redfish.BMC(b.address, b.username.value, b.password.value)
  }

  /**
   * The name and the vendor are dropped: entries that differ only there
   * convert alike, and so build the same client, whatever vendor is named.
   */
  lemma ToLibBmcDropsNameAndVendor(b: CliBmc, name: string, vendor: string, parse: Url.Parser)
    requires HasCredentials(b)
    ensures ToLibBmc(b.(name := name, vendor := vendor)) == ToLibBmc(b)
    ensures Redfish.Build(ToLibBmc(b.(name := name, vendor := vendor)), parse) == Redfish.Build(ToLibBmc(b), parse)
  {
  }

  /** The conversion loses nothing else: entries that convert alike agree on address and credentials. */
  lemma ToLibBmcKeepsCredentials(a: CliBmc, b: CliBmc)
    requires HasCredentials(a) && HasCredentials(b)
    requires ToLibBmc(a) == ToLibBmc(b)
    ensures a.address == b.address && a.username == b.username && a.password == b.password
  {
  }

  // -------------------------------------------------------------- smctl

  /** The binding `smctl bind` makes for a GUID: full membership, `index0` set. */
  function FullBinding(g: string): (pc: Sm.PortConfig)
    ensures pc.guid == g && pc.index0 && pc.membership == Sm.Full
  {
    Sm.PortConfig(g, true, Sm.Full)
  }

  /** The bindings for `guids`: one per GUID, in order. */
  function FullBindings(guids: seq<string>): (r: seq<Sm.PortConfig>)
    ensures |r| == |guids| && forall i :: 0 <= i < |guids| ==> r[i] == FullBinding(guids[i])
  {
    seq(|guids|, i requires 0 <= i < |guids| => FullBinding(guids[i]))
  }

  /** The loop of `run` that collects the bindings. */
  method PortConfigs(guids: seq<string>) returns (pbs: seq<Sm.PortConfig>)
    ensures pbs == FullBindings(guids)
  {
    pbs := [];
    for i := 0 to |guids|
      invariant pbs == FullBindings(guids[..i])
    {
      pbs := pbs + [FullBinding(guids[i])];
    }
    assert guids[..|guids|] == guids;
  }

  /** The partition `run` binds to: no name, no IPoIB, no QoS. */
  function BindPartition(k: Sm.PartitionKey): (p: Sm.Partition)
    ensures p.name == "" && !p.ipoib && p.qos.None? && p.pkey == k
  {
    Sm.Partition("", k, false, None)
  }

  /**
   * Whatever the GUIDs, the request `bind_ports` posts for them carries
   * `Full` and `index0`, every GUID in order, and the rendered key.
   */
  lemma BindRunRequest(k: Sm.PartitionKey, guids: seq<string>)
    ensures var req := Sm.BindRequest(BindPartition(k), FullBindings(guids));
            && req.membership == Sm.Full && req.index0 && !req.ipOverIb
            && req.guids == guids && req.pkey == Sm.KeyToString(k)
  {
    var req := Sm.BindRequest(BindPartition(k), FullBindings(guids));
    assert |req.guids| == |guids|;
    forall i | 0 <= i < |guids|
      ensures req.guids[i] == guids[i]
    {
      assert FullBindings(guids)[i].guid == guids[i];
    }
  }

  /**
   * `smctl bind`: connect, collect the bindings, parse the key, bind. A
   * failure to connect or a key that does not parse ends it before anything
   * is posted; otherwise the outcome is `bind_ports`'.
   */
  method BindRun(conf: Sm.UFMConfig, pkey: string, guids: seq<string>, parse: Url.Parser,
                 encode: Sm.PkeyBinding -> Option<string>, io: Rest.Io, decode: string -> Option<()>)
    returns (r: Result<(), Sm.UFMError>)
    ensures Sm.Connect(conf, parse).Err? ==> r == Err(Sm.Connect(conf, parse).error)
    ensures Sm.Connect(conf, parse).Ok? && Sm.KeyFromString(pkey).Err? ==>
              r == Err(Sm.KeyFromString(pkey).error) && r.error.InvalidPKey?
    ensures Sm.Connect(conf, parse).Ok? && Sm.KeyFromString(pkey).Ok? ==>
              r == Sm.Lift(Rest.Post(Sm.Connect(conf, parse).value.client, Sm.PkeysPath,
                                     Sm.BindRequest(BindPartition(Sm.KeyFromString(pkey).value), FullBindings(guids)),
                                     encode, io, decode))
  {
    var ufm := Sm.Connect(conf, parse);
    if ufm.Err? {
      return Err(ufm.error);
    }
    var pbs := PortConfigs(guids);
    var key := Sm.KeyFromString(pkey);
    if key.Err? {
      return Err(key.error);
    }
    r := Sm.BindPorts(ufm.value, BindPartition(key.value), pbs, encode, io, decode);
  }
}

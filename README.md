# A Dafny model of the nim fabric-management library

The model covers the `libonm` library and two of its command-line front ends.
`libonm` drives two kinds of infrastructure over JSON-over-HTTPS:

- the InfiniBand subnet manager (UFM), for partitions (pkeys) and the ports bound to them;
- the Redfish BMC of a Bluefield DPU (an "XPU"), whose firmware version it reads and whose initial password it sets.

The model covers:

- `results.dfy`: `Option` and `Result`, with Rust's `map_err`.
- `text.dfy`: the Rust standard-library routines the core depends on:
  - `to_lowercase` and `starts_with`;
  - `trim_start_matches` and `trim_matches`;
  - `i32::from_str_radix`;
  - the `{}` and `{:x}` renderings.

  The fixed-width integers `i32`, `u16` and `u8` are subset types of `int`.
- `url.dfy`: the parts of a parsed URL the core reads.
  - The URL parser is a parameter.
  - `RequiresScheme` states the one property of the real parser that matters: text without spaces or control characters parses only when it is an absolute URL, and a reported host has neither a scheme nor such a character. (`Url::parse` strips spaces and control characters at both ends, so the property is stated only for text without them.)
  - It also holds a small concrete parser that has this property.
- `rest.dfy` (libonm/src/rest.rs):
  - the transport error kinds and their `From` conversions;
  - `RestClient::new`, which stores `host:port`;
  - the request `execute_request` sends, with the URL's `trim_matches('/')`;
  - the typed helpers `get`, `list`, `put`, `post`, `delete` and `patch`. `Get`, `List` and `Delete` are `Call`, and `Put`, `Post` and `Patch` are `Send`, so those two members carry the contracts.

  The network is a parameter `io` that maps the request on the wire to the response text or a `reqwest` error message. The JSON codecs are parameters too.
- `remote.dfy`: a service endpoint,
  - as a class whose `log` field records every request sent;
  - whose answers are a function of the requests received before. So a password change can make a later probe succeed.
- `sm_types.dfy` (libonm/src/sm/types.rs): the `Port` view, its default, and the conversions from physical and virtual ports.
- `sm.dfy` (libonm/src/sm/mod.rs):
  - the partition-key codec;
  - port membership;
  - the transport-to-UFM error mapping;
  - `connect`;
  - `update_partition_qos`, `bind_ports`, `unbind_ports`, `get_partition`, `list_partition`, `delete_partition` and `list_port`.

  The loops of `bind_ports`, `list_partition` and `list_port` are methods. Each is proved against a function or predicate of its inputs.
- `redfish.dfy` (libonm/src/xpu/redfish/mod.rs and bluefield.rs, with the `BMC` and `BMCVersion` records of libonm/src/xpu/types.rs):
  - the Redfish error kinds;
  - `build`;
  - the Bluefield calls;
  - the credential bootstrap `discover`.

  `DiscoverSpec` gives the requests `discover` sends and its outcome. The `Discover` method performs it against an endpoint and is proved to send exactly those requests.
- `xpu.dfy` (libonm/src/xpu/types.rs): `XPUStatus`, `XPUError`, the conversion from Redfish errors, and `XPU::new`.
- `cli.dfy`: the xpuctl BMC entry conversion (xpuctl/src/types.rs) and `smctl bind` (smctl/src/bind.rs).

Unlike `TryFrom<i32>` (libonm/src/sm/mod.rs:91-97), `TryFrom<String> for PartitionKey` does no 15-bit check (libonm/src/sm/mod.rs:103-113). Three lemmas show the consequences:

- `Sm.KeyFromStringSkipsRangeCheck` shows that `0x8000` and larger keys parse.
- `Sm.KeyFromStringAcceptsNegative` shows that negative keys parse.
- `Sm.NegativeKeyDoesNotRoundTrip` shows such a key does not survive rendering and parsing.

## Model

| member | source | states |
|---|---|---|
| Text.Lower | libonm/src/sm/mod.rs:104 | same length; each upper-case ASCII letter lowered and every other character kept; the result has no upper-case letter; lower-case text is unchanged |
| Text.LowerChar | libonm/src/sm/mod.rs:104 | an upper-case ASCII letter becomes the lower-case letter 32 code points after it; every other character is kept |
| Text.LowerIdempotent | libonm/src/sm/mod.rs:104 | lower-casing twice is lower-casing once |
| Text.TrimStartMatches | libonm/src/sm/mod.rs:106 | the result is a suffix of the input, and it no longer starts with the (non-empty) pattern |
| Text.TrimStartMatchesRepeat | libonm/src/sm/mod.rs:106 | one more leading copy of the pattern gives the same result |
| Text.TrimStartMatchesAbsent | libonm/src/sm/mod.rs:106 | text not starting with the pattern is left unchanged |
| Text.TrimStart | libonm/src/rest.rs:158 | the result is a suffix; everything cut off is the character; the result does not start with it |
| Text.TrimEnd | libonm/src/rest.rs:158 | the result is a prefix; everything cut off is the character; the result does not end with it |
| Text.TrimMatches | libonm/src/rest.rs:158 | no longer than the input; a non-empty result neither starts nor ends with the character |
| Text.TrimMatchesSlice | libonm/src/rest.rs:158 | the result is a contiguous slice of the input, and everything on either side of it is the trimmed character |
| Text.AppendTrimmedIsTrimMatches | libonm/src/rest.rs:158 | the character-by-character URL construction equals base followed by `trim_matches` of the path |
| Text.TrimStartAppend | libonm/src/rest.rs:158 | text that does not trim away entirely keeps whatever follows it |
| Text.TrimStartAllPattern | libonm/src/rest.rs:158 | text made only of the character still trims to nothing with one more |
| Text.TrimMatchesLeading | libonm/src/rest.rs:158 | a leading pattern character does not change the trimmed text |
| Text.TrimMatchesTrailing | libonm/src/rest.rs:158 | a trailing pattern character does not change the trimmed text |
| Text.TrimMatchesIdempotent | libonm/src/rest.rs:158 | trimming twice is trimming once |
| Text.ToDigit | libonm/src/sm/mod.rs:107 | a digit's value is below the radix, and only letters and decimal digits have one |
| Text.DigitChar | libonm/src/sm/mod.rs:134 | the printed digit is lower case, is never a sign, and reads back as its value in every radix that admits it |
| Text.Render | libonm/src/sm/mod.rs:134 | minimal digits: non-empty, lower case, all digits of the radix, unsigned, and a leading `0` only for zero itself |
| Text.RenderValue | libonm/src/sm/mod.rs:107 | reading back the rendered digits gives the number |
| Text.RenderInjective | libonm/src/sm/mod.rs:134 | different numbers render differently |
| Text.SignedDecimal | libonm/src/sm/mod.rs:93 | non-empty, starting with `-` exactly for a negative number |
| Text.Hex32 | libonm/src/sm/mod.rs:134 | `{:x}` on an `i32`: the hex digits of the value, or of its 32-bit two's complement when it is negative |
| Text.FromStrRadix | libonm/src/sm/mod.rs:107 | empty text is refused; a success is at least one digit after an optional `+` or `-`, with their value, negated for `-`; conversely any such digits in the `i32` range succeed, leading zeros and `+` included |
| Text.FromStrRadixRender | libonm/src/sm/mod.rs:107 | every non-negative `i32` parses back from its rendering |
| Text.FromStrRadixOverflow | libonm/src/sm/mod.rs:107 | digits whose value exceeds the `i32` maximum are refused |
| Text.FromStrRadixNegative | libonm/src/sm/mod.rs:107 | a minus sign negates, down to the least `i32` |
| Url.HttpsHostParser | libonm/src/rest.rs:62-66 | the concrete parser reports a host and no port |
| Url.HttpsHostParserRequiresScheme | libonm/src/rest.rs:62-63 | the concrete parser accepts only text with a scheme, and the hosts it reports have no scheme and no space or control character |
| Rest.FromForeign | libonm/src/rest.rs:40-58 | `serde_json` errors become `Json`; `reqwest` and io errors become `Http`; the display text is kept |
| Rest.NewClient | libonm/src/rest.rs:61-75 | succeeds iff the address parses with a host; `InvalidConfig("invalid url")` or `InvalidConfig("invalid host")` otherwise; the credentials are kept |
| Rest.NewClientAddress | libonm/src/rest.rs:64-68 | the stored address is the host, `:`, and a decimal numeral that reads back as the URL's port, or 443 |
| Rest.BuildRequest | libonm/src/rest.rs:151-176 | the verb and the stored credentials go on the wire; a missing body is sent empty |
| Rest.BuildRequestUrl | libonm/src/rest.rs:157-158 | the URL is `https://`, the stored address, `/`, and the path with every leading and trailing `/` removed |
| Rest.BuildRequestSlashes | libonm/src/rest.rs:158 | paths that differ by a surrounding `/` give the same request |
| Rest.ExecuteRequest | libonm/src/rest.rs:151-181 | the network's answer to the built request; every network failure is `Http` with its text |
| Rest.Call | libonm/src/rest.rs:77-91 | `get`/`list`/`delete`: success iff the network answers and the answer decodes; a network failure is `Http`; an undecodable answer is `InvalidConfig("invalid response")` |
| Rest.Send | libonm/src/rest.rs:93-149 | `put`/`post`/`patch`: a body that does not encode is `InvalidConfig("invalid input")`; otherwise the encoded body is sent as in `Call` |
| Rest.Get | libonm/src/rest.rs:77-83 | a body-less GET of the path; the decoded answer, `Http` for a network failure, `InvalidConfig("invalid response")` for an undecodable answer |
| Rest.List | libonm/src/rest.rs:85-91 | a body-less GET of the path, its answer decoded as a list, with the same errors as `get` |
| Rest.Put | libonm/src/rest.rs:93-106 | a body that does not encode is `InvalidConfig("invalid input")`; otherwise the encoded body is PUT and the answer decoded as for `get` |
| Rest.Post | libonm/src/rest.rs:108-123 | as `put`, with POST |
| Rest.Delete | libonm/src/rest.rs:125-132 | a body-less DELETE of the path, its answer decoded as for `get` |
| Rest.Patch | libonm/src/rest.rs:134-149 | as `put`, with PATCH |
| Rest.SendEncodeFailureSendsNothing | libonm/src/rest.rs:98-100 | when the body does not encode, the outcome is the same whatever the network |
| Rest.SendErrorKinds | libonm/src/rest.rs:77-149 | the typed helpers fail only with `Http` or the two `InvalidConfig` errors, never with `NotFound`, `AuthFailure`, `Json` or `Internal` |
| Remote.Endpoint.Call | libonm/src/rest.rs:77-91 | exactly the built request is appended to the log, and the result is `Call` against the service as it stood before |
| Remote.Endpoint.Send | libonm/src/rest.rs:93-149 | nothing is logged when the body does not encode, otherwise exactly the built request; the result is `Send` against the service |
| SmTypes.DefaultPort | libonm/src/sm/types.rs:23-35 | empty GUID, system id and system name; no name, parent or type; lid 65535; state `Unknown` |
| SmTypes.UnknownPort | libonm/src/sm/mod.rs:393-396 | the default port with only the GUID set |
| SmTypes.FromPhysical | libonm/src/sm/types.rs:38-51 | GUID, system id, lid, system name and state copied; name `Some`; no parent; type `Physical` |
| SmTypes.FromVirtual | libonm/src/sm/types.rs:53-66 | the virtual GUID, system GUID, lid, name and state mapped; name `None`; parent is the physical port's GUID; type `Virtual` |
| SmTypes.ConvertedPortsAreTagged | libonm/src/sm/types.rs:33-63 | a converted port is never a placeholder, and physical and virtual conversions never coincide |
| SmTypes.FromPhysicalInjectiveOnGuid | libonm/src/sm/types.rs:41 | ports with different GUIDs convert to different ports |
| Sm.FromRest | libonm/src/sm/mod.rs:180-189 | `NotFound` keeps kind and message; `AuthFailure` and `InvalidConfig` become `InvalidConfig` with the message; every other kind is `Unknown("Unknown Rest Error")`; never `InvalidPKey` |
| Sm.CallErrorsAreUnknownOrInvalidConfig | libonm/src/sm/mod.rs:182-186 | a failing transport call surfaces only as `Unknown` or `InvalidConfig("invalid response")`; the `NotFound` arm is unreachable |
| Sm.IsDefault | libonm/src/sm/mod.rs:60-62 | the default key is accepted by `TryFrom<i32>` and is the largest key it accepts |
| Sm.Low15Bits | libonm/src/sm/mod.rs:92 | `v & 0x7fff` lies in 0..0x7fff |
| Sm.KeyFromInt | libonm/src/sm/mod.rs:91-97 | succeeds iff 0 <= v <= 0x7fff, keeping the value; otherwise `InvalidPKey` with the number's decimal text |
| Sm.KeyFromString | libonm/src/sm/mod.rs:103-113 | every failure is `InvalidPKey` of the lower-cased text; empty text fails |
| Sm.KeyToString | libonm/src/sm/mod.rs:132-136 | `0x`, then the minimal lower-case hex digits (a leading `0` only for key 0) whose value is the key's 32-bit two's complement |
| Sm.HexTextParses | libonm/src/sm/mod.rs:105-111 | after one `0x`, the rest is read in base 16, and a failure reports the text |
| Sm.DecimalTextParses | libonm/src/sm/mod.rs:105-111 | text without `0x` is read in base 10, and a failure reports the text |
| Sm.RenderHasNoPrefix | libonm/src/sm/mod.rs:134 | rendered digits never begin with `0x` |
| Sm.HexRenderingParses | libonm/src/sm/mod.rs:105-110 | `0x` and the hex digits of any non-negative `i32` parse to that key |
| Sm.DecimalRenderingParses | libonm/src/sm/mod.rs:105-110 | the decimal text of any non-negative `i32` parses to that key |
| Sm.HexDigitsParse | libonm/src/sm/mod.rs:104-110 | any lower-case hex digits in the `i32` range after `0x` parse to their value, leading zeros included |
| Sm.DecimalDigitsParse | libonm/src/sm/mod.rs:104-110 | any decimal digits in the `i32` range, with or without a leading `+`, parse to their value, leading zeros included |
| Sm.KeyRoundTrip | libonm/src/sm/mod.rs:132-136 | every key with a non-negative value parses back from its rendering |
| Sm.KeyFromIntRoundTrip | libonm/src/sm/mod.rs:91-97 | every key `TryFrom<i32>` builds parses back from its rendering |
| Sm.NegativeKeyDoesNotRoundTrip | libonm/src/sm/mod.rs:132-136 | a negative key's rendering does not parse back |
| Sm.HexAndDecimalAgree | libonm/src/sm/mod.rs:105-110 | the hex and decimal spellings of a number parse to the same key |
| Sm.HexAndDecimalExample | libonm/src/sm/mod.rs:105-110 | `"0x10"` and `"16"` both parse to key 16 |
| Sm.HexExample | libonm/src/sm/mod.rs:105-110 | `"0x10"` parses to key 16 |
| Sm.DecimalExample | libonm/src/sm/mod.rs:105-110 | `"16"` parses to key 16 |
| Sm.KeyFromStringIgnoresCase | libonm/src/sm/mod.rs:104 | parsing ignores ASCII letter case |
| Sm.KeyFromStringRepeatedPrefix | libonm/src/sm/mod.rs:106 | `0x0x…` parses like `0x…` |
| Sm.KeyFromStringSkipsRangeCheck | libonm/src/sm/mod.rs:109-110 | keys above 0x7fff parse from text, though `TryFrom<i32>` refuses them |
| Sm.KeyFromStringAcceptsNegative | libonm/src/sm/mod.rs:107-110 | negative decimal keys parse from text, though `TryFrom<i32>` refuses them |
| Sm.DefaultKeyRendering | libonm/src/sm/mod.rs:60-62 | a key is the default iff it renders as `0x7fff` |
| Sm.MembershipFromString | libonm/src/sm/mod.rs:147-153 | `Full` iff the lower-cased text is `full`; `Limited` iff it is `limited`; otherwise `InvalidConfig("invalid membership")` |
| Sm.MembershipRoundTrip | libonm/src/sm/mod.rs:36-41 | each membership parses back from its JSON spelling in any case |
| Sm.ConnectAsWritten | libonm/src/sm/mod.rs:206-229 | fails only with `InvalidConfig`; succeeds iff the URL and host parse, both credentials are present, and the bare host parses again as a URL with a host |
| Sm.ConnectAsWrittenAlwaysFails | libonm/src/sm/mod.rs:222-226 | with a parser that has `Url.RequiresScheme` (text without spaces or control characters parses only with a scheme; hosts have neither), `connect` as written fails with `InvalidConfig` for every configuration |
| Sm.ConnectExample | libonm/src/sm/mod.rs:222-226 | on `https://ufm` with credentials, the code as written gives `InvalidConfig("invalid url")`, and the corrected code gives a client for `ufm:443` |
| Sm.Connect | libonm/src/sm/mod.rs:206-229 | fails only with `InvalidConfig`; succeeds iff the URL and host parse and both credentials are present; the client is exactly the one `RestClient::new` builds from the configured address and credentials, so its address is the host, `:` and the port or 443 (`Rest.NewClientAddress`) |
| Sm.QosRequest | libonm/src/sm/mod.rs:241-250 | without QoS the error is `InvalidConfig("no partition qos")`; otherwise the QoS fields under the rendered key |
| Sm.UpdatePartitionQos | libonm/src/sm/mod.rs:239-255 | without QoS it fails before any request; otherwise it PUTs the QoS body; errors are `Unknown` or `InvalidConfig` |
| Sm.UpdatePartitionQosWithoutQosSendsNothing | libonm/src/sm/mod.rs:241-243 | without QoS the outcome does not depend on the network |
| Sm.Guids | libonm/src/sm/mod.rs:263-268 | the bindings' GUIDs, one per binding, in order |
| Sm.BindRequest | libonm/src/sm/mod.rs:260-276 | the request carries the rendered key, the partition's IPoIB flag, every GUID in order, and the last binding's membership and `index0` (`Full` and `true` when there is none) |
| Sm.BindPorts | libonm/src/sm/mod.rs:257-281 | the posted body has every GUID in order and the last binding's membership and `index0` (`Full`/`true` when there is none); errors are `Unknown` or `InvalidConfig` |
| Sm.BindRequestLastWins | libonm/src/sm/mod.rs:260-268 | the last binding decides membership and `index0`; no GUID is lost or reordered |
| Sm.UnbindPorts | libonm/src/sm/mod.rs:283-304 | errors are `Unknown` or `InvalidConfig` |
| Sm.GetPartition | libonm/src/sm/mod.rs:306-325 | a bad key fails with `InvalidPKey` before any request; otherwise the fetched record with the parsed key and `Some` QoS, and a fetch failure is `From<RestError>` of the transport error |
| Sm.GetPartitionSpellings | libonm/src/sm/mod.rs:307-309 | the hex and decimal spellings of a key fetch the same partition |
| Sm.FirstBadKeyAt | libonm/src/sm/mod.rs:340-347 | a failing key after a run of good ones is the first bad key |
| Sm.PartitionsOfExtend | libonm/src/sm/mod.rs:340-347 | one more good key extends the converted partitions by its partition |
| Sm.PartitionsFrom | libonm/src/sm/mod.rs:338-349 | when all keys parse, one partition per entry in order; otherwise `InvalidPKey` of the first bad key |
| Sm.ListPartition | libonm/src/sm/mod.rs:327-350 | a listing failure is mapped through `From<RestError>`; otherwise as `PartitionsFrom` |
| Sm.DeletePartition | libonm/src/sm/mod.rs:352-357 | errors are `Unknown` or `InvalidConfig` |
| Sm.PortIndex | libonm/src/sm/mod.rs:380-383 | every entry is a physical port filed under its own GUID |
| Sm.PortIndexKeys | libonm/src/sm/mod.rs:380-383 | the index holds exactly the inventoried GUIDs |
| Sm.PortIndexFiledByGuid | libonm/src/sm/mod.rs:380-383 | each indexed port is a physical port stored under its own GUID |
| Sm.PortIndexLastWins | libonm/src/sm/mod.rs:380-383 | of ports sharing a GUID, the last one is kept |
| Sm.Reconciled | libonm/src/sm/mod.rs:388-397 | the reported port is an inventory record or the placeholder for the binding's GUID; with an index filed by GUID, it has the binding's GUID |
| Sm.Reconcile | libonm/src/sm/mod.rs:385-399 | one reported port per configured binding |
| Sm.ReconcileAgainstInventory | libonm/src/sm/mod.rs:385-399 | each reported port has its binding's GUID; it is the placeholder exactly when the GUID is not inventoried, and the inventory record otherwise |
| Sm.ReconcileExample | libonm/src/sm/mod.rs:385-399 | bindings {A, B} with only A inventoried give A's record, then B's placeholder |
| Sm.IndexPorts | libonm/src/sm/mod.rs:380-383 | the loop builds the GUID index |
| Sm.ReconcilePorts | libonm/src/sm/mod.rs:386-399 | the loop produces the reconciliation |
| Sm.AllPorts | libonm/src/sm/mod.rs:400-403 | every indexed port exactly once, with no duplicates and nothing else |
| Sm.ListPort | libonm/src/sm/mod.rs:359-405 | fetch failures are mapped errors; on a non-default key, the reconciliation of the configured GUIDs with the inventory; on the default key, every inventoried port exactly once |
| Redfish.FromRest | libonm/src/xpu/redfish/mod.rs:28-32 | every transport error becomes `RestError` with its display text |
| Redfish.FromIo | libonm/src/xpu/redfish/mod.rs:34-38 | io errors become `IOError` with their text |
| Redfish.FromRestForgetsKind | libonm/src/xpu/redfish/mod.rs:28-32 | distinct transport errors with one text convert alike |
| Redfish.NewBluefield | libonm/src/xpu/redfish/bluefield.rs:59-70 | succeeds iff the client can be built from the BMC's address and credentials; keeps the BMC; a failure is the converted transport error |
| Redfish.Build | libonm/src/xpu/redfish/mod.rs:40-42 | always a Bluefield, failing exactly when `Bluefield::new` does, with `RestError` of the client's error text |
| Redfish.DefaultBmc | libonm/src/xpu/redfish/bluefield.rs:72-78 | the given address with user `root` and password `0penBmc` |
| Redfish.DefaultBmcIgnoresName | libonm/src/xpu/redfish/bluefield.rs:72 | the name argument plays no part |
| Redfish.FallbackReachesSameBmc | libonm/src/xpu/redfish/bluefield.rs:45-46 | if the Bluefield could be built, so can the fallback: same `host:port`, factory account |
| Redfish.ProbeUsesOwnAccount | libonm/src/xpu/redfish/bluefield.rs:29-37 | the version probe is a body-less GET with the BMC's own credentials |
| Redfish.BmcVersion | libonm/src/xpu/redfish/bluefield.rs:29-37 | succeeds iff the probe is answered with a decodable record, which is the result; failures are `RestError` |
| Redfish.PasswordBody | libonm/src/xpu/redfish/bluefield.rs:18-19 | a map with the single key `Password`, holding the new password |
| Redfish.ChangePassword | libonm/src/xpu/redfish/bluefield.rs:17-27 | a body that does not encode is `InvalidConfig("invalid input")`; otherwise it PATCHes the root account, succeeding iff the answer decodes; a network failure is `RestError` of its `Http` text and an undecodable answer is `RestError` of the `InvalidConfig("invalid response")` text |
| Redfish.RecoverSpec | libonm/src/xpu/redfish/bluefield.rs:44-54 | after a failed probe: at most a password change through the fallback, then the original probe |
| Redfish.DiscoverSpec | libonm/src/xpu/redfish/bluefield.rs:39-55 | one to three requests, the first always the probe |
| Redfish.DiscoverFirstProbeSucceeds | libonm/src/xpu/redfish/bluefield.rs:40-42 | a successful first probe ends `discover` with `Ok` and nothing else sent |
| Redfish.DiscoverSendsAtMostTwoProbesAndOneChange | libonm/src/xpu/redfish/bluefield.rs:39-55 | the probe, then possibly one PATCH, then possibly the same probe; nothing else |
| Redfish.DiscoverChangeUsesFactoryAccount | libonm/src/xpu/redfish/bluefield.rs:45-49 | the change goes through the fallback client, as `root`/`0penBmc`, with the caller's password |
| Redfish.RecoverOutcome | libonm/src/xpu/redfish/bluefield.rs:46-54 | nothing is sent iff the body does not encode; a failed change is the outcome, with no retry; after a change, the retry's success is `Ok(())` and its error is passed through |
| Redfish.DiscoverOutcome | libonm/src/xpu/redfish/bluefield.rs:39-55 | a successful probe is the outcome; otherwise a fallback that fails to build is; otherwise the probe is followed by `RecoverSpec`; success needs a successful probe |
| Redfish.Probe | libonm/src/xpu/redfish/bluefield.rs:29-37 | one GET logged; result as `BmcVersion` |
| Redfish.ChangePasswordOn | libonm/src/xpu/redfish/bluefield.rs:17-27 | one PATCH logged, or nothing when the body does not encode; result as `ChangePassword` |
| Redfish.RecoverOn | libonm/src/xpu/redfish/bluefield.rs:44-54 | sends exactly what `RecoverSpec` says, with its outcome |
| Redfish.Discover | libonm/src/xpu/redfish/bluefield.rs:39-55 | sends exactly what `DiscoverSpec` says, with its outcome |
| Xpu.StatusName | libonm/src/xpu/types.rs:59-67 | `Ready`, `Error` and `Unknown` print as their names |
| Xpu.StatusNameInjective | libonm/src/xpu/types.rs:59-67 | different statuses print differently |
| Xpu.FromRedfish | libonm/src/xpu/types.rs:23-27 | every Redfish error becomes `Internal` with its text, never `NotFound` or `InvalidConfig` |
| Xpu.NewXpu | libonm/src/xpu/types.rs:70-85 | fails iff `build` or the version probe fails, with that error as `Internal`; on success, status `Ready`, `-` for vendor, serial number and firmware, the probed version, and a copy of the BMC |
| Xpu.NewXpuSendsOnlyTheProbe | libonm/src/xpu/types.rs:71-72 | the outcome depends only on the network's answer to the version probe |
| Xpu.NewXpuBuildFailureSendsNothing | libonm/src/xpu/types.rs:71 | when `build` fails, the network plays no part and the message is kept |
| Cli.ToLibBmc | xpuctl/src/types.rs:20-27 | address, user name and password copied unchanged; both credentials must be present |
| Cli.ToLibBmcDropsNameAndVendor | xpuctl/src/types.rs:4-10 | name and vendor are dropped, so the configured vendor never reaches `build` |
| Cli.ToLibBmcKeepsCredentials | xpuctl/src/types.rs:22-26 | entries that convert alike agree on address and credentials |
| Cli.FullBinding | smctl/src/bind.rs:8-12 | the binding has the GUID, `index0` set and `Full` membership |
| Cli.FullBindings | smctl/src/bind.rs:6-13 | one full binding per GUID, in order |
| Cli.PortConfigs | smctl/src/bind.rs:6-13 | the loop builds exactly those bindings |
| Cli.BindPartition | smctl/src/bind.rs:15-20 | empty name, no IPoIB, no QoS, the parsed key |
| Cli.BindRunRequest | smctl/src/bind.rs:6-22 | the posted request always carries `Full`, `index0`, every GUID in order and the rendered key |
| Cli.BindRun | smctl/src/bind.rs:3-25 | with the corrected `connect` (see Findings): a connect failure and a bad key (`InvalidPKey`) end it before anything is posted; otherwise the outcome is `bind_ports`' |

## Left out

- HTTPS and TLS: the `reqwest` client, its headers, the basic-auth encoding and the certificate bypass (libonm/src/rest.rs:168-180) are foreign code. The network is the parameter `io`, and the request records the verb, URL, body and credentials.
- JSON: `serde` encoding and decoding are parameters that may fail, and field renames are not modelled.
- `Url::parse`, `host_str` and `port` are a parameter. Only the property `Url.RequiresScheme` is assumed, and only where it is stated.
- async/await: every call is one sequential step.
- `rate_limit: f64` is a `real` passed through untouched; no floating-point behaviour is modelled.
- `tracing::debug!` logging, including the credential dump in `execute_request`.
- `get_configuration` and `version` (libonm/src/sm/mod.rs:232-237, 407-417): single GETs with no logic of their own.
- The commented-out virtual-port listing (libonm/src/sm/mod.rs:376-378).
- Console output and the thin CLI wrappers: hcactl/src/list.rs (its `hca` module is not part of this model), xpuctl/src/list.rs, xpuctl/src/discover.rs, smctl/src/info.rs, smctl/src/version.rs and smctl/src/delete.rs.
- The `Redfish` trait object has one implementation, so it is the `Redfish.Bluefield` value. The three capabilities (`discover`, `change_password` and `bmc_version`) are its three operations.
- The BMC's password is not a field of the model. A service's answers depend on the requests it received before, which covers a device whose accepted password changes.
- xpuctl's `Context`: the conversion reads only its BMC entry, so the context's user name and password never fill in missing credentials.
- Cli.BindRun: runs over the corrected `Sm.Connect` of the Findings section. smctl/src/bind.rs:4 calls `connect` as written, so with a parser that has `Url.RequiresScheme` the real `run` always stops there with `InvalidConfig` before anything is posted (`Sm.ConnectAsWrittenAlwaysFails`). For example, `https://ufm` with `admin`/`123456` gives `InvalidConfig("invalid url")`, where the model goes on to post.
- Sm.Low15Bits: `& 0x7fff` is modelled as the Euclidean remainder modulo 2^15. That this is the low 15 bits of the two's complement, also for negative values, is not proved, because the model does no bit-vector arithmetic.
- Cli.ToLibBmc: the panic of `unwrap` on a missing credential is a precondition.
- Text.Lower: `to_lowercase` is modelled on ASCII letters only, and other Unicode case mappings are not modelled. `Sm.KeyFromString` and `Sm.MembershipFromString` inherit this.
- Sm.AllPorts: the order of `HashMap::values` is unspecified, so the result is stated as exactly the map's values, each once, in some order.
- Sm.UnbindPorts and Sm.DeletePartition: only their error kinds are stated. The request each sends is its body.
- The display texts of `UFMError`, `RedfishError` and `XPUError` are carried as their message strings. `RestError`'s display texts are modelled, because `From<RestError> for RedfishError` keeps them.

## Findings

| source | as written | input that shows it | evidently intended | confidence | as-written member | corrected member |
|---|---|---|---|---|---|---|
| libonm/src/sm/mod.rs:222-226 | `connect` hands `host_str()` of the configured URL, a bare host, to `RestClient::new`, which parses it as a URL again (libonm/src/rest.rs:62-63). A bare host has no scheme, so it never parses. | address `https://ufm` with user `admin` and password `123456`: `connect` returns `InvalidConfig("invalid url")` | pass the configured address to `RestClient::new`, so the client talks to `ufm:443` | not executed; holds for every parser with the property `Url.RequiresScheme`: text without spaces or control characters parses only when it has a scheme, and reported hosts have neither (`Sm.ConnectAsWrittenAlwaysFails`) | Sm.ConnectAsWritten, Sm.ConnectAsWrittenAlwaysFails, Sm.ConnectExample | Sm.Connect |

/**
 * The subnet manager's port records (libonm/src/sm/types.rs): the reconciled
 * `Port` view, its "unknown" default, and the conversions from the physical
 * and virtual port records the subnet manager reports.
 */
module SmTypes {
  import opened Results
  import opened Text

  datatype PortType = Physical | Virtual

  datatype Port = Port(
    guid: string,
    name: Option<string>,
    systemId: string,
    lid: i32,
    systemName: string,
    logicalState: string,
    parentGuid: Option<string>,
    portType: Option<PortType>)

  datatype PhysicalPort = PhysicalPort(
    guid: string,
    name: string,
    systemId: string,
    lid: i32,
    systemName: string,
    logicalState: string)

  datatype VirtualPort = VirtualPort(
    virtualPortGuid: string,
    systemGuid: string,
    virtualPortLid: i32,
    systemName: string,
    virtualPortState: string,
    portGuid: string)

  const UnknownLid: i32 := 65535
  const UnknownState: string := "Unknown"

  /** `Port::default()`: a port nothing is known about. */
  function DefaultPort(): (p: Port)
    ensures p.guid == "" && p.systemId == "" && p.systemName == ""
    ensures p.name.None? && p.parentGuid.None? && p.portType.None?
    ensures p.lid == UnknownLid && p.logicalState == UnknownState
  {
    Port("", None, "", UnknownLid, "", UnknownState, None, None)
  }

  /** `Port { guid, ..Port::default() }`: the placeholder for a port missing from the inventory. */
  function UnknownPort(guid: string): (p: Port)
    ensures p == DefaultPort().(guid := guid)
  {
    Port(guid, None, "", UnknownLid, "", UnknownState, None, None)
  }

  /** `From<PhysicalPort> for Port`. */
  function FromPhysical(pp: PhysicalPort): (p: Port)
    ensures p.guid == pp.guid && p.systemId == pp.systemId && p.lid == pp.lid
    ensures p.systemName == pp.systemName && p.logicalState == pp.logicalState
    ensures p.name == Some(pp.name) && p.parentGuid.None? && p.portType == Some(Physical)
  {
    Port(pp.guid, Some(pp.name), pp.systemId, pp.lid, pp.systemName, pp.logicalState, None, Some(Physical))
  }

  /** `From<VirtualPort> for Port`: the physical port a virtual one sits on becomes its parent. */
  function FromVirtual(vp: VirtualPort): (p: Port)
    ensures p.guid == vp.virtualPortGuid && p.systemId == vp.systemGuid && p.lid == vp.virtualPortLid
    ensures p.systemName == vp.systemName && p.logicalState == vp.virtualPortState
    ensures p.name.None? && p.parentGuid == Some(vp.portGuid) && p.portType == Some(Virtual)
  {
    Port(vp.virtualPortGuid, None, vp.systemGuid, vp.virtualPortLid, vp.systemName,
         vp.virtualPortState, Some(vp.portGuid), Some(Virtual))
  }

  /**
   * A converted port is never mistaken for a placeholder, and a physical port
   * never for a virtual one: the port type tells the three apart.
   */
  lemma ConvertedPortsAreTagged(pp: PhysicalPort, vp: VirtualPort, guid: string)
    ensures FromPhysical(pp) != UnknownPort(guid) && FromVirtual(vp) != UnknownPort(guid)
    ensures FromPhysical(pp) != FromVirtual(vp)
    ensures FromPhysical(pp).portType != DefaultPort().portType
  {
  }

  /** Converting keeps the GUID, so ports with different GUIDs convert to different ports. */
  lemma FromPhysicalInjectiveOnGuid(a: PhysicalPort, b: PhysicalPort)
    requires a.guid != b.guid
    ensures FromPhysical(a) != FromPhysical(b)
  {
  }
}

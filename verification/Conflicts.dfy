// What the populator's refusals mean, and what a run that met none has put on
// record, both in terms of the rows of the store alone.
module Conflicts {
  import opened Addresses
  import opened Inventory
  import opened PopulateSpec
  import opened PopulateSafety
  import opened Restart

  // The interface record of this name on the device with this tag.
  ghost predicate IsIface(b: Base, i: Id, tag: string, name: string) {
    && i in b.ifaces.rows && b.ifaces.rows[i].key.name == name
    && b.ifaces.rows[i].key.device in b.devices.rows && b.devices.rows[b.ifaces.rows[i].key.device].key == tag
  }

  ghost predicate IsVlan(b: Base, v: Id, vid: int, site: string) {
    && v in b.vlans.rows && b.vlans.rows[v].key.vid == vid
    && b.vlans.rows[v].key.site in b.sites.rows && b.sites.rows[b.vlans.rows[v].key.site].key == site
  }

  // A row has the action's key and other contents than the fixture gives.
  ghost predicate Contradicts(a: Action, b: Base) {
    match a
    case EnsureDeviceType(spec) =>
      exists i :: i in b.deviceTypes.rows && b.deviceTypes.rows[i].key == spec.slug
                  && b.deviceTypes.rows[i].body.uHeight.Some?
                  && b.deviceTypes.rows[i].body.uHeight.value != spec.uHeight
    case EnsureVlan(vlan, site) =>
      exists i :: IsVlan(b, i, vlan.vid, site) && b.vlans.rows[i].body != vlan.name
    case EnsureDevice(tag, hostname, _, _, _, _) =>
      exists i :: i in b.devices.rows && b.devices.rows[i].key == tag && b.devices.rows[i].body.name != hostname
    case EnsureMac(tag, on, mac) =>
      exists i :: i in b.macs.rows && b.macs.rows[i].key == mac
                  && b.macs.rows[i].body.Some? && !IsIface(b, b.macs.rows[i].body.value, tag, on)
    case EnsureIp(tag, on, ip) =>
      exists i :: i in b.ips.rows && b.ips.rows[i].key == ip
                  && (b.ips.rows[i].body.Some? ==> !IsIface(b, b.ips.rows[i].body.value, tag, on))
    case _ => false
  }

  // The row the action asks for is there.
  ghost predicate OnRecord(a: Action, b: Base) {
    match a
    case EnsureSite(slug) => exists i :: i in b.sites.rows && b.sites.rows[i].key == slug
    case EnsureManufacturer(name) =>
      exists i :: i in b.manufacturers.rows && b.manufacturers.rows[i].key == Slugify(name)
    case EnsureDeviceType(spec) =>
      exists i :: i in b.deviceTypes.rows && b.deviceTypes.rows[i].key == spec.slug
                  && (b.deviceTypes.rows[i].body.uHeight.Some? ==>
                      b.deviceTypes.rows[i].body.uHeight.value == spec.uHeight)
    case EnsureDeviceRole(slug) => exists i :: i in b.roles.rows && b.roles.rows[i].key == slug
    case EnsureVlan(vlan, site) => exists i :: IsVlan(b, i, vlan.vid, site) && b.vlans.rows[i].body == vlan.name
    case EnsureDevice(tag, hostname, _, _, _, _) =>
      exists i :: i in b.devices.rows && b.devices.rows[i].key == tag && b.devices.rows[i].body.name == hostname
    case EnsureInterface(tag, spec, _, _) => exists i :: IsIface(b, i, tag, spec.name)
    case EnsureMac(tag, on, mac) =>
      exists i :: i in b.macs.rows && b.macs.rows[i].key == mac
                  && (b.macs.rows[i].body.Some? ==> IsIface(b, b.macs.rows[i].body.value, tag, on))
    case EnsureIp(tag, on, ip) =>
      exists i :: i in b.ips.rows && b.ips.rows[i].key == ip
                  && b.ips.rows[i].body.Some? && IsIface(b, b.ips.rows[i].body.value, tag, on)
    case _ => true
  }

  // ----- keys determine rows ---------------------------------------------------------

  lemma IfaceIsRow(b: Base, tag: string, name: string, i: Id)
    requires b.ifaces.Valid() && b.devices.Valid()
    ensures IsIface(b, i, tag, name) <==> Iface(b, tag, name).Some? && Iface(b, tag, name).value.id == i
  {
  }

  lemma VlanIsRow(b: Base, vid: int, site: string, v: Id)
    requires b.sites.Valid() && b.vlans.Valid()
    ensures IsVlan(b, v, vid, site) <==> VlanAt(b, vid, site).Some? && VlanAt(b, vid, site).value.id == v
  {
  }

  lemma Tables(b: Base)
    requires b.TablesValid()
    ensures b.sites.Valid() && b.manufacturers.Valid() && b.deviceTypes.Valid() && b.roles.Valid() && b.vlans.Valid()
    ensures b.devices.Valid() && b.ifaces.Valid() && b.macs.Valid() && b.ips.Valid()
  {
  }

  // ----- refusals -----------------------------------------------------------------------

  lemma MacConflict(b: Base, tag: string, on: string, mac: string)
    requires b.TablesValid() && Iface(b, tag, on).Some?
    ensures Ensure(EnsureMac(tag, on, mac), b) == Refuse(Conflict(MacAddressKind)) <==>
            Contradicts(EnsureMac(tag, on, mac), b)
  {
  }

  lemma IpConflict(b: Base, tag: string, on: string, ip: IpText)
    requires b.TablesValid() && Iface(b, tag, on).Some?
    ensures Ensure(EnsureIp(tag, on, ip), b) == Refuse(Conflict(IpAddressKind)) <==>
            Contradicts(EnsureIp(tag, on, ip), b)
  {
  }

  lemma VlanConflict(b: Base, vlan: VlanSpec, site: string)
    requires b.TablesValid() && b.sites.Get(site).Some?
    ensures Ensure(EnsureVlan(vlan, site), b) == Refuse(Conflict(VlanKind)) <==> Contradicts(EnsureVlan(vlan, site), b)
  {
  }

  lemma CatalogueConflict(b: Base, a: Action)
    requires b.TablesValid() && (a.EnsureDeviceType? || a.EnsureDevice?) && Ensure(a, b) != Refuse(Unresolved)
    ensures Ensure(a, b) == Refuse(Conflict(KindOf(a))) <==> Contradicts(a, b)
  {
  }

  // populate refuses an action with a conflict exactly when a row with the
  // action's key says something else.
  lemma ConflictExactly(a: Action, b: Base)
    requires b.TablesValid() && !IsWiring(a) && Ensure(a, b) != Refuse(Unresolved)
    ensures (Ensure(a, b).Refuse? && Ensure(a, b).error.Conflict?) <==> Contradicts(a, b)
    ensures Contradicts(a, b) ==> Ensure(a, b) == Refuse(Conflict(KindOf(a)))
  {
    hide Base.TablesValid, Contradicts;
    OnlyFive(a, b);
    match a
    case EnsureDeviceType(_) => CatalogueConflict(b, a);
    case EnsureDevice(_, _, _, _, _, _) => CatalogueConflict(b, a);
    case EnsureVlan(vlan, site) => VlanConflict(b, vlan, site);
    case EnsureMac(tag, on, mac) => MacConflict(b, tag, on, mac);
    case EnsureIp(tag, on, ip) => IpConflict(b, tag, on, ip);
    case _ =>
  }

  lemma OnlyFive(a: Action, b: Base)
    ensures !(a.EnsureDeviceType? || a.EnsureDevice? || a.EnsureVlan? || a.EnsureMac? || a.EnsureIp?) ==>
            !Contradicts(a, b)
  {
  }

  // ----- what a run leaves on record -----------------------------------------------------

  lemma PresentCatalogue(a: Action, b: Base)
    requires b.TablesValid() && (IsCatalogue(a) || a.EnsureDevice?) && Ensure(a, b).Present?
    ensures OnRecord(a, b)
  {
    hide Table.Valid, IsVlan, Base.TablesValid;
    Tables(b);
    match a
    case EnsureSite(slug) => GetIn(b.sites, slug);
    case EnsureManufacturer(name) => GetIn(b.manufacturers, Slugify(name));
    case EnsureDeviceType(spec) => GetIn(b.deviceTypes, spec.slug);
    case EnsureDeviceRole(slug) => GetIn(b.roles, slug);
    case EnsureVlan(vlan, site) =>
      var seen := VlanAt(b, vlan.vid, site).value;
      VlanIsRow(b, vlan.vid, site, seen.id);
      GetIn(b.vlans, VlanKey(vlan.vid, b.sites.Get(site).value.id));
    case EnsureDevice(tag, _, _, _, _, _) => GetIn(b.devices, tag);
  }

  lemma PresentHost(a: Action, b: Base)
    requires b.TablesValid() && (a.EnsureInterface? || a.EnsureMac? || a.EnsureIp?) && Ensure(a, b).Present?
    ensures OnRecord(a, b)
  {
    hide Table.Valid, IsIface, Base.TablesValid, Iface;
    Tables(b);
    match a
    case EnsureInterface(tag, spec, _, _) =>
      PresentIface(b, a);
      IfaceIsRow(b, tag, spec.name, Iface(b, tag, spec.name).value.id);
    case EnsureMac(tag, on, mac) => GetIn(b.macs, mac); IfaceIsRow(b, tag, on, Iface(b, tag, on).value.id);
    case EnsureIp(tag, on, ip) => GetIn(b.ips, ip); IfaceIsRow(b, tag, on, Iface(b, tag, on).value.id);
  }

  lemma PresentIface(b: Base, a: Action)
    requires a.EnsureInterface? && Ensure(a, b).Present?
    ensures Iface(b, a.tag, a.iface.name).Some?
  {
  }

  // After a run that raised nothing, everything its actions ask for is on
  // record, and nothing on record contradicts them.
  lemma RunLeavesOnRecord(acts: seq<Action>, st: Store, a: Action)
    requires st.Valid() && Exec(acts, st).stop.None? && a in acts && !IsWiring(a)
    ensures OnRecord(a, Exec(acts, st).store.base) && !Contradicts(a, Exec(acts, st).store.base)
  {
    hide Base.Valid, Base.TablesValid, OnRecord, Contradicts, Ensure, Exec, KeepsBut;
    AllSettled(acts, st);
    ExecSafe(acts, st);
    var b := Exec(acts, st).store.base;
    TablesOf(Exec(acts, st).store);
    assert Ensure(a, b).Present?;
    ConflictExactly(a, b);
    if IsCatalogue(a) || a.EnsureDevice? { PresentCatalogue(a, b); }
    if a.EnsureInterface? || a.EnsureMac? || a.EnsureIp? { PresentHost(a, b); }
    MissingIsRefused(a, b);
  }

  lemma MissingIsRefused(a: Action, b: Base)
    ensures a.MissingName? ==> !Ensure(a, b).Present?
  {
  }
}

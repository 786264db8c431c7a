// Netbox as the populator and the loader see it: tables with one unique lookup
// key each and an id sequence, plus the three interface columns that populate
// updates in place.
module Inventory {
  import opened Basics
  import opened Addresses

  type Id = n: int | 0 < n witness 1

  datatype Row<K, B> = Row(key: K, body: B)

  datatype Found<B> = Found(id: Id, body: B)

  datatype Table<K(==), B> = Table(rows: map<Id, Row<K, B>>, index: map<K, Id>, next: Id)
  {
    ghost predicate Valid() {
      && (forall k :: k in index ==> index[k] in rows && rows[index[k]].key == k)
      && (forall id :: id in rows ==> id < next && rows[id].key in index && index[rows[id].key] == id)
    }

    // endpoint.get(key=...)
    function Get(key: K): Option<Found<B>> {
      if key in index && index[key] in rows then Some(Found(index[key], rows[index[key]].body)) else None
    }

    // endpoint.create(payload): a fresh id, one new row
    function Add(key: K, body: B): Table<K, B> {
      Table(rows[next := Row(key, body)], index[key := next], next + 1)
    }

    // Every record of this table is still there, unchanged and under its id.
    ghost predicate Within(later: Table<K, B>) {
      && (forall id :: id in rows ==> id in later.rows && later.rows[id] == rows[id])
      && (forall k :: k in index ==> k in later.index && later.index[k] == index[k])
    }
  }

  datatype CfValue = Number(n: int) | Text(s: string) | Null

  datatype DeviceTypeBody = DeviceTypeBody(manufacturer: Id, model: string, uHeight: Option<int>)
  datatype VlanKey = VlanKey(vid: int, site: Id)
  datatype DeviceBody = DeviceBody(name: string, site: Id, deviceType: Id, role: Option<Id>,
                                   status: string, customFields: map<string, CfValue>)
  datatype IfaceKey = IfaceKey(device: Id, name: string)
  // untagged.Some? goes with mode "access"
  datatype IfaceBody = IfaceBody(kind: string, mtu: Option<int>, untagged: Option<Id>,
                                 customFields: map<string, CfValue>)

  ghost predicate DeviceTypesRefer(types: Table<string, DeviceTypeBody>, makers: Table<string, string>) {
    forall i :: i in types.rows ==> types.rows[i].body.manufacturer in makers.rows
  }

  ghost predicate VlansRefer(vlans: Table<VlanKey, string>, sites: Table<string, string>) {
    forall i :: i in vlans.rows ==> vlans.rows[i].key.site in sites.rows
  }

  ghost predicate DevicesRefer(devices: Table<string, DeviceBody>, sites: Table<string, string>,
                               types: Table<string, DeviceTypeBody>, roles: Table<string, string>) {
    forall i :: i in devices.rows ==>
      && devices.rows[i].body.site in sites.rows
      && devices.rows[i].body.deviceType in types.rows
      && (devices.rows[i].body.role.Some? ==> devices.rows[i].body.role.value in roles.rows)
  }

  ghost predicate IfacesRefer(ifaces: Table<IfaceKey, IfaceBody>, devices: Table<string, DeviceBody>,
                              vlans: Table<VlanKey, string>) {
    forall i :: i in ifaces.rows ==>
      && ifaces.rows[i].key.device in devices.rows
      && (ifaces.rows[i].body.untagged.Some? ==> ifaces.rows[i].body.untagged.value in vlans.rows)
  }

  // MAC and IP records, by the interface they are assigned to
  ghost predicate AssignedRefer<K>(t: Table<K, Option<Id>>, ifaces: Table<IfaceKey, IfaceBody>) {
    forall i :: i in t.rows ==> t.rows[i].body.Some? ==> t.rows[i].body.value in ifaces.rows
  }

  // Everything populate only ever adds to.
  datatype Base = Base(
    sites: Table<string, string>,
    manufacturers: Table<string, string>,
    deviceTypes: Table<string, DeviceTypeBody>,
    roles: Table<string, string>,
    vlans: Table<VlanKey, string>,
    devices: Table<string, DeviceBody>,
    ifaces: Table<IfaceKey, IfaceBody>,
    macs: Table<string, Option<Id>>,
    ips: Table<IpText, Option<Id>>)
  {
    ghost predicate TablesValid() {
      && sites.Valid() && manufacturers.Valid() && deviceTypes.Valid()
      && roles.Valid() && vlans.Valid() && devices.Valid()
      && ifaces.Valid() && macs.Valid() && ips.Valid()
    }

    // Every id stored in a record names an object of the right table.
    ghost predicate References() {
      && DeviceTypesRefer(deviceTypes, manufacturers)
      && VlansRefer(vlans, sites)
      && DevicesRefer(devices, sites, deviceTypes, roles)
      && IfacesRefer(ifaces, devices, vlans)
      && AssignedRefer(macs, ifaces)
      && AssignedRefer(ips, ifaces)
    }

    ghost predicate Valid() { TablesValid() && References() }

    ghost predicate Within(later: Base) {
      && sites.Within(later.sites) && manufacturers.Within(later.manufacturers)
      && deviceTypes.Within(later.deviceTypes) && roles.Within(later.roles)
      && vlans.Within(later.vlans) && devices.Within(later.devices)
      && ifaces.Within(later.ifaces) && macs.Within(later.macs) && ips.Within(later.ips)
    }
  }

  lemma WithinTransitive(a: Base, b: Base, c: Base)
    requires a.Within(b) && b.Within(c)
    ensures a.Within(c)
  {
  }

  // The columns populate updates: lag, parent, primary_mac_address.
  datatype Wire = LagWire | ParentWire | PrimaryMacWire
  datatype Slot = Slot(iface: Id, wire: Wire)

  datatype Store = Store(base: Base, wires: map<Slot, Id>)
  {
    function Wired(s: Slot): Option<Id> { if s in wires then Some(wires[s]) else None }

    ghost predicate Valid() { base.Valid() && WiresRefer(wires, base) }
  }

  ghost predicate WireRefers(s: Slot, id: Id, base: Base) {
    && s.iface in base.ifaces.rows
    && (if s.wire.PrimaryMacWire? then id in base.macs.rows else id in base.ifaces.rows)
  }

  ghost predicate WiresRefer(wires: map<Slot, Id>, base: Base) {
    forall s :: s in wires ==> WireRefers(s, wires[s], base)
  }

  lemma SameWires(a: map<Slot, Id>, b: map<Slot, Id>, base: Base)
    requires forall s :: Store(base, a).Wired(s) == Store(base, b).Wired(s)
    ensures a == b
  {
    forall s ensures s in a <==> s in b {
      assert Store(base, a).Wired(s) == Store(base, b).Wired(s);
    }
    forall s | s in a ensures a[s] == b[s] {
      assert Store(base, a).Wired(s) == Store(base, b).Wired(s);
    }
  }
}

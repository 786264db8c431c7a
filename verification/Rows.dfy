// Every row a populate run adds, table by table: some fixture asks for it with
// just these contents.
module Rows {
  import opened Basics
  import opened Addresses
  import opened Inventory
  import opened PopulateSpec
  import opened PopulateSafety
  import opened Conflicts
  import opened Programs
  import opened Success

  // ----- rows and the actions that make them ---------------------------------------------

  ghost predicate MadeSite(a: Action, row: Row<string, string>) {
    a.EnsureSite? && row == Row(a.slug, a.slug)
  }

  ghost predicate MadeManufacturer(a: Action, row: Row<string, string>) {
    a.EnsureManufacturer? && row == Row(Slugify(a.name), a.name)
  }

  ghost predicate MadeRole(a: Action, row: Row<string, string>) {
    a.EnsureDeviceRole? && row == Row(a.slug, a.slug)
  }

  ghost predicate MadeType(a: Action, b: Base, row: Row<string, DeviceTypeBody>) {
    && a.EnsureDeviceType? && row.key == a.spec.slug
    && row.body.model == a.spec.model && row.body.uHeight == Some(a.spec.uHeight)
    && row.body.manufacturer in b.manufacturers.rows
    && b.manufacturers.rows[row.body.manufacturer].key == Slugify(a.spec.manufacturer)
  }

  ghost predicate MadeVlan(a: Action, b: Base, row: Row<VlanKey, string>) {
    && a.EnsureVlan? && row.key.vid == a.vlan.vid && row.body == a.vlan.name
    && row.key.site in b.sites.rows && b.sites.rows[row.key.site].key == a.site
  }

  ghost predicate MadeDeviceRow(a: Action, b: Base, row: Row<string, DeviceBody>) {
    && a.EnsureDevice? && row.key == a.tag && row.body.name == a.hostname && row.body.status == "active"
    && row.body.customFields == a.customFields
    && row.body.site in b.sites.rows && b.sites.rows[row.body.site].key == a.site
    && row.body.deviceType in b.deviceTypes.rows && b.deviceTypes.rows[row.body.deviceType].key == a.typeSlug
    && row.body.role.Some? && row.body.role.value in b.roles.rows && b.roles.rows[row.body.role.value].key == a.role
  }

  ghost predicate MadePort(a: Action, b: Base, row: Row<IfaceKey, IfaceBody>) {
    && a.EnsureInterface? && row.key.name == a.iface.name
    && row.key.device in b.devices.rows && b.devices.rows[row.key.device].key == a.tag
    && row.body.kind == a.iface.kind && row.body.mtu == (if a.iface.mtu == Some(0) then None else a.iface.mtu)
    && row.body.customFields == a.iface.customFields
    && (row.body.untagged.Some? <==> a.untagged.Some?)
    && (a.untagged.Some? ==> IsVlan(b, row.body.untagged.value, a.untagged.value, a.site))
  }

  ghost predicate MadeMac(a: Action, b: Base, row: Row<string, Option<Id>>) {
    a.EnsureMac? && row.key == a.mac && row.body.Some? && IsIface(b, row.body.value, a.tag, a.on)
  }

  ghost predicate MadeIp(a: Action, b: Base, row: Row<IpText, Option<Id>>) {
    a.EnsureIp? && row.key == a.ip && row.body.Some? && IsIface(b, row.body.value, a.tag, a.on)
  }

  // Every row of later that t lacks was made by an action of the list.
  ghost predicate NewMade<K, B>(acts: seq<Action>, t: Table<K, B>, later: Table<K, B>,
                                made: (Action, Row<K, B>) -> bool)
  {
    forall i :: i in later.rows && i !in t.rows ==> exists a :: a in acts && made(a, later.rows[i])
  }

  ghost predicate NamesMade(acts: seq<Action>, b: Base, later: Base) {
    && NewMade(acts, b.sites, later.sites, MadeSite)
    && NewMade(acts, b.manufacturers, later.manufacturers, MadeManufacturer)
    && NewMade(acts, b.roles, later.roles, MadeRole)
  }

  ghost predicate TypesMade(acts: seq<Action>, b: Base, later: Base) {
    NewMade(acts, b.deviceTypes, later.deviceTypes, (a, row) => MadeType(a, later, row))
  }

  ghost predicate VlansMade(acts: seq<Action>, b: Base, later: Base) {
    NewMade(acts, b.vlans, later.vlans, (a, row) => MadeVlan(a, later, row))
  }

  ghost predicate DeviceRowsMade(acts: seq<Action>, b: Base, later: Base) {
    NewMade(acts, b.devices, later.devices, (a, row) => MadeDeviceRow(a, later, row))
  }

  ghost predicate PortsMade(acts: seq<Action>, b: Base, later: Base) {
    NewMade(acts, b.ifaces, later.ifaces, (a, row) => MadePort(a, later, row))
  }

  ghost predicate MacsMade(acts: seq<Action>, b: Base, later: Base) {
    NewMade(acts, b.macs, later.macs, (a, row) => MadeMac(a, later, row))
  }

  ghost predicate IpRowsMade(acts: seq<Action>, b: Base, later: Base) {
    NewMade(acts, b.ips, later.ips, (a, row) => MadeIp(a, later, row))
  }

  ghost predicate AllMade(acts: seq<Action>, b: Base, later: Base) {
    && NamesMade(acts, b, later) && TypesMade(acts, b, later) && VlansMade(acts, b, later)
    && DeviceRowsMade(acts, b, later) && PortsMade(acts, b, later) && MacsMade(acts, b, later)
    && IpRowsMade(acts, b, later)
  }

  // ----- one creating step -----------------------------------------------------------------

  lemma AllParts(b: Base, later: Base)
    requires b.Valid() && b.Within(later)
    ensures DeviceTypesRefer(b.deviceTypes, b.manufacturers) && VlansRefer(b.vlans, b.sites)
    ensures DevicesRefer(b.devices, b.sites, b.deviceTypes, b.roles) && IfacesRefer(b.ifaces, b.devices, b.vlans)
    ensures AssignedRefer(b.macs, b.ifaces) && AssignedRefer(b.ips, b.ifaces)
    ensures b.sites.Within(later.sites) && b.manufacturers.Within(later.manufacturers)
    ensures b.deviceTypes.Within(later.deviceTypes) && b.roles.Within(later.roles) && b.vlans.Within(later.vlans)
    ensures b.devices.Within(later.devices) && b.ifaces.Within(later.ifaces)
    ensures b.macs.Within(later.macs) && b.ips.Within(later.ips)
  {
  }

  // The step added at most one row to the table, and made it.
  ghost predicate AddedBy<K, B>(c: Action, t: Table<K, B>, later: Table<K, B>, made: (Action, Row<K, B>) -> bool) {
    later.rows == t.rows || (t.next in later.rows && later.rows == t.rows[t.next := later.rows[t.next]]
                             && made(c, later.rows[t.next]))
  }

  lemma NewMadeStep<K, B>(acts: seq<Action>, c: Action, t0: Table<K, B>, t: Table<K, B>, later: Table<K, B>,
                          before: (Action, Row<K, B>) -> bool, after: (Action, Row<K, B>) -> bool)
    requires NewMade(acts, t0, t, before) && t.Within(later) && AddedBy(c, t, later, after)
    requires forall a, i :: i in t.rows && before(a, t.rows[i]) ==> after(a, t.rows[i])
    ensures NewMade(acts + [c], t0, later, after)
  {
    forall i | i in later.rows && i !in t0.rows ensures exists a :: a in acts + [c] && after(a, later.rows[i]) {
      if i in t.rows {
        var a :| a in acts && before(a, t.rows[i]);
        assert a in acts + [c];
      } else {
        assert c in acts + [c];
      }
    }
  }

  lemma NamesAdded(c: Action, b: Base)
    requires !IsWiring(c) && Ensure(c, b).Grow?
    ensures var later := Ensure(c, b).base;
            && AddedBy(c, b.sites, later.sites, MadeSite)
            && AddedBy(c, b.manufacturers, later.manufacturers, MadeManufacturer)
            && AddedBy(c, b.roles, later.roles, MadeRole)
  {
    hide Slugify;
  }

  lemma TypeAdded(c: Action, b: Base)
    requires b.manufacturers.Valid() && !IsWiring(c) && Ensure(c, b).Grow?
    ensures var later := Ensure(c, b).base;
            AddedBy(c, b.deviceTypes, later.deviceTypes, (a, row) => MadeType(a, later, row))
  {
    hide Slugify;
  }

  lemma VlanAdded(c: Action, b: Base)
    requires b.sites.Valid() && !IsWiring(c) && Ensure(c, b).Grow?
    ensures var later := Ensure(c, b).base;
            AddedBy(c, b.vlans, later.vlans, (a, row) => MadeVlan(a, later, row))
  {
    hide Slugify;
  }

  lemma DeviceAdded(c: Action, b: Base)
    requires b.sites.Valid() && b.deviceTypes.Valid() && b.roles.Valid() && !IsWiring(c) && Ensure(c, b).Grow?
    ensures var later := Ensure(c, b).base;
            AddedBy(c, b.devices, later.devices, (a, row) => MadeDeviceRow(a, later, row))
  {
    hide Slugify;
  }

  lemma PortAdded(c: Action, b: Base)
    requires b.devices.Valid() && b.sites.Valid() && b.vlans.Valid() && !IsWiring(c) && Ensure(c, b).Grow?
    ensures var later := Ensure(c, b).base;
            AddedBy(c, b.ifaces, later.ifaces, (a, row) => MadePort(a, later, row))
  {
    hide Slugify;
  }

  lemma MacAdded(c: Action, b: Base)
    requires b.Valid() && !IsWiring(c) && Ensure(c, b).Grow? && b.Within(Ensure(c, b).base)
    ensures var later := Ensure(c, b).base;
            AddedBy(c, b.macs, later.macs, (a, row) => MadeMac(a, later, row))
  {
    hide Iface, IsIface, Base.Valid, Base.Within, Ensure;
    GrownHost(c, b);
    if Ensure(c, b).base.macs != b.macs { OwnIface(b, Ensure(c, b).base, c.tag, c.on); }
  }

  lemma IpAdded(c: Action, b: Base)
    requires b.Valid() && !IsWiring(c) && Ensure(c, b).Grow? && b.Within(Ensure(c, b).base)
    ensures var later := Ensure(c, b).base;
            AddedBy(c, b.ips, later.ips, (a, row) => MadeIp(a, later, row))
  {
    hide Iface, IsIface, Base.Valid, Base.Within, Ensure;
    GrownHost(c, b);
    if Ensure(c, b).base.ips != b.ips { OwnIface(b, Ensure(c, b).base, c.tag, c.on); }
  }

  // ----- every step keeps AllMade ----------------------------------------------------------

  lemma NamesStep(acts: seq<Action>, c: Action, b0: Base, b: Base, later: Base)
    requires b.Valid() && b.Within(later) && !IsWiring(c) && Ensure(c, b) == Grow(later) && NamesMade(acts, b0, b)
    ensures NamesMade(acts + [c], b0, later)
  {
    hide Ensure, Base.Valid, Base.Within, NewMade, AddedBy, MadeSite, MadeManufacturer, MadeRole;
    AllParts(b, later);
    NamesAdded(c, b);
    NewMadeStep(acts, c, b0.sites, b.sites, later.sites, MadeSite, MadeSite);
    NewMadeStep(acts, c, b0.manufacturers, b.manufacturers, later.manufacturers, MadeManufacturer, MadeManufacturer);
    NewMadeStep(acts, c, b0.roles, b.roles, later.roles, MadeRole, MadeRole);
  }

  lemma TypesStep(acts: seq<Action>, c: Action, b0: Base, b: Base, later: Base)
    requires b.Valid() && b.Within(later) && !IsWiring(c) && Ensure(c, b) == Grow(later) && TypesMade(acts, b0, b)
    ensures TypesMade(acts + [c], b0, later)
  {
    hide Ensure, Base.Valid, Base.Within, NewMade, AddedBy, Slugify, Base.TablesValid, Table.Valid;
    AllParts(b, later);
    ValidTables(b);
    Tables(b);
    TypeAdded(c, b);
    NewMadeStep(acts, c, b0.deviceTypes, b.deviceTypes, later.deviceTypes, (a, row) => MadeType(a, b, row),
                (a, row) => MadeType(a, later, row));
  }

  lemma VlansStep(acts: seq<Action>, c: Action, b0: Base, b: Base, later: Base)
    requires b.Valid() && b.Within(later) && !IsWiring(c) && Ensure(c, b) == Grow(later) && VlansMade(acts, b0, b)
    ensures VlansMade(acts + [c], b0, later)
  {
    hide Ensure, Base.Valid, Base.Within, NewMade, AddedBy, Base.TablesValid, Table.Valid;
    AllParts(b, later);
    ValidTables(b);
    Tables(b);
    VlanAdded(c, b);
    NewMadeStep(acts, c, b0.vlans, b.vlans, later.vlans, (a, row) => MadeVlan(a, b, row),
                (a, row) => MadeVlan(a, later, row));
  }

  lemma DevicesStep(acts: seq<Action>, c: Action, b0: Base, b: Base, later: Base)
    requires b.Valid() && b.Within(later) && !IsWiring(c) && Ensure(c, b) == Grow(later) && DeviceRowsMade(acts, b0, b)
    ensures DeviceRowsMade(acts + [c], b0, later)
  {
    hide Ensure, Base.Valid, Base.Within, NewMade, AddedBy, Base.TablesValid, Table.Valid;
    AllParts(b, later);
    ValidTables(b);
    Tables(b);
    DeviceAdded(c, b);
    NewMadeStep(acts, c, b0.devices, b.devices, later.devices, (a, row) => MadeDeviceRow(a, b, row),
                (a, row) => MadeDeviceRow(a, later, row));
  }

  lemma PortLater(a: Action, b: Base, later: Base, i: Id)
    requires IfacesRefer(b.ifaces, b.devices, b.vlans) && VlansRefer(b.vlans, b.sites) && i in b.ifaces.rows
    requires b.devices.Within(later.devices) && b.vlans.Within(later.vlans) && b.sites.Within(later.sites)
    requires MadePort(a, b, b.ifaces.rows[i])
    ensures MadePort(a, later, b.ifaces.rows[i])
  {
  }

  lemma PortsStep(acts: seq<Action>, c: Action, b0: Base, b: Base, later: Base)
    requires b.Valid() && b.Within(later) && !IsWiring(c) && Ensure(c, b) == Grow(later) && PortsMade(acts, b0, b)
    ensures PortsMade(acts + [c], b0, later)
  {
    hide Ensure, Base.Valid, Base.Within, NewMade, AddedBy, Base.TablesValid, Table.Valid, MadePort;
    AllParts(b, later);
    ValidTables(b);
    Tables(b);
    PortAdded(c, b);
    forall a, i | i in b.ifaces.rows && MadePort(a, b, b.ifaces.rows[i]) ensures MadePort(a, later, b.ifaces.rows[i]) {
      PortLater(a, b, later, i);
    }
    NewMadeStep(acts, c, b0.ifaces, b.ifaces, later.ifaces, (a, row) => MadePort(a, b, row),
                (a, row) => MadePort(a, later, row));
  }

  lemma MacsStep(acts: seq<Action>, c: Action, b0: Base, b: Base, later: Base)
    requires b.Valid() && b.Within(later) && !IsWiring(c) && Ensure(c, b) == Grow(later) && MacsMade(acts, b0, b)
    ensures MacsMade(acts + [c], b0, later)
  {
    hide Ensure, Base.Valid, Base.Within, NewMade, AddedBy, IsIface;
    AllParts(b, later);
    MacAdded(c, b);
    forall a, i | i in b.macs.rows && MadeMac(a, b, b.macs.rows[i]) ensures MadeMac(a, later, b.macs.rows[i]) {
      IfaceStays(b, later, b.macs.rows[i].body.value, a.tag, a.on);
    }
    NewMadeStep(acts, c, b0.macs, b.macs, later.macs, (a, row) => MadeMac(a, b, row),
                (a, row) => MadeMac(a, later, row));
  }

  lemma IpsStep(acts: seq<Action>, c: Action, b0: Base, b: Base, later: Base)
    requires b.Valid() && b.Within(later) && !IsWiring(c) && Ensure(c, b) == Grow(later) && IpRowsMade(acts, b0, b)
    ensures IpRowsMade(acts + [c], b0, later)
  {
    hide Ensure, Base.Valid, Base.Within, NewMade, AddedBy, IsIface;
    AllParts(b, later);
    IpAdded(c, b);
    forall a, i | i in b.ips.rows && MadeIp(a, b, b.ips.rows[i]) ensures MadeIp(a, later, b.ips.rows[i]) {
      IfaceStays(b, later, b.ips.rows[i].body.value, a.tag, a.on);
    }
    NewMadeStep(acts, c, b0.ips, b.ips, later.ips, (a, row) => MadeIp(a, b, row), (a, row) => MadeIp(a, later, row));
  }

  lemma GrowStep(acts: seq<Action>, c: Action, b0: Base, b: Base, later: Base)
    requires b.Valid() && b.Within(later) && !IsWiring(c) && Ensure(c, b) == Grow(later) && AllMade(acts, b0, b)
    ensures AllMade(acts + [c], b0, later)
  {
    hide Ensure, Base.Valid, Base.Within, NamesMade, TypesMade, VlansMade, DeviceRowsMade, PortsMade, MacsMade,
      IpRowsMade;
    NamesStep(acts, c, b0, b, later);
    TypesStep(acts, c, b0, b, later);
    VlansStep(acts, c, b0, b, later);
    DevicesStep(acts, c, b0, b, later);
    PortsStep(acts, c, b0, b, later);
    MacsStep(acts, c, b0, b, later);
    IpsStep(acts, c, b0, b, later);
  }

  lemma MoreActions<K, B>(acts: seq<Action>, c: Action, t: Table<K, B>, later: Table<K, B>,
                          made: (Action, Row<K, B>) -> bool)
    requires NewMade(acts, t, later, made)
    ensures NewMade(acts + [c], t, later, made)
  {
    forall i | i in later.rows && i !in t.rows ensures exists a :: a in acts + [c] && made(a, later.rows[i]) {
      var a :| a in acts && made(a, later.rows[i]);
      assert a in acts + [c];
    }
  }

  lemma MadeMore(acts: seq<Action>, c: Action, b0: Base, b: Base)
    requires AllMade(acts, b0, b)
    ensures AllMade(acts + [c], b0, b)
  {
    hide NewMade;
    MoreActions(acts, c, b0.sites, b.sites, MadeSite);
    MoreActions(acts, c, b0.manufacturers, b.manufacturers, MadeManufacturer);
    MoreActions(acts, c, b0.roles, b.roles, MadeRole);
    MoreActions(acts, c, b0.deviceTypes, b.deviceTypes, (a, row) => MadeType(a, b, row));
    MoreActions(acts, c, b0.vlans, b.vlans, (a, row) => MadeVlan(a, b, row));
    MoreActions(acts, c, b0.devices, b.devices, (a, row) => MadeDeviceRow(a, b, row));
    MoreActions(acts, c, b0.ifaces, b.ifaces, (a, row) => MadePort(a, b, row));
    MoreActions(acts, c, b0.macs, b.macs, (a, row) => MadeMac(a, b, row));
    MoreActions(acts, c, b0.ips, b.ips, (a, row) => MadeIp(a, b, row));
  }

  lemma NothingNew(b: Base)
    ensures AllMade([], b, b)
  {
  }

  // On every run, also one that stops: each row added was made by an action of
  // the program.
  lemma {:induction false} RunMade(acts: seq<Action>, st: Store)
    requires st.Valid()
    ensures AllMade(acts, st.base, Exec(acts, st).store.base)
  {
    hide Store.Valid, Base.Valid, Base.Within, AllMade, Step;
    if acts == [] {
      NothingNew(st.base);
    } else {
      var init, c := acts[..|acts| - 1], acts[|acts| - 1];
      assert acts == init + [c];
      RunMade(init, st);
      var mid := Exec(init, st).store;
      if Exec(init, st).stop.None? && Step(c, mid).Done? && Step(c, mid).store.base != mid.base {
        RunWithin(init, st);
        BasesValid(st, mid);
        StepSafe(c, mid);
        StepGrows(c, mid);
        GrowStep(init, c, st.base, mid.base, Step(c, mid).store.base);
      } else {
        MadeMore(init, c, st.base, mid.base);
      }
    }
  }

  // ----- in terms of the fixtures ------------------------------------------------------------

  ghost predicate IsType(b: Base, row: Row<string, DeviceTypeBody>, spec: DeviceTypeSpec) {
    && row.key == spec.slug && row.body.model == spec.model && row.body.uHeight == Some(spec.uHeight)
    && row.body.manufacturer in b.manufacturers.rows
    && b.manufacturers.rows[row.body.manufacturer].key == Slugify(spec.manufacturer)
  }

  ghost predicate IsVlanOf(b: Base, row: Row<VlanKey, string>, fx: HostFixture, v: VlanSpec) {
    && v in fx.vlans && row.key.vid == v.vid && row.body == v.name
    && row.key.site in b.sites.rows && b.sites.rows[row.key.site].key == fx.site
  }

  ghost predicate IsDeviceOf(b: Base, row: Row<string, DeviceBody>, fx: HostFixture) {
    && row.key == fx.assetTag && row.body.name == fx.hostname && row.body.status == "active"
    && row.body.customFields == fx.deviceCustomFields
    && row.body.site in b.sites.rows && b.sites.rows[row.body.site].key == fx.site
    && row.body.deviceType in b.deviceTypes.rows && b.deviceTypes.rows[row.body.deviceType].key == fx.deviceType.slug
    && row.body.role.Some? && row.body.role.value in b.roles.rows
    && b.roles.rows[row.body.role.value].key == fx.deviceRole
  }

  // The port's untagged VLAN is the one the spec numbers, if the fixture declares
  // it; zero and absent MTUs and VLAN numbers are the same.
  ghost predicate IsPortOf(b: Base, row: Row<IfaceKey, IfaceBody>, fx: HostFixture, s: InterfaceSpec) {
    && s in fx.interfaces && row.key.name == s.name
    && row.key.device in b.devices.rows && b.devices.rows[row.key.device].key == fx.assetTag
    && row.body.kind == s.kind && row.body.customFields == s.customFields
    && row.body.mtu == (if s.mtu == Some(0) then None else s.mtu)
    && (row.body.untagged.Some? <==>
        s.untaggedVlan.Some? && s.untaggedVlan.value != 0 && exists v :: v in fx.vlans && v.vid == s.untaggedVlan.value)
    && (row.body.untagged.Some? ==> IsVlan(b, row.body.untagged.value, s.untaggedVlan.value, fx.site))
  }

  ghost predicate IsMacOf(b: Base, row: Row<string, Option<Id>>, fx: HostFixture, s: InterfaceSpec) {
    s in fx.interfaces && row.key != "" && s.mac == Some(row.key)
    && row.body.Some? && IsIface(b, row.body.value, fx.assetTag, s.name)
  }

  ghost predicate IsIpOf(b: Base, row: Row<IpText, Option<Id>>, fx: HostFixture, s: InterfaceSpec) {
    s in fx.interfaces && row.key != OtherText("") && s.ip == Some(row.key)
    && row.body.Some? && IsIface(b, row.body.value, fx.assetTag, s.name)
  }

  // The base a run of the program had reached after n of its actions, or where it
  // had stopped before.
  function Reached(fixtures: seq<HostFixture>, st: Store, n: nat): Base
    requires n <= |CompileAll(fixtures)|
  {
    Exec(CompileAll(fixtures)[..n], st).store.base
  }

  lemma MakerAsks<K, B>(fixtures: seq<HostFixture>, n: nat, t: Table<K, B>, later: Table<K, B>,
                        made: (Action, Row<K, B>) -> bool, i: Id) returns (fx: HostFixture, a: Action)
    requires n <= |CompileAll(fixtures)| && NewMade(CompileAll(fixtures)[..n], t, later, made)
    requires i in later.rows && i !in t.rows
    ensures fx in fixtures && AskedBy(a, fx) && made(a, later.rows[i])
  {
    hide CompileAll, AskedBy;
    a :| a in CompileAll(fixtures)[..n] && made(a, later.rows[i]);
    assert a in CompileAll(fixtures);
    InCompileAll(a, fixtures);
    fx :| fx in fixtures && AskedBy(a, fx);
  }

  // Sites, roles and manufacturers that a run adds have the names the fixtures
  // give; device types and VLANs have all their contents from one fixture.
  lemma CatalogueAsAsked(fixtures: seq<HostFixture>, st: Store, n: nat)
    requires st.Valid() && n <= |CompileAll(fixtures)|
    ensures var b, later := st.base, Reached(fixtures, st, n);
            && (forall i :: i in later.sites.rows && i !in b.sites.rows ==>
                  exists fx :: fx in fixtures && later.sites.rows[i] == Row(fx.site, fx.site))
            && (forall i :: i in later.roles.rows && i !in b.roles.rows ==>
                  exists fx :: fx in fixtures && later.roles.rows[i] == Row(fx.deviceRole, fx.deviceRole))
            && (forall i :: i in later.manufacturers.rows && i !in b.manufacturers.rows ==>
                  exists fx :: fx in fixtures && later.manufacturers.rows[i] ==
                                                 Row(Slugify(fx.deviceType.manufacturer), fx.deviceType.manufacturer))
            && (forall i :: i in later.deviceTypes.rows && i !in b.deviceTypes.rows ==>
                  exists fx :: fx in fixtures && IsType(later, later.deviceTypes.rows[i], fx.deviceType))
            && (forall i :: i in later.vlans.rows && i !in b.vlans.rows ==>
                  exists fx, v :: fx in fixtures && IsVlanOf(later, later.vlans.rows[i], fx, v))
  {
    hide CompileAll, Exec, Slugify, NewMade, Store.Valid;
    var b, later := st.base, Reached(fixtures, st, n);
    RunMade(CompileAll(fixtures)[..n], st);
    forall i | i in later.sites.rows && i !in b.sites.rows
      ensures exists fx :: fx in fixtures && later.sites.rows[i] == Row(fx.site, fx.site)
    {
      var fx, a := MakerAsks(fixtures, n, b.sites, later.sites, MadeSite, i);
    }
    forall i | i in later.roles.rows && i !in b.roles.rows
      ensures exists fx :: fx in fixtures && later.roles.rows[i] == Row(fx.deviceRole, fx.deviceRole)
    {
      var fx, a := MakerAsks(fixtures, n, b.roles, later.roles, MadeRole, i);
    }
    forall i | i in later.manufacturers.rows && i !in b.manufacturers.rows
      ensures exists fx :: fx in fixtures && later.manufacturers.rows[i] ==
                                             Row(Slugify(fx.deviceType.manufacturer), fx.deviceType.manufacturer)
    {
      var fx, a := MakerAsks(fixtures, n, b.manufacturers, later.manufacturers, MadeManufacturer, i);
    }
    forall i | i in later.deviceTypes.rows && i !in b.deviceTypes.rows
      ensures exists fx :: fx in fixtures && IsType(later, later.deviceTypes.rows[i], fx.deviceType)
    {
      var fx, a := MakerAsks(fixtures, n, b.deviceTypes, later.deviceTypes, (a, row) => MadeType(a, later, row), i);
    }
    forall i | i in later.vlans.rows && i !in b.vlans.rows
      ensures exists fx, v :: fx in fixtures && IsVlanOf(later, later.vlans.rows[i], fx, v)
    {
      var fx, a := MakerAsks(fixtures, n, b.vlans, later.vlans, (a, row) => MadeVlan(a, later, row), i);
      assert IsVlanOf(later, later.vlans.rows[i], fx, a.vlan);
    }
  }

  lemma PortAsAsked(b: Base, row: Row<IfaceKey, IfaceBody>, fx: HostFixture, a: Action) returns (s: InterfaceSpec)
    requires AskedBy(a, fx) && MadePort(a, b, row)
    ensures IsPortOf(b, row, fx, s)
  {
    hide IsVlan;
    s := a.iface;
    if a.untagged.Some? {
      var j :| 0 <= j < |fx.vlans| && fx.vlans[j].vid == a.untagged.value;
      assert fx.vlans[j] in fx.vlans;
    } else if a.iface.untaggedVlan.Some? && a.iface.untaggedVlan.value != 0 {
      forall v | v in fx.vlans ensures v.vid != a.iface.untaggedVlan.value {
        var j :| 0 <= j < |fx.vlans| && fx.vlans[j] == v;
      }
    }
  }

  // Devices, interfaces, MACs and addresses that a run adds have all their
  // contents, references included, from one fixture and one of its interfaces.
  lemma HostsAsAsked(fixtures: seq<HostFixture>, st: Store, n: nat)
    requires st.Valid() && n <= |CompileAll(fixtures)|
    ensures var b, later := st.base, Reached(fixtures, st, n);
            && (forall i :: i in later.devices.rows && i !in b.devices.rows ==>
                  exists fx :: fx in fixtures && IsDeviceOf(later, later.devices.rows[i], fx))
            && (forall i :: i in later.ifaces.rows && i !in b.ifaces.rows ==>
                  exists fx, s :: fx in fixtures && IsPortOf(later, later.ifaces.rows[i], fx, s))
            && (forall i :: i in later.macs.rows && i !in b.macs.rows ==>
                  exists fx, s :: fx in fixtures && IsMacOf(later, later.macs.rows[i], fx, s))
            && (forall i :: i in later.ips.rows && i !in b.ips.rows ==>
                  exists fx, s :: fx in fixtures && IsIpOf(later, later.ips.rows[i], fx, s))
  {
    hide CompileAll, Exec, NewMade, Store.Valid, MadePort, IsPortOf, IsIface, AskedBy;
    var b, later := st.base, Reached(fixtures, st, n);
    RunMade(CompileAll(fixtures)[..n], st);
    forall i | i in later.devices.rows && i !in b.devices.rows
      ensures exists fx :: fx in fixtures && IsDeviceOf(later, later.devices.rows[i], fx)
    {
      var fx, a := MakerAsks(fixtures, n, b.devices, later.devices, (a, row) => MadeDeviceRow(a, later, row), i);
      AskedDevice(a, fx);
    }
    forall i | i in later.ifaces.rows && i !in b.ifaces.rows
      ensures exists fx, s :: fx in fixtures && IsPortOf(later, later.ifaces.rows[i], fx, s)
    {
      var fx, a := MakerAsks(fixtures, n, b.ifaces, later.ifaces, (a, row) => MadePort(a, later, row), i);
      var s := PortAsAsked(later, later.ifaces.rows[i], fx, a);
    }
    forall i | i in later.macs.rows && i !in b.macs.rows
      ensures exists fx, s :: fx in fixtures && IsMacOf(later, later.macs.rows[i], fx, s)
    {
      var fx, a := MakerAsks(fixtures, n, b.macs, later.macs, (a, row) => MadeMac(a, later, row), i);
      var s := MacAsker(fx, a);
      assert IsMacOf(later, later.macs.rows[i], fx, s);
    }
    forall i | i in later.ips.rows && i !in b.ips.rows
      ensures exists fx, s :: fx in fixtures && IsIpOf(later, later.ips.rows[i], fx, s)
    {
      var fx, a := MakerAsks(fixtures, n, b.ips, later.ips, (a, row) => MadeIp(a, later, row), i);
      var s := IpAsker(fx, a);
      assert IsIpOf(later, later.ips.rows[i], fx, s);
    }
  }

  lemma AskedDevice(a: Action, fx: HostFixture)
    requires a.EnsureDevice? && AskedBy(a, fx)
    ensures a == EnsureDevice(fx.assetTag, fx.hostname, fx.site, fx.deviceType.slug, fx.deviceRole,
                              fx.deviceCustomFields)
  {
  }
}

// Loading what populate wrote gives back the fixture's own intent.
module RoundTrip {
  import opened Basics
  import opened Addresses
  import opened Inventory
  import opened PopulateSpec
  import opened PopulateSafety
  import opened Restart
  import opened Programs
  import opened Models
  import opened Loader
  import opened LoadOrder
  import opened FixtureView

  // ----- where the records of a new device come from -----------------------------------

  ghost predicate OnDevice(b: Base, tag: string, iface: Id) {
    tag in b.devices.index && iface in b.ifaces.rows && b.ifaces.rows[iface].key.device == b.devices.index[tag]
  }

  // An interface that was there before is on the device now only if it was then.
  lemma OnDeviceBefore(b: Base, later: Base, tag: string, iface: Id)
    requires b.devices.Valid() && later.devices.Valid() && IfacesRefer(b.ifaces, b.devices, b.vlans)
    requires b.devices.Within(later.devices) && b.ifaces.Within(later.ifaces)
    requires iface in b.ifaces.rows && OnDevice(later, tag, iface)
    ensures OnDevice(b, tag, iface)
  {
  }

  function UntaggedId(b: Base, a: Action): Option<Id>
    requires a.EnsureInterface?
  {
    if a.untagged.Some? && VlanAt(b, a.untagged.value, a.site).Some?
    then Some(VlanAt(b, a.untagged.value, a.site).value.id) else None
  }

  // The interface action that made this record.
  ghost predicate MadeIface(a: Action, b: Base, tag: string, row: Row<IfaceKey, IfaceBody>) {
    && a.EnsureInterface? && a.tag == tag && a.iface.name == row.key.name
    && (a.untagged.Some? ==> VlanAt(b, a.untagged.value, a.site).Some?)
    && row.body == IfacePayload(a, UntaggedId(b, a))
  }

  // An interface record is the work of the first action that asks for its name.
  ghost predicate IfaceFrom(acts: seq<Action>, b: Base, tag: string, id: Id)
    requires id in b.ifaces.rows
  {
    var first := First(acts, MakesIface(tag, b.ifaces.rows[id].key.name));
    first.Some? && MadeIface(first.value, b, tag, b.ifaces.rows[id])
  }

  ghost predicate IfacesMade(acts: seq<Action>, b: Base, tag: string) {
    forall id :: OnDevice(b, tag, id) ==> IfaceFrom(acts, b, tag, id)
  }

  ghost predicate MadeDevice(a: Action, b: Base, tag: string, body: DeviceBody) {
    && a.EnsureDevice? && a.tag == tag
    && b.sites.Get(a.site).Some? && b.deviceTypes.Get(a.typeSlug).Some? && b.roles.Get(a.role).Some?
    && body == DeviceBody(a.hostname, b.sites.Get(a.site).value.id, b.deviceTypes.Get(a.typeSlug).value.id,
                          Some(b.roles.Get(a.role).value.id), "active", a.customFields)
  }

  ghost predicate DeviceMade(acts: seq<Action>, b: Base, tag: string) {
    b.devices.Get(tag).Some? ==> exists a :: a in acts && MadeDevice(a, b, tag, b.devices.Get(tag).value.body)
  }

  // A primary MAC is the one of the last action that assigns the interface's.
  ghost predicate PrimaryFrom(last: Option<Action>, st: Store, id: Id) {
    match last
    case None => st.Wired(Slot(id, PrimaryMacWire)).None?
    case Some(m) =>
      m.SetPrimaryMac? && st.base.macs.Get(m.mac).Some?
      && st.Wired(Slot(id, PrimaryMacWire)) == Some(st.base.macs.Get(m.mac).value.id)
  }

  ghost predicate PrimariesMade(acts: seq<Action>, st: Store, tag: string) {
    forall id :: OnDevice(st.base, tag, id) ==>
      PrimaryFrom(Last(acts, SetsPrimary(tag, st.base.ifaces.rows[id].key.name)), st, id)
  }

  ghost predicate IpsMade(acts: seq<Action>, b: Base, tag: string) {
    forall ip, id :: OnDevice(b, tag, id) && ip in AddressesOn(b, id) ==>
      EnsureIp(tag, b.ifaces.rows[id].key.name, ip) in acts
  }

  // Everything recorded for the device was made by an action of acts.
  ghost predicate Made(acts: seq<Action>, st: Store, tag: string) {
    DeviceMade(acts, st.base, tag) && IfacesMade(acts, st.base, tag) && PrimariesMade(acts, st, tag)
    && IpsMade(acts, st.base, tag)
  }

  // ----- what one creation can add to the tables the loader reads -------------------------

  ghost predicate NewRow<K, B>(t: Table<K, B>, later: Table<K, B>, id: Id)
    requires id in later.rows
  {
    !(id in t.rows && later.rows[id] == t.rows[id])
  }

  lemma NewIfaces(a: Action, b: Base)
    requires !IsWiring(a) && Ensure(a, b).Grow?
    ensures forall id :: id in Ensure(a, b).base.ifaces.rows && NewRow(b.ifaces, Ensure(a, b).base.ifaces, id) ==>
              && a.EnsureInterface? && b.devices.Get(a.tag).Some?
              && Ensure(a, b).base.ifaces.rows[id] ==
                 Row(IfaceKey(b.devices.Get(a.tag).value.id, a.iface.name), IfacePayload(a, UntaggedId(b, a)))
              && (a.untagged.Some? ==> VlanAt(b, a.untagged.value, a.site).Some?)
  {
  }

  lemma NewIps(a: Action, b: Base)
    requires !IsWiring(a) && Ensure(a, b).Grow? && b.ips.Valid()
    ensures forall ip :: Ensure(a, b).base.ips.Get(ip) != b.ips.Get(ip) ==>
              && a.EnsureIp? && ip == a.ip && Iface(b, a.tag, a.on).Some?
              && Ensure(a, b).base.ips.Get(ip).Some?
              && Ensure(a, b).base.ips.Get(ip).value.body == Some(Iface(b, a.tag, a.on).value.id)
  {
  }

  lemma NewDevices(a: Action, b: Base)
    requires !IsWiring(a) && Ensure(a, b).Grow? && b.devices.Valid()
    ensures forall tag :: Ensure(a, b).base.devices.Get(tag) != b.devices.Get(tag) ==>
              a.EnsureDevice? && tag == a.tag && Ensure(a, b).base.devices.Get(tag).Some?
              && MadeDevice(a, b, tag, Ensure(a, b).base.devices.Get(tag).value.body)
  {
  }

  // ----- every step keeps Made ---------------------------------------------------------------

  lemma MadeDeviceLater(a: Action, b: Base, c: Base, tag: string, body: DeviceBody)
    requires MadeDevice(a, b, tag, body) && b.Within(c)
    ensures MadeDevice(a, c, tag, body)
  {
  }

  lemma DeviceMadeStep(acts: seq<Action>, a: Action, b: Base, c: Base, tag: string)
    requires DeviceMade(acts, b, tag) && b.Within(c) && b.devices.Valid()
    requires c == b || (!IsWiring(a) && Ensure(a, b) == Grow(c))
    ensures DeviceMade(acts + [a], c, tag)
  {
    hide Ensure;
    if c.devices.Get(tag).Some? {
      if c.devices.Get(tag) == b.devices.Get(tag) {
        var m :| m in acts && MadeDevice(m, b, tag, b.devices.Get(tag).value.body);
        MadeDeviceLater(m, b, c, tag, b.devices.Get(tag).value.body);
        assert m in acts + [a];
      } else {
        NewDevices(a, b);
        MadeDeviceLater(a, b, c, tag, c.devices.Get(tag).value.body);
        assert a in acts + [a];
      }
    }
  }

  lemma FirstSnoc(acts: seq<Action>, a: Action, q: Action -> bool)
    ensures First(acts + [a], q) == if First(acts, q).Some? then First(acts, q) else if q(a) then Some(a) else None
  {
  }

  lemma LastSnoc(acts: seq<Action>, a: Action, q: Action -> bool)
    ensures Last(acts + [a], q) == if q(a) then Some(a) else Last(acts, q)
  {
  }

  // Every action of the list has been taken.
  ghost predicate AllTaken(acts: seq<Action>, b: Base) { forall m :: m in acts ==> Settled(m, b) }

  // A new interface has no earlier action of its name, ensuring or assigning.
  lemma NothingEarlier(acts: seq<Action>, a: Action, b: Base)
    requires AllTaken(acts, b) && a.EnsureInterface? && Ensure(a, b).Grow?
    ensures First(acts, MakesIface(a.tag, a.iface.name)).None?
    ensures Last(acts, SetsPrimary(a.tag, a.iface.name)).None?
  {
    hide First, Last, VlanAt, IfacePayload;
  }

  lemma MadeIfaceLater(m: Action, b: Base, c: Base, tag: string, row: Row<IfaceKey, IfaceBody>)
    requires MadeIface(m, b, tag, row) && b.Within(c)
    ensures MadeIface(m, c, tag, row)
  {
  }

  lemma IfacesMadeStep(acts: seq<Action>, a: Action, b: Base, c: Base, tag: string)
    requires IfacesMade(acts, b, tag) && b.Within(c) && b.Valid() && c.Valid() && AllTaken(acts, b)
    requires c == b || (!IsWiring(a) && Ensure(a, b) == Grow(c))
    ensures IfacesMade(acts + [a], c, tag)
  {
    hide Ensure, VlanAt, Base.Valid, First, MadeIface, AllTaken;
    TablesForDevices(b);
    TablesForDevices(c);
    forall id | OnDevice(c, tag, id) ensures IfaceFrom(acts + [a], c, tag, id) {
      var q := MakesIface(tag, c.ifaces.rows[id].key.name);
      FirstSnoc(acts, a, q);
      if id in b.ifaces.rows {
        OnDeviceBefore(b, c, tag, id);
        MadeIfaceLater(First(acts, q).value, b, c, tag, b.ifaces.rows[id]);
      } else {
        NewIfaces(a, b);
        SameDevice(b, c, a.tag, tag);
        NothingEarlier(acts, a, b);
        NewIsMade(a, b, c, id);
      }
    }
  }

  lemma NewIsMade(a: Action, b: Base, c: Base, id: Id)
    requires a.EnsureInterface? && b.Within(c) && id in c.ifaces.rows
    requires c.ifaces.rows[id].key.name == a.iface.name && c.ifaces.rows[id].body == IfacePayload(a, UntaggedId(b, a))
    requires a.untagged.Some? ==> VlanAt(b, a.untagged.value, a.site).Some?
    ensures MadeIface(a, c, a.tag, c.ifaces.rows[id])
  {
  }

  // The record made under tag' is on the device of tag: then the tags are the same.
  lemma SameDevice(b: Base, c: Base, tag': string, tag: string)
    requires b.devices.Within(c.devices) && c.devices.Valid() && b.devices.Get(tag').Some?
    requires tag in c.devices.index && c.devices.index[tag] == b.devices.Get(tag').value.id
    ensures tag == tag'
  {
  }

  // Only its own assignments write an interface's primary MAC.
  lemma OwnSlot(a: Action, b: Base, tag: string, id: Id)
    requires b.devices.Valid() && b.ifaces.Valid() && OnDevice(b, tag, id)
    requires IsWiring(a) && Target(a, b).Some? && Target(a, b).value.slot == Slot(id, PrimaryMacWire)
    ensures SetsPrimary(tag, b.ifaces.rows[id].key.name)(a)
  {
  }

  lemma OtherSlots(a: Action, st: Store, slot: Slot)
    requires Step(a, st).Done?
    requires !(IsWiring(a) && Target(a, st.base).Some? && Target(a, st.base).value.slot == slot)
    ensures Step(a, st).store.Wired(slot) == st.Wired(slot)
  {
  }

  // A step leaves the primary MAC of an interface alone unless it assigns it.
  lemma PrimaryKept(a: Action, st: Store, tag: string, id: Id)
    requires st.Valid() && Step(a, st).Done? && OnDevice(st.base, tag, id)
    requires !SetsPrimary(tag, st.base.ifaces.rows[id].key.name)(a)
    ensures Step(a, st).store.Wired(Slot(id, PrimaryMacWire)) == st.Wired(Slot(id, PrimaryMacWire))
  {
    hide Base.Valid, Target, Step;
    TablesForDevices(st.base);
    if IsWiring(a) && Target(a, st.base).Some? && Target(a, st.base).value.slot == Slot(id, PrimaryMacWire) {
      OwnSlot(a, st.base, tag, id);
      assert false;
    }
    OtherSlots(a, st, Slot(id, PrimaryMacWire));
  }

  // The assigning step.
  lemma PrimarySet(a: Action, st: Store, s: Store, tag: string, id: Id)
    requires st.Valid() && s.Valid() && Step(a, st).Done? && Step(a, st).store == s
    requires OnDevice(st.base, tag, id) && SetsPrimary(tag, st.base.ifaces.rows[id].key.name)(a)
    ensures PrimaryFrom(Some(a), s, id)
  {
    hide Base.Valid, WiresRefer;
    TablesForDevices(st.base);
  }

  lemma PrimaryLater(last: Option<Action>, st: Store, s: Store, id: Id)
    requires PrimaryFrom(last, st, id) && st.base.macs.Within(s.base.macs)
    requires st.Wired(Slot(id, PrimaryMacWire)) == s.Wired(Slot(id, PrimaryMacWire))
    ensures PrimaryFrom(last, s, id)
  {
  }

  // A new interface has no primary MAC yet.
  lemma PrimaryFresh(acts: seq<Action>, a: Action, st: Store, tag: string, id: Id)
    requires st.Valid() && Step(a, st).Done? && AllTaken(acts, st.base)
    requires OnDevice(Step(a, st).store.base, tag, id) && id !in st.base.ifaces.rows
    ensures var s := Step(a, st).store;
            PrimaryFrom(Last(acts + [a], SetsPrimary(tag, s.base.ifaces.rows[id].key.name)), s, id)
  {
    hide Base.Valid, Base.Within, Store.Valid, Ensure, Last, AllTaken, Step;
    var s := Step(a, st).store;
    StepSafe(a, st);
    BothBases(st, s);
    StepBase(a, st);
    NewIfaces(a, st.base);
    SameDevice(st.base, s.base, a.tag, tag);
    NothingEarlier(acts, a, st.base);
    LastSnoc(acts, a, SetsPrimary(tag, a.iface.name));
    OtherSlots(a, st, Slot(id, PrimaryMacWire));
    FreshSlot(st, id);
  }

  lemma FreshSlot(st: Store, id: Id)
    requires st.Valid() && id !in st.base.ifaces.rows
    ensures st.Wired(Slot(id, PrimaryMacWire)).None?
  {
  }

  lemma PrimariesMadeStep(acts: seq<Action>, a: Action, st: Store, tag: string)
    requires st.Valid() && PrimariesMade(acts, st, tag) && Step(a, st).Done? && AllTaken(acts, st.base)
    ensures PrimariesMade(acts + [a], Step(a, st).store, tag)
  {
    hide Base.Valid, Base.Within, Store.Valid, PrimaryFrom, Last, Step, AllTaken;
    var s := Step(a, st).store;
    StepSafe(a, st);
    BothBases(st, s);
    forall id | OnDevice(s.base, tag, id)
      ensures PrimaryFrom(Last(acts + [a], SetsPrimary(tag, s.base.ifaces.rows[id].key.name)), s, id)
    {
      var q := SetsPrimary(tag, s.base.ifaces.rows[id].key.name);
      LastSnoc(acts, a, q);
      if id !in st.base.ifaces.rows {
        PrimaryFresh(acts, a, st, tag, id);
      } else {
        OnDeviceBefore(st.base, s.base, tag, id);
        if q(a) {
          PrimarySet(a, st, s, tag, id);
        } else {
          PrimaryKept(a, st, tag, id);
          PrimaryLater(Last(acts, q), st, s, id);
        }
      }
    }
  }

  lemma BothBases(st: Store, s: Store)
    requires st.Valid() && s.Valid() && st.base.Within(s.base)
    ensures st.base.devices.Valid() && s.base.devices.Valid()
            && IfacesRefer(st.base.ifaces, st.base.devices, st.base.vlans)
    ensures st.base.devices.Within(s.base.devices) && st.base.ifaces.Within(s.base.ifaces)
            && st.base.macs.Within(s.base.macs)
  {
  }

  lemma TablesForDevices(b: Base)
    requires b.Valid()
    ensures b.devices.Valid() && b.ifaces.Valid() && b.ips.Valid() && b.macs.Valid()
    ensures IfacesRefer(b.ifaces, b.devices, b.vlans) && AssignedRefer(b.ips, b.ifaces)
  {
  }

  lemma DevicesWithin(b: Base, c: Base)
    requires b.Within(c)
    ensures b.devices.Within(c.devices) && b.ifaces.Within(c.ifaces)
  {
  }

  lemma IpsMadeStep(acts: seq<Action>, a: Action, b: Base, c: Base, tag: string)
    requires IpsMade(acts, b, tag) && b.Within(c) && b.Valid() && c.Valid()
    requires c == b || (!IsWiring(a) && Ensure(a, b) == Grow(c))
    ensures IpsMade(acts + [a], c, tag)
  {
    hide Ensure, Base.Valid, Base.Within;
    TablesForDevices(b);
    TablesForDevices(c);
    DevicesWithin(b, c);
    forall ip, id | OnDevice(c, tag, id) && ip in AddressesOn(c, id)
      ensures EnsureIp(tag, c.ifaces.rows[id].key.name, ip) in acts + [a]
    {
      if c.ips.Get(ip) == b.ips.Get(ip) {
        GetIn(b.ips, ip);
        OnDeviceBefore(b, c, tag, id);
        assert ip in AddressesOn(b, id);
        assert EnsureIp(tag, b.ifaces.rows[id].key.name, ip) in acts;
      } else {
        NewIps(a, b);
        IfaceRecord(b, a.tag, a.on);
        DeviceOfIface(b, a.tag, a.on);
        SameDevice(b, c, a.tag, tag);
        assert a in acts + [a];
      }
    }
  }

  lemma DeviceOfIface(b: Base, tag: string, name: string)
    requires Iface(b, tag, name).Some?
    ensures b.devices.Get(tag).Some?
  {
  }

  lemma {:induction false} ExecMade(acts: seq<Action>, st: Store, tag: string)
    requires st.Valid() && st.base.devices.Get(tag).None? && Exec(acts, st).stop.None?
    ensures Made(acts, Exec(acts, st).store, tag)
  {
    hide Base.Valid, Base.Within, Ensure, Target, DeviceMade, IfacesMade, PrimariesMade, IpsMade, Step;
    if acts == [] {
      NothingMade(st, tag);
    } else {
      var init, a := acts[..|acts| - 1], acts[|acts| - 1];
      assert acts == init + [a];
      ExecMade(init, st, tag);
      ExecSafe(init, st);
      AllSettled(init, st);
      var r := Exec(init, st);
      TablesForDevices(r.store.base);
      var c := Step(a, r.store).store;
      StepSafe(a, r.store);
      StepBase(a, r.store);
      DeviceMadeStep(init, a, r.store.base, c.base, tag);
      IfacesMadeStep(init, a, r.store.base, c.base, tag);
      IpsMadeStep(init, a, r.store.base, c.base, tag);
      PrimariesMadeStep(init, a, r.store, tag);
    }
  }

  lemma StepBase(a: Action, st: Store)
    requires Step(a, st).Done?
    ensures var c := Step(a, st).store.base;
            c == st.base || (!IsWiring(a) && Ensure(a, st.base) == Grow(c))
  {
  }

  lemma NothingMade(st: Store, tag: string)
    requires st.Valid() && st.base.devices.Get(tag).None?
    ensures Made([], st, tag)
  {
  }

  // ----- reading a populated device back ------------------------------------------------------

  // fx was populated, alone or among fixtures with other tags, as a new device.
  ghost predicate Populated(fixtures: seq<HostFixture>, fx: HostFixture, st: Store) {
    && st.Valid() && st.base.devices.Get(fx.assetTag).None?
    && DistinctTags(fixtures) && fx in fixtures
    && Exec(CompileAll(fixtures), st).stop.None?
  }

  function Fin(fixtures: seq<HostFixture>, st: Store): Store { Exec(CompileAll(fixtures), st).store }

  // What the fixture asked for is settled in the final store.
  lemma AskedIsSettled(fixtures: seq<HostFixture>, fx: HostFixture, st: Store, a: Action)
    requires Populated(fixtures, fx, st) && AskedBy(a, fx)
    ensures Settled(a, Fin(fixtures, st).base)
  {
    hide AskedBy, Settled, Base.Valid;
    InCompileAll(a, fixtures);
    AllSettled(CompileAll(fixtures), st);
  }

  // Whatever was done under the fixture's tag was asked for by the fixture.
  lemma AskedByOwner(fixtures: seq<HostFixture>, fx: HostFixture, a: Action)
    requires DistinctTags(fixtures) && fx in fixtures && a in CompileAll(fixtures)
    requires a.EnsureDevice? || a.EnsureInterface? || a.SetPrimaryMac? || a.EnsureIp?
    requires a.tag == fx.assetTag
    ensures AskedBy(a, fx)
  {
    hide DistinctTags, CompileAll;
    InCompileAll(a, fixtures);
    var g :| g in fixtures && AskedBy(a, g);
    SameTag(fixtures, fx, g);
  }

  lemma FinValid(fixtures: seq<HostFixture>, fx: HostFixture, st: Store)
    requires Populated(fixtures, fx, st)
    ensures var fin := Fin(fixtures, st);
            fin.Valid() && fin.base.TablesValid() && Made(CompileAll(fixtures), fin, fx.assetTag)
  {
    hide Base.TablesValid, Base.References, CompileAll, DistinctTags, Made, KeepsBut;
    ExecMade(CompileAll(fixtures), st, fx.assetTag);
    ExecSafe(CompileAll(fixtures), st);
  }

  lemma Plain(fixtures: seq<HostFixture>, fx: HostFixture, st: Store)
    requires Populated(fixtures, fx, st)
    ensures DistinctTags(fixtures) && fx in fixtures
  {
  }

  // The device record is the one the fixture describes, its references resolved.
  ghost predicate RecordedAs(b: Base, body: DeviceBody, fx: HostFixture) {
    && body.site in b.sites.rows && b.sites.rows[body.site].key == fx.site
    && body.deviceType in b.deviceTypes.rows && b.deviceTypes.rows[body.deviceType].key == fx.deviceType.slug
    && body.status == "active" && body.customFields == fx.deviceCustomFields
  }

  lemma DeviceReadBack(fixtures: seq<HostFixture>, fx: HostFixture, st: Store)
    requires Populated(fixtures, fx, st)
    ensures var b := Fin(fixtures, st).base;
            && b.devices.Get(fx.assetTag).Some?
            && b.devices.Get(fx.assetTag).value.body.name == fx.hostname
            && RoleSlug(b, b.devices.Get(fx.assetTag).value.body) == Some(fx.deviceRole)
            && RecordedAs(b, b.devices.Get(fx.assetTag).value.body, fx)
  {
    hide Base.Valid, Base.TablesValid, Populated, IfacesMade, PrimariesMade, IpsMade, CompileAll, Fin, MadeDevice,
      RecordedAs, RoleSlug, DeviceAction;
    Plain(fixtures, fx, st);
    FinValid(fixtures, fx, st);
    var b := Fin(fixtures, st).base;
    AskedIsSettled(fixtures, fx, st, DeviceAction(fx)) by { DeviceAsked(fx); }
    DeviceSettled(b, fx);
    var m :| m in CompileAll(fixtures) && MadeDevice(m, b, fx.assetTag, b.devices.Get(fx.assetTag).value.body);
    DeviceOf(m, b, fx.assetTag, b.devices.Get(fx.assetTag).value.body);
    AskedByOwner(fixtures, fx, m);
    MadeAsAsked(m, b, fx, b.devices.Get(fx.assetTag).value.body);
  }

  lemma DeviceAsked(fx: HostFixture)
    ensures AskedBy(DeviceAction(fx), fx)
  {
  }

  lemma DeviceSettled(b: Base, fx: HostFixture)
    requires Settled(DeviceAction(fx), b)
    ensures b.devices.Get(fx.assetTag).Some?
  {
  }

  lemma DeviceOf(m: Action, b: Base, tag: string, body: DeviceBody)
    requires MadeDevice(m, b, tag, body)
    ensures m.EnsureDevice? && m.tag == tag
  {
  }

  lemma MadeAsAsked(m: Action, b: Base, fx: HostFixture, body: DeviceBody)
    requires MadeDevice(m, b, fx.assetTag, body) && AskedBy(m, fx) && b.TablesValid()
    ensures body.name == fx.hostname && RoleSlug(b, body) == Some(fx.deviceRole) && RecordedAs(b, body, fx)
  {
  }

  // The first spec of its name is behind a record of the device.
  lemma SpecOf(fixtures: seq<HostFixture>, fx: HostFixture, st: Store, id: Id) returns (s: InterfaceSpec)
    requires Populated(fixtures, fx, st) && OnDevice(Fin(fixtures, st).base, fx.assetTag, id)
    ensures var row := Fin(fixtures, st).base.ifaces.rows[id];
            && s in fx.interfaces && FirstNamed(fx.interfaces, row.key.name) == Some(s)
            && MadeIface(InterfaceAction(fx, s), Fin(fixtures, st).base, fx.assetTag, row)
  {
    hide Base.Valid, Populated, DeviceMade, PrimariesMade, IpsMade, CompileAll, Fin, MadeIface, First, FirstNamed,
      InterfaceAction;
    Plain(fixtures, fx, st);
    FinValid(fixtures, fx, st);
    var name := Fin(fixtures, st).base.ifaces.rows[id].key.name;
    FirstMaker(fixtures, fx, name);
    s := FirstNamed(fx.interfaces, name).value;
  }

  lemma {:induction false} NamedVlan(vlans: seq<VlanSpec>, vid: int)
    requires DeclaresVid(vlans, vid)
    ensures VlanSpec(vid, VlanNameOf(vlans, vid)) in vlans
  {
    if vlans[0].vid != vid {
      var i :| 0 <= i < |vlans| && vlans[i].vid == vid;
      assert vlans[1..][i - 1].vid == vid;
      NamedVlan(vlans[1..], vid);
    }
  }

  // An access port comes back with the number and name the fixture gave its VLAN.
  lemma UntaggedReadBack(fixtures: seq<HostFixture>, fx: HostFixture, st: Store, s: InterfaceSpec)
    requires Populated(fixtures, fx, st) && s in fx.interfaces
    requires UntaggedOf(fx, s).Some? ==> VlanAt(Fin(fixtures, st).base, UntaggedOf(fx, s).value, fx.site).Some?
    ensures UntaggedView(Fin(fixtures, st).base, UntaggedId(Fin(fixtures, st).base, InterfaceAction(fx, s))) ==
            VlanView(fx, s)
  {
    hide Base.References, Base.Valid, Populated, Made, CompileAll, Fin, AddressesOn;
    if UntaggedOf(fx, s).Some? {
      var b, vid := Fin(fixtures, st).base, UntaggedOf(fx, s).value;
      NamedVlan(fx.vlans, vid);
      FinValid(fixtures, fx, st);
      AskedIsSettled(fixtures, fx, st, EnsureVlan(VlanSpec(vid, VlanNameOf(fx.vlans, vid)), fx.site));
      GetIn(b.vlans, VlanKey(vid, b.sites.Get(fx.site).value.id));
    }
  }

  // The primary MAC comes back as the last one the fixture gives the name, or
  // not at all.
  lemma MacReadBack(fixtures: seq<HostFixture>, fx: HostFixture, st: Store, id: Id)
    requires Populated(fixtures, fx, st) && OnDevice(Fin(fixtures, st).base, fx.assetTag, id)
    ensures PrimaryMacView(Fin(fixtures, st), id) ==
            LastMac(fx.interfaces, Fin(fixtures, st).base.ifaces.rows[id].key.name)
  {
    hide Base.Valid, Base.References, Base.TablesValid, Populated, CompileAll, Fin, IfacesMade, DeviceMade, IpsMade,
      Last, LastMac;
    Plain(fixtures, fx, st);
    FinValid(fixtures, fx, st);
    var fin := Fin(fixtures, st);
    var name := fin.base.ifaces.rows[id].key.name;
    LastSetter(fixtures, fx, name);
    var m := LastMac(fx.interfaces, name);
    if m.Some? {
      MacTable(fin.base);
      GetIn(fin.base.macs, m.value);
    }
  }

  lemma MacTable(b: Base)
    requires b.TablesValid()
    ensures b.macs.Valid()
  {
  }

  lemma SettledIp(b: Base, tag: string, name: string, ip: IpText, id: Id)
    requires b.TablesValid() && Settled(EnsureIp(tag, name, ip), b) && OnDevice(b, tag, id)
    requires b.ifaces.rows[id].key.name == name
    ensures ip in AddressesOn(b, id)
  {
  }

  // The addresses of a record are those the fixture gives its name.
  lemma IpsReadBack(fixtures: seq<HostFixture>, fx: HostFixture, st: Store, id: Id)
    requires Populated(fixtures, fx, st) && OnDevice(Fin(fixtures, st).base, fx.assetTag, id)
    ensures AddressesOn(Fin(fixtures, st).base, id) ==
            IpsOf(fx.interfaces, Fin(fixtures, st).base.ifaces.rows[id].key.name)
  {
    hide Base.Valid, Base.References, Base.TablesValid, Populated, CompileAll, Fin, IfacesMade, DeviceMade,
      PrimariesMade, AddressesOn, UntaggedOf, Settled, Ensure;
    Plain(fixtures, fx, st);
    FinValid(fixtures, fx, st);
    var b := Fin(fixtures, st).base;
    var name := b.ifaces.rows[id].key.name;
    forall s | s in fx.interfaces && s.name == name && TruthyIp(s.ip) ensures s.ip.value in AddressesOn(b, id) {
      AskedIsSettled(fixtures, fx, st, EnsureIp(fx.assetTag, name, s.ip.value));
      SettledIp(b, fx.assetTag, name, s.ip.value, id);
    }
    forall ip | ip in AddressesOn(b, id) ensures ip in IpsOf(fx.interfaces, name) {
      var a := EnsureIp(fx.assetTag, name, ip);
      assert a in CompileAll(fixtures);
      AskedByOwner(fixtures, fx, a);
      var t :| t in fx.interfaces && t.name == name && t.ip == Some(ip);
      assert TruthyIp(t.ip);
    }
  }

  // A record reads as its name does in the fixture.
  lemma ViewReadBack(fixtures: seq<HostFixture>, fx: HostFixture, st: Store, id: Id)
    requires Populated(fixtures, fx, st) && OnDevice(Fin(fixtures, st).base, fx.assetTag, id)
    ensures var row := Fin(fixtures, st).base.ifaces.rows[id];
            && FirstNamed(fx.interfaces, row.key.name).Some?
            && ViewOf(Fin(fixtures, st), id) == RecordView(fx, row.key.name)
            && row.body.kind == FirstNamed(fx.interfaces, row.key.name).value.kind
  {
    hide Populated, Fin, UntaggedOf, UntaggedId, UntaggedView, PrimaryMacView, AddressesOn, VlanAt, FirstNamed,
      LastMac, IpsOf, VlanView;
    var s := SpecOf(fixtures, fx, st, id);
    MacReadBack(fixtures, fx, st, id);
    IpsReadBack(fixtures, fx, st, id);
    UntaggedReadBack(fixtures, fx, st, s);
  }

  // Every interface of the fixture has its record.
  lemma RecordOf(fixtures: seq<HostFixture>, fx: HostFixture, st: Store, s: InterfaceSpec) returns (id: Id)
    requires Populated(fixtures, fx, st) && s in fx.interfaces
    ensures OnDevice(Fin(fixtures, st).base, fx.assetTag, id)
    ensures Fin(fixtures, st).base.ifaces.rows[id].key.name == s.name
  {
    hide Base.Valid, Base.References, Base.TablesValid, Populated, CompileAll, Fin, Made, UntaggedOf;
    FinValid(fixtures, fx, st);
    var b := Fin(fixtures, st).base;
    SlotTables(b);
    AskedIsSettled(fixtures, fx, st, InterfaceAction(fx, s));
    IfaceRecord(b, fx.assetTag, s.name);
    id := Iface(b, fx.assetTag, s.name).value.id;
  }

  // The listed records read as the fixture's names do, each once.
  lemma ViewsReadBack(fixtures: seq<HostFixture>, fx: HostFixture, st: Store, ids: seq<Id>)
    requires Populated(fixtures, fx, st)
    requires fx.assetTag in Fin(fixtures, st).base.devices.index
    requires Listing(ids, Fin(fixtures, st).base, Fin(fixtures, st).base.devices.index[fx.assetTag])
    ensures multiset(Views(Fin(fixtures, st), ids)) == multiset(FixtureViews(fx))
  {
    hide Populated, Fin, RecordView, ViewOf, FirstNamed, FirstNames, Base.Valid, Made;
    var fin := Fin(fixtures, st);
    var got, want := Views(fin, ids), FixtureViews(fx);
    var names := FirstNames(fx.interfaces);
    forall k | 0 <= k < |ids| ensures got[k] in want {
      assert ids[k] in ids && OnDevice(fin.base, fx.assetTag, ids[k]);
      ViewReadBack(fixtures, fx, st, ids[k]);
      var i :| 0 <= i < |names| && names[i] == fin.base.ifaces.rows[ids[k]].key.name;
      assert want[i] == got[k];
    }
    forall i | 0 <= i < |want| ensures want[i] in got {
      assert names[i] in names;
      var id := RecordOf(fixtures, fx, st, FirstNamed(fx.interfaces, names[i]).value);
      ViewReadBack(fixtures, fx, st, id);
      assert id in ids;
      var k :| 0 <= k < |ids| && ids[k] == id;
      assert got[k] == want[i];
    }
    FinValid(fixtures, fx, st);
    ListedOnce(fin, ids, fin.base.devices.index[fx.assetTag]);
    FixtureViewNames(fx);
    SameElementsSameMultiset(got, want);
  }

  // Interfaces of one device have different names.
  lemma ListedOnce(st: Store, ids: seq<Id>, device: Id)
    requires st.base.TablesValid() && Listing(ids, st.base, device)
    ensures DistinctViewNames(Views(st, ids)) && Distinct(Views(st, ids))
  {
  }

  // Loading after populating returns the fixture's own intent, up to VLAN order,
  // or fails as it does, up to which of its bad records of a class comes first,
  // whatever order Netbox lists the interfaces in and whatever other fixtures
  // the run populated.
  lemma LoadAfterPopulate(fixtures: seq<HostFixture>, fx: HostFixture, st: Store, ids: seq<Id>)
    requires Populated(fixtures, fx, st)
    requires fx.assetTag in Fin(fixtures, st).base.devices.index
    requires Listing(ids, Fin(fixtures, st).base, Fin(fixtures, st).base.devices.index[fx.assetTag])
    ensures SameLoad(FixtureViews(fx), Load(Fin(fixtures, st), fx.assetTag, ids), DirectIntent(fx))
  {
    hide Populated, Fin, SameLoad, BuildIntent, FixtureViews, Views, RoleSlug, DistinctViewNames;
    var fin := Fin(fixtures, st);
    DeviceReadBack(fixtures, fx, st);
    ViewsReadBack(fixtures, fx, st, ids);
    FixtureViewNames(fx);
    BuildIgnoresOrder(fx.assetTag, fx.hostname, Some(fx.deviceRole), FixtureViews(fx), Views(fin, ids));
    SameLoadSymmetric(FixtureViews(fx), DirectIntent(fx), Load(fin, fx.assetTag, ids));
  }

  lemma SameLoadSymmetric(views: seq<IfaceView>, a: Loaded<HostIntent>, b: Loaded<HostIntent>)
    requires SameLoad(views, a, b)
    ensures SameLoad(views, b, a)
  {
    hide Fails;
  }

  // The same holds when the populating runs were interrupted, any number of
  // times, before one ran to its end.
  lemma LoadAfterInterruptedPopulate(fixtures: seq<HostFixture>, fx: HostFixture, st: Store, cuts: seq<nat>,
                                     ids: seq<Id>)
    requires Populated(fixtures, fx, st)
    requires var fin := Exec(CompileAll(fixtures), AfterCuts(CompileAll(fixtures), st, cuts)).store;
             fx.assetTag in fin.base.devices.index && Listing(ids, fin.base, fin.base.devices.index[fx.assetTag])
    ensures var run := Exec(CompileAll(fixtures), AfterCuts(CompileAll(fixtures), st, cuts));
            run.stop.None? && SameLoad(FixtureViews(fx), Load(run.store, fx.assetTag, ids), DirectIntent(fx))
  {
    hide AfterCuts, CompileAll, Listing, SameLoad, DirectIntent, Load;
    RestartConverges(CompileAll(fixtures), st, cuts);
    LoadAfterPopulate(fixtures, fx, st, ids);
  }
}

// What every action, and so every prefix of every run, keeps: referential
// integrity, the records that were there, and the report's book-keeping.
module PopulateSafety {
  import opened Basics
  import opened Inventory
  import opened PopulateSpec

  // ----- one step ----------------------------------------------------------------

  lemma AddValid<K, B>(t: Table<K, B>, key: K, body: B)
    requires t.Valid() && t.Get(key).None?
    ensures t.Add(key, body).Valid() && t.Within(t.Add(key, body))
    ensures t.Add(key, body).Get(key) == Some(Found(t.next, body))
    ensures t.Add(key, body).rows == t.rows[t.next := Row(key, body)] && t.next !in t.rows
  {
  }

  lemma GetIn<K, B>(t: Table<K, B>, key: K)
    requires t.Get(key).Some?
    ensures t.Get(key).value.id in t.rows && t.rows[t.Get(key).value.id].body == t.Get(key).value.body
    ensures t.Valid() ==> t.rows[t.Get(key).value.id].key == key
  {
  }

  lemma SiteValid(a: Action, b: Base)
    requires b.Valid() && a.EnsureSite? && Ensure(a, b).Grow?
    ensures Ensure(a, b).base.Valid() && b.Within(Ensure(a, b).base)
  {
    hide Table.Valid;
    AddValid(b.sites, a.slug, a.slug);
  }

  lemma ManufacturerValid(a: Action, b: Base)
    requires b.Valid() && a.EnsureManufacturer? && Ensure(a, b).Grow?
    ensures Ensure(a, b).base.Valid() && b.Within(Ensure(a, b).base)
  {
    hide Table.Valid;
    AddValid(b.manufacturers, Slugify(a.name), a.name);
  }

  lemma DeviceTypeValid(a: Action, b: Base)
    requires b.Valid() && a.EnsureDeviceType? && Ensure(a, b).Grow?
    ensures Ensure(a, b).base.Valid() && b.Within(Ensure(a, b).base)
  {
    hide Table.Valid;
    var maker := b.manufacturers.Get(Slugify(a.spec.manufacturer)).value;
    AddValid(b.deviceTypes, a.spec.slug, DeviceTypeBody(maker.id, a.spec.model, Some(a.spec.uHeight)));
  }

  lemma DeviceRoleValid(a: Action, b: Base)
    requires b.Valid() && a.EnsureDeviceRole? && Ensure(a, b).Grow?
    ensures Ensure(a, b).base.Valid() && b.Within(Ensure(a, b).base)
  {
    hide Table.Valid;
    AddValid(b.roles, a.slug, a.slug);
  }

  lemma VlanValid(a: Action, b: Base)
    requires b.Valid() && a.EnsureVlan? && Ensure(a, b).Grow?
    ensures Ensure(a, b).base.Valid() && b.Within(Ensure(a, b).base)
  {
    hide Table.Valid;
    AddValid(b.vlans, VlanKey(a.vlan.vid, b.sites.Get(a.site).value.id), a.vlan.name);
  }

  lemma DeviceValid(a: Action, b: Base)
    requires b.Valid() && a.EnsureDevice? && Ensure(a, b).Grow?
    ensures Ensure(a, b).base.Valid() && b.Within(Ensure(a, b).base)
  {
    hide Table.Valid;
    var site, model, role := b.sites.Get(a.site).value, b.deviceTypes.Get(a.typeSlug).value, b.roles.Get(a.role).value;
    AddValid(b.devices, a.tag, DeviceBody(a.hostname, site.id, model.id, Some(role.id), "active", a.customFields));
  }

  lemma AddInterface(b: Base, key: IfaceKey, body: IfaceBody)
    requires b.Valid() && b.ifaces.Get(key).None? && key.device in b.devices.rows
    requires body.untagged.Some? ==> body.untagged.value in b.vlans.rows
    ensures b.(ifaces := b.ifaces.Add(key, body)).Valid() && b.Within(b.(ifaces := b.ifaces.Add(key, body)))
  {
    hide Table.Valid;
    AddValid(b.ifaces, key, body);
  }

  lemma InterfaceValid(a: Action, b: Base)
    requires b.Valid() && a.EnsureInterface? && Ensure(a, b).Grow?
    ensures Ensure(a, b).base.Valid() && b.Within(Ensure(a, b).base)
  {
    hide Base.Valid, Base.Within;
    var device := b.devices.Get(a.tag).value;
    GetIn(b.devices, a.tag);
    var key := IfaceKey(device.id, a.iface.name);
    if a.untagged.None? {
      AddInterface(b, key, IfacePayload(a, None));
    } else {
      var vlan := VlanAt(b, a.untagged.value, a.site).value;
      GetIn(b.vlans, VlanKey(a.untagged.value, b.sites.Get(a.site).value.id));
      AddInterface(b, key, IfacePayload(a, Some(vlan.id)));
    }
  }

  lemma MacValid(a: Action, b: Base)
    requires b.Valid() && a.EnsureMac? && Ensure(a, b).Grow?
    ensures Ensure(a, b).base.Valid() && b.Within(Ensure(a, b).base)
  {
    hide Table.Valid;
    AddValid(b.macs, a.mac, Some(Iface(b, a.tag, a.on).value.id));
  }

  lemma IpValid(a: Action, b: Base)
    requires b.Valid() && a.EnsureIp? && Ensure(a, b).Grow?
    ensures Ensure(a, b).base.Valid() && b.Within(Ensure(a, b).base)
  {
    hide Table.Valid;
    AddValid(b.ips, a.ip, Some(Iface(b, a.tag, a.on).value.id));
  }

  lemma EnsureValid(a: Action, b: Base)
    requires b.Valid() && !IsWiring(a) && Ensure(a, b).Grow?
    ensures Ensure(a, b).base.Valid() && b.Within(Ensure(a, b).base)
  {
    hide Base.Valid, Base.Within;
    match a
    case EnsureSite(_) => SiteValid(a, b);
    case EnsureManufacturer(_) => ManufacturerValid(a, b);
    case EnsureDeviceType(_) => DeviceTypeValid(a, b);
    case EnsureDeviceRole(_) => DeviceRoleValid(a, b);
    case EnsureVlan(_, _) => VlanValid(a, b);
    case EnsureDevice(_, _, _, _, _, _) => DeviceValid(a, b);
    case EnsureInterface(_, _, _, _) => InterfaceValid(a, b);
    case EnsureMac(_, _, _) => MacValid(a, b);
    case EnsureIp(_, _, _) => IpValid(a, b);
    case MissingName(_) =>
  }

  // The device an action works under, if it works under one.
  function TagOf(a: Action): Option<string> {
    match a
    case SetLag(tag, _, _) => Some(tag)
    case SetParent(tag, _, _) => Some(tag)
    case SetPrimaryMac(tag, _, _) => Some(tag)
    case _ => None
  }

  // A handle taken from iface_by_name is the record of that name on that device.
  lemma IfaceRecord(b: Base, tag: string, name: string)
    requires b.ifaces.Valid() && b.devices.Valid() && Iface(b, tag, name).Some?
    ensures var i := Iface(b, tag, name).value.id;
            && i in b.ifaces.rows && tag in b.devices.index
            && b.ifaces.rows[i].key == IfaceKey(b.devices.index[tag], name)
  {
  }

  ghost predicate WriteSafe(w: Write, tag: string, b: Base) {
    && WireRefers(w.slot, w.id, b)
    && tag in b.devices.index
    && b.ifaces.rows[w.slot.iface].key.device == b.devices.index[tag]
  }

  lemma WiringSafe(a: Action, b: Base)
    requires b.ifaces.Valid() && b.devices.Valid() && b.macs.Valid()
    requires IsWiring(a) && Target(a, b).Some?
    ensures TagOf(a).Some? && WriteSafe(Target(a, b).value, TagOf(a).value, b)
  {
  }

  lemma KeyedTables(b: Base)
    requires b.Valid()
    ensures b.ifaces.Valid() && b.devices.Valid() && b.macs.Valid()
  {
  }

  lemma WithinSelf(b: Base)
    ensures b.Within(b)
  {
  }

  lemma GrowKeepsWires(wires: map<Slot, Id>, b: Base, later: Base)
    requires WiresRefer(wires, b) && b.Within(later)
    ensures WiresRefer(wires, later)
  {
  }

  // Every id an action writes refers to an object of the right table, and
  // nothing that was there is lost.
  lemma StepSafe(a: Action, st: Store)
    requires st.Valid() && Step(a, st).Done?
    ensures Step(a, st).store.Valid()
    ensures st.base.Within(Step(a, st).store.base)
  {
    hide Base.Valid, Base.Within, Ensure, Target;
    WithinSelf(st.base);
    if IsWiring(a) {
      var w := Target(a, st.base).value;
      KeyedTables(st.base);
      WiringSafe(a, st.base);
    } else if Ensure(a, st.base).Grow? {
      EnsureValid(a, st.base);
      GrowKeepsWires(st.wires, st.base, Ensure(a, st.base).base);
    }
  }

  // ----- every prefix of every run --------------------------------------------------

  // st' keeps every record of st: ids and all fields, except that the three
  // wired columns may differ on interfaces of the devices tagged in tags.
  ghost predicate KeepsBut(st: Store, st': Store, tags: set<string>) {
    && st.base.Within(st'.base)
    && forall s :: st.Wired(s) != st'.Wired(s) ==> OnTagged(s.iface, st'.base, tags)
  }

  ghost predicate OnTagged(iface: Id, b: Base, tags: set<string>) {
    iface in b.ifaces.rows &&
    exists tag :: tag in tags && tag in b.devices.index && b.devices.index[tag] == b.ifaces.rows[iface].key.device
  }

  ghost function Tags(acts: seq<Action>): set<string> {
    set i | 0 <= i < |acts| && TagOf(acts[i]).Some? :: TagOf(acts[i]).value
  }

  lemma StepKeeps(a: Action, st: Store, tags: set<string>)
    requires st.Valid() && Step(a, st).Done?
    requires TagOf(a).Some? ==> TagOf(a).value in tags
    ensures KeepsBut(st, Step(a, st).store, tags)
  {
    hide Base.Valid, Base.Within, Ensure, Target;
    StepSafe(a, st);
    if IsWiring(a) {
      KeyedTables(st.base);
      WiringSafe(a, st.base);
    }
  }

  lemma KeepsTransitive(a: Store, b: Store, c: Store, tags: set<string>, more: set<string>)
    requires KeepsBut(a, b, tags) && KeepsBut(b, c, more) && tags <= more
    ensures KeepsBut(a, c, more)
  {
    WithinTransitive(a.base, b.base, c.base);
    forall s | a.Wired(s) != c.Wired(s) ensures OnTagged(s.iface, c.base, more) {
      if b.Wired(s) == c.Wired(s) {
        assert OnTagged(s.iface, b.base, tags);
        var tag :| tag in tags && tag in b.base.devices.index &&
                  b.base.devices.index[tag] == b.base.ifaces.rows[s.iface].key.device;
        assert tag in more && tag in c.base.devices.index;
      }
    }
  }

  // Store safety, at every point of every run and also where it stops on a conflict.
  lemma {:induction false} ExecSafe(acts: seq<Action>, st: Store)
    requires st.Valid()
    ensures Exec(acts, st).store.Valid()
    ensures KeepsBut(st, Exec(acts, st).store, Tags(acts))
  {
    hide Base.Valid, Base.Within, Step;
    WithinSelf(st.base);
    if acts != [] {
      var init, a := acts[..|acts| - 1], acts[|acts| - 1];
      ExecSafe(init, st);
      var r := Exec(init, st);
      forall t | t in Tags(init) ensures t in Tags(acts) {
        var i :| 0 <= i < |init| && TagOf(init[i]).Some? && TagOf(init[i]).value == t;
        assert acts[i] == init[i];
      }
      WithinSelf(r.store.base);
      if r.stop.None? && Step(a, r.store).Done? {
        StepSafe(a, r.store);
        if TagOf(a).Some? { assert TagOf(acts[|acts| - 1]).value in Tags(acts); }
        StepKeeps(a, r.store, Tags(acts));
        KeepsTransitive(st, r.store, Step(a, r.store).store, Tags(init), Tags(acts));
      } else {
        KeepsTransitive(st, r.store, r.store, Tags(init), Tags(acts));
      }
    }
  }

  // ----- the report ---------------------------------------------------------------

  function Count(log: seq<Event>, e: Event): nat {
    multiset(log)[e]
  }

  // Rows of the table a kind of object lives in; the wiring kinds have none.
  function Rows(kind: Kind, b: Base): nat {
    match kind
    case SiteKind => |b.sites.rows|
    case ManufacturerKind => |b.manufacturers.rows|
    case DeviceTypeKind => |b.deviceTypes.rows|
    case DeviceRoleKind => |b.roles.rows|
    case VlanKind => |b.vlans.rows|
    case DeviceKind => |b.devices.rows|
    case InterfaceKind => |b.ifaces.rows|
    case MacAddressKind => |b.macs.rows|
    case IpAddressKind => |b.ips.rows|
    case _ => 0
  }

  predicate IsWiringKind(kind: Kind) {
    kind.LagMembershipKind? || kind.InterfaceParentKind? || kind.PrimaryMacAssignmentKind?
  }

  lemma AddCounts<K, B>(t: Table<K, B>, key: K, body: B)
    requires t.Valid()
    ensures |t.Add(key, body).rows| == |t.rows| + 1
  {
  }

  predicate IsCatalogue(a: Action) {
    a.EnsureSite? || a.EnsureManufacturer? || a.EnsureDeviceType? || a.EnsureDeviceRole? || a.EnsureVlan?
  }

  // A creation adds one row to the table of its kind and none elsewhere.
  lemma CatalogueGrows(a: Action, b: Base, kind: Kind)
    requires b.TablesValid() && IsCatalogue(a) && Ensure(a, b).Grow? && !IsWiringKind(kind)
    ensures Rows(kind, Ensure(a, b).base) == Rows(kind, b) + if KindOf(a) == kind then 1 else 0
  {
    hide Table.Valid;
    match a
    case EnsureSite(slug) => AddCounts(b.sites, slug, slug);
    case EnsureManufacturer(name) => AddCounts(b.manufacturers, Slugify(name), name);
    case EnsureDeviceType(spec) =>
      AddCounts(b.deviceTypes, spec.slug,
                DeviceTypeBody(b.manufacturers.Get(Slugify(spec.manufacturer)).value.id, spec.model,
                               Some(spec.uHeight)));
    case EnsureDeviceRole(slug) => AddCounts(b.roles, slug, slug);
    case EnsureVlan(vlan, site) => AddCounts(b.vlans, VlanKey(vlan.vid, b.sites.Get(site).value.id), vlan.name);
  }

  lemma HostGrows(a: Action, b: Base, kind: Kind)
    requires b.TablesValid() && !IsWiring(a) && !IsCatalogue(a) && Ensure(a, b).Grow? && !IsWiringKind(kind)
    ensures Rows(kind, Ensure(a, b).base) == Rows(kind, b) + if KindOf(a) == kind then 1 else 0
  {
    hide Table.Valid, VlanAt, IfacePayload, Iface;
    match a
    case EnsureDevice(_, _, _, _, _, _) =>
      AddCounts(b.devices, a.tag,
                DeviceBody(a.hostname, b.sites.Get(a.site).value.id, b.deviceTypes.Get(a.typeSlug).value.id,
                           Some(b.roles.Get(a.role).value.id), "active", a.customFields));
    case EnsureInterface(_, _, _, _) =>
      var untagged := if a.untagged.None? then None else Some(VlanAt(b, a.untagged.value, a.site).value.id);
      AddCounts(b.ifaces, IfaceKey(b.devices.Get(a.tag).value.id, a.iface.name), IfacePayload(a, untagged));
    case EnsureMac(_, _, _) => AddCounts(b.macs, a.mac, Some(Iface(b, a.tag, a.on).value.id));
    case EnsureIp(_, _, _) => AddCounts(b.ips, a.ip, Some(Iface(b, a.tag, a.on).value.id));
    case MissingName(_) =>
  }

  lemma StepCounts(a: Action, st: Store, kind: Kind)
    requires st.Valid() && Step(a, st).Done? && !IsWiringKind(kind)
    ensures Rows(kind, Step(a, st).store.base) ==
            Rows(kind, st.base) + if Step(a, st).created && KindOf(a) == kind then 1 else 0
  {
    hide Base.References, Base.TablesValid, WiresRefer, Ensure, Target, Rows;
    if !IsWiring(a) && Ensure(a, st.base).Grow? {
      assert st.base.TablesValid();
      if IsCatalogue(a) { CatalogueGrows(a, st.base, kind); } else { HostGrows(a, st.base, kind); }
    }
  }

  lemma CountSnoc(log: seq<Event>, e: Event, x: Event)
    ensures Count(log + [e], x) == Count(log, x) + if e == x then 1 else 0
  {
  }

  // Report accounting: along any run, each table has grown by exactly its
  // kind's created count, and every action taken was logged once.
  lemma {:induction false} ExecAccounts(acts: seq<Action>, st: Store)
    requires st.Valid()
    ensures forall kind :: !IsWiringKind(kind) ==>
              Rows(kind, Exec(acts, st).store.base) ==
              Rows(kind, st.base) + Count(Exec(acts, st).log, Event(kind, true))
    ensures Exec(acts, st).stop.None? ==> |Exec(acts, st).log| == |acts|
    ensures Exec(acts, st).stop.Some? ==> |Exec(acts, st).log| < |acts|
  {
    hide Base.Valid, Base.Within, Step, Count, KeepsBut;
    if acts == [] {
      forall e: Event ensures Count([], e) == 0 { CountEmpty(e); }
    } else {
      var init, a := acts[..|acts| - 1], acts[|acts| - 1];
      ExecAccounts(init, st);
      ExecSafe(init, st);
      var r := Exec(init, st);
      if r.stop.None? && Step(a, r.store).Done? {
        var d := Step(a, r.store);
        forall kind | !IsWiringKind(kind)
          ensures Rows(kind, d.store.base) == Rows(kind, st.base) + Count(Exec(acts, st).log, Event(kind, true))
        {
          StepCounts(a, r.store, kind);
          CountSnoc(r.log, Event(KindOf(a), d.created), Event(kind, true));
        }
      }
    }
  }

  lemma CountEmpty(e: Event)
    ensures Count([], e) == 0
  {
  }

  // A step is logged as created exactly when it changed the store.
  lemma CreatedMeansChanged(a: Action, st: Store)
    requires st.Valid() && Step(a, st).Done?
    ensures Step(a, st).created <==> Step(a, st).store != st
  {
    hide Base.References, Base.TablesValid, WiresRefer, Ensure;
    if IsWiring(a) {
      var w := Target(a, st.base).value;
      if st.Wired(w.slot) != Some(w.id) {
        assert Step(a, st).store.Wired(w.slot) == Some(w.id);
      }
    } else if Ensure(a, st.base).Grow? {
      StepCounts(a, st, KindOf(a));
    }
  }
}

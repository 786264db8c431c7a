// When populate raises nothing: a condition on the fixtures and the store that
// can be checked before the run.
module Success {
  import opened Basics
  import opened Inventory
  import opened PopulateSpec
  import opened PopulateSafety
  import opened Restart
  import opened Conflicts
  import opened Programs
  import opened ProgramOrder

  // Every LAG member and parent named is one of the fixture's interfaces.
  ghost predicate Declared(fx: HostFixture) {
    forall s :: s in fx.interfaces ==>
      && (forall m :: m in s.lagMembers ==> m in Names(fx.interfaces))
      && (Truthy(s.parent) ==> s.parent.value in Names(fx.interfaces))
  }

  // The two actions give one key different contents. Device types and MACs that
  // are on record already may escape: a type without a height agrees with any,
  // an unassigned MAC with any interface.
  ghost predicate Clash(a: Action, c: Action, b: Base) {
    match a
    case EnsureDeviceType(spec) =>
      c.EnsureDeviceType? && c.spec.slug == spec.slug && c.spec.uHeight != spec.uHeight
      && b.deviceTypes.Get(spec.slug).None?
    case EnsureVlan(vlan, site) =>
      c.EnsureVlan? && c.vlan.vid == vlan.vid && c.site == site && c.vlan.name != vlan.name
    case EnsureDevice(tag, hostname, _, _, _, _) => c.EnsureDevice? && c.tag == tag && c.hostname != hostname
    case EnsureMac(tag, on, mac) =>
      c.EnsureMac? && c.mac == mac && (c.tag != tag || c.on != on) && b.macs.Get(mac).None?
    case EnsureIp(tag, on, ip) => c.EnsureIp? && c.ip == ip && (c.tag != tag || c.on != on)
    case _ => false
  }

  // Nothing the fixtures ask for is undeclared, contradicted by a row, or at
  // odds with something else they ask for.
  ghost predicate Consistent(fixtures: seq<HostFixture>, b: Base) {
    && (forall fx :: fx in fixtures ==> Declared(fx))
    && (forall fx, a :: fx in fixtures && AskedBy(a, fx) ==> !Contradicts(a, b))
    && (forall f, g, a, c :: f in fixtures && g in fixtures && AskedBy(a, f) && AskedBy(c, g) ==> !Clash(a, c, b))
  }

  lemma DeclaredMeansNoneMissing(fx: HostFixture)
    ensures Declared(fx) <==> forall name :: !AskedBy(MissingName(name), fx)
  {
    if !Declared(fx) {
      var s :| s in fx.interfaces && !((forall m :: m in s.lagMembers ==> m in Names(fx.interfaces))
                                       && (Truthy(s.parent) ==> s.parent.value in Names(fx.interfaces)));
      if m :| m in s.lagMembers && m !in Names(fx.interfaces) {
        assert AskedBy(MissingName(m), fx);
      } else {
        assert AskedBy(MissingName(s.parent.value), fx);
      }
    }
  }

  // ----- contradictions and later stores -------------------------------------------------

  lemma VlanStays(b: Base, later: Base, i: Id, vid: int, site: string)
    requires VlansRefer(b.vlans, b.sites) && b.vlans.Within(later.vlans) && b.sites.Within(later.sites)
    requires i in b.vlans.rows
    ensures IsVlan(later, i, vid, site) <==> IsVlan(b, i, vid, site)
  {
  }

  lemma IfaceStays(b: Base, later: Base, i: Id, tag: string, name: string)
    requires IfacesRefer(b.ifaces, b.devices, b.vlans)
    requires b.ifaces.Within(later.ifaces) && b.devices.Within(later.devices) && i in b.ifaces.rows
    ensures IsIface(later, i, tag, name) <==> IsIface(b, i, tag, name)
  {
  }

  lemma Parts(b: Base, later: Base)
    requires b.Valid() && b.Within(later)
    ensures VlansRefer(b.vlans, b.sites) && IfacesRefer(b.ifaces, b.devices, b.vlans)
    ensures AssignedRefer(b.macs, b.ifaces) && AssignedRefer(b.ips, b.ifaces)
    ensures b.sites.Within(later.sites) && b.deviceTypes.Within(later.deviceTypes) && b.vlans.Within(later.vlans)
    ensures b.devices.Within(later.devices) && b.ifaces.Within(later.ifaces)
    ensures b.macs.Within(later.macs) && b.ips.Within(later.ips)
  {
  }

  // A row that contradicts goes on doing so.
  lemma ContradictedLater(a: Action, b: Base, later: Base)
    requires b.Valid() && b.Within(later) && Contradicts(a, b)
    ensures Contradicts(a, later)
  {
    hide Base.Valid, Base.Within, IsIface;
    Parts(b, later);
    match a
    case EnsureVlan(vlan, site) =>
      var i :| IsVlan(b, i, vlan.vid, site) && b.vlans.rows[i].body != vlan.name;
      VlanStays(b, later, i, vlan.vid, site);
    case EnsureMac(tag, on, mac) =>
      var i :| i in b.macs.rows && b.macs.rows[i].key == mac
               && b.macs.rows[i].body.Some? && !IsIface(b, b.macs.rows[i].body.value, tag, on);
      IfaceStays(b, later, b.macs.rows[i].body.value, tag, on);
    case EnsureIp(tag, on, ip) =>
      var i :| i in b.ips.rows && b.ips.rows[i].key == ip
               && (b.ips.rows[i].body.Some? ==> !IsIface(b, b.ips.rows[i].body.value, tag, on));
      if b.ips.rows[i].body.Some? { IfaceStays(b, later, b.ips.rows[i].body.value, tag, on); }
      assert i in later.ips.rows && later.ips.rows[i] == b.ips.rows[i];
    case _ =>
  }

  // What a creating step adds to the tables a contradiction can be in.
  lemma Grown(c: Action, b: Base)
    requires !IsWiring(c) && Ensure(c, b).Grow?
    ensures var later := Ensure(c, b).base;
            && (later.deviceTypes != b.deviceTypes ==>
                  c.EnsureDeviceType?
                  && exists body: DeviceTypeBody :: body.uHeight == Some(c.spec.uHeight)
                       && later.deviceTypes == b.deviceTypes.Add(c.spec.slug, body))
            && (later.vlans != b.vlans ==>
                  c.EnsureVlan? && b.sites.Get(c.site).Some?
                  && later.vlans == b.vlans.Add(VlanKey(c.vlan.vid, b.sites.Get(c.site).value.id), c.vlan.name))
  {
    if c.EnsureDeviceType? {
      var maker := b.manufacturers.Get(Slugify(c.spec.manufacturer)).value;
      var body := DeviceTypeBody(maker.id, c.spec.model, Some(c.spec.uHeight));
      assert Ensure(c, b).base.deviceTypes == b.deviceTypes.Add(c.spec.slug, body);
    }
  }

  lemma GrownHost(c: Action, b: Base)
    requires !IsWiring(c) && Ensure(c, b).Grow?
    ensures var later := Ensure(c, b).base;
            && (later.devices != b.devices ==>
                  c.EnsureDevice?
                  && exists body: DeviceBody :: body.name == c.hostname && later.devices == b.devices.Add(c.tag, body))
            && (later.macs != b.macs ==>
                  c.EnsureMac? && Iface(b, c.tag, c.on).Some?
                  && later.macs == b.macs.Add(c.mac, Some(Iface(b, c.tag, c.on).value.id)))
            && (later.ips != b.ips ==>
                  c.EnsureIp? && Iface(b, c.tag, c.on).Some?
                  && later.ips == b.ips.Add(c.ip, Some(Iface(b, c.tag, c.on).value.id)))
  {
    hide Iface;
    if c.EnsureDevice? {
      var body := DeviceBody(c.hostname, b.sites.Get(c.site).value.id, b.deviceTypes.Get(c.typeSlug).value.id,
                             Some(b.roles.Get(c.role).value.id), "active", c.customFields);
      assert Ensure(c, b).base.devices == b.devices.Add(c.tag, body);
    }
  }

  lemma GrowsOnlyIfAbsent(c: Action, b: Base)
    requires !IsWiring(c) && Ensure(c, b).Grow?
    ensures c.EnsureDeviceType? ==> b.deviceTypes.Get(c.spec.slug).None?
    ensures c.EnsureMac? ==> b.macs.Get(c.mac).None?
  {
    hide Iface;
  }

  lemma AbsentBefore<K, B>(t: Table<K, B>, later: Table<K, B>, key: K)
    requires t.Within(later) && later.Get(key).None?
    ensures t.Get(key).None?
  {
  }

  // A contradiction that a creating step brings about is with what the step
  // asked for.
  lemma NewCatalogueClash(a: Action, c: Action, b0: Base, b: Base, later: Base)
    requires a.EnsureDeviceType? || a.EnsureVlan? || a.EnsureDevice?
    requires b.Valid() && b0.Within(b) && b.Within(later) && !IsWiring(c) && Ensure(c, b) == Grow(later)
    requires later.TablesValid() && Contradicts(a, later) && !Contradicts(a, b)
    ensures Clash(a, c, b0)
  {
    hide Base.Valid, Base.Within, Base.TablesValid, Ensure, Table.Valid;
    Parts(b, later);
    Tables(later);
    Grown(c, b);
    GrownHost(c, b);
    GrowsOnlyIfAbsent(c, b);
    match a
    case EnsureDeviceType(spec) =>
      TypesWithin(b0, b);
      AbsentBefore(b0.deviceTypes, b.deviceTypes, c.spec.slug);
    case EnsureVlan(vlan, site) =>
      var i :| IsVlan(later, i, vlan.vid, site) && later.vlans.rows[i].body != vlan.name;
      if i in b.vlans.rows { VlanStays(b, later, i, vlan.vid, site); }
      GetIn(later.sites, c.site);
      GetLater(b.sites, later.sites, c.site);
    case EnsureDevice(_, _, _, _, _, _) =>
  }

  lemma TypesWithin(b: Base, later: Base)
    requires b.Within(later)
    ensures b.deviceTypes.Within(later.deviceTypes) && b.macs.Within(later.macs)
  {
  }

  lemma GetLater<K, B>(t: Table<K, B>, later: Table<K, B>, key: K)
    requires t.Within(later) && t.Get(key).Some?
    ensures later.Get(key) == t.Get(key)
  {
  }

  lemma NewOwnerClash(a: Action, c: Action, b0: Base, b: Base, later: Base)
    requires a.EnsureMac? || a.EnsureIp?
    requires b.Valid() && b0.Within(b) && b.Within(later) && !IsWiring(c) && Ensure(c, b) == Grow(later)
    requires later.TablesValid() && Contradicts(a, later) && !Contradicts(a, b)
    ensures Clash(a, c, b0)
  {
    hide Base.Valid, Base.Within, Base.TablesValid, Ensure, Iface, IsIface, Table.Valid;
    Parts(b, later);
    ValidTables(b);
    Tables(b);
    GrownHost(c, b);
    GrowsOnlyIfAbsent(c, b);
    TypesWithin(b0, b);
    match a
    case EnsureMac(tag, on, mac) =>
      var i :| i in later.macs.rows && later.macs.rows[i].key == mac
               && later.macs.rows[i].body.Some? && !IsIface(later, later.macs.rows[i].body.value, tag, on);
      if i in b.macs.rows {
        IfaceStays(b, later, b.macs.rows[i].body.value, tag, on);
      } else {
        AbsentBefore(b0.macs, b.macs, c.mac);
        OwnIface(b, later, c.tag, c.on);
      }
    case EnsureIp(tag, on, ip) =>
      var i :| i in later.ips.rows && later.ips.rows[i].key == ip
               && (later.ips.rows[i].body.Some? ==> !IsIface(later, later.ips.rows[i].body.value, tag, on));
      if i in b.ips.rows {
        if b.ips.rows[i].body.Some? { IfaceStays(b, later, b.ips.rows[i].body.value, tag, on); }
      } else {
        OwnIface(b, later, c.tag, c.on);
      }
  }

  lemma ValidTables(b: Base)
    requires b.Valid()
    ensures b.TablesValid()
  {
  }

  // The interface looked up is the one of its tag and name, also later.
  lemma OwnIface(b: Base, later: Base, tag: string, on: string)
    requires b.Valid() && b.Within(later) && Iface(b, tag, on).Some?
    ensures IsIface(later, Iface(b, tag, on).value.id, tag, on)
  {
    hide Base.Valid, Base.Within, Base.TablesValid, IsIface, Iface, Table.Valid;
    Parts(b, later);
    ValidTables(b);
    Tables(b);
    IfaceIsRow(b, tag, on, Iface(b, tag, on).value.id);
    IsIfaceIn(b, Iface(b, tag, on).value.id, tag, on);
    IfaceStays(b, later, Iface(b, tag, on).value.id, tag, on);
  }

  lemma IsIfaceIn(b: Base, i: Id, tag: string, name: string)
    requires IsIface(b, i, tag, name)
    ensures i in b.ifaces.rows
  {
  }

  lemma NewClash(a: Action, c: Action, b0: Base, b: Base, later: Base)
    requires b.Valid() && b0.Within(b) && b.Within(later) && !IsWiring(c) && Ensure(c, b) == Grow(later)
    requires later.TablesValid() && Contradicts(a, later) && !Contradicts(a, b)
    ensures Clash(a, c, b0)
  {
    hide Base.Valid, Base.Within, Base.TablesValid, Ensure, Contradicts, Clash;
    OnlyFive(a, later);
    if a.EnsureMac? || a.EnsureIp? {
      NewOwnerClash(a, c, b0, b, later);
    } else {
      NewCatalogueClash(a, c, b0, b, later);
    }
  }

  lemma RunWithin(acts: seq<Action>, st: Store)
    requires st.Valid()
    ensures Exec(acts, st).store.Valid() && st.base.Within(Exec(acts, st).store.base)
  {
    hide Store.Valid, Base.Within, Exec;
    ExecSafe(acts, st);
  }

  lemma StepClash(a: Action, c: Action, b0: Base, st: Store)
    requires st.Valid() && b0.Within(st.base) && Step(c, st).Done?
    requires Contradicts(a, Step(c, st).store.base) && !Contradicts(a, st.base)
    ensures Clash(a, c, b0)
  {
    hide Base.Valid, Base.Within, Contradicts, Clash, Step;
    StepSafe(c, st);
    StepGrows(c, st);
    ValidTables(Step(c, st).store.base);
    NewClash(a, c, b0, st.base, Step(c, st).store.base);
  }

  lemma StepGrows(a: Action, st: Store)
    requires Step(a, st).Done?
    ensures Step(a, st).store.base != st.base ==> !IsWiring(a) && Ensure(a, st.base) == Grow(Step(a, st).store.base)
  {
  }

  // What contradicts an action after a run was there before it, or was asked for
  // on the run.
  lemma {:induction false} Origin(a: Action, acts: seq<Action>, st: Store)
    requires st.Valid() && Exec(acts, st).stop.None? && Contradicts(a, Exec(acts, st).store.base)
    ensures Contradicts(a, st.base) || exists c :: c in acts && Clash(a, c, st.base)
  {
    hide Store.Valid, Base.Within, Contradicts, Clash, Step;
    if acts != [] {
      var init, c := acts[..|acts| - 1], acts[|acts| - 1];
      assert acts == init + [c];
      var mid := Exec(init, st).store;
      RunWithin(init, st);
      if Contradicts(a, mid.base) {
        Origin(a, init, st);
        if d :| d in init && Clash(a, d, st.base) { assert d in acts; }
      } else {
        StepClash(a, c, st.base, mid);
        assert c in acts;
      }
    }
  }

  // ----- consistent fixtures succeed ---------------------------------------------------------

  lemma NoMissing(fixtures: seq<HostFixture>, b: Base, name: string)
    requires Consistent(fixtures, b)
    ensures MissingName(name) !in CompileAll(fixtures)
  {
    hide CompileAll, Contradicts, Clash, AskedBy, Declared;
    InCompileAll(MissingName(name), fixtures);
    forall fx | fx in fixtures ensures !AskedBy(MissingName(name), fx) { DeclaredMeansNoneMissing(fx); }
  }

  // An action of the program is contradicted nowhere on the run.
  lemma NeverContradicted(fixtures: seq<HostFixture>, st: Store, k: nat, a: Action)
    requires st.Valid() && Consistent(fixtures, st.base) && k <= |CompileAll(fixtures)| && a in CompileAll(fixtures)
    requires Exec(CompileAll(fixtures)[..k], st).stop.None?
    ensures !Contradicts(a, Exec(CompileAll(fixtures)[..k], st).store.base)
  {
    hide CompileAll, Contradicts, Clash, AskedBy, Declared, Exec, Store.Valid;
    var acts := CompileAll(fixtures);
    InCompileAll(a, fixtures);
    if Contradicts(a, Exec(acts[..k], st).store.base) {
      Origin(a, acts[..k], st);
      if c :| c in acts[..k] && Clash(a, c, st.base) {
        assert c in acts;
        InCompileAll(c, fixtures);
      }
    }
  }

  // Only a conflict, a missing name or a missing object stops a step.
  lemma StepFails(a: Action, st: Store)
    requires st.base.TablesValid() && Step(a, st).Failed?
    requires if IsWiring(a) then Target(a, st.base).Some? else Ensure(a, st.base) != Refuse(Unresolved)
    ensures Contradicts(a, st.base) || a.MissingName?
  {
    hide Base.TablesValid, Contradicts;
    if !IsWiring(a) {
      ConflictExactly(a, st.base);
      KeyErrors(a, st.base);
      hide Ensure;
    }
  }

  lemma KeyErrors(a: Action, b: Base)
    requires !IsWiring(a) && Ensure(a, b).Refuse?
    ensures Ensure(a, b).error.KeyError? ==> a.MissingName?
  {
  }

  lemma ConsistentSucceeds(fixtures: seq<HostFixture>, st: Store)
    requires st.Valid() && Consistent(fixtures, st.base)
    ensures Exec(CompileAll(fixtures), st).stop.None?
  {
    hide CompileAll, Consistent, Contradicts, Exec, Store.Valid, Base.Valid, Step, Target, Ensure;
    var acts := CompileAll(fixtures);
    var k := StoppedAt(acts, st);
    if Exec(acts, st).stop.Some? {
      var mid := Exec(acts[..k], st).store;
      NextResolves(fixtures, k, st);
      RunWithin(acts[..k], st);
      TablesOf(mid);
      StepFails(acts[k], mid);
      NeverContradicted(fixtures, st, k, acts[k]);
      if acts[k].MissingName? { NoMissing(fixtures, st.base, acts[k].missing); }
    }
  }

  // ----- and only they do ----------------------------------------------------------------------

  // Device types and MACs a run adds have a height and an owner.
  ghost predicate Full(b: Base, later: Base) {
    && (forall i :: i in later.deviceTypes.rows && i !in b.deviceTypes.rows ==>
          later.deviceTypes.rows[i].body.uHeight.Some?)
    && (forall i :: i in later.macs.rows && i !in b.macs.rows ==> later.macs.rows[i].body.Some?)
  }

  lemma FullStep(c: Action, b0: Base, b: Base)
    requires Full(b0, b) && b0.Within(b) && !IsWiring(c) && Ensure(c, b).Grow?
    ensures Full(b0, Ensure(c, b).base)
  {
    hide Ensure, Iface;
    Grown(c, b);
    GrownHost(c, b);
  }

  lemma {:induction false} RunFull(acts: seq<Action>, st: Store)
    requires st.Valid() && Exec(acts, st).stop.None?
    ensures Full(st.base, Exec(acts, st).store.base)
  {
    hide Store.Valid, Base.Within, Step, Full;
    if acts == [] {
      FullSelf(st.base);
    } else {
      var init, c := acts[..|acts| - 1], acts[|acts| - 1];
      RunFull(init, st);
      RunWithin(init, st);
      StepGrows(c, Exec(init, st).store);
      if Step(c, Exec(init, st).store).store.base != Exec(init, st).store.base {
        FullStep(c, st.base, Exec(init, st).store.base);
      }
    }
  }

  lemma FullSelf(b: Base)
    ensures Full(b, b)
  {
  }

  lemma NotBefore<K, B>(t: Table<K, B>, later: Table<K, B>, key: K, i: Id)
    requires t.Valid() && t.Within(later) && t.Get(key).None? && i in later.rows && later.rows[i].key == key
    ensures i !in t.rows
  {
  }

  // Two rows of one key are one row.
  lemma SameRow<K, B>(t: Table<K, B>, i: Id, j: Id)
    requires t.Valid() && i in t.rows && j in t.rows && t.rows[i].key == t.rows[j].key
    ensures i == j
  {
  }

  lemma TypesAgree(b: Base, later: Base, s: DeviceTypeSpec, t: DeviceTypeSpec)
    requires b.deviceTypes.Valid() && later.deviceTypes.Valid() && b.deviceTypes.Within(later.deviceTypes)
    requires Full(b, later) && s.slug == t.slug && b.deviceTypes.Get(s.slug).None?
    requires OnRecord(EnsureDeviceType(s), later) && OnRecord(EnsureDeviceType(t), later)
    ensures s.uHeight == t.uHeight
  {
    hide Table.Valid;
    var types := later.deviceTypes;
    var i :| i in types.rows && types.rows[i].key == s.slug
             && (types.rows[i].body.uHeight.Some? ==> types.rows[i].body.uHeight.value == s.uHeight);
    var j :| j in types.rows && types.rows[j].key == t.slug
             && (types.rows[j].body.uHeight.Some? ==> types.rows[j].body.uHeight.value == t.uHeight);
    SameRow(types, i, j);
    NotBefore(b.deviceTypes, types, s.slug, i);
  }

  lemma VlansAgree(b: Base, v: VlanSpec, w: VlanSpec, site: string)
    requires b.sites.Valid() && b.vlans.Valid() && v.vid == w.vid
    requires OnRecord(EnsureVlan(v, site), b) && OnRecord(EnsureVlan(w, site), b)
    ensures v.name == w.name
  {
    var i :| IsVlan(b, i, v.vid, site) && b.vlans.rows[i].body == v.name;
    var j :| IsVlan(b, j, w.vid, site) && b.vlans.rows[j].body == w.name;
    hide Table.Valid, VlanAt, IsVlan;
    VlanIsRow(b, v.vid, site, i);
    VlanIsRow(b, v.vid, site, j);
  }

  lemma DevicesAgree(b: Base, a: Action, c: Action)
    requires b.devices.Valid() && a.EnsureDevice? && c.EnsureDevice? && a.tag == c.tag
    requires OnRecord(a, b) && OnRecord(c, b)
    ensures a.hostname == c.hostname
  {
    hide Table.Valid;
    var i :| i in b.devices.rows && b.devices.rows[i].key == a.tag && b.devices.rows[i].body.name == a.hostname;
    var j :| j in b.devices.rows && b.devices.rows[j].key == c.tag && b.devices.rows[j].body.name == c.hostname;
    SameRow(b.devices, i, j);
  }

  lemma MacsAgree(b: Base, later: Base, a: Action, c: Action)
    requires b.macs.Valid() && later.macs.Valid() && b.macs.Within(later.macs) && Full(b, later)
    requires a.EnsureMac? && c.EnsureMac? && a.mac == c.mac && b.macs.Get(a.mac).None?
    requires OnRecord(a, later) && OnRecord(c, later)
    ensures a.tag == c.tag && a.on == c.on
  {
    hide Table.Valid, IsIface;
    var macs := later.macs;
    var i :| i in macs.rows && macs.rows[i].key == a.mac
             && (macs.rows[i].body.Some? ==> IsIface(later, macs.rows[i].body.value, a.tag, a.on));
    var j :| j in macs.rows && macs.rows[j].key == c.mac
             && (macs.rows[j].body.Some? ==> IsIface(later, macs.rows[j].body.value, c.tag, c.on));
    SameRow(macs, i, j);
    NotBefore(b.macs, macs, a.mac, i);
    OneOwner(later, macs.rows[i].body.value, a.tag, a.on, c.tag, c.on);
  }

  lemma IpsAgree(b: Base, a: Action, c: Action)
    requires b.ips.Valid() && a.EnsureIp? && c.EnsureIp? && a.ip == c.ip && OnRecord(a, b) && OnRecord(c, b)
    ensures a.tag == c.tag && a.on == c.on
  {
    hide Table.Valid, IsIface;
    var i :| i in b.ips.rows && b.ips.rows[i].key == a.ip
             && b.ips.rows[i].body.Some? && IsIface(b, b.ips.rows[i].body.value, a.tag, a.on);
    var j :| j in b.ips.rows && b.ips.rows[j].key == c.ip
             && b.ips.rows[j].body.Some? && IsIface(b, b.ips.rows[j].body.value, c.tag, c.on);
    SameRow(b.ips, i, j);
    OneOwner(b, b.ips.rows[i].body.value, a.tag, a.on, c.tag, c.on);
  }

  // What clashes cannot both be on record.
  lemma ClashNotOnRecord(a: Action, c: Action, b: Base, later: Base)
    requires b.Valid() && later.Valid() && b.Within(later) && Full(b, later)
    requires OnRecord(a, later) && OnRecord(c, later)
    ensures !Clash(a, c, b)
  {
    hide Base.Valid, Base.Within, Base.TablesValid, Table.Valid, OnRecord, Full;
    ValidTables(b);
    Tables(b);
    ValidTables(later);
    Tables(later);
    TypesWithin(b, later);
    match a
    case EnsureDeviceType(spec) =>
      if c.EnsureDeviceType? && c.spec.slug == spec.slug && b.deviceTypes.Get(spec.slug).None? {
        TypesAgree(b, later, spec, c.spec);
      }
    case EnsureVlan(vlan, site) =>
      if c.EnsureVlan? && c.vlan.vid == vlan.vid && c.site == site { VlansAgree(later, vlan, c.vlan, site); }
    case EnsureDevice(tag, _, _, _, _, _) => if c.EnsureDevice? && c.tag == tag { DevicesAgree(later, a, c); }
    case EnsureMac(_, _, mac) =>
      if c.EnsureMac? && c.mac == mac && b.macs.Get(mac).None? { MacsAgree(b, later, a, c); }
    case EnsureIp(_, _, ip) => if c.EnsureIp? && c.ip == ip { IpsAgree(later, a, c); }
    case _ =>
  }

  lemma OneOwner(b: Base, i: Id, tag: string, on: string, tag': string, on': string)
    requires IsIface(b, i, tag, on) && IsIface(b, i, tag', on')
    ensures tag == tag' && on == on'
  {
  }

  lemma SuccessIsConsistent(fixtures: seq<HostFixture>, st: Store)
    requires st.Valid() && Exec(CompileAll(fixtures), st).stop.None?
    ensures Consistent(fixtures, st.base)
  {
    hide CompileAll, Contradicts, OnRecord, Clash, AskedBy, Declared, Exec, Store.Valid, Base.Valid, Base.Within, Full;
    var acts, fin := CompileAll(fixtures), Exec(CompileAll(fixtures), st).store;
    RunWithin(acts, st);
    BasesValid(st, fin);
    RunFull(acts, st);
    forall fx | fx in fixtures ensures Declared(fx) {
      forall name ensures !AskedBy(MissingName(name), fx) {
        InCompileAll(MissingName(name), fixtures);
        NoneMissing(acts, st, name);
      }
      DeclaredMeansNoneMissing(fx);
    }
    forall fx, a | fx in fixtures && AskedBy(a, fx) ensures !Contradicts(a, st.base) {
      InCompileAll(a, fixtures);
      RunOnRecord(acts, st, a);
      if Contradicts(a, st.base) { ContradictedLater(a, st.base, fin.base); }
    }
    forall f, g, a, c | f in fixtures && g in fixtures && AskedBy(a, f) && AskedBy(c, g) ensures !Clash(a, c, st.base) {
      InCompileAll(a, fixtures);
      InCompileAll(c, fixtures);
      RunOnRecord(acts, st, a);
      RunOnRecord(acts, st, c);
      ClashNotOnRecord(a, c, st.base, fin.base);
    }
  }

  lemma RunOnRecord(acts: seq<Action>, st: Store, a: Action)
    requires st.Valid() && Exec(acts, st).stop.None? && a in acts
    ensures OnRecord(a, Exec(acts, st).store.base) && !Contradicts(a, Exec(acts, st).store.base)
  {
    hide Store.Valid, Exec;
    if !IsWiring(a) { RunLeavesOnRecord(acts, st, a); }
  }

  lemma BasesValid(st: Store, fin: Store)
    requires st.Valid() && fin.Valid()
    ensures st.base.Valid() && fin.base.Valid()
  {
  }

  lemma NoneMissing(acts: seq<Action>, st: Store, name: string)
    requires st.Valid() && Exec(acts, st).stop.None?
    ensures MissingName(name) !in acts
  {
    hide Store.Valid, Exec;
    AllSettled(acts, st);
    RefusesMissing(name, Exec(acts, st).store.base);
  }

  // populate raises neither a conflict nor a KeyError exactly when the fixtures
  // are consistent, with each other and with what is on record before the run.
  lemma SucceedsExactly(fixtures: seq<HostFixture>, st: Store)
    requires st.Valid()
    ensures Exec(CompileAll(fixtures), st).stop.None? <==> Consistent(fixtures, st.base)
  {
    hide CompileAll, Consistent, Exec, Store.Valid;
    if Exec(CompileAll(fixtures), st).stop.None? { SuccessIsConsistent(fixtures, st); }
    if Consistent(fixtures, st.base) { ConsistentSucceeds(fixtures, st); }
  }

  // ----- one fixture and an empty Netbox --------------------------------------------------------

  function Nothing<K, B>(): Table<K, B> { Table(map[], map[], 1) }

  function EmptyStore(): Store {
    Store(Base(Nothing(), Nothing(), Nothing(), Nothing(), Nothing(), Nothing(), Nothing(), Nothing(), Nothing()),
          map[])
  }

  lemma EmptyIsValid()
    ensures EmptyStore().Valid() && forall tag :: EmptyStore().base.devices.Get(tag).None?
  {
  }

  lemma EmptyContradictsNothing(a: Action)
    ensures !Contradicts(a, EmptyStore().base)
  {
  }

  // No VLAN number has two names, no MAC and no address is on two interface names.
  ghost predicate Coherent(fx: HostFixture) {
    && (forall v, w :: v in fx.vlans && w in fx.vlans && v.vid == w.vid ==> v.name == w.name)
    && (forall s, t :: s in fx.interfaces && t in fx.interfaces && Truthy(s.mac) && s.mac == t.mac ==> s.name == t.name)
    && (forall s, t :: s in fx.interfaces && t in fx.interfaces && TruthyIp(s.ip) && s.ip == t.ip ==> s.name == t.name)
  }

  lemma MacAsker(fx: HostFixture, a: Action) returns (s: InterfaceSpec)
    requires a.EnsureMac? && AskedBy(a, fx)
    ensures s in fx.interfaces && s.name == a.on && s.mac == Some(a.mac) && a.mac != "" && a.tag == fx.assetTag
  {
    s :| s in fx.interfaces && s.name == a.on && s.mac == Some(a.mac);
  }

  lemma IpAsker(fx: HostFixture, a: Action) returns (s: InterfaceSpec)
    requires a.EnsureIp? && AskedBy(a, fx)
    ensures s in fx.interfaces && s.name == a.on && s.ip == Some(a.ip) && TruthyIp(s.ip) && a.tag == fx.assetTag
  {
    s :| s in fx.interfaces && s.name == a.on && s.ip == Some(a.ip);
  }

  lemma CoherentNeverClashes(fx: HostFixture, a: Action, c: Action, b: Base)
    requires Coherent(fx) && AskedBy(a, fx) && AskedBy(c, fx)
    ensures !Clash(a, c, b)
  {
    if a.EnsureMac? && c.EnsureMac? {
      hide AskedBy;
      var s := MacAsker(fx, a);
      var t := MacAsker(fx, c);
    } else if a.EnsureIp? && c.EnsureIp? {
      hide AskedBy;
      var s := IpAsker(fx, a);
      var t := IpAsker(fx, c);
    } else {
      hide Names;
    }
  }

  lemma ClashFreeIsCoherent(fx: HostFixture)
    requires forall a, c :: AskedBy(a, fx) && AskedBy(c, fx) ==> !Clash(a, c, EmptyStore().base)
    ensures Coherent(fx)
  {
    forall v, w | v in fx.vlans && w in fx.vlans && v.vid == w.vid ensures v.name == w.name {
      assert !Clash(EnsureVlan(v, fx.site), EnsureVlan(w, fx.site), EmptyStore().base);
    }
    var tag := fx.assetTag;
    forall s, t | s in fx.interfaces && t in fx.interfaces && Truthy(s.mac) && s.mac == t.mac ensures s.name == t.name {
      assert AskedBy(EnsureMac(tag, s.name, s.mac.value), fx) && AskedBy(EnsureMac(tag, t.name, t.mac.value), fx);
      assert !Clash(EnsureMac(tag, s.name, s.mac.value), EnsureMac(tag, t.name, t.mac.value), EmptyStore().base);
    }
    forall s, t | s in fx.interfaces && t in fx.interfaces && TruthyIp(s.ip) && s.ip == t.ip ensures s.name == t.name {
      assert AskedBy(EnsureIp(tag, s.name, s.ip.value), fx) && AskedBy(EnsureIp(tag, t.name, t.ip.value), fx);
      assert !Clash(EnsureIp(tag, s.name, s.ip.value), EnsureIp(tag, t.name, t.ip.value), EmptyStore().base);
    }
  }

  // A fixture alone populates an empty Netbox exactly when it declares what it
  // names, names each VLAN number once, and repeats no MAC or address.
  lemma AloneSucceedsExactly(fx: HostFixture)
    ensures Exec(CompileAll([fx]), EmptyStore()).stop.None? <==> Declared(fx) && Coherent(fx)
  {
    hide CompileAll, Exec, Contradicts, Clash, AskedBy, Declared, Coherent, EmptyStore;
    EmptyIsValid();
    SucceedsExactly([fx], EmptyStore());
    forall a ensures !Contradicts(a, EmptyStore().base) { EmptyContradictsNothing(a); }
    assert fx in [fx];
    if Coherent(fx) {
      forall a, c | AskedBy(a, fx) && AskedBy(c, fx) ensures !Clash(a, c, EmptyStore().base) {
        CoherentNeverClashes(fx, a, c, EmptyStore().base);
      }
    }
    if Consistent([fx], EmptyStore().base) { ClashFreeIsCoherent(fx); }
  }
}

// Which actions the program of a fixture list contains, and what that says
// about re-running populate on fixtures.
module Programs {
  import opened Basics
  import opened Addresses
  import opened Inventory
  import opened PopulateSpec
  import opened PopulateSafety
  import opened Restart

  // ----- membership ---------------------------------------------------------------

  // The action is one the fixture asks for.
  ghost predicate AskedBy(a: Action, fx: HostFixture) {
    match a
    case EnsureSite(slug) => slug == fx.site
    case EnsureManufacturer(name) => name == fx.deviceType.manufacturer
    case EnsureDeviceType(spec) => spec == fx.deviceType
    case EnsureDeviceRole(slug) => slug == fx.deviceRole
    case EnsureVlan(vlan, site) => vlan in fx.vlans && site == fx.site
    case EnsureDevice(_, _, _, _, _, _) => a == DeviceAction(fx)
    case EnsureInterface(tag, spec, untagged, site) =>
      tag == fx.assetTag && spec in fx.interfaces && untagged == UntaggedOf(fx, spec) && site == fx.site
    case SetLag(tag, member, lag) =>
      tag == fx.assetTag && exists s :: s in fx.interfaces && s.name == lag && member in s.lagMembers
                                        && member in Names(fx.interfaces)
    case SetParent(tag, child, parent) =>
      tag == fx.assetTag && parent != "" && parent in Names(fx.interfaces)
      && exists s :: s in fx.interfaces && s.name == child && s.parent == Some(parent)
    case EnsureMac(tag, on, mac) =>
      tag == fx.assetTag && mac != "" && exists s :: s in fx.interfaces && s.name == on && s.mac == Some(mac)
    case SetPrimaryMac(tag, on, mac) =>
      tag == fx.assetTag && mac != "" && exists s :: s in fx.interfaces && s.name == on && s.mac == Some(mac)
    case EnsureIp(tag, on, ip) =>
      tag == fx.assetTag && ip != OtherText("") && exists s :: s in fx.interfaces && s.name == on && s.ip == Some(ip)
    case MissingName(name) =>
      name !in Names(fx.interfaces)
      && exists s :: s in fx.interfaces && (name in s.lagMembers || (name != "" && s.parent == Some(name)))
  }

  lemma {:induction false} InPass(a: Action, fx: HostFixture, specs: seq<InterfaceSpec>,
                                  of: (HostFixture, InterfaceSpec) -> seq<Action>)
    ensures a in Pass(fx, specs, of) <==> exists s :: s in specs && a in of(fx, s)
  {
    if specs != [] {
      var init, last := specs[..|specs| - 1], specs[|specs| - 1];
      assert specs == init + [last];
      InPass(a, fx, init, of);
    }
  }

  lemma InWires(a: Action, fx: HostFixture, s: InterfaceSpec)
    ensures a in WireActions(fx, s) <==>
            || (exists m :: m in s.lagMembers && a == LagAction(fx, s.name, m))
            || (Truthy(s.parent) && a == ParentActions(fx, s)[0])
  {
    var lags := LagActions(fx, s);
    if a in lags {
      var i :| 0 <= i < |lags| && lags[i] == a;
      assert s.lagMembers[i] in s.lagMembers;
    }
    if m :| m in s.lagMembers && a == LagAction(fx, s.name, m) {
      var i :| 0 <= i < |s.lagMembers| && s.lagMembers[i] == m;
      assert lags[i] == a;
    }
  }

  lemma InVlans(a: Action, vlans: seq<VlanSpec>, site: string)
    ensures a in VlanActions(vlans, site) <==> a.EnsureVlan? && a.vlan in vlans && a.site == site
  {
    var acts := VlanActions(vlans, site);
    if a.EnsureVlan? && a.vlan in vlans && a.site == site {
      var i :| 0 <= i < |vlans| && vlans[i] == a.vlan;
      assert acts[i] == a;
    }
  }

  lemma InInterfaces(a: Action, fx: HostFixture)
    ensures a in InterfaceActions(fx) <==>
            a.EnsureInterface? && a.iface in fx.interfaces
            && a == EnsureInterface(fx.assetTag, a.iface, UntaggedOf(fx, a.iface), fx.site)
  {
    var acts := InterfaceActions(fx);
    if a.EnsureInterface? && a.iface in fx.interfaces
       && a == EnsureInterface(fx.assetTag, a.iface, UntaggedOf(fx, a.iface), fx.site) {
      var i :| 0 <= i < |fx.interfaces| && fx.interfaces[i] == a.iface;
      assert acts[i] == a;
    }
  }

  // The wiring pass asks for a on behalf of this interface.
  ghost predicate WiredBy(a: Action, fx: HostFixture, s: InterfaceSpec) {
    match a
    case SetLag(tag, member, lag) =>
      tag == fx.assetTag && s.name == lag && member in s.lagMembers && member in Names(fx.interfaces)
    case SetParent(tag, child, parent) =>
      tag == fx.assetTag && parent != "" && parent in Names(fx.interfaces)
      && s.name == child && s.parent == Some(parent)
    case MissingName(name) =>
      name !in Names(fx.interfaces) && (name in s.lagMembers || (name != "" && s.parent == Some(name)))
    case _ => false
  }

  lemma WireAsked(a: Action, fx: HostFixture, s: InterfaceSpec)
    ensures a in WireActions(fx, s) <==> WiredBy(a, fx, s)
  {
    hide WireActions, LagActions, Names;
    InWires(a, fx, s);
    if WiredBy(a, fx, s) {
      match a
      case SetLag(_, member, _) => assert a == LagAction(fx, s.name, member);
      case MissingName(name) => if name in s.lagMembers { assert a == LagAction(fx, s.name, name); }
      case _ =>
    }
  }

  lemma WiredByIsAskedBy(a: Action, fx: HostFixture)
    ensures (exists s :: s in fx.interfaces && WiredBy(a, fx, s)) <==>
            (a.SetLag? || a.SetParent? || a.MissingName?) && AskedBy(a, fx)
  {
  }

  lemma InWirePass(a: Action, fx: HostFixture)
    ensures a in Pass(fx, fx.interfaces, WireActions) <==>
            (a.SetLag? || a.SetParent? || a.MissingName?) && AskedBy(a, fx)
  {
    hide WiredBy, AskedBy, WireActions, Pass;
    InPass(a, fx, fx.interfaces, WireActions);
    forall s ensures a in WireActions(fx, s) <==> WiredBy(a, fx, s) { WireAsked(a, fx, s); }
    WiredByIsAskedBy(a, fx);
  }

  lemma InMacPass(a: Action, fx: HostFixture)
    ensures a in Pass(fx, fx.interfaces, MacActions) <==> (a.EnsureMac? || a.SetPrimaryMac?) && AskedBy(a, fx)
  {
    InPass(a, fx, fx.interfaces, MacActions);
  }

  lemma InIpPass(a: Action, fx: HostFixture)
    ensures a in Pass(fx, fx.interfaces, IpActions) <==> a.EnsureIp? && AskedBy(a, fx)
  {
    InPass(a, fx, fx.interfaces, IpActions);
  }

  lemma InCompile(a: Action, fx: HostFixture)
    ensures a in Compile(fx) <==> AskedBy(a, fx)
  {
    hide Pass, VlanActions, InterfaceActions;
    InVlans(a, fx.vlans, fx.site);
    InInterfaces(a, fx);
    InWirePass(a, fx);
    InMacPass(a, fx);
    InIpPass(a, fx);
  }

  lemma {:induction false} InCompileAll(a: Action, fixtures: seq<HostFixture>)
    ensures a in CompileAll(fixtures) <==> exists fx :: fx in fixtures && AskedBy(a, fx)
  {
    if fixtures != [] {
      var init, last := fixtures[..|fixtures| - 1], fixtures[|fixtures| - 1];
      assert fixtures == init + [last];
      InCompileAll(a, init);
      InCompile(a, last);
    }
  }

  // ----- names and tags -------------------------------------------------------------

  // Interface names are distinct within the fixture.
  ghost predicate DistinctNames(fx: HostFixture) { Distinct(Names(fx.interfaces)) }

  ghost predicate DistinctTags(fixtures: seq<HostFixture>) {
    forall i, j :: 0 <= i < j < |fixtures| ==> fixtures[i].assetTag != fixtures[j].assetTag
  }

  ghost predicate PlainFixtures(fixtures: seq<HostFixture>) {
    DistinctTags(fixtures) && forall fx :: fx in fixtures ==> DistinctNames(fx)
  }

  lemma SameName(fx: HostFixture, s: InterfaceSpec, t: InterfaceSpec)
    requires DistinctNames(fx) && s in fx.interfaces && t in fx.interfaces && s.name == t.name
    ensures s == t
  {
  }

  lemma SameTag(fixtures: seq<HostFixture>, f: HostFixture, g: HostFixture)
    requires DistinctTags(fixtures) && f in fixtures && g in fixtures && f.assetTag == g.assetTag
    ensures f == g
  {
  }

  // Every interface is claimed by at most one LAG.
  ghost predicate OneLagPerMember(fx: HostFixture) {
    forall s, t, m :: s in fx.interfaces && t in fx.interfaces && m in s.lagMembers && m in t.lagMembers
      ==> s.name == t.name
  }

  lemma SameIface(b: Base, tag: string, name: string, tag': string, name': string)
    requires b.ifaces.Valid() && b.devices.Valid()
    requires Iface(b, tag, name).Some? && Iface(b, tag', name').Some?
    requires Iface(b, tag, name).value.id == Iface(b, tag', name').value.id
    ensures tag == tag' && name == name'
  {
  }

  // ----- a second populate ------------------------------------------------------------

  // What a wiring action wants: same slot and same id mean same names.
  function SlotName(a: Action): string
    requires IsWiring(a)
  {
    match a
    case SetLag(_, member, _) => member
    case SetParent(_, child, _) => child
    case SetPrimaryMac(_, on, _) => on
  }

  lemma SameSlot(a: Action, c: Action, b: Base)
    requires b.TablesValid() && IsWiring(a) && IsWiring(c) && Target(a, b).Some? && Target(c, b).Some?
    requires Target(a, b).value.slot == Target(c, b).value.slot
    ensures TagOf(a) == TagOf(c) && SlotName(a) == SlotName(c)
    ensures a.SetLag? == c.SetLag? && a.SetParent? == c.SetParent?
  {
    hide Base.TablesValid, Iface;
    SlotTables(b);
    SameIface(b, TagOf(a).value, SlotName(a), TagOf(c).value, SlotName(c));
  }

  lemma SlotTables(b: Base)
    requires b.TablesValid()
    ensures b.ifaces.Valid() && b.devices.Valid()
  {
  }

  // The two actions write the same column of the same interface.
  ghost predicate SameColumn(a: Action, c: Action) {
    IsWiring(a) && IsWiring(c) && TagOf(a) == TagOf(c) && SlotName(a) == SlotName(c)
    && a.SetLag? == c.SetLag? && a.SetParent? == c.SetParent?
  }

  // The fixtures ask for at most one LAG, one parent and one MAC per interface
  // name and asset tag.
  ghost predicate OneWish(fixtures: seq<HostFixture>) {
    forall f, g, a, c :: f in fixtures && g in fixtures && AskedBy(a, f) && AskedBy(c, g) && SameColumn(a, c) ==> a == c
  }

  lemma OneWishIsSingleTarget(fixtures: seq<HostFixture>, b: Base)
    requires OneWish(fixtures) && b.TablesValid()
    ensures SingleTarget(CompileAll(fixtures), b)
  {
    hide Target, Base.TablesValid, AskedBy;
    var acts := CompileAll(fixtures);
    forall i, j | 0 <= i < |acts| && 0 <= j < |acts| && IsWiring(acts[i]) && IsWiring(acts[j])
                  && Target(acts[i], b).Some? && Target(acts[j], b).Some?
                  && Target(acts[i], b).value.slot == Target(acts[j], b).value.slot
      ensures Target(acts[i], b).value.id == Target(acts[j], b).value.id
    {
      InCompileAll(acts[i], fixtures);
      InCompileAll(acts[j], fixtures);
      SameSlot(acts[i], acts[j], b);
      assert SameColumn(acts[i], acts[j]);
    }
  }

  lemma SameMac(b: Base, mac: string, mac': string)
    requires b.macs.Valid() && b.macs.Get(mac).Some? && b.macs.Get(mac').Some?
    requires b.macs.Get(mac).value.id == b.macs.Get(mac').value.id
    ensures mac == mac'
  {
  }

  lemma MacTables(b: Base)
    requires b.TablesValid()
    ensures b.macs.Valid()
  {
  }

  // Two writes of one column are of one slot, and the same id there means the
  // same wish.
  lemma SameWish(a: Action, c: Action, b: Base)
    requires b.TablesValid() && SameColumn(a, c) && Target(a, b).Some? && Target(c, b).Some?
    ensures Target(a, b).value.slot == Target(c, b).value.slot
    ensures Target(a, b).value.id == Target(c, b).value.id ==> a == c
  {
    hide Base.TablesValid, Iface, Table.Valid;
    SlotTables(b);
    MacTables(b);
    if Target(a, b).value.id == Target(c, b).value.id {
      match a
      case SetLag(tag, _, lag) => SameIface(b, tag, lag, tag, c.lag);
      case SetParent(tag, _, parent) => SameIface(b, tag, parent, tag, c.parent);
      case SetPrimaryMac(_, _, mac) => SameMac(b, mac, c.mac);
    }
  }

  lemma SingleTargetIsOneWish(fixtures: seq<HostFixture>, st: Store)
    requires st.Valid() && Exec(CompileAll(fixtures), st).stop.None?
    requires SingleTarget(CompileAll(fixtures), Exec(CompileAll(fixtures), st).store.base)
    ensures OneWish(fixtures)
  {
    hide Base.Valid, Base.TablesValid, CompileAll, Exec, Target, Ensure, AskedBy, KeepsBut;
    var acts, b := CompileAll(fixtures), Exec(CompileAll(fixtures), st).store.base;
    ExecSafe(acts, st);
    TablesOf(Exec(acts, st).store);
    AllSettled(acts, st);
    forall f, g, a, c | f in fixtures && g in fixtures && AskedBy(a, f) && AskedBy(c, g) && SameColumn(a, c)
      ensures a == c
    {
      InCompileAll(a, fixtures);
      InCompileAll(c, fixtures);
      var i :| 0 <= i < |acts| && acts[i] == a;
      var j :| 0 <= j < |acts| && acts[j] == c;
      assert Settled(acts[i], b) && Settled(acts[j], b);
      SameWish(a, c, b);
    }
  }

  // After a successful populate, a second one succeeds and leaves the same
  // store; its report is a no-op exactly when the fixtures ask for one LAG, one
  // parent and one MAC per interface. No fixture list is left out.
  lemma PopulateTwice(fixtures: seq<HostFixture>, st: Store)
    requires st.Valid() && Exec(CompileAll(fixtures), st).stop.None?
    ensures var fin := Exec(CompileAll(fixtures), st).store;
            var again := Exec(CompileAll(fixtures), fin);
            again.stop.None? && again.store == fin && (IsNoOp(again.log) <==> OneWish(fixtures))
  {
    hide Base.Valid, OneWish, SingleTarget, CompileAll;
    var acts := CompileAll(fixtures);
    SecondRun(acts, st);
    ExecSafe(acts, st);
    TablesOf(Exec(acts, st).store);
    if OneWish(fixtures) { OneWishIsSingleTarget(fixtures, Exec(acts, st).store.base); }
    if SingleTarget(acts, Exec(acts, st).store.base) { SingleTargetIsOneWish(fixtures, st); }
  }

  // With distinct tags and names there is one parent and one MAC per interface
  // anyway, so only the LAGs matter.
  lemma PlainOneWish(fixtures: seq<HostFixture>)
    requires PlainFixtures(fixtures) && forall fx :: fx in fixtures ==> OneLagPerMember(fx)
    ensures OneWish(fixtures)
  {
    hide AskedBy, PlainFixtures, OneLagPerMember;
    forall f, g, a, c | f in fixtures && g in fixtures && AskedBy(a, f) && AskedBy(c, g) && SameColumn(a, c)
      ensures a == c
    {
      WishesAgree(fixtures, f, a, g, c);
    }
  }

  lemma WishesAgree(fixtures: seq<HostFixture>, f: HostFixture, a: Action, g: HostFixture, c: Action)
    requires PlainFixtures(fixtures) && f in fixtures && g in fixtures && OneLagPerMember(f)
    requires AskedBy(a, f) && AskedBy(c, g) && SameColumn(a, c)
    ensures a == c
  {
    assert f.assetTag == g.assetTag;
    SameTag(fixtures, f, g);
    match a
    case SetLag(_, member, lag) =>
      var s :| s in f.interfaces && s.name == lag && member in s.lagMembers;
      var t :| t in f.interfaces && t.name == c.lag && member in t.lagMembers;
    case SetParent(_, child, parent) =>
      var s :| s in f.interfaces && s.name == child && s.parent == Some(parent);
      var t :| t in f.interfaces && t.name == child && t.parent == Some(c.parent);
      SameName(f, s, t);
    case SetPrimaryMac(_, on, mac) =>
      var s :| s in f.interfaces && s.name == on && s.mac == Some(mac);
      var t :| t in f.interfaces && t.name == on && t.mac == Some(c.mac);
      SameName(f, s, t);
  }

  // A run that raised nothing never met a missing name, so every LAG member
  // named was wired.
  lemma MemberAsked(fixtures: seq<HostFixture>, st: Store, fx: HostFixture, s: InterfaceSpec, m: string)
    requires st.Valid() && Exec(CompileAll(fixtures), st).stop.None?
    requires fx in fixtures && s in fx.interfaces && m in s.lagMembers
    ensures AskedBy(SetLag(fx.assetTag, m, s.name), fx)
  {
    hide Ensure, Base.Valid, CompileAll, AskedBy;
    AllSettled(CompileAll(fixtures), st);
    LagAsked(fx, s, m);
    InCompileAll(MissingName(m), fixtures);
    RefusesMissing(m, Exec(CompileAll(fixtures), st).store.base);
  }

  lemma LagAsked(fx: HostFixture, s: InterfaceSpec, m: string)
    requires s in fx.interfaces && m in s.lagMembers
    ensures m !in Names(fx.interfaces) ==> AskedBy(MissingName(m), fx)
    ensures m in Names(fx.interfaces) ==> AskedBy(SetLag(fx.assetTag, m, s.name), fx)
  {
  }

  lemma RefusesMissing(name: string, b: Base)
    ensures !Settled(MissingName(name), b)
  {
  }

  lemma OneWishIsOneLag(fixtures: seq<HostFixture>, st: Store, fx: HostFixture)
    requires st.Valid() && Exec(CompileAll(fixtures), st).stop.None? && fx in fixtures && OneWish(fixtures)
    ensures OneLagPerMember(fx)
  {
    hide Base.Valid, CompileAll, Exec, AskedBy;
    forall s, t, m | s in fx.interfaces && t in fx.interfaces && m in s.lagMembers && m in t.lagMembers
      ensures s.name == t.name
    {
      MemberAsked(fixtures, st, fx, s, m);
      MemberAsked(fixtures, st, fx, t, m);
      assert SameColumn(SetLag(fx.assetTag, m, s.name), SetLag(fx.assetTag, m, t.name));
    }
  }

  // With distinct tags and names the second report is a no-op exactly when no
  // interface is claimed by two LAGs.
  lemma PlainPopulateTwice(fixtures: seq<HostFixture>, st: Store)
    requires st.Valid() && Exec(CompileAll(fixtures), st).stop.None? && PlainFixtures(fixtures)
    ensures IsNoOp(Exec(CompileAll(fixtures), Exec(CompileAll(fixtures), st).store).log) <==>
            forall fx :: fx in fixtures ==> OneLagPerMember(fx)
  {
    hide Base.Valid, OneLagPerMember, PlainFixtures, CompileAll, OneWish, Exec;
    PopulateTwice(fixtures, st);
    if forall fx :: fx in fixtures ==> OneLagPerMember(fx) { PlainOneWish(fixtures); }
    if OneWish(fixtures) {
      forall fx | fx in fixtures ensures OneLagPerMember(fx) { OneWishIsOneLag(fixtures, st, fx); }
    }
  }

  // Two MACs under one interface name, no LAG involved: the second populate
  // rewrites the primary MAC.
  lemma TwoMacsRewrite(fixtures: seq<HostFixture>, st: Store, fx: HostFixture, s: InterfaceSpec, t: InterfaceSpec)
    requires st.Valid() && Exec(CompileAll(fixtures), st).stop.None?
    requires fx in fixtures && s in fx.interfaces && t in fx.interfaces && s.name == t.name
    requires Truthy(s.mac) && Truthy(t.mac) && s.mac != t.mac
    ensures !IsNoOp(Exec(CompileAll(fixtures), Exec(CompileAll(fixtures), st).store).log)
  {
    hide Base.Valid, CompileAll, Exec, IsNoOp, AskedBy;
    PopulateTwice(fixtures, st);
    MacAsked(fx, s);
    MacAsked(fx, t);
    var a, c := SetPrimaryMac(fx.assetTag, s.name, s.mac.value), SetPrimaryMac(fx.assetTag, t.name, t.mac.value);
    assert SameColumn(a, c) && a != c;
  }

  lemma MacAsked(fx: HostFixture, s: InterfaceSpec)
    requires s in fx.interfaces && Truthy(s.mac)
    ensures AskedBy(SetPrimaryMac(fx.assetTag, s.name, s.mac.value), fx)
  {
  }

  // The relation the action stands for is what its interface's column says.
  ghost predicate Holds(a: Action, st: Store)
    requires IsWiring(a)
  {
    Iface(st.base, TagOf(a).value, SlotName(a)).Some?
    && var iface := Iface(st.base, TagOf(a).value, SlotName(a)).value.id;
       match a
       case SetLag(tag, _, lag) =>
         Iface(st.base, tag, lag).Some?
         && st.Wired(Slot(iface, LagWire)) == Some(Iface(st.base, tag, lag).value.id)
       case SetParent(tag, _, parent) =>
         Iface(st.base, tag, parent).Some?
         && st.Wired(Slot(iface, ParentWire)) == Some(Iface(st.base, tag, parent).value.id)
       case SetPrimaryMac(_, _, mac) =>
         st.base.macs.Get(mac).Some?
         && st.Wired(Slot(iface, PrimaryMacWire)) == Some(st.base.macs.Get(mac).value.id)
  }

  lemma HoldsIsWired(a: Action, st: Store)
    requires IsWiring(a)
    ensures Holds(a, st) <==> Target(a, st.base).Some?
                              && st.Wired(Target(a, st.base).value.slot) == Some(Target(a, st.base).value.id)
  {
    hide Iface;
  }

  // Everything the fixtures ask to relate is related.
  ghost predicate AllHold(fixtures: seq<HostFixture>, st: Store) {
    forall fx, a :: fx in fixtures && IsWiring(a) && AskedBy(a, fx) ==> Holds(a, st)
  }

  // After a successful populate every LAG membership, parent and primary MAC
  // the fixtures give is in its column, exactly when they ask for one per column.
  lemma RelationsHold(fixtures: seq<HostFixture>, st: Store)
    requires st.Valid() && Exec(CompileAll(fixtures), st).stop.None?
    ensures AllHold(fixtures, Exec(CompileAll(fixtures), st).store) <==> OneWish(fixtures)
  {
    hide Base.Valid, Base.TablesValid, CompileAll, Exec, KeepsBut, OneWish, SingleTarget, AskedBy, Holds, Target;
    var acts, fin := CompileAll(fixtures), Exec(CompileAll(fixtures), st).store;
    ExecSafe(acts, st);
    TablesOf(fin);
    if OneWish(fixtures) {
      OneWishIsSingleTarget(fixtures, fin.base);
      forall fx, a | fx in fixtures && IsWiring(a) && AskedBy(a, fx) ensures Holds(a, fin) {
        InCompileAll(a, fixtures);
        var i :| 0 <= i < |acts| && acts[i] == a;
        WiredAsWanted(acts, i, st);
        HoldsIsWired(a, fin);
      }
    }
    if AllHold(fixtures, fin) { HeldIsOneWish(fixtures, fin); }
  }

  lemma HeldIsOneWish(fixtures: seq<HostFixture>, st: Store)
    requires st.base.TablesValid() && AllHold(fixtures, st)
    ensures OneWish(fixtures)
  {
    hide Base.TablesValid, AskedBy, Holds, Target;
    forall f, g, a, c | f in fixtures && g in fixtures && AskedBy(a, f) && AskedBy(c, g) && SameColumn(a, c)
      ensures a == c
    {
      HoldsIsWired(a, st);
      HoldsIsWired(c, st);
      SameWish(a, c, st.base);
    }
  }
}

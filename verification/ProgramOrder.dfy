// A program names nothing before it has ensured it: no step of populate meets
// an object that should be there and is not.
module ProgramOrder {
  import opened Basics
  import opened Inventory
  import opened PopulateSpec
  import opened Restart
  import opened Programs

  ghost predicate HasDevice(done: seq<Action>, tag: string) {
    exists d :: d in done && d.EnsureDevice? && d.tag == tag
  }

  ghost predicate HasIface(done: seq<Action>, tag: string, name: string) {
    exists d :: d in done && d.EnsureInterface? && d.tag == tag && d.iface.name == name
  }

  ghost predicate HasType(done: seq<Action>, slug: string) {
    exists d :: d in done && d.EnsureDeviceType? && d.spec.slug == slug
  }

  ghost predicate HasVlan(done: seq<Action>, vid: int, site: string) {
    exists d :: d in done && d.EnsureVlan? && d.vlan.vid == vid && d.site == site
  }

  // What the action refers to has been ensured.
  ghost predicate Needs(a: Action, done: seq<Action>) {
    match a
    case EnsureDeviceType(spec) => EnsureManufacturer(spec.manufacturer) in done
    case EnsureVlan(_, site) => EnsureSite(site) in done
    case EnsureDevice(_, _, site, typeSlug, role, _) =>
      EnsureSite(site) in done && HasType(done, typeSlug) && EnsureDeviceRole(role) in done
    case EnsureInterface(tag, _, untagged, site) =>
      HasDevice(done, tag) && (untagged.Some? ==> HasVlan(done, untagged.value, site))
    case SetLag(tag, member, lag) => HasIface(done, tag, member) && HasIface(done, tag, lag)
    case SetParent(tag, child, parent) => HasIface(done, tag, child) && HasIface(done, tag, parent)
    case EnsureMac(tag, on, _) => HasIface(done, tag, on)
    case SetPrimaryMac(tag, on, mac) => HasIface(done, tag, on) && EnsureMac(tag, on, mac) in done
    case EnsureIp(tag, on, _) => HasIface(done, tag, on)
    case _ => true
  }

  ghost predicate Taken(acts: seq<Action>, b: Base) { forall m :: m in acts ==> Settled(m, b) }

  lemma IfaceThere(done: seq<Action>, tag: string, name: string, b: Base)
    requires HasIface(done, tag, name) && Taken(done, b)
    ensures Iface(b, tag, name).Some?
  {
    var d :| d in done && d.EnsureInterface? && d.tag == tag && d.iface.name == name;
    assert Settled(d, b);
  }

  lemma CatalogueNeeds(a: Action, done: seq<Action>, b: Base)
    requires Needs(a, done) && Taken(done, b) && (a.EnsureDeviceType? || a.EnsureVlan? || a.EnsureDevice?)
    ensures Ensure(a, b) != Refuse(Unresolved)
  {
    hide Slugify;
    match a
    case EnsureVlan(_, site) => assert Settled(EnsureSite(site), b);
    case EnsureDeviceType(spec) => assert Settled(EnsureManufacturer(spec.manufacturer), b);
    case EnsureDevice(_, _, site, typeSlug, role, _) =>
      var t :| t in done && t.EnsureDeviceType? && t.spec.slug == typeSlug;
      assert Settled(t, b) && Settled(EnsureSite(site), b) && Settled(EnsureDeviceRole(role), b);
  }

  lemma InterfaceNeeds(a: Action, done: seq<Action>, b: Base)
    requires Needs(a, done) && Taken(done, b) && a.EnsureInterface?
    ensures Ensure(a, b) != Refuse(Unresolved)
  {
    var d :| d in done && d.EnsureDevice? && d.tag == a.tag;
    assert Settled(d, b);
    if a.untagged.Some? {
      var v :| v in done && v.EnsureVlan? && v.vlan.vid == a.untagged.value && v.site == a.site;
      assert Settled(v, b);
    }
  }

  lemma PortNeeds(a: Action, done: seq<Action>, b: Base)
    requires Needs(a, done) && Taken(done, b) && (IsWiring(a) || a.EnsureMac? || a.EnsureIp?)
    ensures if IsWiring(a) then Target(a, b).Some? else Ensure(a, b) != Refuse(Unresolved)
  {
    hide HasIface, Iface;
    match a
    case SetLag(tag, member, lag) => IfaceThere(done, tag, member, b); IfaceThere(done, tag, lag, b);
    case SetParent(tag, child, parent) => IfaceThere(done, tag, child, b); IfaceThere(done, tag, parent, b);
    case EnsureMac(tag, on, _) => IfaceThere(done, tag, on, b);
    case EnsureIp(tag, on, _) => IfaceThere(done, tag, on, b);
    case SetPrimaryMac(tag, on, mac) => IfaceThere(done, tag, on, b); assert Settled(EnsureMac(tag, on, mac), b);
  }

  // Where the ensuring steps succeeded, the lookups find what they ensured.
  lemma NeedsMet(a: Action, done: seq<Action>, b: Base)
    requires Needs(a, done) && Taken(done, b)
    ensures if IsWiring(a) then Target(a, b).Some? else Ensure(a, b) != Refuse(Unresolved)
  {
    if IsWiring(a) || a.EnsureMac? || a.EnsureIp? {
      hide Needs, Taken, Ensure, Target;
      PortNeeds(a, done, b);
    } else if a.EnsureInterface? {
      hide Needs, Taken, Ensure;
      InterfaceNeeds(a, done, b);
    } else if a.EnsureDeviceType? || a.EnsureVlan? || a.EnsureDevice? {
      hide Needs, Taken, Ensure;
      CatalogueNeeds(a, done, b);
    }
  }

  // ----- the order of a program ----------------------------------------------------------

  // Each action, after done and the actions before it, has what it needs.
  ghost predicate Ordered(done: seq<Action>, acts: seq<Action>) {
    forall k :: 0 <= k < |acts| ==> Needs(acts[k], done + acts[..k])
  }

  lemma NeedsMore(a: Action, done: seq<Action>, more: seq<Action>)
    requires Needs(a, done) && forall m :: m in done ==> m in more
    ensures Needs(a, more)
  {
  }

  lemma OrderedThen(done: seq<Action>, a: seq<Action>, b: seq<Action>)
    requires Ordered(done, a) && Ordered(done + a, b)
    ensures Ordered(done, a + b)
  {
    hide Needs;
    forall k | 0 <= k < |a + b| ensures Needs((a + b)[k], done + (a + b)[..k]) {
      if k < |a| {
        assert (a + b)[..k] == a[..k];
      } else {
        assert done + (a + b)[..k] == done + a + b[..k - |a|];
      }
    }
  }

  // Actions that need nothing of each other.
  lemma OrderedApart(done: seq<Action>, acts: seq<Action>)
    requires forall a :: a in acts ==> Needs(a, done)
    ensures Ordered(done, acts)
  {
    hide Needs;
    forall k | 0 <= k < |acts| ensures Needs(acts[k], done + acts[..k]) {
      NeedsMore(acts[k], done, done + acts[..k]);
    }
  }

  lemma HeaderOrdered(done: seq<Action>, fx: HostFixture)
    ensures Ordered(done, Header(fx))
  {
    var h := Header(fx);
    assert h[..2][1] == h[1];
  }

  lemma IfaceHas(done: seq<Action>, fx: HostFixture, name: string)
    requires name in Names(fx.interfaces) && forall m :: m in InterfaceActions(fx) ==> m in done
    ensures HasIface(done, fx.assetTag, name)
  {
    var i :| 0 <= i < |fx.interfaces| && fx.interfaces[i].name == name;
    assert InterfaceActions(fx)[i] in done;
  }

  lemma NamesHas(specs: seq<InterfaceSpec>, s: InterfaceSpec)
    requires s in specs
    ensures s.name in Names(specs)
  {
    var i :| 0 <= i < |specs| && specs[i] == s;
    assert Names(specs)[i] == s.name;
  }

  lemma WiresOrdered(done: seq<Action>, fx: HostFixture)
    requires forall m :: m in InterfaceActions(fx) ==> m in done
    ensures Ordered(done, Pass(fx, fx.interfaces, WireActions))
  {
    hide HasIface, InterfaceActions, Pass, Names;
    forall a | a in Pass(fx, fx.interfaces, WireActions) ensures Needs(a, done) {
      InWirePass(a, fx);
      match a
      case SetLag(_, member, lag) =>
        var s :| s in fx.interfaces && s.name == lag;
        NamesHas(fx.interfaces, s);
        IfaceHas(done, fx, member);
        IfaceHas(done, fx, lag);
      case SetParent(_, child, parent) =>
        var s :| s in fx.interfaces && s.name == child;
        NamesHas(fx.interfaces, s);
        IfaceHas(done, fx, child);
        IfaceHas(done, fx, parent);
      case MissingName(_) =>
    }
    OrderedApart(done, Pass(fx, fx.interfaces, WireActions));
  }

  lemma MacPairOrdered(done: seq<Action>, fx: HostFixture, s: InterfaceSpec)
    requires s in fx.interfaces && forall m :: m in InterfaceActions(fx) ==> m in done
    ensures Ordered(done, MacActions(fx, s))
  {
    hide HasIface, InterfaceActions;
    NamesHas(fx.interfaces, s);
    IfaceHas(done, fx, s.name);
    var acts := MacActions(fx, s);
    if acts != [] {
      NeedsMore(acts[0], done, done + acts[..0]);
      NeedsMore(acts[0], done, done + acts[..1]);
      assert acts[..1][0] == acts[0];
    }
  }

  lemma {:induction false} MacsOrdered(done: seq<Action>, fx: HostFixture, specs: seq<InterfaceSpec>)
    requires forall s :: s in specs ==> s in fx.interfaces
    requires forall m :: m in InterfaceActions(fx) ==> m in done
    ensures Ordered(done, Pass(fx, specs, MacActions))
  {
    hide Needs, InterfaceActions, MacActions;
    if specs != [] {
      var init, last := specs[..|specs| - 1], specs[|specs| - 1];
      MacsOrdered(done, fx, init);
      MacPairOrdered(done + Pass(fx, init, MacActions), fx, last);
      OrderedThen(done, Pass(fx, init, MacActions), MacActions(fx, last));
    }
  }

  lemma IpsOrdered(done: seq<Action>, fx: HostFixture)
    requires forall m :: m in InterfaceActions(fx) ==> m in done
    ensures Ordered(done, Pass(fx, fx.interfaces, IpActions))
  {
    hide HasIface, InterfaceActions, Pass, Names;
    forall a | a in Pass(fx, fx.interfaces, IpActions) ensures Needs(a, done) {
      InIpPass(a, fx);
      var s :| s in fx.interfaces && s.name == a.on;
      NamesHas(fx.interfaces, s);
      IfaceHas(done, fx, a.on);
    }
    OrderedApart(done, Pass(fx, fx.interfaces, IpActions));
  }

  lemma VlansOrdered(done: seq<Action>, fx: HostFixture)
    requires EnsureSite(fx.site) in done
    ensures Ordered(done, VlanActions(fx.vlans, fx.site))
  {
    OrderedApart(done, VlanActions(fx.vlans, fx.site));
  }

  lemma DeviceOrdered(done: seq<Action>, fx: HostFixture)
    requires forall m :: m in Header(fx) ==> m in done
    ensures Ordered(done, [DeviceAction(fx)])
  {
    var h := Header(fx);
    assert h[0] in done && h[2] in done && h[3] in done;
    assert HasType(done, fx.deviceType.slug);
    OrderedApart(done, [DeviceAction(fx)]);
  }

  lemma InterfacesOrdered(done: seq<Action>, fx: HostFixture)
    requires DeviceAction(fx) in done && forall m :: m in VlanActions(fx.vlans, fx.site) ==> m in done
    ensures Ordered(done, InterfaceActions(fx))
  {
    forall a | a in InterfaceActions(fx) ensures Needs(a, done) {
      assert HasDevice(done, fx.assetTag);
      if a.untagged.Some? {
        var i :| 0 <= i < |fx.vlans| && fx.vlans[i].vid == a.untagged.value;
        assert VlanActions(fx.vlans, fx.site)[i] in done;
      }
    }
    OrderedApart(done, InterfaceActions(fx));
  }

  lemma FixtureOrdered(done: seq<Action>, fx: HostFixture)
    ensures Ordered(done, Compile(fx))
  {
    hide Ordered, Header, VlanActions, DeviceAction, InterfaceActions, Pass;
    var h, v, d, i := Header(fx), VlanActions(fx.vlans, fx.site), [DeviceAction(fx)], InterfaceActions(fx);
    var w, m := Pass(fx, fx.interfaces, WireActions), Pass(fx, fx.interfaces, MacActions);
    HeaderOrdered(done, fx);
    SiteInHeader(fx);
    VlansOrdered(done + h, fx);
    OrderedThen(done, h, v);
    DeviceOrdered(done + (h + v), fx);
    OrderedThen(done, h + v, d);
    InterfacesOrdered(done + (h + v + d), fx);
    OrderedThen(done, h + v + d, i);
    WiresOrdered(done + (h + v + d + i), fx);
    OrderedThen(done, h + v + d + i, w);
    MacsOrdered(done + (h + v + d + i + w), fx, fx.interfaces);
    OrderedThen(done, h + v + d + i + w, m);
    IpsOrdered(done + (h + v + d + i + w + m), fx);
    OrderedThen(done, h + v + d + i + w + m, Pass(fx, fx.interfaces, IpActions));
  }

  lemma SiteInHeader(fx: HostFixture)
    ensures EnsureSite(fx.site) in Header(fx)
  {
    assert Header(fx)[0] == EnsureSite(fx.site);
  }

  lemma {:induction false} ProgramOrdered(fixtures: seq<HostFixture>)
    ensures Ordered([], CompileAll(fixtures))
  {
    hide Ordered, Compile;
    if fixtures == [] {
      NothingOrdered();
    } else {
      var init, last := fixtures[..|fixtures| - 1], fixtures[|fixtures| - 1];
      ProgramOrdered(init);
      FixtureOrdered([] + CompileAll(init), last);
      OrderedThen([], CompileAll(init), Compile(last));
    }
  }

  lemma NothingOrdered()
    ensures Ordered([], [])
  {
  }

  // Where the run has come to, the next step's lookups find their objects.
  lemma NextResolves(fixtures: seq<HostFixture>, k: nat, st: Store)
    requires st.Valid() && k < |CompileAll(fixtures)| && Exec(CompileAll(fixtures)[..k], st).stop.None?
    ensures var a, b := CompileAll(fixtures)[k], Exec(CompileAll(fixtures)[..k], st).store.base;
            if IsWiring(a) then Target(a, b).Some? else Ensure(a, b) != Refuse(Unresolved)
  {
    hide Needs, Exec, CompileAll, Store.Valid, Settled, Target, Ensure;
    var acts := CompileAll(fixtures);
    ProgramOrdered(fixtures);
    assert [] + acts[..k] == acts[..k];
    AllSettled(acts[..k], st);
    NeedsMet(acts[k], acts[..k], Exec(acts[..k], st).store.base);
  }

  // No run of populate stops for an object that should have been there.
  lemma NeverUnresolved(fixtures: seq<HostFixture>, st: Store)
    requires st.Valid()
    ensures Exec(CompileAll(fixtures), st).stop != Some(Unresolved)
  {
    hide CompileAll, Store.Valid, Target, Ensure;
    var k := StoppedAt(CompileAll(fixtures), st);
    if Exec(CompileAll(fixtures), st).stop.Some? { NextResolves(fixtures, k, st); }
  }

  // The action at which a run stopped.
  lemma {:induction false} StoppedAt(acts: seq<Action>, st: Store) returns (k: nat)
    ensures Exec(acts, st).stop.Some? ==>
              k < |acts| && Exec(acts[..k], st).stop.None? && Step(acts[k], Exec(acts[..k], st).store).Failed?
              && Exec(acts, st).stop == Some(Step(acts[k], Exec(acts[..k], st).store).error)
  {
    hide Step;
    k := 0;
    if acts != [] {
      var init := acts[..|acts| - 1];
      if Exec(init, st).stop.Some? {
        k := StoppedAt(init, st);
        assert init[..k] == acts[..k];
      } else {
        k := |init|;
      }
    }
  }

  // ----- the phases of a fixture ------------------------------------------------------------

  // Site, manufacturer, device type, role, VLANs, device, and then the four
  // passes over the interfaces: create, wire, MACs, addresses.
  function Phase(a: Action): nat {
    match a
    case EnsureSite(_) => 0
    case EnsureManufacturer(_) => 1
    case EnsureDeviceType(_) => 2
    case EnsureDeviceRole(_) => 3
    case EnsureVlan(_, _) => 4
    case EnsureDevice(_, _, _, _, _, _) => 5
    case EnsureInterface(_, _, _, _) => 6
    case SetLag(_, _, _) => 7
    case SetParent(_, _, _) => 7
    case MissingName(_) => 7
    case EnsureMac(_, _, _) => 8
    case SetPrimaryMac(_, _, _) => 8
    case EnsureIp(_, _, _) => 9
  }

  ghost predicate Rising(acts: seq<Action>, upto: nat) {
    && (forall i, j :: 0 <= i < j < |acts| ==> Phase(acts[i]) <= Phase(acts[j]))
    && forall i :: 0 <= i < |acts| ==> Phase(acts[i]) <= upto
  }

  lemma RisingThen(a: seq<Action>, upto: nat, b: seq<Action>, phase: nat)
    requires Rising(a, upto) && upto <= phase && forall x :: x in b ==> Phase(x) == phase
    ensures Rising(a + b, phase)
  {
    hide Phase;
  }

  lemma PhaseOfDeclared(fx: HostFixture)
    ensures forall a :: a in VlanActions(fx.vlans, fx.site) ==> Phase(a) == 4
    ensures forall a :: a in [DeviceAction(fx)] ==> Phase(a) == 5
    ensures forall a :: a in InterfaceActions(fx) ==> Phase(a) == 6
  {
  }

  lemma PhaseOfPasses(fx: HostFixture)
    ensures forall a :: a in Pass(fx, fx.interfaces, WireActions) ==> Phase(a) == 7
    ensures forall a :: a in Pass(fx, fx.interfaces, MacActions) ==> Phase(a) == 8
    ensures forall a :: a in Pass(fx, fx.interfaces, IpActions) ==> Phase(a) == 9
  {
    hide Pass, AskedBy;
    forall a | a in Pass(fx, fx.interfaces, WireActions) ensures Phase(a) == 7 { InWirePass(a, fx); }
    forall a | a in Pass(fx, fx.interfaces, MacActions) ensures Phase(a) == 8 { InMacPass(a, fx); }
    forall a | a in Pass(fx, fx.interfaces, IpActions) ensures Phase(a) == 9 { InIpPass(a, fx); }
  }

  lemma HeaderRises(fx: HostFixture)
    ensures Rising(Header(fx), 3)
  {
  }

  // A fixture's program goes through the phases in this order.
  lemma PhasesInOrder(fx: HostFixture)
    ensures Rising(Compile(fx), 9)
  {
    hide Rising, Header, VlanActions, DeviceAction, InterfaceActions, Pass, Phase;
    var h, v, d, i := Header(fx), VlanActions(fx.vlans, fx.site), [DeviceAction(fx)], InterfaceActions(fx);
    var w, m := Pass(fx, fx.interfaces, WireActions), Pass(fx, fx.interfaces, MacActions);
    HeaderRises(fx);
    PhaseOfDeclared(fx);
    PhaseOfPasses(fx);
    RisingThen(h, 3, v, 4);
    RisingThen(h + v, 4, d, 5);
    RisingThen(h + v + d, 5, i, 6);
    RisingThen(h + v + d + i, 6, w, 7);
    RisingThen(h + v + d + i + w, 7, m, 8);
    RisingThen(h + v + d + i + w + m, 8, Pass(fx, fx.interfaces, IpActions), 9);
  }

  // Fixtures are applied one after the other, in the order they are listed.
  lemma {:induction false} FixturesInOrder(before: seq<HostFixture>, after: seq<HostFixture>)
    ensures CompileAll(before + after) == CompileAll(before) + CompileAll(after)
    decreases |after|
  {
    hide Compile;
    if after == [] {
      assert before + after == before;
    } else {
      var init := after[..|after| - 1];
      assert (before + after)[..|before + after| - 1] == before + init;
      FixturesInOrder(before, init);
    }
  }
}

// A fixture read directly, without any Netbox in between: what one record per
// interface name amounts to when a name may be given several specs.
module FixtureView {
  import opened Basics
  import opened Addresses
  import opened PopulateSpec
  import opened Programs
  import opened Models
  import opened Loader
  import opened LoadOrder

  // ----- the specs of one name -------------------------------------------------------

  function FirstNamed(specs: seq<InterfaceSpec>, name: string): (r: Option<InterfaceSpec>)
    ensures r.Some? ==> r.value in specs && r.value.name == name
    ensures r.None? ==> forall s :: s in specs ==> s.name != name
  {
    if specs == [] then None
    else
      var init, last := specs[..|specs| - 1], specs[|specs| - 1];
      assert specs == init + [last];
      var first := FirstNamed(init, name);
      if first.Some? then first else if last.name == name then Some(last) else None
  }

  // The last MAC given under the name.
  function LastMac(specs: seq<InterfaceSpec>, name: string): Option<string> {
    if specs == [] then None
    else
      var last := specs[|specs| - 1];
      if last.name == name && Truthy(last.mac) then last.mac else LastMac(specs[..|specs| - 1], name)
  }

  // All addresses given under the name.
  function IpsOf(specs: seq<InterfaceSpec>, name: string): set<IpText> {
    set s | s in specs && s.name == name && TruthyIp(s.ip) :: s.ip.value
  }

  // The names, each where it first appears.
  function FirstNames(specs: seq<InterfaceSpec>): (names: seq<string>)
    ensures forall n :: n in names <==> FirstNamed(specs, n).Some?
  {
    if specs == [] then []
    else
      var init, last := specs[..|specs| - 1], specs[|specs| - 1];
      var names := FirstNames(init);
      if FirstNamed(init, last.name).Some? then names else names + [last.name]
  }

  function VlanNameOf(vlans: seq<VlanSpec>, vid: int): string
    requires DeclaresVid(vlans, vid)
  {
    if vlans[0].vid == vid then vlans[0].name
    else
      assert DeclaresVid(vlans[1..], vid) by {
        var i :| 0 <= i < |vlans| && vlans[i].vid == vid;
        assert vlans[1..][i - 1].vid == vid;
      }
      VlanNameOf(vlans[1..], vid)
  }

  function VlanView(fx: HostFixture, s: InterfaceSpec): Option<VlanRef> {
    var vid := UntaggedOf(fx, s);
    if vid.None? then None else Some(VlanRef(vid.value, VlanNameOf(fx.vlans, vid.value)))
  }

  function MtuView(s: InterfaceSpec): Option<int> { if s.mtu == Some(0) then None else s.mtu }

  // The record of a name: its first spec's fields, its last MAC, all its addresses.
  function RecordView(fx: HostFixture, name: string): IfaceView
    requires FirstNamed(fx.interfaces, name).Some?
  {
    var s := FirstNamed(fx.interfaces, name).value;
    IfaceView(name, MtuView(s), LastMac(fx.interfaces, name), VlanView(fx, s), s.customFields,
              IpsOf(fx.interfaces, name))
  }

  function FixtureViews(fx: HostFixture): (views: seq<IfaceView>)
    ensures |views| == |FirstNames(fx.interfaces)|
    ensures forall i :: 0 <= i < |views| ==> views[i] == RecordView(fx, FirstNames(fx.interfaces)[i])
  {
    var names := FirstNames(fx.interfaces);
    seq(|names|, i requires 0 <= i < |names| => RecordView(fx, names[i]))
  }

  // The intent the fixture declares.
  ghost function DirectIntent(fx: HostFixture): Loaded<HostIntent> {
    BuildIntent(fx.assetTag, fx.hostname, Some(fx.deviceRole), FixtureViews(fx))
  }

  // ----- distinct names -----------------------------------------------------------------

  // One record per spec.
  function SpecView(fx: HostFixture, s: InterfaceSpec): IfaceView {
    IfaceView(s.name, MtuView(s), if Truthy(s.mac) then s.mac else None, VlanView(fx, s), s.customFields,
              if TruthyIp(s.ip) then {s.ip.value} else {})
  }

  function SpecViews(fx: HostFixture): (views: seq<IfaceView>)
    ensures |views| == |fx.interfaces|
    ensures forall i :: 0 <= i < |views| ==> views[i] == SpecView(fx, fx.interfaces[i])
  {
    seq(|fx.interfaces|, i requires 0 <= i < |fx.interfaces| => SpecView(fx, fx.interfaces[i]))
  }

  lemma {:induction false} FirstNamesDistinct(specs: seq<InterfaceSpec>)
    ensures Distinct(FirstNames(specs)) && |FirstNames(specs)| <= |specs|
  {
    if specs != [] { FirstNamesDistinct(specs[..|specs| - 1]); }
  }

  // Every spec starts a record exactly when the names are distinct.
  lemma {:induction false} FirstNamesAll(specs: seq<InterfaceSpec>)
    ensures |FirstNames(specs)| == |specs| <==> Distinct(Names(specs))
    ensures Distinct(Names(specs)) ==> FirstNames(specs) == Names(specs)
  {
    if specs != [] {
      var init, last := specs[..|specs| - 1], specs[|specs| - 1];
      assert specs == init + [last];
      FirstNamesAll(init);
      FirstNamesDistinct(init);
      NamesSnoc(init, last);
      NameIsListed(init, last.name);
      DistinctSnoc(Names(init), last.name);
    }
  }

  lemma NameIsListed(specs: seq<InterfaceSpec>, name: string)
    ensures FirstNamed(specs, name).Some? <==> name in Names(specs)
  {
  }

  lemma DistinctSnoc<T(!new)>(s: seq<T>, x: T)
    ensures Distinct(s + [x]) <==> Distinct(s) && x !in s
  {
    if Distinct(s + [x]) {
      forall i, j | 0 <= i < j < |s| ensures s[i] != s[j] { assert (s + [x])[i] != (s + [x])[j]; }
      forall i | 0 <= i < |s| ensures s[i] != x { assert (s + [x])[i] != (s + [x])[|s|]; }
    }
  }

  lemma NamesSnoc(specs: seq<InterfaceSpec>, s: InterfaceSpec)
    ensures Names(specs + [s]) == Names(specs) + [s.name]
  {
  }

  lemma {:induction false} LastMacOf(specs: seq<InterfaceSpec>, s: InterfaceSpec)
    requires s in specs && forall t :: t in specs && t.name == s.name ==> t == s
    ensures LastMac(specs, s.name) == if Truthy(s.mac) then s.mac else None
  {
    var init, last := specs[..|specs| - 1], specs[|specs| - 1];
    assert specs == init + [last];
    if s in init {
      LastMacOf(init, s);
    } else if !Truthy(s.mac) {
      NoMac(init, s.name);
    }
  }

  lemma {:induction false} NoMac(specs: seq<InterfaceSpec>, name: string)
    requires forall t :: t in specs ==> t.name != name
    ensures LastMac(specs, name).None?
  {
    if specs != [] {
      var init, last := specs[..|specs| - 1], specs[|specs| - 1];
      assert specs == init + [last];
      NoMac(init, name);
    }
  }

  lemma OwnView(fx: HostFixture, s: InterfaceSpec)
    requires DistinctNames(fx) && s in fx.interfaces
    ensures FirstNamed(fx.interfaces, s.name).Some? && RecordView(fx, s.name) == SpecView(fx, s)
  {
    forall t | t in fx.interfaces && t.name == s.name ensures t == s { SameName(fx, s, t); }
    LastMacOf(fx.interfaces, s);
    hide LastMac, VlanView, MtuView;
    assert IpsOf(fx.interfaces, s.name) == if TruthyIp(s.ip) then {s.ip.value} else {};
  }

  // Reading record by record is reading spec by spec exactly when no interface
  // name is given twice.
  lemma PlainFixtureViews(fx: HostFixture)
    ensures FixtureViews(fx) == SpecViews(fx) <==> DistinctNames(fx)
  {
    FirstNamesAll(fx.interfaces);
    if DistinctNames(fx) {
      forall i | 0 <= i < |fx.interfaces| ensures FixtureViews(fx)[i] == SpecViews(fx)[i] {
        OwnView(fx, fx.interfaces[i]);
      }
    }
  }

  lemma FixtureViewNames(fx: HostFixture)
    ensures DistinctViewNames(FixtureViews(fx)) && Distinct(FixtureViews(fx))
  {
    FirstNamesDistinct(fx.interfaces);
  }

  // ----- the first and the last action of a kind ------------------------------------------

  function First(acts: seq<Action>, q: Action -> bool): (r: Option<Action>)
    ensures r.Some? ==> r.value in acts && q(r.value)
    ensures r.None? ==> forall a :: a in acts ==> !q(a)
  {
    if acts == [] then None
    else
      var init, last := acts[..|acts| - 1], acts[|acts| - 1];
      assert acts == init + [last];
      var first := First(init, q);
      if first.Some? then first else if q(last) then Some(last) else None
  }

  function Last(acts: seq<Action>, q: Action -> bool): (r: Option<Action>)
    ensures r.Some? ==> r.value in acts && q(r.value)
    ensures r.None? ==> forall a :: a in acts ==> !q(a)
  {
    if acts == [] then None
    else
      var init, last := acts[..|acts| - 1], acts[|acts| - 1];
      assert acts == init + [last];
      if q(last) then Some(last) else Last(init, q)
  }

  lemma {:induction false} FirstConcat(a: seq<Action>, b: seq<Action>, q: Action -> bool)
    ensures First(a + b, q) == if First(a, q).Some? then First(a, q) else First(b, q)
    decreases |b|
  {
    if b == [] {
      assert a + b == a;
    } else {
      var init := b[..|b| - 1];
      assert (a + b)[..|a + b| - 1] == a + init;
      FirstConcat(a, init, q);
    }
  }

  lemma {:induction false} LastConcat(a: seq<Action>, b: seq<Action>, q: Action -> bool)
    ensures Last(a + b, q) == if Last(b, q).Some? then Last(b, q) else Last(a, q)
    decreases |b|
  {
    if b == [] {
      assert a + b == a;
    } else {
      var init := b[..|b| - 1];
      assert (a + b)[..|a + b| - 1] == a + init;
      LastConcat(a, init, q);
    }
  }

  function MakesIface(tag: string, name: string): Action -> bool {
    (a: Action) => a.EnsureInterface? && a.tag == tag && a.iface.name == name
  }

  function SetsPrimary(tag: string, name: string): Action -> bool {
    (a: Action) => a.SetPrimaryMac? && a.tag == tag && a.on == name
  }

  // ----- ... of a fixture's program -----------------------------------------------------------

  lemma NotMade(acts: seq<Action>, q: Action -> bool)
    requires forall a :: a in acts ==> !q(a)
    ensures First(acts, q).None? && Last(acts, q).None?
  {
  }

  lemma {:induction false} FirstInList(fx: HostFixture, name: string, k: nat)
    requires k <= |fx.interfaces|
    ensures First(InterfaceActions(fx)[..k], MakesIface(fx.assetTag, name)) ==
            (var s := FirstNamed(fx.interfaces[..k], name);
             if s.Some? then Some(InterfaceAction(fx, s.value)) else None)
  {
    if k > 0 {
      FirstInList(fx, name, k - 1);
      assert InterfaceActions(fx)[..k][..k - 1] == InterfaceActions(fx)[..k - 1];
      assert fx.interfaces[..k][..k - 1] == fx.interfaces[..k - 1];
    }
  }

  lemma FirstInInterfaces(fx: HostFixture, name: string)
    ensures First(InterfaceActions(fx), MakesIface(fx.assetTag, name)) ==
            (var s := FirstNamed(fx.interfaces, name); if s.Some? then Some(InterfaceAction(fx, s.value)) else None)
  {
    var n := |fx.interfaces|;
    FirstInList(fx, name, n);
    assert InterfaceActions(fx)[..n] == InterfaceActions(fx) && fx.interfaces[..n] == fx.interfaces;
  }

  lemma FirstInProgram(fx: HostFixture, name: string)
    ensures First(Compile(fx), MakesIface(fx.assetTag, name)) ==
            (var s := FirstNamed(fx.interfaces, name); if s.Some? then Some(InterfaceAction(fx, s.value)) else None)
  {
    hide First, Pass, VlanActions, InterfaceActions, FirstNamed;
    var q := MakesIface(fx.assetTag, name);
    var head := Header(fx) + VlanActions(fx.vlans, fx.site) + [DeviceAction(fx)];
    var wires, macs := Pass(fx, fx.interfaces, WireActions), Pass(fx, fx.interfaces, MacActions);
    var ips := Pass(fx, fx.interfaces, IpActions);
    forall a ensures a in head ==> !q(a) { InVlans(a, fx.vlans, fx.site); }
    forall a ensures a in wires + macs + ips ==> !q(a) { InWirePass(a, fx); InMacPass(a, fx); InIpPass(a, fx); }
    NotMade(head, q);
    NotMade(wires + macs + ips, q);
    FirstConcat(head, InterfaceActions(fx), q);
    FirstConcat(head + InterfaceActions(fx), wires + macs + ips, q);
    assert Compile(fx) == head + InterfaceActions(fx) + (wires + macs + ips);
    FirstInInterfaces(fx, name);
  }

  lemma {:induction false} LastInPass(fx: HostFixture, specs: seq<InterfaceSpec>, name: string)
    ensures Last(Pass(fx, specs, MacActions), SetsPrimary(fx.assetTag, name)) ==
            (var m := LastMac(specs, name); if m.Some? then Some(SetPrimaryMac(fx.assetTag, name, m.value)) else None)
  {
    if specs != [] {
      var init, s := specs[..|specs| - 1], specs[|specs| - 1];
      LastInPass(fx, init, name);
      LastConcat(Pass(fx, init, MacActions), MacActions(fx, s), SetsPrimary(fx.assetTag, name));
      LastInMacs(fx, s, name);
    }
  }

  lemma LastInMacs(fx: HostFixture, s: InterfaceSpec, name: string)
    ensures Last(MacActions(fx, s), SetsPrimary(fx.assetTag, name)) ==
            if Truthy(s.mac) && s.name == name then Some(SetPrimaryMac(fx.assetTag, name, s.mac.value)) else None
  {
  }

  lemma LastInProgram(fx: HostFixture, name: string)
    ensures Last(Compile(fx), SetsPrimary(fx.assetTag, name)) ==
            (var m := LastMac(fx.interfaces, name);
             if m.Some? then Some(SetPrimaryMac(fx.assetTag, name, m.value)) else None)
  {
    hide Last, Pass, VlanActions, InterfaceActions, LastMac;
    var q := SetsPrimary(fx.assetTag, name);
    var wires, macs := Pass(fx, fx.interfaces, WireActions), Pass(fx, fx.interfaces, MacActions);
    var ips := Pass(fx, fx.interfaces, IpActions);
    var head := Header(fx) + VlanActions(fx.vlans, fx.site) + [DeviceAction(fx)] + InterfaceActions(fx) + wires;
    forall a ensures a in head ==> !q(a) { InVlans(a, fx.vlans, fx.site); InInterfaces(a, fx); InWirePass(a, fx); }
    forall a ensures a in ips ==> !q(a) { InIpPass(a, fx); }
    NotMade(head, q);
    NotMade(ips, q);
    LastConcat(head, macs, q);
    LastConcat(head + macs, ips, q);
    assert Compile(fx) == head + macs + ips;
    LastInPass(fx, fx.interfaces, name);
  }

  // q picks interface and primary-MAC actions of this tag.
  ghost predicate OfTag(q: Action -> bool, tag: string) {
    forall a :: q(a) ==> (a.EnsureInterface? || a.SetPrimaryMac?) && a.tag == tag
  }

  lemma NoneOfOther(fx: HostFixture, q: Action -> bool, tag: string)
    requires OfTag(q, tag) && fx.assetTag != tag
    ensures First(Compile(fx), q).None? && Last(Compile(fx), q).None?
  {
    hide Compile, First, Last;
    forall a | a in Compile(fx) ensures !q(a) { InCompile(a, fx); }
    NotMade(Compile(fx), q);
  }

  lemma {:induction false} NoneOfOthers(fixtures: seq<HostFixture>, q: Action -> bool, tag: string)
    requires OfTag(q, tag) && forall f :: f in fixtures ==> f.assetTag != tag
    ensures First(CompileAll(fixtures), q).None? && Last(CompileAll(fixtures), q).None?
  {
    hide Compile, OfTag;
    if fixtures != [] {
      var init, last := fixtures[..|fixtures| - 1], fixtures[|fixtures| - 1];
      assert fixtures == init + [last];
      NoneOfOthers(init, q, tag);
      NoneOfOther(last, q, tag);
      FirstConcat(CompileAll(init), Compile(last), q);
      LastConcat(CompileAll(init), Compile(last), q);
    }
  }

  // Under a fixture's own tag the list's program does what the fixture's does.
  lemma {:induction false} OnlyOwner(fixtures: seq<HostFixture>, fx: HostFixture, q: Action -> bool)
    requires DistinctTags(fixtures) && fx in fixtures && OfTag(q, fx.assetTag)
    ensures First(CompileAll(fixtures), q) == First(Compile(fx), q)
    ensures Last(CompileAll(fixtures), q) == Last(Compile(fx), q)
  {
    hide Compile, First, Last, OfTag;
    var init, last := fixtures[..|fixtures| - 1], fixtures[|fixtures| - 1];
    assert fixtures == init + [last];
    FirstConcat(CompileAll(init), Compile(last), q);
    LastConcat(CompileAll(init), Compile(last), q);
    forall f | f in init ensures f.assetTag != last.assetTag {
      var i :| 0 <= i < |init| && init[i] == f;
      assert fixtures[i] == f && fixtures[|init|] == last;
    }
    if last == fx {
      NoneOfOthers(init, q, fx.assetTag);
    } else {
      OnlyOwner(init, fx, q);
      NoneOfOther(last, q, fx.assetTag);
    }
  }

  lemma FirstMaker(fixtures: seq<HostFixture>, fx: HostFixture, name: string)
    requires DistinctTags(fixtures) && fx in fixtures
    ensures First(CompileAll(fixtures), MakesIface(fx.assetTag, name)) ==
            (var s := FirstNamed(fx.interfaces, name); if s.Some? then Some(InterfaceAction(fx, s.value)) else None)
  {
    hide First, Compile, CompileAll, FirstNamed, DistinctTags, InterfaceAction;
    OnlyOwner(fixtures, fx, MakesIface(fx.assetTag, name));
    FirstInProgram(fx, name);
  }

  lemma LastSetter(fixtures: seq<HostFixture>, fx: HostFixture, name: string)
    requires DistinctTags(fixtures) && fx in fixtures
    ensures Last(CompileAll(fixtures), SetsPrimary(fx.assetTag, name)) ==
            (var m := LastMac(fx.interfaces, name);
             if m.Some? then Some(SetPrimaryMac(fx.assetTag, name, m.value)) else None)
  {
    hide Last, Compile, CompileAll, LastMac, DistinctTags;
    OnlyOwner(fixtures, fx, SetsPrimary(fx.assetTag, name));
    LastInProgram(fx, name);
  }
}

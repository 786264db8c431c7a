// Hosts written out: one whose second populate is no no-op, and one of each role
// that populates and loads.
module Samples {
  import opened Basics
  import opened Addresses
  import opened Sorting
  import opened Inventory
  import opened PopulateSpec
  import opened Restart
  import opened Programs
  import opened Success
  import opened Models
  import opened Invariants
  import opened Loader
  import opened LoadOrder
  import opened FixtureView
  import opened RoundTrip
  import opened Reading

  function Port(name: string): InterfaceSpec { InterfaceSpec(name, "other", None, None, None, [], None, None, map[]) }

  // ----- an interface claimed by two LAGs -------------------------------------------------

  function Shared(): HostFixture {
    HostFixture("SN", "host", "cpu", "lab", DeviceTypeSpec("Acme", "Box", "box", 1), [],
                [Port("m"), Port("a").(lagMembers := ["m"]), Port("b").(lagMembers := ["m"])], map[])
  }

  lemma SharedNames()
    ensures Names(Shared().interfaces) == ["m", "a", "b"] && DistinctNames(Shared())
  {
    assert Names(Shared().interfaces) == ["m", "a", "b"];
    assert "m"[0] != "a"[0] && "m"[0] != "b"[0] && "a"[0] != "b"[0];
  }

  lemma SharedDeclared()
    ensures Declared(Shared())
  {
    SharedNames();
    var names := Names(Shared().interfaces);
    hide Names;
    assert names[0] == "m" && "m" in names;
  }

  lemma SharedSucceeds()
    ensures Exec(CompileAll([Shared()]), EmptyStore()).stop.None?
  {
    SharedDeclared();
    AloneSucceedsExactly(Shared());
    hide Exec, CompileAll, EmptyStore, Declared;
  }

  lemma SharedMember()
    ensures !OneLagPerMember(Shared())
  {
    var ports := Shared().interfaces;
    assert "a"[0] != "b"[0];
    assert ports[1] in ports && ports[2] in ports;
    assert "m" in ports[1].lagMembers && "m" in ports[2].lagMembers && ports[1].name != ports[2].name;
  }

  // Asset tags and names are distinct, the first populate raises nothing, and
  // the report of the second is no no-op.
  lemma SecondPopulateRewires()
    ensures EmptyStore().Valid() && PlainFixtures([Shared()])
    ensures var acts := CompileAll([Shared()]);
            var first := Exec(acts, EmptyStore());
            first.stop.None? && Exec(acts, first.store).stop.None? && !IsNoOp(Exec(acts, first.store).log)
  {
    EmptyIsValid();
    SharedNames();
    SharedSucceeds();
    SharedMember();
    hide Exec, CompileAll, OneLagPerMember, EmptyStore, Shared, DistinctNames;
    assert PlainFixtures([Shared()]);
    assert Shared() in [Shared()];
    PopulateTwice([Shared()], EmptyStore());
    PlainPopulateTwice([Shared()], EmptyStore());
  }

  // ----- lab hosts of every role --------------------------------------------------------

  const MAC_A := "aa:bb:cc:00:00:01"
  const MAC_B := "aa:bb:cc:00:00:02"

  function Digit(k: nat): char
    requires k < 10
  {
    "0123456789"[k]
  }

  // 10.42.<third>.<last>
  function Ip(third: nat, last: nat): int { ((10 * 256 + 42) * 256 + third) * 256 + last }

  function Child(name: string, vid: int, mtu: int, third: nat): InterfaceSpec
    requires third < 256
  {
    InterfaceSpec(name, "virtual", None, Some(mtu), Some("bond0"), [], Some(vid), Some(V4(Cidr(Ip(third, 23), 24))),
                  map[])
  }

  function CommonPorts(): seq<InterfaceSpec> {
    [Port("nsa").(mac := Some(MAC_A), mtu := Some(9000)), Port("nsb").(mac := Some(MAC_B), mtu := Some(9000)),
     Port("bond0").(kind := "lag", lagMembers := ["nsa", "nsb"]), Child("bond0.100", 100, 1500, 10),
     Child("bond0.200", 200, 9000, 20), Child("bond0.300", 300, 1500, 30)]
  }

  predicate HasIb(role: Role) { role == GpuH200 }

  function RailCount(role: Role): nat { if role == Cpu then 0 else 8 }

  function RailName(role: Role, k: nat): string
    requires k < 8
  {
    (if HasIb(role) then "ib" else "gpu") + [Digit(k)]
  }

  function RailMac(role: Role, k: nat): string
    requires k < 8
  {
    (if HasIb(role) then "aa:bb:cc:00:0e:0" else "aa:bb:cc:00:00:1") + [Digit(k)]
  }

  function RailFields(role: Role): map<string, CfValue> {
    if HasIb(role) then map[] else map["roce_tc" := Number(3), "sriov_vfs" := Number(0)]
  }

  // InfiniBand rails leave their MTU to the loader's default.
  function RailPort(role: Role, k: nat): InterfaceSpec
    requires k < 8
  {
    InterfaceSpec(RailName(role, k), "rail", Some(RailMac(role, k)), if HasIb(role) then None else Some(9000), None, [],
                  None, Some(V4(Cidr(Ip(100 + k, 23), 24))), RailFields(role))
  }

  function RailPorts(role: Role): (ports: seq<InterfaceSpec>)
    ensures |ports| == RailCount(role)
    ensures forall k :: 0 <= k < |ports| ==> ports[k] == RailPort(role, k)
  {
    seq(RailCount(role), k requires 0 <= k < RailCount(role) => RailPort(role, k))
  }

  function Lab(role: Role): HostFixture {
    HostFixture("SN-" + RoleText(role), "lab", RoleText(role), "site03", DeviceTypeSpec("Acme", "Box", "box", 1),
                [VlanSpec(100, "mgmt"), VlanSpec(200, "storage"), VlanSpec(300, "ingress")],
                CommonPorts() + RailPorts(role), map[])
  }

  // ----- it populates -------------------------------------------------------------------

  lemma DigitsDiffer(j: nat, k: nat)
    requires j < 8 && k < 8 && Digit(j) == Digit(k)
    ensures j == k
  {
  }

  lemma CommonNames()
    ensures Names(CommonPorts()) == ["nsa", "nsb", "bond0", "bond0.100", "bond0.200", "bond0.300"]
  {
    assert Names(CommonPorts()) == ["nsa", "nsb", "bond0", "bond0.100", "bond0.200", "bond0.300"];
  }

  lemma CommonNamesDiffer()
    ensures Distinct(["nsa", "nsb", "bond0", "bond0.100", "bond0.200", "bond0.300"])
  {
    assert "nsa"[2] != "nsb"[2] && |"nsa"| == |"nsb"| == 3 && |"bond0"| == 5;
    assert |"bond0.100"| == |"bond0.200"| == |"bond0.300"| == 9;
    assert "bond0.100"[6] == '1' && "bond0.200"[6] == '2' && "bond0.300"[6] == '3';
  }

  lemma RailNamed(role: Role, k: nat)
    requires k < 8
    ensures var n := RailName(role, k);
            && (n[0] == 'g' || n[0] == 'i') && n[|n| - 1] == Digit(k) && |n| == (if HasIb(role) then 3 else 4)
  {
  }

  // A port is one of the six common ones or a rail.
  lemma OfLab(role: Role, s: InterfaceSpec) returns (k: nat)
    requires s in Lab(role).interfaces
    ensures s in CommonPorts() || (k < RailCount(role) && s == RailPort(role, k))
  {
    k := 0;
    var ports := Lab(role).interfaces;
    var i :| 0 <= i < |ports| && ports[i] == s;
    if i >= 6 { k := i - 6; } else { assert s == CommonPorts()[i]; }
  }

  lemma NamesOfConcat(a: seq<InterfaceSpec>, b: seq<InterfaceSpec>)
    ensures Names(a + b) == Names(a) + Names(b)
  {
    forall i | 0 <= i < |a + b| ensures Names(a + b)[i] == (Names(a) + Names(b))[i] {}
  }

  lemma LabNames(role: Role)
    ensures DistinctNames(Lab(role))
  {
    CommonNames();
    CommonNamesDiffer();
    var common, rails := Names(CommonPorts()), Names(RailPorts(role));
    NamesOfConcat(CommonPorts(), RailPorts(role));
    hide CommonPorts, Names, RailName;
    forall i | 0 <= i < |rails| ensures rails[i] == RailName(role, i) {}
    forall i, j | 0 <= i < j < |common + rails| ensures (common + rails)[i] != (common + rails)[j] {
      if i >= 6 {
        RailNamed(role, i - 6);
        RailNamed(role, j - 6);
        if rails[i - 6] == rails[j - 6] { DigitsDiffer(i - 6, j - 6); }
      } else if j >= 6 {
        RailNamed(role, j - 6);
        assert common[i][0] == 'n' || common[i][0] == 'b';
      }
    }
  }

  // What each common port refers to, and who has each MAC and address.
  lemma CommonPort(s: InterfaceSpec)
    requires s in CommonPorts()
    ensures forall m :: m in s.lagMembers ==> m == "nsa" || m == "nsb"
    ensures s.parent == None || s.parent == Some("bond0")
    ensures s.mac == None || (s.mac == Some(MAC_A) && s.name == "nsa") || (s.mac == Some(MAC_B) && s.name == "nsb")
    ensures s.ip == None || (s.ip == Some(V4(Cidr(Ip(10, 23), 24))) && s.name == "bond0.100")
            || (s.ip == Some(V4(Cidr(Ip(20, 23), 24))) && s.name == "bond0.200")
            || (s.ip == Some(V4(Cidr(Ip(30, 23), 24))) && s.name == "bond0.300")
  {
  }

  lemma LabPort(role: Role, s: InterfaceSpec)
    requires s in Lab(role).interfaces
    ensures forall m :: m in s.lagMembers ==> m == "nsa" || m == "nsb"
    ensures s.parent == None || s.parent == Some("bond0")
  {
    var k := OfLab(role, s);
    if s in CommonPorts() { CommonPort(s); }
    hide CommonPorts, Lab;
  }

  lemma LabHasNames(role: Role)
    ensures var names := Names(Lab(role).interfaces);
            "nsa" in names && "nsb" in names && "bond0" in names
  {
    CommonNames();
    NamesOfConcat(CommonPorts(), RailPorts(role));
    var names := Names(Lab(role).interfaces);
    hide Names, CommonPorts, RailPorts;
    assert names[0] == "nsa" && names[1] == "nsb" && names[2] == "bond0";
  }

  lemma LabDeclared(role: Role)
    ensures Declared(Lab(role))
  {
    hide Lab, Names;
    LabHasNames(role);
    forall s | s in Lab(role).interfaces
      ensures forall m :: m in s.lagMembers ==> m == "nsa" || m == "nsb"
      ensures s.parent == None || s.parent == Some("bond0")
    {
      LabPort(role, s);
    }
  }

  lemma RailMacs(role: Role, j: nat, k: nat)
    requires j < 8 && k < 8
    ensures RailMac(role, j) != MAC_A && RailMac(role, j) != MAC_B
    ensures RailMac(role, j) == RailMac(role, k) ==> j == k
  {
    var a, b := RailMac(role, j), RailMac(role, k);
    assert a[16] == Digit(j) && b[16] == Digit(k);
    assert MAC_A[13] == '0' && MAC_A[15] == '0' && MAC_B[13] == '0' && MAC_B[15] == '0';
    assert if HasIb(role) then a[13] == 'e' else a[15] == '1';
    if a == b { DigitsDiffer(j, k); }
  }

  lemma OneMac(role: Role, s: InterfaceSpec, t: InterfaceSpec)
    requires s in Lab(role).interfaces && t in Lab(role).interfaces && Truthy(s.mac) && s.mac == t.mac
    ensures s.name == t.name
  {
    var j := OfLab(role, s);
    var k := OfLab(role, t);
    hide Lab, CommonPorts, RailMac;
    if s in CommonPorts() { CommonPort(s); }
    if t in CommonPorts() { CommonPort(t); }
    assert MAC_A[16] != MAC_B[16];
    if j < 8 && k < 8 {
      RailMacs(role, j, k);
      RailMacs(role, k, j);
    } else if j < 8 {
      RailMacs(role, j, j);
    } else if k < 8 {
      RailMacs(role, k, k);
    }
  }

  lemma OneIp(role: Role, s: InterfaceSpec, t: InterfaceSpec)
    requires s in Lab(role).interfaces && t in Lab(role).interfaces && TruthyIp(s.ip) && s.ip == t.ip
    ensures s.name == t.name
  {
    var j := OfLab(role, s);
    var k := OfLab(role, t);
    hide Lab, CommonPorts, RailMac, RailName;
    if s in CommonPorts() { CommonPort(s); }
    if t in CommonPorts() { CommonPort(t); }
  }

  lemma LabVlans(role: Role, v: VlanSpec, w: VlanSpec)
    requires v in Lab(role).vlans && w in Lab(role).vlans && v.vid == w.vid
    ensures v.name == w.name
  {
  }

  lemma LabCoherent(role: Role)
    ensures Coherent(Lab(role))
  {
    hide Lab, Truthy, TruthyIp;
    var fx := Lab(role);
    forall v, w | v in fx.vlans && w in fx.vlans && v.vid == w.vid ensures v.name == w.name { LabVlans(role, v, w); }
    forall s, t | s in fx.interfaces && t in fx.interfaces && Truthy(s.mac) && s.mac == t.mac ensures s.name == t.name {
      OneMac(role, s, t);
    }
    forall s, t | s in fx.interfaces && t in fx.interfaces && TruthyIp(s.ip) && s.ip == t.ip ensures s.name == t.name {
      OneIp(role, s, t);
    }
  }

  // A lab host of any role populates an empty Netbox.
  lemma LabPopulated(role: Role)
    ensures Populated([Lab(role)], Lab(role), EmptyStore())
  {
    LabDeclared(role);
    LabCoherent(role);
    AloneSucceedsExactly(Lab(role));
    EmptyIsValid();
    hide Exec, CompileAll, EmptyStore, Declared, Coherent, Lab;
    assert Lab(role) in [Lab(role)];
  }

  // ----- and loads ------------------------------------------------------------------------

  function View(name: string, mac: Option<string>, mtu: Option<int>): IfaceView {
    IfaceView(name, mtu, mac, None, map[], {})
  }

  function ChildView(name: string, vlan: VlanRef, mtu: int, third: nat): IfaceView
    requires third < 256
  {
    IfaceView(name, Some(mtu), None, Some(vlan), map[], {V4(Cidr(Ip(third, 23), 24))})
  }

  function CommonViews(): seq<IfaceView> {
    [View("nsa", Some(MAC_A), Some(9000)), View("nsb", Some(MAC_B), Some(9000)), View("bond0", None, None),
     ChildView("bond0.100", VlanRef(100, "mgmt"), 1500, 10), ChildView("bond0.200", VlanRef(200, "storage"), 9000, 20),
     ChildView("bond0.300", VlanRef(300, "ingress"), 1500, 30)]
  }

  function RailView(role: Role, k: nat): IfaceView
    requires k < 8
  {
    IfaceView(RailName(role, k), if HasIb(role) then None else Some(9000), Some(RailMac(role, k)), None,
              RailFields(role), {V4(Cidr(Ip(100 + k, 23), 24))})
  }

  function RailViews(role: Role): (views: seq<IfaceView>)
    ensures |views| == RailCount(role)
    ensures forall k :: 0 <= k < |views| ==> views[k] == RailView(role, k)
  {
    seq(RailCount(role), k requires 0 <= k < RailCount(role) => RailView(role, k))
  }

  function LabViews(role: Role): seq<IfaceView> { CommonViews() + RailViews(role) }

  lemma VlanNames(role: Role)
    ensures var vlans := Lab(role).vlans;
            && DeclaresVid(vlans, 100) && VlanNameOf(vlans, 100) == "mgmt"
            && DeclaresVid(vlans, 200) && VlanNameOf(vlans, 200) == "storage"
            && DeclaresVid(vlans, 300) && VlanNameOf(vlans, 300) == "ingress"
  {
    var vlans := Lab(role).vlans;
    assert vlans[0].vid == 100 && vlans[1].vid == 200 && vlans[2].vid == 300;
    assert vlans[1..][0].vid == 200 && vlans[1..][1].vid == 300;
    assert vlans[1..][1..][0].vid == 300 && vlans[1..][1..][0].name == "ingress";
  }

  lemma ChildSeen(role: Role, name: string, vid: int, vlan: string, mtu: int, third: nat)
    requires third < 256 && vid != 0 && mtu != 0
    requires DeclaresVid(Lab(role).vlans, vid) && VlanNameOf(Lab(role).vlans, vid) == vlan
    ensures SpecView(Lab(role), Child(name, vid, mtu, third)) == ChildView(name, VlanRef(vid, vlan), mtu, third)
  {
    hide Lab;
  }

  lemma PortSeen(role: Role, name: string, kind: string, mac: Option<string>, mtu: Option<int>, members: seq<string>)
    requires mac != Some("") && mtu != Some(0)
    ensures SpecView(Lab(role), Port(name).(kind := kind, mac := mac, mtu := mtu, lagMembers := members)) ==
            View(name, mac, mtu)
  {
    hide Lab;
  }

  lemma RailSeen(role: Role, k: nat)
    requires k < 8
    ensures SpecView(Lab(role), RailPort(role, k)) == RailView(role, k)
  {
    RailMacGiven(role, k);
    hide Lab, RailName, RailMac;
  }

  lemma RailMacGiven(role: Role, k: nat)
    requires k < 8
    ensures RailMac(role, k) != ""
  {
  }

  lemma CommonSeen(role: Role, k: nat)
    requires k < 6
    ensures SpecView(Lab(role), CommonPorts()[k]) == CommonViews()[k]
  {
    if k < 3 {
      PortSeen(role, "nsa", "other", Some(MAC_A), Some(9000), []);
      PortSeen(role, "nsb", "other", Some(MAC_B), Some(9000), []);
      PortSeen(role, "bond0", "lag", None, None, ["nsa", "nsb"]);
    } else {
      VlanNames(role);
      ChildSeen(role, "bond0.100", 100, "mgmt", 1500, 10);
      ChildSeen(role, "bond0.200", 200, "storage", 9000, 20);
      ChildSeen(role, "bond0.300", 300, "ingress", 1500, 30);
    }
    hide Lab, SpecView, DeclaresVid, VlanNameOf, Child, ChildView, View;
  }

  lemma LabSpecView(role: Role, k: nat)
    requires k < 6 + RailCount(role)
    ensures |Lab(role).interfaces| == |LabViews(role)| == 6 + RailCount(role)
    ensures SpecView(Lab(role), Lab(role).interfaces[k]) == LabViews(role)[k]
  {
    assert |CommonPorts()| == |CommonViews()| == 6;
    var common, rails := CommonPorts(), RailPorts(role);
    assert Lab(role).interfaces == common + rails;
    hide Lab, CommonPorts, CommonViews, SpecView, RailView, RailPort;
    if k < 6 { CommonSeen(role, k); } else { RailSeen(role, k - 6); }
  }

  lemma LabFixtureViews(role: Role)
    ensures FixtureViews(Lab(role)) == LabViews(role)
  {
    hide Lab, SpecView, FixtureViews, Names, LabViews, RailCount, DistinctNames;
    LabNames(role);
    PlainFixtureViews(Lab(role));
    LabSpecView(role, 0);
    forall k | 0 <= k < |LabViews(role)| ensures SpecViews(Lab(role))[k] == LabViews(role)[k] {
      LabSpecView(role, k);
    }
  }

  // ----- which record is which ------------------------------------------------------------

  lemma {:induction false} PickedParts(a: seq<IfaceView>, b: seq<IfaceView>, pick: IfaceView -> bool)
    ensures Picked(a + b, pick) == Picked(a, pick) + Picked(b, pick)
    decreases |b|
  {
    if b == [] {
      assert a + b == a;
    } else {
      var init := b[..|b| - 1];
      assert (a + b)[..|a + b| - 1] == a + init;
      PickedParts(a, init, pick);
    }
  }

  lemma {:induction false} PickedUniform(s: seq<IfaceView>, pick: IfaceView -> bool, all: bool)
    requires forall v :: v in s ==> pick(v) == all
    ensures Picked(s, pick) == if all then s else []
  {
    if s != [] {
      var init, last := s[..|s| - 1], s[|s| - 1];
      assert s == init + [last];
      PickedUniform(init, pick, all);
    }
  }

  lemma CommonClasses(k: nat)
    requires k < 6
    ensures VlanRecord(CommonViews()[k]) <==> k >= 3
    ensures !RoceRecord(CommonViews()[k]) && !IbRecord(CommonViews()[k])
  {
    var name := CommonViews()[k].name;
    assert name[0] == 'n' || name[0] == 'b';
    assert k < 3 ==> |name| < 6;
    assert k >= 3 ==> name[..6] == "bond0.";
    assert "gpu"[0] == 'g' && "ib"[0] == 'i' && name[..3][0] == name[0] == name[..2][0];
  }

  lemma RailClasses(role: Role, k: nat)
    requires k < 8
    ensures !VlanRecord(RailView(role, k))
    ensures if HasIb(role) then IbRecord(RailView(role, k)) && !RoceRecord(RailView(role, k))
            else RoceRecord(RailView(role, k)) && !IbRecord(RailView(role, k))
  {
    var name := RailName(role, k);
    assert |name| <= 4 && '0' <= Digit(k) <= '9';
    if HasIb(role) {
      assert name[..2] == "ib" && name[2] == Digit(k);
    } else {
      assert name[..3] == "gpu" && name[3] == Digit(k) && name[..2][0] == 'g';
    }
  }

  lemma CommonPicks()
    ensures Picked(CommonViews(), VlanRecord) == CommonViews()[3..]
    ensures Picked(CommonViews(), RoceRecord) == [] && Picked(CommonViews(), IbRecord) == []
  {
    var v := CommonViews();
    assert |v| == 6 && v == v[..3] + v[3..];
    hide CommonViews, Picked, VlanRecord, RoceRecord, IbRecord;
    forall k | 0 <= k < 6 ensures (VlanRecord(v[k]) <==> k >= 3) && !RoceRecord(v[k]) && !IbRecord(v[k]) {
      CommonClasses(k);
    }
    PickedParts(v[..3], v[3..], VlanRecord);
    PickedUniform(v[..3], VlanRecord, false);
    PickedUniform(v[3..], VlanRecord, true);
    PickedUniform(v, RoceRecord, false);
    PickedUniform(v, IbRecord, false);
  }

  lemma RailPicks(role: Role)
    ensures Picked(RailViews(role), VlanRecord) == []
    ensures Picked(RailViews(role), RoceRecord) == if HasIb(role) then [] else RailViews(role)
    ensures Picked(RailViews(role), IbRecord) == if HasIb(role) then RailViews(role) else []
  {
    hide Picked, VlanRecord, RoceRecord, IbRecord, RailView;
    var v := RailViews(role);
    forall k | 0 <= k < |v|
      ensures !VlanRecord(v[k]) && (RoceRecord(v[k]) <==> !HasIb(role)) && (IbRecord(v[k]) <==> HasIb(role))
    {
      RailClasses(role, k);
    }
    PickedUniform(v, VlanRecord, false);
    PickedUniform(v, RoceRecord, !HasIb(role));
    PickedUniform(v, IbRecord, HasIb(role));
  }

  lemma LabPicks(role: Role)
    ensures Picked(LabViews(role), VlanRecord) == CommonViews()[3..]
    ensures Picked(LabViews(role), RoceRecord) == if HasIb(role) then [] else RailViews(role)
    ensures Picked(LabViews(role), IbRecord) == if HasIb(role) then RailViews(role) else []
  {
    hide Picked, VlanRecord, RoceRecord, IbRecord, CommonViews, RailViews;
    CommonPicks();
    RailPicks(role);
    PickedParts(CommonViews(), RailViews(role), VlanRecord);
    PickedParts(CommonViews(), RailViews(role), RoceRecord);
    PickedParts(CommonViews(), RailViews(role), IbRecord);
  }

  lemma NamedOnce(views: seq<IfaceView>, k: nat)
    requires DistinctViewNames(views) && k < |views|
    ensures LastNamed(views, views[k].name) == Some(views[k])
  {
    var found := LastNamed(views, views[k].name);
    assert views[k] in views;
    if found.Some? { SameViewName(views, found.value, views[k]); }
  }

  // ----- the intent it declares --------------------------------------------------------------

  function VlanOfLab(name: string, vid: int, role: VlanRole, mtu: int, third: nat, gateway: Option<int>): VlanChild
    requires third < 256
  {
    VlanChild(name, "bond0", vid, role, mtu, Cidr(Ip(third, 23), 24), gateway)
  }

  function LabVlanChildren(): seq<VlanChild> {
    [VlanOfLab("bond0.100", 100, Mgmt, 1500, 10, Some(Ip(10, 1))), VlanOfLab("bond0.200", 200, Storage, 9000, 20, None),
     VlanOfLab("bond0.300", 300, Ingress, 1500, 30, None)]
  }

  function LabNics(): seq<BondMember> { [BondMember("nsa", MAC_A, 9000), BondMember("nsb", MAC_B, 9000)] }

  function RoceRail(role: Role, k: nat): RoceUnderlay
    requires k < 8
  {
    RoceUnderlay(RailName(role, k), RailMac(role, k), 9000, 0, Cidr(Ip(100 + k, 23), 24))
  }

  function IbRail(role: Role, k: nat): InfinibandUnderlay
    requires k < 8
  {
    InfinibandUnderlay(RailName(role, k), RailMac(role, k), 2044, Cidr(Ip(100 + k, 23), 24))
  }

  function RoceRailsOf(role: Role): (rails: seq<RoceUnderlay>)
    ensures |rails| == if HasIb(role) then 0 else RailCount(role)
    ensures forall k :: 0 <= k < |rails| ==> rails[k] == RoceRail(role, k)
  {
    if HasIb(role) then [] else seq(RailCount(role), k requires 0 <= k < RailCount(role) => RoceRail(role, k))
  }

  function IbRailsOf(role: Role): (rails: seq<InfinibandUnderlay>)
    ensures |rails| == if HasIb(role) then 8 else 0
    ensures forall k :: 0 <= k < |rails| ==> rails[k] == IbRail(role, k)
  {
    if HasIb(role) then seq(8, k requires 0 <= k < 8 => IbRail(role, k)) else []
  }

  function LabIntent(role: Role): HostIntent {
    HostIntent("SN-" + RoleText(role), "lab", role, LabNics(), Bond("bond0", ["nsa", "nsb"], 9000), LabVlanChildren(),
               RoceRailsOf(role), IbRailsOf(role))
  }

  lemma CanonicalStays(mac: string)
    requires MacText(mac)
    ensures Strip(Lower(mac)) == mac
  {
    forall k | 0 <= k < 17 ensures LowerChar(mac[k]) == mac[k] && !IsSpace(mac[k]) {}
    assert Lower(mac) == mac;
  }

  lemma CommonMacs()
    ensures MacText(MAC_A) && MacText(MAC_B)
  {
  }

  lemma RailMacText(role: Role, k: nat)
    requires k < 8
    ensures MacText(RailMac(role, k))
  {
    var mac := RailMac(role, k);
    assert mac[16] == Digit(k) && '0' <= Digit(k) <= '9';
    var head := if HasIb(role) then "aa:bb:cc:00:0e:0" else "aa:bb:cc:00:00:1";
    assert forall j :: 0 <= j < 16 ==> mac[j] == head[j];
  }

  lemma LabViewsDistinct(role: Role)
    ensures DistinctViewNames(LabViews(role))
  {
    LabFixtureViews(role);
    FixtureViewNames(Lab(role));
  }

  lemma NicRead(mac: string, name: string)
    requires MacText(mac)
    ensures ReadsNic(BondMember(name, mac, 9000), View(name, Some(mac), Some(9000)), name)
  {
    CanonicalStays(mac);
    hide Strip, Lower, MacText;
  }

  lemma CommonLast(role: Role)
    ensures LastNamed(LabViews(role), "nsa") == Some(View("nsa", Some(MAC_A), Some(9000)))
    ensures LastNamed(LabViews(role), "nsb") == Some(View("nsb", Some(MAC_B), Some(9000)))
    ensures LastNamed(LabViews(role), "bond0") == Some(View("bond0", None, None))
  {
    LabViewsDistinct(role);
    var v := LabViews(role);
    assert v[0] == CommonViews()[0] && v[1] == CommonViews()[1] && v[2] == CommonViews()[2];
    NamedOnce(v, 0);
    NamedOnce(v, 1);
    NamedOnce(v, 2);
    hide LastNamed, DistinctViewNames, LabViews;
  }

  lemma LabHead(role: Role)
    ensures NicFrom(LabNics()[0], LabViews(role), "nsa") && NicFrom(LabNics()[1], LabViews(role), "nsb")
    ensures BondFrom(Bond("bond0", ["nsa", "nsb"], 9000), LabViews(role))
  {
    hide LastNamed, LabViews, ReadsNic, MacText, Strip, Lower;
    CommonLast(role);
    CommonMacs();
    NicRead(MAC_A, "nsa");
    NicRead(MAC_B, "nsb");
  }

  lemma SizeOf24()
    ensures Size(24) == 256
  {
    assert Pow2(2) == 4 && Pow2(4) == 16 && Pow2(6) == 64;
  }

  lemma LabGateway()
    ensures IsHost(Cidr(Ip(10, 23), 24), Ip(10, 1))
    ensures forall y :: IsHost(Cidr(Ip(10, 23), 24), y) ==> Ip(10, 1) <= y
  {
    SizeOf24();
    GatewayMeaning(Cidr(Ip(10, 23), 24), Ip(10, 1));
    hide IsHost, Size;
  }

  lemma LabVlansRead()
    ensures VlansRead(LabVlanChildren(), CommonViews()[3..])
  {
    LabGateway();
    hide IsHost, Ip;
  }

  lemma RailRead(role: Role, k: nat)
    requires k < 8
    ensures if HasIb(role) then ReadsIb(IbRail(role, k), RailView(role, k))
            else ReadsRoce(RoceRail(role, k), RailView(role, k))
  {
    RailMacText(role, k);
    CanonicalStays(RailMac(role, k));
    RailNamed(role, k);
    hide RailMac, RailName, MacText, Strip, Lower;
  }

  lemma LabRailsRead(role: Role)
    ensures RoceRead(RoceRailsOf(role), if HasIb(role) then [] else RailViews(role))
    ensures IbRead(IbRailsOf(role), if HasIb(role) then RailViews(role) else [])
  {
    hide ReadsRoce, ReadsIb, RoceRail, IbRail, RailView;
    forall k | 0 <= k < RailCount(role)
      ensures if HasIb(role) then ReadsIb(IbRail(role, k), RailView(role, k))
              else ReadsRoce(RoceRail(role, k), RailView(role, k))
    {
      RailRead(role, k);
    }
  }

  lemma RailsInOrder(role: Role, j: nat, k: nat)
    requires j < k < 8
    ensures InDictionaryOrder(RailName(role, j), RailName(role, k))
  {
    var a, b := RailName(role, j), RailName(role, k);
    assert SmallerAt(a, b, |a| - 1);
  }

  lemma LabRailsArranged(role: Role)
    ensures Arranges(RoceName, RoceRailsOf(role), RoceRailsOf(role))
    ensures Arranges(IbName, IbRailsOf(role), IbRailsOf(role))
  {
    hide InDictionaryOrder, RailName;
    forall j: nat, k: nat | j < k < 8 ensures InDictionaryOrder(RailName(role, j), RailName(role, k)) {
      RailsInOrder(role, j, k);
    }
  }

  // ----- a well-formed host ------------------------------------------------------------------

  function RailNames(role: Role): (names: seq<string>)
    ensures |names| == RailCount(role)
    ensures forall k :: 0 <= k < |names| ==> names[k] == RailName(role, k)
  {
    seq(RailCount(role), k requires 0 <= k < RailCount(role) => RailName(role, k))
  }

  function RailIps(role: Role): (ips: seq<int>)
    ensures |ips| == RailCount(role)
    ensures forall k :: 0 <= k < |ips| ==> ips[k] == Ip(100 + k, 23)
  {
    seq(RailCount(role), k requires 0 <= k < RailCount(role) => Ip(100 + k, 23))
  }

  lemma FixedNames()
    ensures Map(NicName, LabNics()) == ["nsa", "nsb"]
    ensures Map(VlanName, LabVlanChildren()) == ["bond0.100", "bond0.200", "bond0.300"]
  {
    hide Ip;
  }

  lemma RailsNamed(role: Role)
    ensures Map(RoceName, RoceRailsOf(role)) + Map(IbName, IbRailsOf(role)) == RailNames(role)
  {
    hide RailName, RailMac, Ip;
    if HasIb(role) {
      assert Map(RoceName, RoceRailsOf(role)) == [] && Map(IbName, IbRailsOf(role)) == RailNames(role);
    } else {
      assert Map(RoceName, RoceRailsOf(role)) == RailNames(role) && Map(IbName, IbRailsOf(role)) == [];
    }
  }

  lemma LabAllNames(role: Role)
    ensures AllNames(LabIntent(role)) ==
            ["nsa", "nsb"] + RailNames(role) + ["bond0.100", "bond0.200", "bond0.300"]
  {
    hide Map, LabNics, LabVlanChildren, RoceRailsOf, IbRailsOf, RailNames;
    FixedNames();
    RailsNamed(role);
    var nics, vlans := Map(NicName, LabNics()), Map(VlanName, LabVlanChildren());
    var roce, ib := Map(RoceName, RoceRailsOf(role)), Map(IbName, IbRailsOf(role));
    assert AllNames(LabIntent(role)) == nics + roce + ib + vlans;
    assert nics + roce + ib == nics + (roce + ib);
  }

  lemma LabAllIps(role: Role)
    ensures AllIps(LabIntent(role)) == [Ip(10, 23), Ip(20, 23), Ip(30, 23)] + RailIps(role)
  {
    hide RailName, RailMac, Ip;
    assert Map(VlanIp, LabVlanChildren()) == [Ip(10, 23), Ip(20, 23), Ip(30, 23)];
    if HasIb(role) {
      assert Map(RoceIp, RoceRailsOf(role)) == [] && Map(IbIp, IbRailsOf(role)) == RailIps(role);
    } else {
      assert Map(RoceIp, RoceRailsOf(role)) == RailIps(role) && Map(IbIp, IbRailsOf(role)) == [];
    }
  }

  lemma RailNamesDiffer(role: Role)
    ensures Distinct(RailNames(role))
    ensures forall k :: 0 <= k < |RailNames(role)| ==> RailNames(role)[k][0] == 'g' || RailNames(role)[k][0] == 'i'
  {
    hide RailName;
    var names := RailNames(role);
    forall k | 0 <= k < |names| ensures |names[k]| > 0 && (names[k][0] == 'g' || names[k][0] == 'i') {
      RailNamed(role, k);
    }
    forall j, k | 0 <= j < k < |names| ensures names[j] != names[k] {
      RailNamed(role, j);
      RailNamed(role, k);
      if names[j] == names[k] { DigitsDiffer(j, k); }
    }
  }

  lemma SplitDistinct(a: seq<string>, b: seq<string>, c: seq<string>)
    requires Distinct(a) && Distinct(b) && Distinct(c)
    requires forall i, j :: 0 <= i < |a| && 0 <= j < |b| ==> a[i] != b[j]
    requires forall i, j :: 0 <= i < |a| && 0 <= j < |c| ==> a[i] != c[j]
    requires forall i, j :: 0 <= i < |b| && 0 <= j < |c| ==> b[i] != c[j]
    ensures Distinct(a + b + c)
  {
  }

  lemma LabNamesDistinct(role: Role)
    ensures Distinct(AllNames(LabIntent(role)))
  {
    LabAllNames(role);
    RailNamesDiffer(role);
    CommonNamesDiffer();
    var a, b, c := ["nsa", "nsb"], RailNames(role), ["bond0.100", "bond0.200", "bond0.300"];
    hide AllNames, LabIntent, RailNames;
    assert forall i :: 0 <= i < |a| ==> a[i][0] == 'n';
    assert forall i :: 0 <= i < |c| ==> c[i][0] == 'b';
    var all := ["nsa", "nsb", "bond0", "bond0.100", "bond0.200", "bond0.300"];
    assert a == all[..2] && c == all[3..];
    SplitDistinct(a, b, c);
  }

  lemma LabIpsDistinct(role: Role)
    ensures Distinct(AllIps(LabIntent(role)))
  {
    LabAllIps(role);
    hide AllIps, LabIntent;
  }

  lemma LabVlanRules()
    ensures OnePerRole(LabVlanChildren()) && GatewayIsMgmts(LabVlanChildren())
    ensures forall v :: v in LabVlanChildren() ==> v.parent == "bond0" && v.mtu <= 9000
  {
    hide Ip;
    var v := LabVlanChildren();
    assert v[0] in v && v[1] in v && v[2] in v;
    forall role ensures HasRole(v, role) {
      match role
      case Mgmt => assert v[0].role == role;
      case Storage => assert v[1].role == role;
      case Ingress => assert v[2].role == role;
    }
  }

  lemma LabWellFormed(role: Role)
    ensures WellFormed(LabIntent(role))
  {
    LabNamesDistinct(role);
    LabIpsDistinct(role);
    LabVlanRules();
    hide AllNames, AllIps, OnePerRole, GatewayIsMgmts, Distinct, LabVlanChildren, RoceRailsOf, IbRailsOf;
    var i := LabIntent(role);
    assert i.nsNics[0] in i.nsNics && i.nsNics[0].name == "nsa";
    assert i.nsNics[1] in i.nsNics && i.nsNics[1].name == "nsb";
  }

  lemma LabDescribed(role: Role)
    ensures Describes(LabIntent(role), "SN-" + RoleText(role), "lab", Some(RoleText(role)), LabViews(role))
  {
    LabHead(role);
    LabPicks(role);
    LabVlansRead();
    LabRailsRead(role);
    LabRailsArranged(role);
    LabWellFormed(role);
    hide LabViews, CommonViews, RailViews, NicFrom, BondFrom, VlansRead, RoceRead, IbRead, Arranges, WellFormed, Picked,
      RoceRailsOf, IbRailsOf, LabVlanChildren;
  }

  lemma {:induction false} SetListed(ids: set<Id>) returns (listed: seq<Id>)
    ensures Distinct(listed) && forall id :: id in listed <==> id in ids
  {
    if ids == {} {
      listed := [];
    } else {
      var id :| id in ids;
      listed := SetListed(ids - {id});
      listed := listed + [id];
    }
  }

  lemma SomeListing(b: Base, device: Id) returns (ids: seq<Id>)
    ensures Listing(ids, b, device)
  {
    ids := SetListed(set id | id in b.ifaces.rows && b.ifaces.rows[id].key.device == device);
  }

  lemma LabReads(role: Role)
    ensures DirectIntent(Lab(role)) == Ok(LabIntent(role))
    ensures Describes(LabIntent(role), Lab(role).assetTag, Lab(role).hostname, Some(Lab(role).deviceRole),
                      FixtureViews(Lab(role)))
  {
    LabFixtureViews(role);
    LabDescribed(role);
    var tag, slug := "SN-" + RoleText(role), RoleText(role);
    assert Lab(role).assetTag == tag && Lab(role).hostname == "lab" && Lab(role).deviceRole == slug;
    hide Lab, LabViews, LabIntent, Describes, BuildIntent, FixtureViews, RoleText;
    LoaderMeaning(LabIntent(role), tag, "lab", Some(slug), LabViews(role));
  }

  // A host of each role that is populated, loaded and accepted: an empty Netbox
  // takes the fixture without a conflict, and then loads the intent written out
  // above: no rails for cpu, eight RoCE rails for gpu-b300 and gpu-b200, eight
  // InfiniBand rails for gpu-h200.
  lemma LabLoads(role: Role) returns (ids: seq<Id>)
    ensures Populated([Lab(role)], Lab(role), EmptyStore()) && DirectIntent(Lab(role)) == Ok(LabIntent(role))
    ensures var fin := Fin([Lab(role)], EmptyStore());
            && Lab(role).assetTag in fin.base.devices.index
            && Listing(ids, fin.base, fin.base.devices.index[Lab(role).assetTag])
            && SameLoad(FixtureViews(Lab(role)), Load(fin, Lab(role).assetTag, ids), Ok(LabIntent(role)))
  {
    LabPopulated(role);
    LabReads(role);
    hide Lab, LabIntent, Describes, Load, Fin, Listing, DirectIntent, SameLoad, Populated, FixtureViews, EmptyStore;
    DeviceReadBack([Lab(role)], Lab(role), EmptyStore());
    var fin := Fin([Lab(role)], EmptyStore()).base;
    ids := SomeListing(fin, fin.devices.index[Lab(role).assetTag]);
    LoadedDescribesFixture([Lab(role)], Lab(role), EmptyStore(), ids, LabIntent(role));
  }
}

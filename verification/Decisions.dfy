// How many decisions of each kind a completed populate reports: as many as its
// fixtures have things of that kind.
module Decisions {
  import opened Basics
  import opened Addresses
  import opened Inventory
  import opened PopulateSpec
  import opened Programs
  import opened Conflicts
  import opened Success
  import opened Populate

  function Sum<T>(f: T -> nat, s: seq<T>): nat { if s == [] then 0 else Sum(f, s[..|s| - 1]) + f(s[|s| - 1]) }

  function Lags(s: InterfaceSpec): nat { |s.lagMembers| }
  function Parents(s: InterfaceSpec): nat { if s.parent != None && s.parent != Some("") then 1 else 0 }
  function Macs(s: InterfaceSpec): nat { if s.mac != None && s.mac != Some("") then 1 else 0 }
  function Ips(s: InterfaceSpec): nat { if s.ip != None && s.ip != Some(OtherText("")) then 1 else 0 }
  function Nought(s: InterfaceSpec): nat { 0 }

  // What one fixture asks to be decided, kind by kind.
  function Wanted(fx: HostFixture, kind: Kind): nat {
    match kind
    case VlanKind => |fx.vlans|
    case InterfaceKind => |fx.interfaces|
    case LagMembershipKind => Sum(Lags, fx.interfaces)
    case InterfaceParentKind => Sum(Parents, fx.interfaces)
    case MacAddressKind => Sum(Macs, fx.interfaces)
    case PrimaryMacAssignmentKind => Sum(Macs, fx.interfaces)
    case IpAddressKind => Sum(Ips, fx.interfaces)
    case _ => 1
  }

  function KindCount(acts: seq<Action>, kind: Kind): nat {
    if acts == [] then 0
    else KindCount(acts[..|acts| - 1], kind) + if KindOf(acts[|acts| - 1]) == kind then 1 else 0
  }

  lemma {:induction false} KindCountParts(a: seq<Action>, b: seq<Action>, kind: Kind)
    ensures KindCount(a + b, kind) == KindCount(a, kind) + KindCount(b, kind)
    decreases |b|
  {
    hide KindOf;
    if b == [] {
      assert a + b == a;
    } else {
      var init := b[..|b| - 1];
      assert (a + b)[..|a + b| - 1] == a + init;
      KindCountParts(a, init, kind);
    }
  }

  lemma {:induction false} KindCountUniform(acts: seq<Action>, of: Kind, kind: Kind)
    requires forall i :: 0 <= i < |acts| ==> KindOf(acts[i]) == of
    ensures KindCount(acts, kind) == if kind == of then |acts| else 0
  {
    hide KindOf;
    if acts != [] { KindCountUniform(acts[..|acts| - 1], of, kind); }
  }

  lemma {:induction false} PassCount(fx: HostFixture, specs: seq<InterfaceSpec>,
                                     of: (HostFixture, InterfaceSpec) -> seq<Action>, f: InterfaceSpec -> nat,
                                     kind: Kind)
    requires forall s :: s in specs ==> KindCount(of(fx, s), kind) == f(s)
    ensures KindCount(Pass(fx, specs, of), kind) == Sum(f, specs)
  {
    hide KindCount;
    if specs == [] {
      KindCountNothing(kind);
    } else {
      var init, last := specs[..|specs| - 1], specs[|specs| - 1];
      PassCount(fx, init, of, f, kind);
      KindCountParts(Pass(fx, init, of), of(fx, last), kind);
    }
  }

  lemma KindCountNothing(kind: Kind)
    ensures KindCount([], kind) == 0
  {
  }

  // ----- the passes ---------------------------------------------------------------------

  lemma LagCount(fx: HostFixture, s: InterfaceSpec, kind: Kind)
    requires forall m :: m in s.lagMembers ==> m in Names(fx.interfaces)
    ensures KindCount(LagActions(fx, s), kind) == if kind.LagMembershipKind? then |s.lagMembers| else 0
  {
    hide Names;
    KindCountUniform(LagActions(fx, s), LagMembershipKind, kind);
  }

  lemma WireCount(fx: HostFixture, s: InterfaceSpec, kind: Kind)
    requires forall m :: m in s.lagMembers ==> m in Names(fx.interfaces)
    requires Truthy(s.parent) ==> s.parent.value in Names(fx.interfaces)
    ensures KindCount(WireActions(fx, s), kind) ==
            if kind.LagMembershipKind? then Lags(s) else if kind.InterfaceParentKind? then Parents(s) else 0
  {
    hide LagActions, Names;
    LagCount(fx, s, kind);
    KindCountParts(LagActions(fx, s), ParentActions(fx, s), kind);
    KindCountUniform(ParentActions(fx, s), InterfaceParentKind, kind);
  }

  lemma MacCount(fx: HostFixture, s: InterfaceSpec, kind: Kind)
    ensures KindCount(MacActions(fx, s), kind) ==
            if kind.MacAddressKind? || kind.PrimaryMacAssignmentKind? then Macs(s) else 0
  {
    var acts := MacActions(fx, s);
    if acts != [] {
      assert acts[..1][..0] == [] && KindCount(acts[..1], kind) == if kind.MacAddressKind? then 1 else 0;
    }
  }

  lemma IpCount(fx: HostFixture, s: InterfaceSpec, kind: Kind)
    ensures KindCount(IpActions(fx, s), kind) == if kind.IpAddressKind? then Ips(s) else 0
  {
    KindCountUniform(IpActions(fx, s), IpAddressKind, kind);
  }

  lemma {:induction false} SumNought(s: seq<InterfaceSpec>)
    ensures Sum(Nought, s) == 0
  {
    if s != [] { SumNought(s[..|s| - 1]); }
  }

  lemma WirePass(fx: HostFixture, kind: Kind)
    requires Declared(fx)
    ensures KindCount(Pass(fx, fx.interfaces, WireActions), kind) ==
            if kind.LagMembershipKind? || kind.InterfaceParentKind? then Wanted(fx, kind) else 0
  {
    hide KindCount, Pass, Sum, Lags, Parents, Names, WireActions;
    forall s | s in fx.interfaces
      ensures KindCount(WireActions(fx, s), kind) ==
              if kind.LagMembershipKind? then Lags(s) else if kind.InterfaceParentKind? then Parents(s) else 0
    {
      WireCount(fx, s, kind);
    }
    if kind.LagMembershipKind? {
      PassCount(fx, fx.interfaces, WireActions, Lags, kind);
    } else if kind.InterfaceParentKind? {
      PassCount(fx, fx.interfaces, WireActions, Parents, kind);
    } else {
      PassCount(fx, fx.interfaces, WireActions, Nought, kind);
      SumNought(fx.interfaces);
    }
  }

  lemma MacPass(fx: HostFixture, kind: Kind)
    ensures KindCount(Pass(fx, fx.interfaces, MacActions), kind) ==
            if kind.MacAddressKind? || kind.PrimaryMacAssignmentKind? then Wanted(fx, kind) else 0
  {
    hide KindCount, Pass, Sum, Macs, MacActions;
    forall s ensures KindCount(MacActions(fx, s), kind) ==
                     if kind.MacAddressKind? || kind.PrimaryMacAssignmentKind? then Macs(s) else 0 {
      MacCount(fx, s, kind);
    }
    if kind.MacAddressKind? || kind.PrimaryMacAssignmentKind? {
      PassCount(fx, fx.interfaces, MacActions, Macs, kind);
    } else {
      PassCount(fx, fx.interfaces, MacActions, Nought, kind);
      SumNought(fx.interfaces);
    }
  }

  lemma IpPass(fx: HostFixture, kind: Kind)
    ensures KindCount(Pass(fx, fx.interfaces, IpActions), kind) == if kind.IpAddressKind? then Wanted(fx, kind) else 0
  {
    hide KindCount, Pass, Sum, Ips, IpActions;
    forall s ensures KindCount(IpActions(fx, s), kind) == if kind.IpAddressKind? then Ips(s) else 0 {
      IpCount(fx, s, kind);
    }
    if kind.IpAddressKind? {
      PassCount(fx, fx.interfaces, IpActions, Ips, kind);
    } else {
      PassCount(fx, fx.interfaces, IpActions, Nought, kind);
      SumNought(fx.interfaces);
    }
  }

  lemma HeaderCount(fx: HostFixture, kind: Kind)
    ensures KindCount(Header(fx), kind) ==
            if kind.SiteKind? || kind.ManufacturerKind? || kind.DeviceTypeKind? || kind.DeviceRoleKind? then 1 else 0
    ensures KindCount([DeviceAction(fx)], kind) == if kind.DeviceKind? then 1 else 0
  {
    var h := Header(fx);
    assert h[..3][..2] == h[..2] && h[..2][..1] == h[..1] && h[..1][..0] == [];
    assert KindCount([], kind) == 0;
    assert KindCount(h[..1], kind) == if kind.SiteKind? then 1 else 0;
    assert KindCount(h[..2], kind) == if kind.SiteKind? || kind.ManufacturerKind? then 1 else 0;
    assert KindCount(h[..3], kind) == if kind.SiteKind? || kind.ManufacturerKind? || kind.DeviceTypeKind? then 1 else 0;
  }

  lemma DeclaredCounts(fx: HostFixture, kind: Kind)
    ensures KindCount(VlanActions(fx.vlans, fx.site), kind) == if kind.VlanKind? then |fx.vlans| else 0
    ensures KindCount(InterfaceActions(fx), kind) == if kind.InterfaceKind? then |fx.interfaces| else 0
  {
    KindCountUniform(VlanActions(fx.vlans, fx.site), VlanKind, kind);
    KindCountUniform(InterfaceActions(fx), InterfaceKind, kind);
  }

  lemma FixtureCount(fx: HostFixture, kind: Kind)
    requires Declared(fx)
    ensures KindCount(Compile(fx), kind) == Wanted(fx, kind)
  {
    hide KindCount, Pass, Header, DeviceAction, Declared, Sum, VlanActions, InterfaceActions;
    var h, v, d, i := Header(fx), VlanActions(fx.vlans, fx.site), [DeviceAction(fx)], InterfaceActions(fx);
    var w, m := Pass(fx, fx.interfaces, WireActions), Pass(fx, fx.interfaces, MacActions);
    var p := Pass(fx, fx.interfaces, IpActions);
    HeaderCount(fx, kind);
    DeclaredCounts(fx, kind);
    WirePass(fx, kind);
    MacPass(fx, kind);
    IpPass(fx, kind);
    KindCountParts(h, v, kind);
    KindCountParts(h + v, d, kind);
    KindCountParts(h + v + d, i, kind);
    KindCountParts(h + v + d + i, w, kind);
    KindCountParts(h + v + d + i + w, m, kind);
    KindCountParts(h + v + d + i + w + m, p, kind);
  }

  // ----- a completed run --------------------------------------------------------------------

  function WantedBy(fixtures: seq<HostFixture>, kind: Kind): nat {
    if fixtures == [] then 0
    else WantedBy(fixtures[..|fixtures| - 1], kind) + Wanted(fixtures[|fixtures| - 1], kind)
  }

  lemma {:induction false} ProgramCount(fixtures: seq<HostFixture>, kind: Kind)
    requires forall fx :: fx in fixtures ==> Declared(fx)
    ensures KindCount(CompileAll(fixtures), kind) == WantedBy(fixtures, kind)
  {
    hide Declared, Compile, Wanted;
    if fixtures != [] {
      var init, last := fixtures[..|fixtures| - 1], fixtures[|fixtures| - 1];
      ProgramCount(init, kind);
      FixtureCount(last, kind);
      KindCountParts(CompileAll(init), Compile(last), kind);
    }
  }

  lemma {:induction false} LogCount(acts: seq<Action>, st: Store, kind: Kind)
    requires Exec(acts, st).stop.None?
    ensures OfKinds(Exec(acts, st).log, [kind]) == KindCount(acts, kind)
  {
    hide KindOf, Step;
    if acts != [] {
      var init := acts[..|acts| - 1];
      LogCount(init, st, kind);
      var log := Exec(acts, st).log;
      assert log[..|log| - 1] == Exec(init, st).log;
    }
  }

  // When populate returns its report, created plus skipped of each kind is the
  // number of things of that kind in the fixtures: one site, manufacturer,
  // device type, role and device each; every VLAN and interface; every LAG
  // member, parent, MAC and address that is given.
  lemma DecidedAsAsked(fixtures: seq<HostFixture>, st0: Store, report: PopulateReport, st: Store, kind: Kind)
    requires st0.Valid() && report.Valid() && Ran(CompileAll(fixtures), st0, [], st, report.log, None)
    ensures Tally(report.created, kind) + Tally(report.skipped, kind) == WantedBy(fixtures, kind)
  {
    hide CompileAll, Exec, Tally, OfKinds, KindCount, WantedBy, Declared, Contradicts, Clash, AskedBy, Store.Valid;
    var acts := CompileAll(fixtures);
    WholeRun(acts, st0, st, report.log, None);
    SuccessIsConsistent(fixtures, st0);
    OneKind(report.log, kind);
    LogCount(acts, st0, kind);
    ProgramCount(fixtures, kind);
  }
}

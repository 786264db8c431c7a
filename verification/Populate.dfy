// The populator itself: imperative, against a client whose API calls may raise
// before or after taking effect, keeping the report as it goes. Every method is
// proved to run the actions PopulateSpec assigns to it.
module Populate {
  import opened Basics
  import opened Inventory
  import opened PopulateSpec
  import opened PopulateSafety
  import opened Restart
  import opened Client

  // ----- the report --------------------------------------------------------------------

  class PopulateReport {
    var created: map<Kind, nat>
    var skipped: map<Kind, nat>
    ghost var log: seq<Event>

    ghost predicate Valid() reads this {
      && (forall k :: Tally(created, k) == Count(log, Event(k, true)))
      && (forall k :: Tally(skipped, k) == Count(log, Event(k, false)))
    }

    constructor ()
      ensures Valid() && log == []
    {
      created, skipped, log := map[], map[], [];
    }

    method AddCreated(kind: Kind)
      requires Valid()
      modifies this
      ensures Valid() && log == old(log) + [Event(kind, true)]
    {
      created := created[kind := Tally(created, kind) + 1];
      log := log + [Event(kind, true)];
    }

    method AddSkipped(kind: Kind)
      requires Valid()
      modifies this
      ensures Valid() && log == old(log) + [Event(kind, false)]
    {
      skipped := skipped[kind := Tally(skipped, kind) + 1];
      log := log + [Event(kind, false)];
    }

    // is_no_op: every created count is zero
    predicate NothingCreated() reads this {
      forall k :: k in created ==> created[k] == 0
    }

    lemma NoOpReport()
      requires Valid()
      ensures NothingCreated() <==> IsNoOp(log)
    {
      if NothingCreated() {
        forall i | 0 <= i < |log| ensures !log[i].created {
          assert Tally(created, log[i].kind) == Count(log, Event(log[i].kind, true));
          assert log[i] in multiset(log);
        }
      }
      if IsNoOp(log) {
        forall k | k in created ensures created[k] == 0 {
          assert Tally(created, k) == Count(log, Event(k, true));
          assert Event(k, true) !in log;
        }
      }
    }
  }

  const KINDS: seq<Kind> :=
    [SiteKind, ManufacturerKind, DeviceTypeKind, DeviceRoleKind, VlanKind, DeviceKind, InterfaceKind, LagMembershipKind,
     InterfaceParentKind, MacAddressKind, PrimaryMacAssignmentKind, IpAddressKind]

  // sum(self.created.values()) and the like, over the kinds there are
  function Total(m: map<Kind, nat>, kinds: seq<Kind>): nat {
    if kinds == [] then 0 else Tally(m, kinds[0]) + Total(m, kinds[1..])
  }

  // How many events of the log have one of these kinds.
  function OfKinds(log: seq<Event>, kinds: seq<Kind>): nat {
    if log == [] then 0 else OfKinds(log[..|log| - 1], kinds) + if log[|log| - 1].kind in kinds then 1 else 0
  }

  lemma {:induction false} OneKind(log: seq<Event>, k: Kind)
    ensures Count(log, Event(k, true)) + Count(log, Event(k, false)) == OfKinds(log, [k])
  {
    if log == [] {
      CountEmpty(Event(k, true));
      CountEmpty(Event(k, false));
    } else {
      hide Count;
      var init, e := log[..|log| - 1], log[|log| - 1];
      assert log == init + [e];
      OneKind(init, k);
      CountSnoc(init, e, Event(k, true));
      CountSnoc(init, e, Event(k, false));
    }
  }

  lemma {:induction false} SplitKinds(log: seq<Event>, kinds: seq<Kind>)
    requires kinds != [] && kinds[0] !in kinds[1..]
    ensures OfKinds(log, kinds) == OfKinds(log, [kinds[0]]) + OfKinds(log, kinds[1..])
  {
    if log != [] {
      SplitKinds(log[..|log| - 1], kinds);
      assert forall k :: k in kinds <==> k == kinds[0] || k in kinds[1..];
    }
  }

  lemma EveryKind(k: Kind)
    ensures k in KINDS
  {
  }

  lemma {:induction false} AllKinds(log: seq<Event>)
    ensures OfKinds(log, KINDS) == |log|
  {
    if log != [] {
      AllKinds(log[..|log| - 1]);
      EveryKind(log[|log| - 1].kind);
    }
  }

  lemma {:induction false} TotalsCount(report: PopulateReport, kinds: seq<Kind>)
    requires report.Valid() && Distinct(kinds)
    ensures Total(report.created, kinds) + Total(report.skipped, kinds) == OfKinds(report.log, kinds)
  {
    hide Count;
    if kinds == [] {
      NoKinds(report.log);
    } else {
      TotalsCount(report, kinds[1..]);
      OneKind(report.log, kinds[0]);
      SplitKinds(report.log, kinds);
      assert Tally(report.created, kinds[0]) == Count(report.log, Event(kinds[0], true));
    }
  }

  lemma KindsDistinct()
    ensures Distinct(KINDS)
  {
  }

  lemma {:induction false} NoKinds(log: seq<Event>)
    ensures OfKinds(log, []) == 0
  {
    if log != [] { NoKinds(log[..|log| - 1]); }
  }

  // dict.get(kind, 0)
  function Tally(m: map<Kind, nat>, k: Kind): nat {
    if k in m then m[k] else 0
  }

  // ----- what a piece of populate did ------------------------------------------------------

  datatype Failure = Raised(error: Error) | Transport

  // From st0 the actions were run to st: all of them, up to an action that
  // refused, or up to an API call that raised.
  ghost predicate Ran(acts: seq<Action>, st0: Store, log0: seq<Event>, st: Store, log: seq<Event>,
                      failure: Option<Failure>)
  {
    match failure
    case None => Exec(acts, st0).stop.None? && Exec(acts, st0).store == st && log == log0 + Exec(acts, st0).log
    case Some(Raised(e)) =>
      Exec(acts, st0).stop == Some(e) && Exec(acts, st0).store == st && log == log0 + Exec(acts, st0).log
    case Some(Transport) => CutShort(acts, st0, log0, st, log)
  }

  ghost predicate CutShort(acts: seq<Action>, st0: Store, log0: seq<Event>, st: Store, log: seq<Event>) {
    exists k, applied :: 0 <= k <= |acts| && CutAt(acts, k, applied, st0, log0, st, log)
  }

  // Action k writes the store, where the actions before it have led.
  ghost predicate WritesAt(acts: seq<Action>, k: nat, st0: Store)
    requires k <= |acts|
  {
    k < |acts| && Step(acts[k], Exec(acts[..k], st0).store).Done? && Step(acts[k], Exec(acts[..k], st0).store).created
  }

  // The first k actions were taken and logged; then a call of action k raised.
  // applied: it was the action's write, and the server had applied it.
  ghost predicate CutAt(acts: seq<Action>, k: nat, applied: bool, st0: Store, log0: seq<Event>,
                        st: Store, log: seq<Event>)
    requires k <= |acts|
  {
    var r := Exec(acts[..k], st0);
    && r.stop.None? && log == log0 + r.log
    && if applied then WritesAt(acts, k, st0) && st == Step(acts[k], r.store).store else st == r.store
  }

  // A run ends in a transport failure only when the client was made to fail,
  // and never because an action names an object nothing has ensured.
  ghost predicate Clean(before: Fault, after: Fault, failure: Option<Failure>) {
    && (before.NoFault? ==> after.NoFault? && failure != Some(Transport))
    && failure != Some(Raised(Unresolved))
  }

  function FailureOf<T>(r: Result<T, Failure>): Option<Failure> {
    match r
    case Ok(_) => None
    case Err(f) => Some(f)
  }

  lemma RanNothing(st: Store, log: seq<Event>)
    ensures Ran([], st, log, st, log, None)
  {
  }

  // One action, in every way it can end.
  lemma RanOne(a: Action, st: Store, log: seq<Event>)
    requires st.Valid()
    ensures Step(a, st).Done? ==>
              var d := Step(a, st);
              && d.store.Valid() && st.base.Within(d.store.base)
              && Ran([a], st, log, d.store, log + [Event(KindOf(a), d.created)], None)
              && (d.created ==> Ran([a], st, log, d.store, log, Some(Transport)))
    ensures Step(a, st).Failed? ==> Ran([a], st, log, st, log, Some(Raised(Step(a, st).error)))
    ensures Ran([a], st, log, st, log, Some(Transport))
    ensures st.base.Within(st.base)
  {
    hide Base.Valid, Base.Within, Step, Exec, Store.Valid;
    WithinSelf(st.base);
    ExecOne(a, st);
    assert [a][..0] == [] && [a][..1] == [a];
    assert CutAt([a], 0, false, st, log, st, log);
    if Step(a, st).Done? {
      StepSafe(a, st);
      if Step(a, st).created { assert CutAt([a], 0, true, st, log, Step(a, st).store, log); }
    }
  }

  lemma ExecOne(a: Action, st: Store)
    ensures Exec([], st) == Run(st, [], None)
    ensures Exec([a], st) ==
            if Step(a, st).Failed? then Run(st, [], Some(Step(a, st).error))
            else Run(Step(a, st).store, [Event(KindOf(a), Step(a, st).created)], None)
  {
  }

  lemma RanThen(a: seq<Action>, b: seq<Action>, st0: Store, log0: seq<Event>, st1: Store, log1: seq<Event>,
                st2: Store, log2: seq<Event>, failure: Option<Failure>)
    requires Ran(a, st0, log0, st1, log1, None) && Ran(b, st1, log1, st2, log2, failure)
    ensures Ran(a + b, st0, log0, st2, log2, failure)
  {
    hide Exec;
    ExecSplit(a, b, st0);
    if failure == Some(Transport) {
      var k, applied :| 0 <= k <= |b| && CutAt(b, k, applied, st1, log1, st2, log2);
      ExecSplit(a, b[..k], st0);
      assert (a + b)[..|a| + k] == a + b[..k];
      assert CutAt(a + b, |a| + k, applied, st0, log0, st2, log2);
    }
  }

  lemma RanShort(a: seq<Action>, b: seq<Action>, st0: Store, log0: seq<Event>, st1: Store, log1: seq<Event>,
                 failure: Failure)
    requires Ran(a, st0, log0, st1, log1, Some(failure))
    ensures Ran(a + b, st0, log0, st1, log1, Some(failure))
  {
    hide Exec;
    ExecSplit(a, b, st0);
    if failure.Transport? {
      var k, applied :| 0 <= k <= |a| && CutAt(a, k, applied, st0, log0, st1, log1);
      assert (a + b)[..k] == a[..k];
      assert CutAt(a + b, k, applied, st0, log0, st1, log1);
    }
  }

  // A run cut short left the store of a prefix of its actions.
  lemma CutPoint(acts: seq<Action>, st0: Store, log0: seq<Event>, st: Store, log: seq<Event>) returns (n: nat)
    requires CutShort(acts, st0, log0, st, log)
    ensures n <= |acts| && Exec(acts[..n], st0).stop.None? && Exec(acts[..n], st0).store == st
  {
    hide Step;
    var k, applied :| 0 <= k <= |acts| && CutAt(acts, k, applied, st0, log0, st, log);
    n := k;
    if applied {
      n := k + 1;
      assert acts[..n][..k] == acts[..k];
    }
  }

  // However a piece of populate ended, it kept the store valid and everything in it.
  lemma RanSafe(acts: seq<Action>, st0: Store, log0: seq<Event>, st: Store, log: seq<Event>, failure: Option<Failure>)
    requires st0.Valid() && Ran(acts, st0, log0, st, log, failure)
    ensures st.Valid() && st0.base.Within(st.base)
  {
    hide Base.Valid, Base.Within;
    ExecSafe(acts, st0);
    if failure == Some(Transport) {
      var k := CutPoint(acts, st0, log0, st, log);
      ExecSafe(acts[..k], st0);
    }
  }

  // The step after the logged ones was a create that the server applied though
  // its call raised.
  ghost predicate CreatedUnlogged(acts: seq<Action>, st0: Store, log: seq<Event>, failure: Option<Failure>, st: Store) {
    failure == Some(Transport) && |log| < |acts|
    && WritesAt(acts, |log|, st0) && !IsWiring(acts[|log|])
    && st == Step(acts[|log|], Exec(acts[..|log|], st0).store).store
  }

  // The report of every run: each table grew by its kind's created count, but
  // for one more row of the kind in progress exactly when the call that ended
  // the run was a create that the server had applied. Created plus skipped
  // over all kinds is the number of decisions completed, all of the program's
  // when nothing was raised.
  lemma ReportAccounts(fixtures: seq<HostFixture>, st0: Store, report: PopulateReport, st: Store,
                       failure: Option<Failure>) returns (lost: Option<Kind>)
    requires st0.Valid() && report.Valid()
    requires Ran(CompileAll(fixtures), st0, [], st, report.log, failure)
    ensures forall kind :: !IsWiringKind(kind) ==>
              Rows(kind, st.base) ==
              Rows(kind, st0.base) + Tally(report.created, kind) + if lost == Some(kind) then 1 else 0
    ensures lost.Some? <==> CreatedUnlogged(CompileAll(fixtures), st0, report.log, failure, st)
    ensures lost.Some? ==> lost == Some(KindOf(CompileAll(fixtures)[|report.log|]))
    ensures Total(report.created, KINDS) + Total(report.skipped, KINDS) == |report.log|
    ensures failure.None? ==> |report.log| == |CompileAll(fixtures)|
  {
    hide Base.Valid, Store.Valid, Exec, CompileAll, Rows, Total, Tally, Count, OfKinds, IsWiringKind, Distinct, Step,
      KindOf, Ran;
    var acts, log := CompileAll(fixtures), report.log;
    KindsDistinct();
    AllKinds(log);
    TotalsCount(report, KINDS);
    if failure == Some(Transport) {
      lost := CutAccounts(acts, st0, st, log);
    } else {
      lost := None;
      WholeRun(acts, st0, st, log, failure);
      ExecAccounts(acts, st0);
    }
  }

  lemma WholeRun(acts: seq<Action>, st0: Store, st: Store, log: seq<Event>, failure: Option<Failure>)
    requires Ran(acts, st0, [], st, log, failure) && failure != Some(Transport)
    ensures Exec(acts, st0).store == st && Exec(acts, st0).log == log && (failure.None? <==> Exec(acts, st0).stop.None?)
  {
    hide Exec;
    assert [] + Exec(acts, st0).log == Exec(acts, st0).log;
  }

  lemma CutAccounts(acts: seq<Action>, st0: Store, st: Store, log: seq<Event>) returns (lost: Option<Kind>)
    requires st0.Valid() && Ran(acts, st0, [], st, log, Some(Transport))
    ensures forall kind :: !IsWiringKind(kind) ==>
              Rows(kind, st.base) ==
              Rows(kind, st0.base) + Count(log, Event(kind, true)) + if lost == Some(kind) then 1 else 0
    ensures lost.Some? <==> CreatedUnlogged(acts, st0, log, Some(Transport), st)
    ensures lost.Some? ==> lost == Some(KindOf(acts[|log|]))
  {
    hide Base.Valid, Store.Valid, Exec, Rows, Count, Step, KindOf;
    var k, applied :| 0 <= k <= |acts| && CutAt(acts, k, applied, st0, [], st, log);
    var mid := Exec(acts[..k], st0).store;
    assert [] + Exec(acts[..k], st0).log == Exec(acts[..k], st0).log;
    ExecAccounts(acts[..k], st0);
    ExecSafe(acts[..k], st0);
    lost := if applied && !IsWiring(acts[k]) then Some(KindOf(acts[k])) else None;
    if k < |acts| && Step(acts[k], mid).Done? { CreatedMeansChanged(acts[k], mid); }
    if applied {
      forall kind | !IsWiringKind(kind) ensures Rows(kind, st.base) ==
          Rows(kind, mid.base) + if lost == Some(kind) then 1 else 0
      {
        StepCounts(acts[k], mid, kind);
        WiringKinds(acts[k]);
      }
    }
  }

  lemma WiringKinds(a: Action)
    ensures IsWiring(a) <==> IsWiringKind(KindOf(a))
  {
  }

  // ----- handles ------------------------------------------------------------------------------

  // id is the handle of the record under this key.
  ghost predicate Holds<K, B>(t: Table<K, B>, key: K, id: Id) {
    t.Get(key).Some? && t.Get(key).value.id == id
  }

  lemma HoldsLater<K, B>(t: Table<K, B>, later: Table<K, B>, key: K, id: Id)
    requires Holds(t, key, id) && t.Within(later)
    ensures Holds(later, key, id)
  {
  }

  // ----- per-object helpers ----------------------------------------------------------------------

  method EnsureSite(client: NetboxClient, slug: string, report: PopulateReport) returns (r: Result<Id, Failure>)
    requires client.store.Valid() && report.Valid()
    modifies client, report
    ensures report.Valid()
    ensures Ran([Action.EnsureSite(slug)], old(client.store), old(report.log), client.store, report.log, FailureOf(r))
    ensures Clean(old(client.fault), client.fault, FailureOf(r))
    ensures r.Ok? ==> Holds(client.store.base.sites, slug, r.value)
  {
    hide Base.Valid, Base.Within, Ran, PopulateReport.Valid;
    RanOne(Action.EnsureSite(slug), client.store, report.log);
    var up := client.Query();
    if !up { return Err(Transport); }
    var existing := client.store.base.sites.Get(slug);
    if existing.Some? {
      report.AddSkipped(SiteKind);
      return Ok(existing.value.id);
    }
    var id := client.store.base.sites.next;
    var done := client.Commit(
      client.store.(base := client.store.base.(sites := client.store.base.sites.Add(slug, slug))));
    if !done { return Err(Transport); }
    report.AddCreated(SiteKind);
    return Ok(id);
  }

  method EnsureManufacturer(client: NetboxClient, name: string, report: PopulateReport) returns (r: Result<Id, Failure>)
    requires client.store.Valid() && report.Valid()
    modifies client, report
    ensures report.Valid()
    ensures Ran([Action.EnsureManufacturer(name)], old(client.store), old(report.log), client.store, report.log,
                FailureOf(r))
    ensures Clean(old(client.fault), client.fault, FailureOf(r))
    ensures r.Ok? ==> Holds(client.store.base.manufacturers, Slugify(name), r.value)
  {
    hide Base.Valid, Base.Within, Ran, PopulateReport.Valid;
    RanOne(Action.EnsureManufacturer(name), client.store, report.log);
    var up := client.Query();
    if !up { return Err(Transport); }
    var existing := client.store.base.manufacturers.Get(Slugify(name));
    if existing.Some? {
      report.AddSkipped(ManufacturerKind);
      return Ok(existing.value.id);
    }
    var id := client.store.base.manufacturers.next;
    var done := client.Commit(client.store.(base := client.store.base.(manufacturers :=
      client.store.base.manufacturers.Add(Slugify(name), name))));
    if !done { return Err(Transport); }
    report.AddCreated(ManufacturerKind);
    return Ok(id);
  }

  method EnsureDeviceType(client: NetboxClient, spec: DeviceTypeSpec, manufacturer: Id,
                          report: PopulateReport) returns (r: Result<Id, Failure>)
    requires client.store.Valid() && report.Valid()
    requires Holds(client.store.base.manufacturers, Slugify(spec.manufacturer), manufacturer)
    modifies client, report
    ensures report.Valid()
    ensures Ran([Action.EnsureDeviceType(spec)], old(client.store), old(report.log), client.store, report.log,
                FailureOf(r))
    ensures Clean(old(client.fault), client.fault, FailureOf(r))
    ensures r.Ok? ==> Holds(client.store.base.deviceTypes, spec.slug, r.value)
  {
    hide Base.Valid, Base.Within, Ran, PopulateReport.Valid;
    RanOne(Action.EnsureDeviceType(spec), client.store, report.log);
    var up := client.Query();
    if !up { return Err(Transport); }
    var existing := client.store.base.deviceTypes.Get(spec.slug);
    if existing.Some? {
      var height := existing.value.body.uHeight;
      if height.Some? && height.value != spec.uHeight { return Err(Raised(Conflict(DeviceTypeKind))); }
      report.AddSkipped(DeviceTypeKind);
      return Ok(existing.value.id);
    }
    var id := client.store.base.deviceTypes.next;
    var done := client.Commit(client.store.(base := client.store.base.(deviceTypes :=
      client.store.base.deviceTypes.Add(spec.slug, DeviceTypeBody(manufacturer, spec.model, Some(spec.uHeight))))));
    if !done { return Err(Transport); }
    report.AddCreated(DeviceTypeKind);
    return Ok(id);
  }

  method EnsureDeviceRole(client: NetboxClient, slug: string, report: PopulateReport) returns (r: Result<Id, Failure>)
    requires client.store.Valid() && report.Valid()
    modifies client, report
    ensures report.Valid()
    ensures Ran([Action.EnsureDeviceRole(slug)], old(client.store), old(report.log), client.store, report.log,
                FailureOf(r))
    ensures Clean(old(client.fault), client.fault, FailureOf(r))
    ensures r.Ok? ==> Holds(client.store.base.roles, slug, r.value)
  {
    hide Base.Valid, Base.Within, Ran, PopulateReport.Valid;
    RanOne(Action.EnsureDeviceRole(slug), client.store, report.log);
    var up := client.Query();
    if !up { return Err(Transport); }
    var existing := client.store.base.roles.Get(slug);
    if existing.Some? {
      report.AddSkipped(DeviceRoleKind);
      return Ok(existing.value.id);
    }
    var id := client.store.base.roles.next;
    var done := client.Commit(client.store.(base := client.store.base.(roles :=
      client.store.base.roles.Add(slug, slug))));
    if !done { return Err(Transport); }
    report.AddCreated(DeviceRoleKind);
    return Ok(id);
  }

  method EnsureVlan(client: NetboxClient, spec: VlanSpec, site: Id, ghost siteSlug: string,
                    report: PopulateReport) returns (r: Result<Id, Failure>)
    requires client.store.Valid() && report.Valid()
    requires Holds(client.store.base.sites, siteSlug, site)
    modifies client, report
    ensures report.Valid()
    ensures Ran([Action.EnsureVlan(spec, siteSlug)], old(client.store), old(report.log), client.store, report.log,
                FailureOf(r))
    ensures Clean(old(client.fault), client.fault, FailureOf(r))
    ensures r.Ok? ==> Holds(client.store.base.vlans, VlanKey(spec.vid, site), r.value)
  {
    hide Base.Valid, Base.Within, Ran, PopulateReport.Valid;
    RanOne(Action.EnsureVlan(spec, siteSlug), client.store, report.log);
    var up := client.Query();
    if !up { return Err(Transport); }
    var existing := client.store.base.vlans.Get(VlanKey(spec.vid, site));
    if existing.Some? {
      if existing.value.body != spec.name { return Err(Raised(Conflict(VlanKind))); }
      report.AddSkipped(VlanKind);
      return Ok(existing.value.id);
    }
    var id := client.store.base.vlans.next;
    var done := client.Commit(client.store.(base := client.store.base.(vlans :=
      client.store.base.vlans.Add(VlanKey(spec.vid, site), spec.name))));
    if !done { return Err(Transport); }
    report.AddCreated(VlanKind);
    return Ok(id);
  }

  method EnsureDevice(client: NetboxClient, fx: HostFixture, site: Id, deviceType: Id, role: Id,
                      report: PopulateReport) returns (r: Result<Id, Failure>)
    requires client.store.Valid() && report.Valid()
    requires Holds(client.store.base.sites, fx.site, site)
    requires Holds(client.store.base.deviceTypes, fx.deviceType.slug, deviceType)
    requires Holds(client.store.base.roles, fx.deviceRole, role)
    modifies client, report
    ensures report.Valid()
    ensures Ran([DeviceAction(fx)], old(client.store), old(report.log), client.store, report.log, FailureOf(r))
    ensures Clean(old(client.fault), client.fault, FailureOf(r))
    ensures r.Ok? ==> Holds(client.store.base.devices, fx.assetTag, r.value)
  {
    hide Base.Valid, Base.Within, Ran, PopulateReport.Valid;
    RanOne(DeviceAction(fx), client.store, report.log);
    var up := client.Query();
    if !up { return Err(Transport); }
    var existing := client.store.base.devices.Get(fx.assetTag);
    if existing.Some? {
      if existing.value.body.name != fx.hostname { return Err(Raised(Conflict(DeviceKind))); }
      report.AddSkipped(DeviceKind);
      return Ok(existing.value.id);
    }
    var id := client.store.base.devices.next;
    var done := client.Commit(client.store.(base := client.store.base.(devices :=
      client.store.base.devices.Add(
        fx.assetTag,
        DeviceBody(fx.hostname, site, deviceType, Some(role), "active", fx.deviceCustomFields)))));
    if !done { return Err(Transport); }
    report.AddCreated(DeviceKind);
    return Ok(id);
  }

  // vlanByVid: the handles of the fixture's VLANs
  ghost predicate VlanHandles(m: map<int, Id>, fx: HostFixture, b: Base) {
    && (forall vid :: vid in m <==> DeclaresVid(fx.vlans, vid))
    && (forall vid :: vid in m ==> VlanAt(b, vid, fx.site).Some? && VlanAt(b, vid, fx.site).value.id == m[vid])
  }

  // ifaceByName: the handles of the interfaces ensured so far
  ghost predicate IfaceHandles(m: map<string, Id>, tag: string, b: Base) {
    forall name :: name in m ==> Iface(b, tag, name).Some? && Iface(b, tag, name).value.id == m[name]
  }

  lemma VlanHandlesLater(m: map<int, Id>, fx: HostFixture, b: Base, later: Base)
    requires VlanHandles(m, fx, b) && b.Within(later)
    ensures VlanHandles(m, fx, later)
  {
  }

  lemma IfaceHandlesLater(m: map<string, Id>, tag: string, b: Base, later: Base)
    requires IfaceHandles(m, tag, b) && b.Within(later)
    ensures IfaceHandles(m, tag, later)
  {
  }

  method EnsureInterface(client: NetboxClient, ghost fx: HostFixture, spec: InterfaceSpec, device: Id,
                         vlanByVid: map<int, Id>, report: PopulateReport) returns (r: Result<Id, Failure>)
    requires client.store.Valid() && report.Valid()
    requires Holds(client.store.base.devices, fx.assetTag, device) && VlanHandles(vlanByVid, fx, client.store.base)
    modifies client, report
    ensures report.Valid()
    ensures Ran([InterfaceAction(fx, spec)], old(client.store), old(report.log), client.store, report.log, FailureOf(r))
    ensures Clean(old(client.fault), client.fault, FailureOf(r))
    ensures r.Ok? ==> Iface(client.store.base, fx.assetTag, spec.name).Some?
                      && Iface(client.store.base, fx.assetTag, spec.name).value.id == r.value
  {
    hide Base.Valid, Base.Within, Ran, PopulateReport.Valid, VlanAt;
    RanOne(InterfaceAction(fx, spec), client.store, report.log);
    var up := client.Query();
    if !up { return Err(Transport); }
    var key := IfaceKey(device, spec.name);
    var existing := client.store.base.ifaces.Get(key);
    if existing.Some? {
      report.AddSkipped(InterfaceKind);
      return Ok(existing.value.id);
    }
    var mtu := if spec.mtu.Some? && spec.mtu.value != 0 then spec.mtu else None;
    var untagged := None;
    if spec.untaggedVlan.Some? && spec.untaggedVlan.value != 0 && spec.untaggedVlan.value in vlanByVid {
      untagged := Some(vlanByVid[spec.untaggedVlan.value]);
    }
    var id := client.store.base.ifaces.next;
    var done := client.Commit(client.store.(base := client.store.base.(ifaces :=
      client.store.base.ifaces.Add(key, IfaceBody(spec.kind, mtu, untagged, spec.customFields)))));
    if !done { return Err(Transport); }
    report.AddCreated(InterfaceKind);
    return Ok(id);
  }

  // record.update({column: id}), unless the column already holds the id
  method Wire(client: NetboxClient, ghost a: Action, slot: Slot, id: Id, kind: Kind, report: PopulateReport)
    returns (failure: Option<Failure>)
    requires client.store.Valid() && report.Valid()
    requires IsWiring(a) && Target(a, client.store.base) == Some(Write(slot, id)) && KindOf(a) == kind
    modifies client, report
    ensures report.Valid()
    ensures Ran([a], old(client.store), old(report.log), client.store, report.log, failure)
    ensures Clean(old(client.fault), client.fault, failure)
  {
    hide Base.Valid, Base.Within, Ran, PopulateReport.Valid, Target, KindOf;
    RanOne(a, client.store, report.log);
    if client.store.Wired(slot) != Some(id) {
      var done := client.Commit(client.store.(wires := client.store.wires[slot := id]));
      if !done { return Some(Transport); }
      report.AddCreated(kind);
    } else {
      report.AddSkipped(kind);
    }
    return None;
  }

  // The name is missing from iface_by_name: a KeyError.
  lemma RanMissing(name: string, st: Store, log: seq<Event>)
    ensures Ran([MissingName(name)], st, log, st, log, Some(Raised(KeyError(name))))
  {
  }

  method WireRelationships(client: NetboxClient, ghost fx: HostFixture, spec: InterfaceSpec,
                           ifaceByName: map<string, Id>, report: PopulateReport) returns (failure: Option<Failure>)
    requires client.store.Valid() && report.Valid()
    requires AllHandles(ifaceByName, fx, client.store.base) && spec.name in ifaceByName
    modifies client, report
    ensures report.Valid()
    ensures Ran(WireActions(fx, spec), old(client.store), old(report.log), client.store, report.log, failure)
    ensures Clean(old(client.fault), client.fault, failure)
  {
    hide Base.Valid, Base.Within, Ran, PopulateReport.Valid, Iface;
    ghost var st0, log0 := client.store, report.log;
    ghost var lags := LagActions(fx, spec);
    RanNothing(st0, log0);
    var lag := ifaceByName[spec.name];
    var i := 0;
    while i < |spec.lagMembers|
      invariant 0 <= i <= |spec.lagMembers|
      invariant Clean(old(client.fault), client.fault, None)
      invariant client.store.Valid() && report.Valid()
      invariant IfaceHandles(ifaceByName, fx.assetTag, client.store.base)
      invariant Ran(lags[..i], st0, log0, client.store, report.log, None)
    {
      var member := spec.lagMembers[i];
      ghost var st, log := client.store, report.log;
      assert lags[..i + 1] == lags[..i] + [lags[i]];
      assert lags == lags[..i + 1] + lags[i + 1..];
      if member !in ifaceByName {
        failure := Some(Raised(KeyError(member)));
        RanMissing(member, st, log);
      } else {
        failure := Wire(client, lags[i], Slot(ifaceByName[member], LagWire), lag, LagMembershipKind, report);
      }
      RanThen(lags[..i], [lags[i]], st0, log0, st, log, client.store, report.log, failure);
      if failure.Some? {
        RanShort(lags[..i + 1], lags[i + 1..], st0, log0, client.store, report.log, failure.value);
        RanShort(lags, ParentActions(fx, spec), st0, log0, client.store, report.log, failure.value);
        return;
      }
      RanSafe([lags[i]], st, log, client.store, report.log, None);
      IfaceHandlesLater(ifaceByName, fx.assetTag, st.base, client.store.base);
      i := i + 1;
    }
    assert lags[..|lags|] == lags;
    ghost var st, log := client.store, report.log;
    RanNothing(st, log);
    failure := None;
    if Truthy(spec.parent) {
      var parent := spec.parent.value;
      if parent !in ifaceByName {
        failure := Some(Raised(KeyError(parent)));
        RanMissing(parent, st, log);
      } else {
        failure := Wire(client, SetParent(fx.assetTag, spec.name, parent),
                        Slot(ifaceByName[spec.name], ParentWire), ifaceByName[parent], InterfaceParentKind, report);
      }
    }
    RanThen(lags, ParentActions(fx, spec), st0, log0, st, log, client.store, report.log, failure);
  }

  method EnsureMacAddress(client: NetboxClient, ghost fx: HostFixture, spec: InterfaceSpec, iface: Id,
                          report: PopulateReport) returns (failure: Option<Failure>)
    requires client.store.Valid() && report.Valid() && Truthy(spec.mac)
    requires Iface(client.store.base, fx.assetTag, spec.name).Some?
    requires Iface(client.store.base, fx.assetTag, spec.name).value.id == iface
    modifies client, report
    ensures report.Valid()
    ensures Ran(MacActions(fx, spec), old(client.store), old(report.log), client.store, report.log, failure)
    ensures Clean(old(client.fault), client.fault, failure)
  {
    hide Base.Valid, Base.Within, Ran, PopulateReport.Valid, Iface;
    ghost var st0, log0 := client.store, report.log;
    var mac := spec.mac.value;
    ghost var a, b := EnsureMac(fx.assetTag, spec.name, mac), SetPrimaryMac(fx.assetTag, spec.name, mac);
    assert MacActions(fx, spec) == [a] + [b];
    RanOne(a, st0, log0);
    var up := client.Query();
    if !up {
      RanShort([a], [b], st0, log0, client.store, report.log, Transport);
      return Some(Transport);
    }
    var existing := client.store.base.macs.Get(mac);
    var id;
    if existing.Some? {
      var holder := existing.value.body;
      if holder.Some? && holder.value != iface {
        RanShort([a], [b], st0, log0, client.store, report.log, Raised(Conflict(MacAddressKind)));
        return Some(Raised(Conflict(MacAddressKind)));
      }
      report.AddSkipped(MacAddressKind);
      id := existing.value.id;
    } else {
      id := client.store.base.macs.next;
      var done := client.Commit(client.store.(base := client.store.base.(macs :=
        client.store.base.macs.Add(mac, Some(iface)))));
      if !done {
        RanShort([a], [b], st0, log0, client.store, report.log, Transport);
        return Some(Transport);
      }
      report.AddCreated(MacAddressKind);
    }
    ghost var st, log := client.store, report.log;
    IfaceLater(st0.base, st.base, fx.assetTag, spec.name);
    failure := Wire(client, b, Slot(iface, PrimaryMacWire), id, PrimaryMacAssignmentKind, report);
    RanThen([a], [b], st0, log0, st, log, client.store, report.log, failure);
  }

  lemma IfaceLater(b: Base, later: Base, tag: string, name: string)
    requires Iface(b, tag, name).Some? && b.Within(later)
    ensures Iface(later, tag, name) == Iface(b, tag, name)
  {
  }

  method EnsureIpAddress(client: NetboxClient, ghost fx: HostFixture, spec: InterfaceSpec, iface: Id,
                         report: PopulateReport) returns (failure: Option<Failure>)
    requires client.store.Valid() && report.Valid() && TruthyIp(spec.ip)
    requires Iface(client.store.base, fx.assetTag, spec.name).Some?
    requires Iface(client.store.base, fx.assetTag, spec.name).value.id == iface
    modifies client, report
    ensures report.Valid()
    ensures Ran(IpActions(fx, spec), old(client.store), old(report.log), client.store, report.log, failure)
    ensures Clean(old(client.fault), client.fault, failure)
  {
    hide Base.Valid, Base.Within, Ran, PopulateReport.Valid, Iface;
    RanOne(Action.EnsureIp(fx.assetTag, spec.name, spec.ip.value), client.store, report.log);
    var up := client.Query();
    if !up { return Some(Transport); }
    var existing := client.store.base.ips.Get(spec.ip.value);
    if existing.Some? {
      if existing.value.body != Some(iface) { return Some(Raised(Conflict(IpAddressKind))); }
      report.AddSkipped(IpAddressKind);
      return None;
    }
    var done := client.Commit(client.store.(base := client.store.base.(ips :=
      client.store.base.ips.Add(spec.ip.value, Some(iface)))));
    if !done { return Some(Transport); }
    report.AddCreated(IpAddressKind);
    return None;
  }

  // ----- one fixture ------------------------------------------------------------------------------

  // A pass over some of the interfaces is the start of the pass over all.
  lemma {:induction false} PassStart(fx: HostFixture, specs: seq<InterfaceSpec>, i: nat,
                                     of: (HostFixture, InterfaceSpec) -> seq<Action>) returns (rest: seq<Action>)
    requires i <= |specs|
    ensures Pass(fx, specs, of) == Pass(fx, specs[..i], of) + rest
  {
    if i == |specs| {
      assert specs[..i] == specs;
      rest := [];
    } else {
      var init := specs[..|specs| - 1];
      rest := PassStart(fx, init, i, of);
      assert init[..i] == specs[..i];
      rest := rest + of(fx, specs[|specs| - 1]);
    }
  }

  lemma PassSnoc(fx: HostFixture, specs: seq<InterfaceSpec>, i: nat, of: (HostFixture, InterfaceSpec) -> seq<Action>)
    requires i < |specs|
    ensures Pass(fx, specs[..i + 1], of) == Pass(fx, specs[..i], of) + of(fx, specs[i])
  {
    assert specs[..i + 1][..i] == specs[..i];
  }

  // Site, manufacturer, device type, device role, VLANs, device.
  datatype DeviceHandles = DeviceHandles(device: Id, vlanByVid: map<int, Id>)

  method EnsureVlans(client: NetboxClient, fx: HostFixture, site: Id, report: PopulateReport)
    returns (r: Result<map<int, Id>, Failure>)
    requires client.store.Valid() && report.Valid() && Holds(client.store.base.sites, fx.site, site)
    modifies client, report
    ensures report.Valid()
    ensures Ran(VlanActions(fx.vlans, fx.site), old(client.store), old(report.log), client.store, report.log,
                FailureOf(r))
    ensures Clean(old(client.fault), client.fault, FailureOf(r))
    ensures r.Ok? ==> VlanHandles(r.value, fx, client.store.base)
  {
    hide Base.Valid, Base.Within, Ran, PopulateReport.Valid;
    ghost var st0, log0 := client.store, report.log;
    ghost var acts := VlanActions(fx.vlans, fx.site);
    RanNothing(st0, log0);
    var byVid: map<int, Id> := map[];
    var i := 0;
    while i < |fx.vlans|
      invariant 0 <= i <= |fx.vlans|
      invariant Clean(old(client.fault), client.fault, None)
      invariant client.store.Valid() && report.Valid() && Holds(client.store.base.sites, fx.site, site)
      invariant Ran(acts[..i], st0, log0, client.store, report.log, None)
      invariant forall vid :: vid in byVid <==> DeclaresVid(fx.vlans[..i], vid)
      invariant forall vid :: vid in byVid ==> Holds(client.store.base.vlans, VlanKey(vid, site), byVid[vid])
    {
      ghost var st, log := client.store, report.log;
      assert acts[..i + 1] == acts[..i] + [acts[i]];
      assert acts == acts[..i + 1] + acts[i + 1..];
      var v := EnsureVlan(client, fx.vlans[i], site, fx.site, report);
      RanThen(acts[..i], [acts[i]], st0, log0, st, log, client.store, report.log, FailureOf(v));
      if v.Err? {
        RanShort(acts[..i + 1], acts[i + 1..], st0, log0, client.store, report.log, v.error);
        return Err(v.error);
      }
      RanSafe([acts[i]], st, log, client.store, report.log, None);
      VlansLater(st.base, client.store.base, fx.site, site, byVid);
      assert fx.vlans[..i + 1] == fx.vlans[..i] + [fx.vlans[i]];
      DeclaresSnoc(fx.vlans[..i], fx.vlans[i]);
      byVid := byVid[fx.vlans[i].vid := v.value];
      i := i + 1;
    }
    assert acts[..|acts|] == acts && fx.vlans[..|fx.vlans|] == fx.vlans;
    return Ok(byVid);
  }

  lemma DeclaresSnoc(vlans: seq<VlanSpec>, v: VlanSpec)
    ensures forall vid :: DeclaresVid(vlans + [v], vid) <==> DeclaresVid(vlans, vid) || vid == v.vid
  {
    forall vid ensures DeclaresVid(vlans + [v], vid) <==> DeclaresVid(vlans, vid) || vid == v.vid {
      if DeclaresVid(vlans, vid) {
        var i :| 0 <= i < |vlans| && vlans[i].vid == vid;
        assert (vlans + [v])[i].vid == vid;
      }
      assert (vlans + [v])[|vlans|] == v;
    }
  }

  lemma VlansLater(b: Base, later: Base, siteSlug: string, site: Id, m: map<int, Id>)
    requires b.Within(later) && Holds(b.sites, siteSlug, site)
    requires forall vid :: vid in m ==> Holds(b.vlans, VlanKey(vid, site), m[vid])
    ensures Holds(later.sites, siteSlug, site)
    ensures forall vid :: vid in m ==> Holds(later.vlans, VlanKey(vid, site), m[vid])
  {
  }

  // The catalogue objects, the VLANs and the device, with their handles.
  method EnsureDeviceChain(client: NetboxClient, fx: HostFixture, report: PopulateReport)
    returns (r: Result<DeviceHandles, Failure>)
    requires client.store.Valid() && report.Valid()
    modifies client, report
    ensures report.Valid()
    ensures Ran(Header(fx) + VlanActions(fx.vlans, fx.site) + [DeviceAction(fx)], old(client.store), old(report.log),
                client.store, report.log, FailureOf(r))
    ensures Clean(old(client.fault), client.fault, FailureOf(r))
    ensures r.Ok? ==> Holds(client.store.base.devices, fx.assetTag, r.value.device)
                      && VlanHandles(r.value.vlanByVid, fx, client.store.base)
  {
    hide Base.Valid, Ran, PopulateReport.Valid, Table.Within, Holds, VlanActions, VlanAt;
    ghost var a := Header(fx);
    ghost var all := a + VlanActions(fx.vlans, fx.site) + [DeviceAction(fx)];
    ghost var st0, log0 := client.store, report.log;
    assert a[..1] == [a[0]] && a[..2] == a[..1] + [a[1]] && a[..3] == a[..2] + [a[2]] && a == a[..3] + [a[3]];

    var site := EnsureSite(client, fx.site, report);
    if site.Err? {
      assert all == a[..1] + all[1..];
      RanShort(a[..1], all[1..], st0, log0, client.store, report.log, site.error);
      return Err(site.error);
    }
    RanSafe(a[..1], st0, log0, client.store, report.log, None);

    ghost var st1, log1 := client.store, report.log;
    var maker := EnsureManufacturer(client, fx.deviceType.manufacturer, report);
    RanThen(a[..1], [a[1]], st0, log0, st1, log1, client.store, report.log, FailureOf(maker));
    if maker.Err? {
      assert all == a[..2] + all[2..];
      RanShort(a[..2], all[2..], st0, log0, client.store, report.log, maker.error);
      return Err(maker.error);
    }
    RanSafe([a[1]], st1, log1, client.store, report.log, None);
    HoldsLater(st1.base.sites, client.store.base.sites, fx.site, site.value);

    ghost var st2, log2 := client.store, report.log;
    var model := EnsureDeviceType(client, fx.deviceType, maker.value, report);
    RanThen(a[..2], [a[2]], st0, log0, st2, log2, client.store, report.log, FailureOf(model));
    if model.Err? {
      assert all == a[..3] + all[3..];
      RanShort(a[..3], all[3..], st0, log0, client.store, report.log, model.error);
      return Err(model.error);
    }
    RanSafe([a[2]], st2, log2, client.store, report.log, None);
    HoldsLater(st2.base.sites, client.store.base.sites, fx.site, site.value);

    ghost var st3, log3 := client.store, report.log;
    var role := EnsureDeviceRole(client, fx.deviceRole, report);
    RanThen(a[..3], [a[3]], st0, log0, st3, log3, client.store, report.log, FailureOf(role));
    if role.Err? {
      assert all == a + all[4..];
      RanShort(a, all[4..], st0, log0, client.store, report.log, role.error);
      return Err(role.error);
    }
    RanSafe([a[3]], st3, log3, client.store, report.log, None);
    HoldsLater(st3.base.sites, client.store.base.sites, fx.site, site.value);
    HoldsLater(st3.base.deviceTypes, client.store.base.deviceTypes, fx.deviceType.slug, model.value);

    r := EnsureVlansAndDevice(client, fx, site.value, model.value, role.value, report, st0, log0);
  }

  method EnsureVlansAndDevice(client: NetboxClient, fx: HostFixture, site: Id, model: Id, role: Id,
                              report: PopulateReport,
                              ghost st0: Store, ghost log0: seq<Event>)
    returns (r: Result<DeviceHandles, Failure>)
    requires client.store.Valid() && report.Valid() && Holds(client.store.base.sites, fx.site, site)
    requires Holds(client.store.base.deviceTypes, fx.deviceType.slug, model)
    requires Holds(client.store.base.roles, fx.deviceRole, role)
    requires Ran(Header(fx), st0, log0, client.store, report.log, None)
    modifies client, report
    ensures report.Valid()
    ensures Ran(Header(fx) + VlanActions(fx.vlans, fx.site) + [DeviceAction(fx)], st0, log0,
                client.store, report.log, FailureOf(r))
    ensures Clean(old(client.fault), client.fault, FailureOf(r))
    ensures r.Ok? ==> Holds(client.store.base.devices, fx.assetTag, r.value.device)
                      && VlanHandles(r.value.vlanByVid, fx, client.store.base)
  {
    hide Base.Valid, Ran, PopulateReport.Valid, Table.Within, Holds, VlanActions, VlanAt, Header;
    ghost var vs := VlanActions(fx.vlans, fx.site);
    ghost var st1, log1 := client.store, report.log;
    var vlans := EnsureVlans(client, fx, site, report);
    RanThen(Header(fx), vs, st0, log0, st1, log1, client.store, report.log, FailureOf(vlans));
    if vlans.Err? {
      RanShort(Header(fx) + vs, [DeviceAction(fx)], st0, log0, client.store, report.log, vlans.error);
      return Err(vlans.error);
    }
    RanSafe(vs, st1, log1, client.store, report.log, None);
    HoldsLater(st1.base.sites, client.store.base.sites, fx.site, site);
    HoldsLater(st1.base.deviceTypes, client.store.base.deviceTypes, fx.deviceType.slug, model);
    HoldsLater(st1.base.roles, client.store.base.roles, fx.deviceRole, role);

    ghost var st2, log2 := client.store, report.log;
    var device := EnsureDevice(client, fx, site, model, role, report);
    RanThen(Header(fx) + vs, [DeviceAction(fx)], st0, log0, st2, log2, client.store, report.log, FailureOf(device));
    if device.Err? { return Err(device.error); }
    RanSafe([DeviceAction(fx)], st2, log2, client.store, report.log, None);
    VlanHandlesLater(vlans.value, fx, st2.base, client.store.base);
    return Ok(DeviceHandles(device.value, vlans.value));
  }

  // iface_by_name once every interface of the fixture has been ensured
  ghost predicate AllHandles(m: map<string, Id>, fx: HostFixture, b: Base) {
    && IfaceHandles(m, fx.assetTag, b)
    && forall name :: name in m <==> name in Names(fx.interfaces)
  }

  lemma HandleOf(m: map<string, Id>, fx: HostFixture, b: Base, i: nat)
    requires AllHandles(m, fx, b) && i < |fx.interfaces|
    ensures fx.interfaces[i].name in m
    ensures Iface(b, fx.assetTag, fx.interfaces[i].name).Some?
    ensures Iface(b, fx.assetTag, fx.interfaces[i].name).value.id == m[fx.interfaces[i].name]
  {
  }

  lemma AllHandlesLater(m: map<string, Id>, fx: HostFixture, b: Base, later: Base)
    requires AllHandles(m, fx, b) && b.Within(later)
    ensures AllHandles(m, fx, later)
  {
  }

  // The handles known once the first i interfaces have been ensured.
  ghost predicate HandlesUpTo(i: nat, byName: map<string, Id>, fx: HostFixture, handles: DeviceHandles, b: Base)
    requires i <= |fx.interfaces|
  {
    && Holds(b.devices, fx.assetTag, handles.device)
    && VlanHandles(handles.vlanByVid, fx, b)
    && IfaceHandles(byName, fx.assetTag, b)
    && forall name :: name in byName <==> name in Names(fx.interfaces)[..i]
  }

  lemma HandlesNext(i: nat, byName: map<string, Id>, fx: HostFixture, handles: DeviceHandles, b: Base, later: Base,
                    id: Id)
    requires i < |fx.interfaces| && HandlesUpTo(i, byName, fx, handles, b) && b.Within(later)
    requires var f := Iface(later, fx.assetTag, fx.interfaces[i].name); f.Some? && f.value.id == id
    ensures HandlesUpTo(i + 1, byName[fx.interfaces[i].name := id], fx, handles, later)
  {
  }

  lemma HandlesNow(i: nat, byName: map<string, Id>, fx: HostFixture, handles: DeviceHandles, b: Base)
    requires i <= |fx.interfaces| && HandlesUpTo(i, byName, fx, handles, b)
    ensures Holds(b.devices, fx.assetTag, handles.device) && VlanHandles(handles.vlanByVid, fx, b)
  {
  }

  lemma HandlesStart(fx: HostFixture, handles: DeviceHandles, b: Base)
    requires Holds(b.devices, fx.assetTag, handles.device) && VlanHandles(handles.vlanByVid, fx, b)
    ensures HandlesUpTo(0, map[], fx, handles, b)
  {
  }

  lemma HandlesComplete(byName: map<string, Id>, fx: HostFixture, handles: DeviceHandles, b: Base)
    requires HandlesUpTo(|fx.interfaces|, byName, fx, handles, b)
    ensures AllHandles(byName, fx, b)
  {
  }

  // One more action of a list: the run goes on, or the whole list ends there.
  lemma RanNext(acts: seq<Action>, i: nat, st0: Store, log0: seq<Event>, st1: Store, log1: seq<Event>,
                st2: Store, log2: seq<Event>, failure: Option<Failure>)
    requires i < |acts| && Ran(acts[..i], st0, log0, st1, log1, None)
    requires Ran([acts[i]], st1, log1, st2, log2, failure)
    ensures failure.None? ==> Ran(acts[..i + 1], st0, log0, st2, log2, None)
    ensures failure.Some? ==> Ran(acts, st0, log0, st2, log2, failure)
  {
    hide Ran;
    assert acts[..i + 1] == acts[..i] + [acts[i]];
    RanThen(acts[..i], [acts[i]], st0, log0, st1, log1, st2, log2, failure);
    if failure.Some? {
      assert acts == acts[..i + 1] + acts[i + 1..];
      RanShort(acts[..i + 1], acts[i + 1..], st0, log0, st2, log2, failure.value);
    }
  }

  // Pass 1: every interface, without lag or parent references.
  method CreateInterfaces(client: NetboxClient, fx: HostFixture, handles: DeviceHandles, report: PopulateReport)
    returns (r: Result<map<string, Id>, Failure>)
    requires client.store.Valid() && report.Valid()
    requires Holds(client.store.base.devices, fx.assetTag, handles.device)
    requires VlanHandles(handles.vlanByVid, fx, client.store.base)
    modifies client, report
    ensures report.Valid()
    ensures Ran(InterfaceActions(fx), old(client.store), old(report.log), client.store, report.log, FailureOf(r))
    ensures Clean(old(client.fault), client.fault, FailureOf(r))
    ensures r.Ok? ==> AllHandles(r.value, fx, client.store.base)
  {
    InterfaceActionsAt(fx);
    HandlesStart(fx, handles, client.store.base);
    hide Base.Valid, Store.Valid, Base.Within, Ran, PopulateReport.Valid, Iface, Holds, VlanHandles, IfaceHandles,
      InterfaceActions, InterfaceAction, UntaggedOf, AllHandles, HandlesUpTo;
    ghost var st0, log0 := client.store, report.log;
    ghost var acts := InterfaceActions(fx);
    RanNothing(st0, log0);
    var byName: map<string, Id> := map[];
    var i := 0;
    while i < |fx.interfaces|
      invariant 0 <= i <= |fx.interfaces|
      invariant Clean(old(client.fault), client.fault, None)
      invariant client.store.Valid() && report.Valid()
      invariant HandlesUpTo(i, byName, fx, handles, client.store.base)
      invariant Ran(acts[..i], st0, log0, client.store, report.log, None)
    {
      var spec := fx.interfaces[i];
      ghost var st, log := client.store, report.log;
      HandlesNow(i, byName, fx, handles, st.base);
      var iface := EnsureInterface(client, fx, spec, handles.device, handles.vlanByVid, report);
      RanNext(acts, i, st0, log0, st, log, client.store, report.log, FailureOf(iface));
      if iface.Err? { return Err(iface.error); }
      RanSafe([acts[i]], st, log, client.store, report.log, None);
      HandlesNext(i, byName, fx, handles, st.base, client.store.base, iface.value);
      byName := byName[spec.name := iface.value];
      i := i + 1;
    }
    assert acts[..|acts|] == acts;
    HandlesComplete(byName, fx, handles, client.store.base);
    return Ok(byName);
  }

  lemma InterfaceActionsAt(fx: HostFixture)
    ensures |InterfaceActions(fx)| == |fx.interfaces|
    ensures forall i :: 0 <= i < |fx.interfaces| ==> InterfaceActions(fx)[i] == InterfaceAction(fx, fx.interfaces[i])
  {
  }

  lemma PassNothing(fx: HostFixture, of: (HostFixture, InterfaceSpec) -> seq<Action>)
    ensures Pass(fx, fx.interfaces[..0], of) == []
  {
  }

  // Pass 2: LAG membership and parent references.
  method WireInterfaces(client: NetboxClient, fx: HostFixture, ifaceByName: map<string, Id>, report: PopulateReport)
    returns (failure: Option<Failure>)
    requires client.store.Valid() && report.Valid() && AllHandles(ifaceByName, fx, client.store.base)
    modifies client, report
    ensures report.Valid()
    ensures Ran(Pass(fx, fx.interfaces, WireActions), old(client.store), old(report.log), client.store, report.log,
                failure)
    ensures Clean(old(client.fault), client.fault, failure)
  {
    hide Base.Valid, Base.Within, Ran, PopulateReport.Valid, Iface, AllHandles, Pass, WireActions;
    ghost var st0, log0 := client.store, report.log;
    RanNothing(st0, log0);
    PassNothing(fx, WireActions);
    failure := None;
    var i := 0;
    while i < |fx.interfaces|
      invariant 0 <= i <= |fx.interfaces| && failure.None?
      invariant Clean(old(client.fault), client.fault, None)
      invariant client.store.Valid() && report.Valid() && AllHandles(ifaceByName, fx, client.store.base)
      invariant Ran(Pass(fx, fx.interfaces[..i], WireActions), st0, log0, client.store, report.log, None)
    {
      var spec := fx.interfaces[i];
      HandleOf(ifaceByName, fx, client.store.base, i);
      ghost var st, log := client.store, report.log;
      PassSnoc(fx, fx.interfaces, i, WireActions);
      ghost var rest := PassStart(fx, fx.interfaces, i + 1, WireActions);
      failure := WireRelationships(client, fx, spec, ifaceByName, report);
      RanThen(Pass(fx, fx.interfaces[..i], WireActions), WireActions(fx, spec), st0, log0, st, log,
              client.store, report.log, failure);
      if failure.Some? {
        RanShort(Pass(fx, fx.interfaces[..i + 1], WireActions), rest, st0, log0, client.store, report.log,
                 failure.value);
        return;
      }
      RanSafe(WireActions(fx, spec), st, log, client.store, report.log, None);
      AllHandlesLater(ifaceByName, fx, st.base, client.store.base);
      i := i + 1;
    }
    assert fx.interfaces[..|fx.interfaces|] == fx.interfaces;
  }

  // Pass 3: MAC addresses.
  method AssignMacs(client: NetboxClient, fx: HostFixture, ifaceByName: map<string, Id>, report: PopulateReport)
    returns (failure: Option<Failure>)
    requires client.store.Valid() && report.Valid() && AllHandles(ifaceByName, fx, client.store.base)
    modifies client, report
    ensures report.Valid()
    ensures Ran(Pass(fx, fx.interfaces, MacActions), old(client.store), old(report.log), client.store, report.log,
                failure)
    ensures Clean(old(client.fault), client.fault, failure)
  {
    hide Base.Valid, Base.Within, Ran, PopulateReport.Valid, Iface, AllHandles, Pass;
    ghost var st0, log0 := client.store, report.log;
    RanNothing(st0, log0);
    PassNothing(fx, MacActions);
    failure := None;
    var i := 0;
    while i < |fx.interfaces|
      invariant 0 <= i <= |fx.interfaces| && failure.None?
      invariant Clean(old(client.fault), client.fault, None)
      invariant client.store.Valid() && report.Valid() && AllHandles(ifaceByName, fx, client.store.base)
      invariant Ran(Pass(fx, fx.interfaces[..i], MacActions), st0, log0, client.store, report.log, None)
    {
      var spec := fx.interfaces[i];
      HandleOf(ifaceByName, fx, client.store.base, i);
      ghost var st, log := client.store, report.log;
      PassSnoc(fx, fx.interfaces, i, MacActions);
      ghost var rest := PassStart(fx, fx.interfaces, i + 1, MacActions);
      RanNothing(st, log);
      if Truthy(spec.mac) { failure := EnsureMacAddress(client, fx, spec, ifaceByName[spec.name], report); }
      RanThen(Pass(fx, fx.interfaces[..i], MacActions), MacActions(fx, spec), st0, log0, st, log,
              client.store, report.log, failure);
      if failure.Some? {
        RanShort(Pass(fx, fx.interfaces[..i + 1], MacActions), rest, st0, log0, client.store, report.log,
                 failure.value);
        return;
      }
      RanSafe(MacActions(fx, spec), st, log, client.store, report.log, None);
      AllHandlesLater(ifaceByName, fx, st.base, client.store.base);
      i := i + 1;
    }
    assert fx.interfaces[..|fx.interfaces|] == fx.interfaces;
  }

  // Pass 4: IP addresses.
  method AssignIps(client: NetboxClient, fx: HostFixture, ifaceByName: map<string, Id>, report: PopulateReport)
    returns (failure: Option<Failure>)
    requires client.store.Valid() && report.Valid() && AllHandles(ifaceByName, fx, client.store.base)
    modifies client, report
    ensures report.Valid()
    ensures Ran(Pass(fx, fx.interfaces, IpActions), old(client.store), old(report.log), client.store, report.log,
                failure)
    ensures Clean(old(client.fault), client.fault, failure)
  {
    hide Base.Valid, Base.Within, Ran, PopulateReport.Valid, Iface, AllHandles, Pass;
    ghost var st0, log0 := client.store, report.log;
    RanNothing(st0, log0);
    PassNothing(fx, IpActions);
    failure := None;
    var i := 0;
    while i < |fx.interfaces|
      invariant 0 <= i <= |fx.interfaces| && failure.None?
      invariant Clean(old(client.fault), client.fault, None)
      invariant client.store.Valid() && report.Valid() && AllHandles(ifaceByName, fx, client.store.base)
      invariant Ran(Pass(fx, fx.interfaces[..i], IpActions), st0, log0, client.store, report.log, None)
    {
      var spec := fx.interfaces[i];
      HandleOf(ifaceByName, fx, client.store.base, i);
      ghost var st, log := client.store, report.log;
      PassSnoc(fx, fx.interfaces, i, IpActions);
      ghost var rest := PassStart(fx, fx.interfaces, i + 1, IpActions);
      RanNothing(st, log);
      if TruthyIp(spec.ip) { failure := EnsureIpAddress(client, fx, spec, ifaceByName[spec.name], report); }
      RanThen(Pass(fx, fx.interfaces[..i], IpActions), IpActions(fx, spec), st0, log0, st, log,
              client.store, report.log, failure);
      if failure.Some? {
        RanShort(Pass(fx, fx.interfaces[..i + 1], IpActions), rest, st0, log0, client.store, report.log, failure.value);
        return;
      }
      RanSafe(IpActions(fx, spec), st, log, client.store, report.log, None);
      AllHandlesLater(ifaceByName, fx, st.base, client.store.base);
      i := i + 1;
    }
    assert fx.interfaces[..|fx.interfaces|] == fx.interfaces;
  }

  method ApplyOne(client: NetboxClient, fx: HostFixture, report: PopulateReport) returns (failure: Option<Failure>)
    requires client.store.Valid() && report.Valid()
    modifies client, report
    ensures report.Valid()
    ensures Ran(Compile(fx), old(client.store), old(report.log), client.store, report.log, failure)
    ensures Clean(old(client.fault), client.fault, failure)
  {
    hide Base.Valid, Base.Within, Ran, PopulateReport.Valid, Holds, VlanHandles, AllHandles, Pass, InterfaceActions,
      VlanActions, Header;
    ghost var st0, log0 := client.store, report.log;
    ghost var p0, p1 := Header(fx) + VlanActions(fx.vlans, fx.site) + [DeviceAction(fx)], InterfaceActions(fx);
    ghost var p2, p3 := Pass(fx, fx.interfaces, WireActions), Pass(fx, fx.interfaces, MacActions);
    ghost var p4 := Pass(fx, fx.interfaces, IpActions);
    assert Compile(fx) == p0 + p1 + p2 + p3 + p4;

    var handles := EnsureDeviceChain(client, fx, report);
    if handles.Err? {
      assert Compile(fx) == p0 + (p1 + p2 + p3 + p4);
      RanShort(p0, p1 + p2 + p3 + p4, st0, log0, client.store, report.log, handles.error);
      return Some(handles.error);
    }
    RanSafe(p0, st0, log0, client.store, report.log, None);

    ghost var st1, log1 := client.store, report.log;
    var byName := CreateInterfaces(client, fx, handles.value, report);
    RanThen(p0, p1, st0, log0, st1, log1, client.store, report.log, FailureOf(byName));
    if byName.Err? {
      assert Compile(fx) == p0 + p1 + (p2 + p3 + p4);
      RanShort(p0 + p1, p2 + p3 + p4, st0, log0, client.store, report.log, byName.error);
      return Some(byName.error);
    }
    RanSafe(p1, st1, log1, client.store, report.log, None);

    ghost var st2, log2 := client.store, report.log;
    failure := WireInterfaces(client, fx, byName.value, report);
    RanThen(p0 + p1, p2, st0, log0, st2, log2, client.store, report.log, failure);
    if failure.Some? {
      assert Compile(fx) == p0 + p1 + p2 + (p3 + p4);
      RanShort(p0 + p1 + p2, p3 + p4, st0, log0, client.store, report.log, failure.value);
      return;
    }
    RanSafe(p2, st2, log2, client.store, report.log, None);
    AllHandlesLater(byName.value, fx, st2.base, client.store.base);

    ghost var st3, log3 := client.store, report.log;
    failure := AssignMacs(client, fx, byName.value, report);
    RanThen(p0 + p1 + p2, p3, st0, log0, st3, log3, client.store, report.log, failure);
    if failure.Some? {
      RanShort(p0 + p1 + p2 + p3, p4, st0, log0, client.store, report.log, failure.value);
      return;
    }
    RanSafe(p3, st3, log3, client.store, report.log, None);
    AllHandlesLater(byName.value, fx, st3.base, client.store.base);

    ghost var st4, log4 := client.store, report.log;
    failure := AssignIps(client, fx, byName.value, report);
    RanThen(p0 + p1 + p2 + p3, p4, st0, log0, st4, log4, client.store, report.log, failure);
  }

  // ----- populate -----------------------------------------------------------------------------------

  lemma {:induction false} ProgramStart(fixtures: seq<HostFixture>, i: nat) returns (rest: seq<Action>)
    requires i <= |fixtures|
    ensures CompileAll(fixtures) == CompileAll(fixtures[..i]) + rest
  {
    hide Compile;
    if i == |fixtures| {
      assert fixtures[..i] == fixtures;
      rest := [];
    } else {
      var init := fixtures[..|fixtures| - 1];
      rest := ProgramStart(init, i);
      assert init[..i] == fixtures[..i];
      rest := rest + Compile(fixtures[|fixtures| - 1]);
    }
  }

  // populate: runs the program of the fixture list, all of it when it returns
  // its report, up to the refusing action when it raises a conflict, and some
  // number of its actions when an API call raises.
  method PopulateAll(client: NetboxClient, fixtures: seq<HostFixture>)
    returns (report: PopulateReport, failure: Option<Failure>)
    requires client.store.Valid()
    modifies client
    ensures fresh(report) && report.Valid()
    ensures Ran(CompileAll(fixtures), old(client.store), [], client.store, report.log, failure)
    ensures Clean(old(client.fault), client.fault, failure)
    ensures client.store.Valid() && old(client.store).base.Within(client.store.base)
  {
    hide Base.Valid, Base.Within, Ran, PopulateReport.Valid, Compile;
    report := new PopulateReport();
    ghost var st0 := client.store;
    RanNothing(st0, []);
    WithinSelf(st0.base);
    var i := 0;
    failure := None;
    while i < |fixtures|
      invariant 0 <= i <= |fixtures| && failure.None?
      invariant Clean(old(client.fault), client.fault, None)
      invariant client.store.Valid() && report.Valid() && fresh(report)
      invariant Ran(CompileAll(fixtures[..i]), st0, [], client.store, report.log, None)
    {
      ghost var st, log := client.store, report.log;
      assert fixtures[..i + 1][..i] == fixtures[..i];
      ghost var rest := ProgramStart(fixtures, i + 1);
      failure := ApplyOne(client, fixtures[i], report);
      RanThen(CompileAll(fixtures[..i]), Compile(fixtures[i]), st0, [], st, log, client.store, report.log, failure);
      if failure.Some? {
        RanShort(CompileAll(fixtures[..i + 1]), rest, st0, [], client.store, report.log, failure.value);
        RanSafe(CompileAll(fixtures), st0, [], client.store, report.log, failure);
        return;
      }
      RanSafe(Compile(fixtures[i]), st, log, client.store, report.log, None);
      i := i + 1;
    }
    assert fixtures[..|fixtures|] == fixtures;
    RanSafe(CompileAll(fixtures), st0, [], client.store, report.log, None);
  }

  // Each store is what a run of the program left, from the store before it on,
  // in whatever way that run ended.
  ghost predicate Runs(acts: seq<Action>, stores: seq<Store>) {
    forall i :: 0 <= i < |stores| - 1 ==> Ends(acts, stores[i], stores[i + 1])
  }

  ghost predicate Ends(acts: seq<Action>, from: Store, to: Store) {
    exists log, failure :: Ran(acts, from, [], to, log, failure)
  }

  // A run, however it ended, left the store of a prefix of its actions.
  lemma EndPoint(acts: seq<Action>, from: Store, to: Store) returns (n: nat)
    requires Ends(acts, from, to)
    ensures n <= |acts| && Exec(acts[..n], from).store == to
  {
    hide Exec;
    var log, failure :| Ran(acts, from, [], to, log, failure);
    if failure == Some(Transport) {
      n := CutPoint(acts, from, [], to, log);
    } else {
      n := |acts|;
      assert acts[..n] == acts;
    }
  }

  lemma {:induction false} RunsAreCuts(acts: seq<Action>, stores: seq<Store>) returns (cuts: seq<nat>)
    requires stores != [] && Runs(acts, stores)
    ensures stores[|stores| - 1] == AfterCuts(acts, stores[0], cuts)
  {
    hide Exec, Ends;
    if |stores| == 1 {
      cuts := [];
    } else {
      var init := stores[..|stores| - 1];
      forall i | 0 <= i < |init| - 1 ensures Ends(acts, init[i], init[i + 1]) {
        assert Ends(acts, stores[i], stores[i + 1]);
      }
      var before := RunsAreCuts(acts, init);
      assert Ends(acts, stores[|stores| - 2], stores[|stores| - 2 + 1]);
      var n := EndPoint(acts, init[|init| - 1], stores[|stores| - 1]);
      cuts := before + [n];
      assert cuts[..|cuts| - 1] == before;
    }
  }

  // Any number of earlier runs, each cut short by a failing API call, before or
  // after the call took effect, or ended otherwise, and then a run that no call
  // fails: it ends in the store, and with the conflict if there is one, of a
  // single run on the first store.
  lemma RerunAfterFailures(fixtures: seq<HostFixture>, stores: seq<Store>, st: Store, log: seq<Event>,
                           failure: Option<Failure>)
    requires stores != [] && stores[0].Valid() && Runs(CompileAll(fixtures), stores)
    requires Ran(CompileAll(fixtures), stores[|stores| - 1], [], st, log, failure) && failure != Some(Transport)
    ensures var once := Exec(CompileAll(fixtures), stores[0]);
            st == once.store && failure == (if once.stop.Some? then Some(Raised(once.stop.value)) else None)
  {
    hide Exec, CompileAll, Store.Valid, Runs, AfterCuts;
    var cuts := RunsAreCuts(CompileAll(fixtures), stores);
    RestartConverges(CompileAll(fixtures), stores[0], cuts);
  }
}

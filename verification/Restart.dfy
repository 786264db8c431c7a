// Re-running populate: a run may be cut at any API call, any number of times;
// one complete run then reaches the store, ids included, or the conflict that a
// single uninterrupted run reaches. Also when a second run is a no-op.
module Restart {
  import opened Basics
  import opened Inventory
  import opened PopulateSpec
  import opened PopulateSafety

  // ----- an action that succeeded once -------------------------------------------

  lemma CatalogueReplays(a: Action, b: Base, later: Base)
    requires b.TablesValid() && IsCatalogue(a) && !Ensure(a, b).Refuse?
    requires (if Ensure(a, b).Grow? then Ensure(a, b).base else b).Within(later)
    ensures Ensure(a, later) == Present
  {
    hide Base.TablesValid;
  }

  lemma InterfaceReplays(a: Action, b: Base, later: Base)
    requires b.TablesValid() && a.EnsureInterface? && !Ensure(a, b).Refuse?
    requires (if Ensure(a, b).Grow? then Ensure(a, b).base else b).Within(later)
    ensures Ensure(a, later) == Present
  {
    hide Base.TablesValid, VlanAt, IfacePayload;
  }

  lemma AssignedReplays(a: Action, b: Base, later: Base)
    requires b.TablesValid() && (a.EnsureMac? || a.EnsureIp?) && !Ensure(a, b).Refuse?
    requires (if Ensure(a, b).Grow? then Ensure(a, b).base else b).Within(later)
    ensures Ensure(a, later) == Present
  {
    hide Base.TablesValid;
  }

  lemma HostReplays(a: Action, b: Base, later: Base)
    requires b.TablesValid() && !IsWiring(a) && !IsCatalogue(a) && !Ensure(a, b).Refuse?
    requires (if Ensure(a, b).Grow? then Ensure(a, b).base else b).Within(later)
    ensures Ensure(a, later) == Present
  {
    hide Base.TablesValid;
    if a.EnsureInterface? {
      hide Ensure, Base.Within;
      InterfaceReplays(a, b, later);
    } else if a.EnsureMac? || a.EnsureIp? {
      hide Ensure, Base.Within;
      AssignedReplays(a, b, later);
    }
  }

  // Wherever an ensure action has succeeded it finds its object again.
  lemma EnsureReplays(a: Action, b: Base, later: Base)
    requires b.TablesValid() && !IsWiring(a) && !Ensure(a, b).Refuse?
    requires (if Ensure(a, b).Grow? then Ensure(a, b).base else b).Within(later)
    ensures Ensure(a, later) == Present
  {
    hide Base.TablesValid, Base.Within, Ensure;
    if IsCatalogue(a) { CatalogueReplays(a, b, later); } else { HostReplays(a, b, later); }
  }

  lemma WiringReplays(a: Action, b: Base, later: Base)
    requires IsWiring(a) && Target(a, b).Some? && b.Within(later)
    ensures Target(a, later) == Target(a, b)
  {
  }

  // The action would succeed on any store with this base, creating nothing.
  ghost predicate Settled(a: Action, b: Base) {
    if IsWiring(a) then Target(a, b).Some? else Ensure(a, b).Present?
  }

  lemma StepSettles(a: Action, st: Store, later: Base)
    requires st.Valid() && Step(a, st).Done? && Step(a, st).store.base.Within(later)
    ensures Settled(a, later)
    ensures IsWiring(a) ==> Target(a, later) == Target(a, st.base)
  {
    hide Base.References, Base.TablesValid, WiresRefer, Base.Within, Ensure, Target;
    assert st.base.TablesValid();
    if IsWiring(a) { WiringReplays(a, st.base, later); } else { EnsureReplays(a, st.base, later); }
  }

  lemma SettledLater(a: Action, b: Base, later: Base)
    requires b.TablesValid() && Settled(a, b) && b.Within(later)
    ensures Settled(a, later) && (IsWiring(a) ==> Target(a, later) == Target(a, b))
  {
    hide Base.TablesValid, Base.Within, Ensure, Target;
    if IsWiring(a) { WiringReplays(a, b, later); } else { EnsureReplays(a, b, later); }
  }

  // After a run, every action it took is settled.
  lemma {:induction false} ExecSettles(acts: seq<Action>, st: Store)
    requires st.Valid() && Exec(acts, st).stop.None?
    ensures forall i :: 0 <= i < |acts| ==> Settled(acts[i], Exec(acts, st).store.base)
  {
    hide Base.Valid, Base.Within, Settled, Step, KeepsBut;
    if acts != [] {
      var init, a := acts[..|acts| - 1], acts[|acts| - 1];
      var r := Exec(init, st);
      ExecSettles(init, st);
      ExecSafe(init, st);
      StepSafe(a, r.store);
      var last := Step(a, r.store).store;
      WithinSelf(last.base);
      StepSettles(a, r.store, last.base);
      forall i | 0 <= i < |init| ensures Settled(acts[i], last.base) {
        assert acts[i] == init[i];
        TablesOf(r.store);
        SettledLater(init[i], r.store.base, last.base);
      }
    }
  }

  lemma AllSettled(acts: seq<Action>, st: Store)
    requires st.Valid() && Exec(acts, st).stop.None?
    ensures forall a :: a in acts ==> Settled(a, Exec(acts, st).store.base)
  {
    ExecSettles(acts, st);
  }

  lemma TablesOf(st: Store)
    requires st.Valid()
    ensures st.base.TablesValid()
  {
  }

  // ----- last write wins -------------------------------------------------------------

  // Some action of acts[from..to] writes the slot.
  ghost predicate Writes(acts: seq<Action>, from: int, to: int, b: Base, s: Slot)
    requires 0 <= from <= to <= |acts|
  {
    exists i :: from <= i < to && WritesSlot(acts[i], b, s)
  }

  ghost predicate WritesSlot(a: Action, b: Base, s: Slot) {
    IsWiring(a) && Target(a, b).Some? && Target(a, b).value.slot == s
  }

  // The two stores have the same base and differ at most in slots still to be
  // written by acts[from..to].
  ghost predicate AgreeBut(a: Store, b: Store, acts: seq<Action>, from: int, to: int)
    requires 0 <= from <= to <= |acts|
  {
    && a.base == b.base
    && forall s :: a.Wired(s) != b.Wired(s) ==> Writes(acts, from, to, b.base, s)
  }

  // In the store a run leaves, a slot holds the id its last writer put there.
  lemma {:induction false} LastWrite(acts: seq<Action>, j: nat, st: Store)
    requires j < |acts| && st.Valid() && Exec(acts, st).stop.None?
    requires IsWiring(acts[j])
    ensures var mid := Exec(acts, st).store;
            && Target(acts[j], mid.base).Some?
            && (var w := Target(acts[j], mid.base).value;
                !Writes(acts, j + 1, |acts|, mid.base, w.slot) ==> mid.Wired(w.slot) == Some(w.id))
    decreases |acts|
  {
    hide Base.Valid, Base.Within, Ensure, Target, KeepsBut;
    var init, a := acts[..|acts| - 1], acts[|acts| - 1];
    var r := Exec(init, st);
    ExecSafe(init, st);
    StepSafe(a, r.store);
    var mid := Step(a, r.store).store;
    StepSettles(a, r.store, mid.base) by { WithinSelf(mid.base); }
    if j < |init| {
      assert init[j] == acts[j];
      LastWrite(init, j, st);
      WiringReplays(acts[j], r.store.base, mid.base);
      var w := Target(acts[j], mid.base).value;
      if !Writes(acts, j + 1, |acts|, mid.base, w.slot) {
        assert !WritesSlot(a, mid.base, w.slot);
        forall i | j + 1 <= i < |init| && IsWiring(init[i]) && Target(init[i], r.store.base).Some?
          ensures !WritesSlot(init[i], r.store.base, w.slot)
        {
          WiringReplays(init[i], r.store.base, mid.base);
          assert acts[i] == init[i] && !WritesSlot(acts[i], mid.base, w.slot);
        }
      }
    }
  }

  // ----- replay -----------------------------------------------------------------------

  // Re-running j of the k actions behind mid, from a store that agrees with mid
  // but for slots those k actions write, takes every step, creates no object,
  // and leaves only slots still to be rewritten by the actions from j to k.
  lemma {:induction false} Replay(acts: seq<Action>, j: nat, st: Store, s: Store)
    requires j <= |acts| && st.Valid() && Exec(acts, st).stop.None?
    requires AgreeBut(s, Exec(acts, st).store, acts, 0, |acts|)
    ensures Exec(acts[..j], s).stop.None?
    ensures AgreeBut(Exec(acts[..j], s).store, Exec(acts, st).store, acts, j, |acts|)
  {
    hide Base.Valid, Base.Within, Ensure, Target, KeepsBut;
    if j > 0 {
      Replay(acts, j - 1, st, s);
      var mid := Exec(acts, st).store;
      var p := Exec(acts[..j - 1], s).store;
      var a := acts[j - 1];
      assert acts[..j][..|acts[..j]| - 1] == acts[..j - 1] && acts[..j][j - 1] == a;
      ExecSettles(acts, st);
      assert Settled(a, mid.base);
      var q := Step(a, p).store;
      if IsWiring(a) { LastWrite(acts, j - 1, st); }
      forall x | q.Wired(x) != mid.Wired(x) ensures Writes(acts, j, |acts|, mid.base, x) {
        if p.Wired(x) != mid.Wired(x) {
          assert Writes(acts, j - 1, |acts|, mid.base, x);
          var i :| j - 1 <= i < |acts| && WritesSlot(acts[i], mid.base, x);
          if i == j - 1 { assert IsWiring(a) && Target(a, mid.base).value.slot == x; }
        }
      }
    }
  }

  lemma ReplayAll(acts: seq<Action>, st: Store, s: Store)
    requires st.Valid() && Exec(acts, st).stop.None?
    requires AgreeBut(s, Exec(acts, st).store, acts, 0, |acts|)
    ensures Exec(acts, s).stop.None? && Exec(acts, s).store == Exec(acts, st).store
  {
    Replay(acts, |acts|, st, s);
    assert acts[..|acts|] == acts;
    SameWires(Exec(acts, s).store.wires, Exec(acts, st).store.wires, Exec(acts, st).store.base);
  }

  // ----- interrupted runs ---------------------------------------------------------------

  // s is a store that interrupted runs can leave behind when the furthest of
  // them took the first k actions.
  ghost predicate LeftBy(acts: seq<Action>, k: nat, st: Store, s: Store) {
    && k <= |acts|
    && Exec(acts[..k], st).stop.None?
    && AgreeBut(s, Exec(acts[..k], st).store, acts[..k], 0, k)
  }

  // From such a store a run behaves as an uninterrupted one from action k on.
  lemma Resume(acts: seq<Action>, k: nat, n: nat, st: Store, s: Store)
    requires st.Valid() && LeftBy(acts, k, st, s) && k <= n <= |acts|
    ensures Exec(acts[..n], s).store == Exec(acts[..n], st).store
    ensures Exec(acts[..n], s).stop == Exec(acts[..n], st).stop
  {
    ReplayAll(acts[..k], st, s);
    assert acts[..n] == acts[..k] + acts[k..n];
    ExecSplit(acts[..k], acts[k..n], s);
    ExecSplit(acts[..k], acts[k..n], st);
  }

  // A run that stopped left the store of its longest completed prefix.
  lemma {:induction false} LongestPrefix(acts: seq<Action>, st: Store) returns (k: nat)
    ensures k <= |acts|
    ensures Exec(acts[..k], st).stop.None? && Exec(acts[..k], st).store == Exec(acts, st).store
  {
    if acts == [] || Exec(acts, st).stop.None? {
      k := |acts|;
      assert acts[..k] == acts;
    } else {
      var init := acts[..|acts| - 1];
      k := LongestPrefix(init, st);
      assert init[..k] == acts[..k];
    }
  }

  // The store after a series of runs of the same program, the i-th one cut
  // after cuts[i] actions (or stopped earlier by a conflict).
  function AfterCuts(acts: seq<Action>, st: Store, cuts: seq<nat>): Store {
    if cuts == [] then st
    else
      var n := cuts[|cuts| - 1];
      Exec(acts[..if n <= |acts| then n else |acts|], AfterCuts(acts, st, cuts[..|cuts| - 1])).store
  }

  lemma {:induction false} CutsLeave(acts: seq<Action>, st: Store, cuts: seq<nat>) returns (k: nat)
    requires st.Valid()
    ensures LeftBy(acts, k, st, AfterCuts(acts, st, cuts))
  {
    hide Store.Valid;
    if cuts == [] {
      k := 0;
    } else {
      var k0 := CutsLeave(acts, st, cuts[..|cuts| - 1]);
      var s := AfterCuts(acts, st, cuts[..|cuts| - 1]);
      var n := if cuts[|cuts| - 1] <= |acts| then cuts[|cuts| - 1] else |acts|;
      if n <= k0 {
        k := k0;
        Replay(acts[..k0], n, st, s);
        assert acts[..k0][..n] == acts[..n];
        forall x | Writes(acts[..k0], n, k0, Exec(acts[..k0], st).store.base, x)
          ensures Writes(acts[..k0], 0, k0, Exec(acts[..k0], st).store.base, x) {
        }
      } else {
        Resume(acts, k0, n, st, s);
        k := LongestPrefix(acts[..n], st);
        assert acts[..n][..k] == acts[..k];
      }
    }
  }

  // Crash/restart convergence: after any series of interrupted runs, a run to
  // completion ends in exactly the store, and with exactly the success or
  // error, of one uninterrupted run.
  lemma RestartConverges(acts: seq<Action>, st: Store, cuts: seq<nat>)
    requires st.Valid()
    ensures var again := Exec(acts, AfterCuts(acts, st, cuts));
            again.store == Exec(acts, st).store && again.stop == Exec(acts, st).stop
  {
    var k := CutsLeave(acts, st, cuts);
    Resume(acts, k, |acts|, st, AfterCuts(acts, st, cuts));
    assert acts[..|acts|] == acts;
  }

  // ----- the report of a second run --------------------------------------------------

  predicate IsNoOp(log: seq<Event>) { forall i :: 0 <= i < |log| ==> !log[i].created }

  // No two actions want different ids in the same slot.
  ghost predicate SingleTarget(acts: seq<Action>, b: Base) {
    forall i, j :: 0 <= i < |acts| && 0 <= j < |acts| && IsWiring(acts[i]) && IsWiring(acts[j])
      && Target(acts[i], b).Some? && Target(acts[j], b).Some?
      && Target(acts[i], b).value.slot == Target(acts[j], b).value.slot
      ==> Target(acts[i], b).value.id == Target(acts[j], b).value.id
  }

  // The last action of acts that writes slot s.
  lemma {:induction false} LastWriter(acts: seq<Action>, b: Base, s: Slot, from: nat) returns (j: nat)
    requires from < |acts| && WritesSlot(acts[from], b, s)
    ensures from <= j < |acts| && WritesSlot(acts[j], b, s) && !Writes(acts, j + 1, |acts|, b, s)
    decreases |acts| - from
  {
    if Writes(acts, from + 1, |acts|, b, s) {
      var i :| from + 1 <= i < |acts| && WritesSlot(acts[i], b, s);
      j := LastWriter(acts, b, s, i);
    } else {
      j := from;
    }
  }

  // With single targets the store a run leaves satisfies every wiring action.
  lemma WiredAsWanted(acts: seq<Action>, i: nat, st: Store)
    requires i < |acts| && st.Valid() && Exec(acts, st).stop.None? && IsWiring(acts[i])
    requires SingleTarget(acts, Exec(acts, st).store.base)
    ensures var fin := Exec(acts, st).store;
            && Target(acts[i], fin.base).Some?
            && fin.Wired(Target(acts[i], fin.base).value.slot) == Some(Target(acts[i], fin.base).value.id)
  {
    hide Target, Base.Valid;
    var fin := Exec(acts, st).store;
    LastWrite(acts, i, st);
    var w := Target(acts[i], fin.base).value;
    var j := LastWriter(acts, fin.base, w.slot, i);
    LastWrite(acts, j, st);
  }

  lemma {:induction false} SecondRunSkips(acts: seq<Action>, j: nat, st: Store)
    requires j <= |acts| && st.Valid() && Exec(acts, st).stop.None?
    requires SingleTarget(acts, Exec(acts, st).store.base)
    ensures var again := Exec(acts[..j], Exec(acts, st).store);
            again.stop.None? && again.store == Exec(acts, st).store && IsNoOp(again.log)
  {
    hide Target, Ensure, Base.Valid, SingleTarget;
    if j > 0 {
      SecondRunSkips(acts, j - 1, st);
      assert acts[..j][..|acts[..j]| - 1] == acts[..j - 1] && acts[..j][j - 1] == acts[j - 1];
      ExecSettles(acts, st);
      if IsWiring(acts[j - 1]) { WiredAsWanted(acts, j - 1, st); }
    }
  }

  // A run that creates nothing never moves.
  lemma {:induction false} NoOpStays(acts: seq<Action>, st: Store)
    requires Exec(acts, st).stop.None? && IsNoOp(Exec(acts, st).log)
    ensures Exec(acts, st).store == st
    ensures forall i :: 0 <= i < |acts| ==> Step(acts[i], st) == Done(st, false)
  {
    hide Target, Ensure;
    if acts != [] {
      var init, a := acts[..|acts| - 1], acts[|acts| - 1];
      var r := Exec(init, st);
      var d := Step(a, r.store);
      var log := Exec(acts, st).log;
      assert log == r.log + [Event(KindOf(a), d.created)];
      assert !log[|r.log|].created;
      forall i | 0 <= i < |r.log| ensures !r.log[i].created { assert log[i] == r.log[i]; }
      NoOpStays(init, st);
      forall i | 0 <= i < |acts| ensures Step(acts[i], st) == Done(st, false) {
        if i < |init| { assert acts[i] == init[i]; }
      }
    }
  }

  // Idempotence: after a successful run a second one always succeeds and ends
  // in the same store; its report is a no-op exactly when no two actions of the
  // program want different ids in one slot.
  lemma SecondRun(acts: seq<Action>, st: Store)
    requires st.Valid() && Exec(acts, st).stop.None?
    ensures var fin := Exec(acts, st).store;
            && Exec(acts, fin).stop.None? && Exec(acts, fin).store == fin
            && (IsNoOp(Exec(acts, fin).log) <==> SingleTarget(acts, fin.base))
  {
    var fin := Exec(acts, st).store;
    ReplayAll(acts, st, fin);
    assert acts[..|acts|] == acts;
    if SingleTarget(acts, fin.base) {
      SecondRunSkips(acts, |acts|, st);
    }
    if IsNoOp(Exec(acts, fin).log) {
      NoOpStays(acts, fin);
    }
  }
}

// What any run of the schema reconciler keeps, when a second run has nothing to
// do, and where interrupted runs lead.
module SchemaLaws {
  import opened Basics
  import opened Schema

  // ----- comparison is an equivalence ------------------------------------------------

  lemma SameValueSymmetric(key: string, a: Value, b: Value)
    ensures SameValue(key, a, b) ==> SameValue(key, b, a)
  {
  }

  lemma SameValueTransitive(key: string, a: Value, b: Value, c: Value)
    requires SameValue(key, a, b) && SameValue(key, b, c)
    ensures SameValue(key, a, c)
  {
  }

  // ----- reconciled specs --------------------------------------------------------------

  ghost predicate Settled(spec: CustomFieldSpec, db: Db) {
    spec.name in db && Drift(spec, AsStored(db[spec.name])) == {}
  }

  // What Drift == {} says of a stored record.
  ghost predicate Matches(want: Rec, rec: Rec) {
    forall k :: k in want ==> SameValue(k, want[k], Entry(rec, k))
  }

  function Entry(rec: Rec, key: string): Value { if key in rec then rec[key] else Null }

  lemma SettledMatches(spec: CustomFieldSpec, db: Db)
    requires spec.name in db
    ensures Settled(spec, db) <==> Matches(Payload(spec), db[spec.name])
  {
    hide Payload, SameValue;
    var rec, want := db[spec.name], Payload(spec);
    forall k ensures Got(AsStored(rec), k).value == Entry(rec, k) {}
    if Matches(want, rec) {
      forall k ensures k !in Drift(spec, AsStored(rec)) {
        if k in want { assert SameValue(k, want[k], Entry(rec, k)); }
      }
    }
    if Settled(spec, db) {
      forall k | k in want ensures SameValue(k, want[k], Entry(rec, k)) {
        assert k !in Drift(spec, AsStored(rec));
      }
    }
  }

  // Two specs of one name ask for the same values wherever both ask.
  ghost predicate Agree(p: CustomFieldSpec, q: CustomFieldSpec) {
    p.name == q.name ==>
      forall k :: k in Payload(p) && k in Payload(q) ==> SameValue(k, Payload(p)[k], Payload(q)[k])
  }

  ghost predicate Compatible(specs: seq<CustomFieldSpec>) {
    forall i, j :: 0 <= i < |specs| && 0 <= j < |specs| ==> Agree(specs[i], specs[j])
  }

  // In particular, specs with distinct names are compatible.
  lemma DistinctNamesAreCompatible(specs: seq<CustomFieldSpec>)
    requires forall i, j :: 0 <= i < j < |specs| ==> specs[i].name != specs[j].name
    ensures Compatible(specs)
  {
  }

  const DEFAULT_NAMES: seq<string> :=
    ["bf3_mode", "roce_tc", "numa_node", "sriov_vfs", "gpu_affinity", "observed_mac", "observed_firmware"]

  lemma DefaultNames(describe: string -> string)
    ensures |DefaultFields(describe)| == |DEFAULT_NAMES|
    ensures forall i :: 0 <= i < |DEFAULT_NAMES| ==> DefaultFields(describe)[i].name == DEFAULT_NAMES[i]
  {
  }

  // Their first letters, but for the two that start alike and differ in length.
  lemma DefaultNamesDiffer()
    ensures Distinct(DEFAULT_NAMES)
  {
    var n := DEFAULT_NAMES;
    assert n[0][0] == 'b' && n[1][0] == 'r' && n[2][0] == 'n' && n[3][0] == 's' && n[4][0] == 'g' && n[5][0] == 'o';
    assert n[6][0] == 'o' && |n[5]| == 12 && |n[6]| == 17;
  }

  // So are the default fields.
  lemma DefaultFieldsAgree(describe: string -> string)
    ensures Compatible(DefaultFields(describe))
  {
    DefaultNames(describe);
    DefaultNamesDiffer();
    hide DefaultFields, Compatible;
    var specs := DefaultFields(describe);
    forall i, j | 0 <= i < j < |specs| ensures specs[i].name != specs[j].name {
      assert DEFAULT_NAMES[i] != DEFAULT_NAMES[j];
    }
    DistinctNamesAreCompatible(specs);
  }

  lemma StepSettles(spec: CustomFieldSpec, db: Db, defaults: Rec)
    requires !Decide(spec, db).Refuse?
    ensures Settled(spec, After(spec, db, defaults))
  {
  }

  lemma OverwrittenMatches(want: Rec, rec: Rec, over: Rec)
    requires Matches(want, rec)
    requires forall k :: k in want && k in over ==> SameValue(k, want[k], over[k])
    ensures Matches(want, rec + over)
  {
  }

  lemma SettledLater(p: CustomFieldSpec, q: CustomFieldSpec, db: Db, defaults: Rec)
    requires Settled(p, db) && Agree(p, q) && !Decide(q, db).Refuse?
    ensures Settled(p, After(q, db, defaults))
  {
    hide Payload, Drift, Matches;
    if p.name == q.name && Decide(q, db).Patch? {
      SettledMatches(p, db);
      OverwrittenMatches(Payload(p), db[p.name], Payload(q));
      SettledMatches(p, After(q, db, defaults));
    }
  }

  lemma {:induction false} ApplySettles(specs: seq<CustomFieldSpec>, db: Db, defaults: Rec)
    requires Compatible(specs) && Apply(specs, db, defaults).refused.None?
    ensures forall i :: 0 <= i < |specs| ==> Settled(specs[i], Apply(specs, db, defaults).db)
  {
    hide Settled, Agree, Decide, After, Noted;
    if specs != [] {
      var init, last := specs[..|specs| - 1], specs[|specs| - 1];
      var r := Apply(init, db, defaults);
      ApplySettles(init, db, defaults);
      StepSettles(last, r.db, defaults);
      forall i | 0 <= i < |init| ensures Settled(specs[i], After(last, r.db, defaults)) {
        assert init[i] == specs[i] && Agree(specs[i], specs[|specs| - 1]);
        SettledLater(specs[i], last, r.db, defaults);
      }
    }
  }

  lemma {:induction false} NothingToDo(specs: seq<CustomFieldSpec>, db: Db, defaults: Rec)
    requires forall i :: 0 <= i < |specs| ==> Settled(specs[i], db)
    ensures var r := Apply(specs, db, defaults);
            r.db == db && r.refused.None? && r.report.created == [] && r.report.updated == []
            && |r.report.untouched| == |specs| &&
               forall i :: 0 <= i < |specs| ==> r.report.untouched[i] == specs[i].name
  {
    hide Drift, Payload;
    if specs != [] {
      var init := specs[..|specs| - 1];
      forall i | 0 <= i < |init| ensures Settled(init[i], db) { assert init[i] == specs[i]; }
      NothingToDo(init, db, defaults);
      assert Settled(specs[|specs| - 1], db);
    }
  }

  lemma NotedGrows(report: Report, d: Decision, name: string)
    ensures var r := Noted(report, d, name);
            |r.created| + |r.updated| == |report.created| + |report.updated| + if d.Create? || d.Patch? then 1 else 0
  {
  }

  lemma {:induction false} NoOpKeeps(specs: seq<CustomFieldSpec>, db: Db, defaults: Rec)
    requires Apply(specs, db, defaults).refused.None?
    requires Apply(specs, db, defaults).report.created == [] && Apply(specs, db, defaults).report.updated == []
    ensures Apply(specs, db, defaults).db == db
    ensures forall i :: 0 <= i < |specs| ==> Settled(specs[i], db)
  {
    hide Drift, Payload;
    if specs != [] {
      var init, last := specs[..|specs| - 1], specs[|specs| - 1];
      var r := Apply(init, db, defaults);
      var d := Decide(last, r.db);
      NotedGrows(r.report, d, last.name);
      NoOpKeeps(init, db, defaults);
      forall i | 0 <= i < |specs| ensures Settled(specs[i], db) {
        if i < |init| { assert specs[i] == init[i]; }
      }
    }
  }

  lemma SettledAgree(p: CustomFieldSpec, q: CustomFieldSpec, db: Db)
    requires Settled(p, db) && Settled(q, db)
    ensures Agree(p, q)
  {
    hide Payload, Drift, SameValue;
    if p.name == q.name {
      SettledMatches(p, db);
      SettledMatches(q, db);
      var rec := db[p.name];
      forall k | k in Payload(p) && k in Payload(q) ensures SameValue(k, Payload(p)[k], Payload(q)[k]) {
        SameValueSymmetric(k, Payload(q)[k], Entry(rec, k));
        SameValueTransitive(k, Payload(p)[k], Entry(rec, k), Payload(q)[k]);
      }
    }
  }

  // Convergence: after a successful apply a second one reports nothing created
  // or updated exactly when same-named specs agree, as they always do under
  // distinct names; then every spec matches its field however the server shows it.
  lemma SecondApply(specs: seq<CustomFieldSpec>, db: Db, defaults: Rec)
    requires Apply(specs, db, defaults).refused.None?
    ensures var fin := Apply(specs, db, defaults).db;
            var again := Apply(specs, fin, defaults);
            && ((again.refused.None? && again.report.created == [] && again.report.updated == []) <==>
                Compatible(specs))
            && (Compatible(specs) ==>
                  && again.db == fin && |again.report.untouched| == |specs|
                  && (forall i :: 0 <= i < |specs| ==> again.report.untouched[i] == specs[i].name)
                  && forall i, seen :: 0 <= i < |specs| && specs[i].name in fin && Represents(seen, fin[specs[i].name])
                       ==> Drift(specs[i], seen) == {})
  {
    hide Settled, Agree, Represents, Drift, AsStored;
    var fin := Apply(specs, db, defaults).db;
    var again := Apply(specs, fin, defaults);
    if Compatible(specs) {
      ApplySettles(specs, db, defaults);
      NothingToDo(specs, fin, defaults);
      forall i, seen | 0 <= i < |specs| && specs[i].name in fin && Represents(seen, fin[specs[i].name])
        ensures Drift(specs[i], seen) == {}
      {
        SettledShown(specs[i], fin, seen);
      }
    }
    if again.refused.None? && again.report.created == [] && again.report.updated == [] {
      NoOpKeeps(specs, fin, defaults);
      forall i, j | 0 <= i < |specs| && 0 <= j < |specs| ensures Agree(specs[i], specs[j]) {
        SettledAgree(specs[i], specs[j], fin);
      }
    }
  }

  lemma SettledShown(spec: CustomFieldSpec, db: Db, seen: Seen)
    requires Settled(spec, db) && Represents(seen, db[spec.name])
    ensures Drift(spec, seen) == {}
  {
    hide Drift, AsStored, Represents;
    DriftIgnoresRepresentation(spec, seen, db[spec.name]);
  }

  // ----- interrupted applies ---------------------------------------------------------------

  lemma CompatiblePrefix(specs: seq<CustomFieldSpec>, k: nat)
    requires Compatible(specs) && k <= |specs|
    ensures Compatible(specs[..k])
  {
  }

  // Re-running the first n specs over what k of them left.
  lemma {:induction false} Rerun(specs: seq<CustomFieldSpec>, k: nat, n: nat, db: Db, defaults: Rec)
    requires Compatible(specs) && k <= |specs| && n <= |specs| && Apply(specs[..k], db, defaults).refused.None?
    ensures var left := Apply(specs[..k], db, defaults).db;
            var r := Apply(specs[..n], left, defaults);
            if n <= k then r.db == left && r.refused.None?
            else r.db == Apply(specs[..n], db, defaults).db && r.refused == Apply(specs[..n], db, defaults).refused
  {
    hide Settled, Agree, Decide, After, Noted, Apply;
    var left := Apply(specs[..k], db, defaults).db;
    if n <= k {
      CompatiblePrefix(specs, k);
      ApplySettles(specs[..k], db, defaults);
      forall i | 0 <= i < n ensures Settled(specs[..n][i], left) { assert specs[..n][i] == specs[..k][i]; }
      NothingToDo(specs[..n], left, defaults);
    } else {
      Rerun(specs, k, n - 1, db, defaults);
      ApplyNext(specs, n - 1, db, defaults);
      ApplyNext(specs, n - 1, left, defaults);
    }
  }

  // The server after a series of applies, the i-th one cut at spec cuts[i] (or
  // stopped earlier by a SchemaError).
  function AfterCuts(specs: seq<CustomFieldSpec>, db: Db, defaults: Rec, cuts: seq<nat>): Db {
    if cuts == [] then db
    else
      var n := cuts[|cuts| - 1];
      Apply(specs[..if n <= |specs| then n else |specs|], AfterCuts(specs, db, defaults, cuts[..|cuts| - 1]),
            defaults).db
  }

  // Before its refusal a run did what the specs before it ask for.
  lemma {:induction false} RefusedAfterPrefix(specs: seq<CustomFieldSpec>, db: Db, defaults: Rec)
    requires Apply(specs, db, defaults).refused.Some?
    ensures var i := Apply(specs, db, defaults).refused.value;
            var r := Apply(specs[..i], db, defaults);
            r.refused.None? && r.db == Apply(specs, db, defaults).db && r.report == Apply(specs, db, defaults).report
            && Decide(specs[i], r.db).Refuse?
  {
    hide Decide, After, Noted;
    var init := specs[..|specs| - 1];
    if Apply(init, db, defaults).refused.Some? {
      RefusedAfterPrefix(init, db, defaults);
      var i := Apply(init, db, defaults).refused.value;
      assert init[..i] == specs[..i];
    }
  }

  lemma {:induction false} CutsLeave(specs: seq<CustomFieldSpec>, db: Db, defaults: Rec,
                                     cuts: seq<nat>) returns (k: nat)
    requires Compatible(specs)
    ensures k <= |specs| && Apply(specs[..k], db, defaults).refused.None?
    ensures AfterCuts(specs, db, defaults, cuts) == Apply(specs[..k], db, defaults).db
  {
    hide Compatible, Decide, After, Noted;
    if cuts == [] {
      k := 0;
    } else {
      hide Apply;
      var k0 := CutsLeave(specs, db, defaults, cuts[..|cuts| - 1]);
      var n := if cuts[|cuts| - 1] <= |specs| then cuts[|cuts| - 1] else |specs|;
      Rerun(specs, k0, n, db, defaults);
      if n <= k0 {
        k := k0;
      } else if Apply(specs[..n], db, defaults).refused.None? {
        k := n;
      } else {
        RefusedAfterPrefix(specs[..n], db, defaults);
        k := Apply(specs[..n], db, defaults).refused.value;
        assert specs[..n][..k] == specs[..k];
      }
    }
  }

  // When same-named specs agree, any number of interrupted applies followed by a
  // complete one ends exactly where one uninterrupted apply ends.
  lemma AgreeingApplyConverges(specs: seq<CustomFieldSpec>, db: Db, defaults: Rec, cuts: seq<nat>)
    requires Compatible(specs)
    ensures var again := Apply(specs, AfterCuts(specs, db, defaults, cuts), defaults);
            again.db == Apply(specs, db, defaults).db && again.refused == Apply(specs, db, defaults).refused
  {
    hide Compatible, Apply;
    var k := CutsLeave(specs, db, defaults, cuts);
    Rerun(specs, k, |specs|, db, defaults);
    assert specs[..|specs|] == specs;
    if k == |specs| { assert specs[..k] == specs; }
  }

  // A spec is refused exactly when its field exists under another name entry,
  // type or set of object types; any other drift is patched, and no drift at
  // all is left alone.
  lemma RefusesExactly(spec: CustomFieldSpec, db: Db)
    requires spec.name in db
    ensures var rec := db[spec.name];
            var clash :=
              || Entry(rec, "name") != Str(spec.name)
              || Entry(rec, "type") != Str(FieldTypeValue(spec.kind))
              || multiset(Map(Norm, Items(Entry(rec, "object_types")))) != multiset(Map(Norm, spec.objectTypes));
            && (Decide(spec, db).Refuse? <==> clash)
            && (Decide(spec, db).Keep? <==> Matches(Payload(spec), rec))
            && (Decide(spec, db).Patch? <==> !clash && !Matches(Payload(spec), rec))
  {
    hide Payload, SameTypes, Matches;
    var rec, drift := db[spec.name], Drift(spec, AsStored(db[spec.name]));
    PayloadShape(spec);
    PayloadKeys(spec);
    SettledMatches(spec, db);
    SameTypesIsPermutation(spec.objectTypes, Items(Entry(rec, "object_types")));
    forall k ensures Got(AsStored(rec), k).value == Entry(rec, k) {}
    NotRecoverable("name");
    NotRecoverable("type");
    NotRecoverable("object_types");
    assert "name" != "object_types" && "type" != "object_types" by {
      assert |"name"| == 4 && |"type"| == 4 && |"object_types"| == 12;
    }
    assert drift <= RECOVERABLE <==> "name" !in drift && "type" !in drift && "object_types" !in drift;
  }

  // ----- protection ------------------------------------------------------------------------

  // Same name and type, and the same object types up to form and order.
  ghost predicate KeepsShape(a: Rec, b: Rec) {
    && Entry(a, "name") == Entry(b, "name")
    && Entry(a, "type") == Entry(b, "type")
    && multiset(Map(Norm, Items(Entry(a, "object_types")))) == multiset(Map(Norm, Items(Entry(b, "object_types"))))
  }

  lemma PayloadShape(spec: CustomFieldSpec)
    ensures "type" in Payload(spec) && Payload(spec)["type"] == Str(FieldTypeValue(spec.kind))
    ensures "object_types" in Payload(spec) && Payload(spec)["object_types"] == Strings(spec.objectTypes)
  {
  }

  lemma PayloadKeys(spec: CustomFieldSpec)
    ensures Payload(spec).Keys <= RECOVERABLE + {"name", "type", "object_types"}
    ensures "name" in Payload(spec) && Payload(spec)["name"] == Str(spec.name)
  {
  }

  lemma PatchKeepsShape(spec: CustomFieldSpec, rec: Rec)
    requires IsRecoverable(Drift(spec, AsStored(rec)))
    ensures KeepsShape(rec, rec + Payload(spec))
  {
    hide Payload, SameTypes;
    PayloadShape(spec);
    PayloadKeys(spec);
    NotRecoverable("name");
    NotRecoverable("type");
    NotRecoverable("object_types");
    var drift := Drift(spec, AsStored(rec));
    assert "name" !in drift && "type" !in drift && "object_types" !in drift;
    assert Got(AsStored(rec), "name").value == Entry(rec, "name");
    assert Got(AsStored(rec), "type").value == Entry(rec, "type");
    assert Got(AsStored(rec), "object_types").value == Entry(rec, "object_types");
    SameTypesIsPermutation(spec.objectTypes, Items(Entry(rec, "object_types")));
  }

  ghost predicate Protects(db: Db, later: Db) {
    forall name :: name in db ==> name in later && KeepsShape(db[name], later[name])
  }

  // No spec of the list has this name.
  ghost predicate Unnamed(name: string, specs: seq<CustomFieldSpec>) {
    forall i :: 0 <= i < |specs| ==> specs[i].name != name
  }

  ghost predicate SameField(name: string, a: Db, b: Db) {
    (name in b <==> name in a) && (name in a ==> b[name] == a[name])
  }

  lemma StepProtects(spec: CustomFieldSpec, db: Db, defaults: Rec)
    ensures forall name :: name in db ==> name in After(spec, db, defaults)
                                          && KeepsShape(db[name], After(spec, db, defaults)[name])
    ensures forall name :: name != spec.name ==> SameField(name, db, After(spec, db, defaults))
  {
    hide Payload, Drift, AsStored, KeepsShape;
    var later := After(spec, db, defaults);
    forall name | name in db ensures name in later && KeepsShape(db[name], later[name]) {
      SameShape(db[name]);
      if Decide(spec, db).Patch? && name == spec.name { PatchKeepsShape(spec, db[name]); }
    }
  }

  lemma SameShape(rec: Rec)
    ensures KeepsShape(rec, rec)
  {
  }

  lemma ProtectsTransitive(a: Db, b: Db, c: Db)
    requires Protects(a, b) && Protects(b, c)
    ensures Protects(a, c)
  {
  }

  // On every run, also one that raises, no existing field changes its name, type
  // or object types, and no field is touched that no spec names.
  lemma {:induction false} FieldsProtected(specs: seq<CustomFieldSpec>, db: Db, defaults: Rec)
    ensures Protects(db, Apply(specs, db, defaults).db)
    ensures forall name :: Unnamed(name, specs) ==> SameField(name, db, Apply(specs, db, defaults).db)
  {
    hide KeepsShape, Decide, After, Noted;
    if specs == [] {
      forall name | name in db ensures KeepsShape(db[name], db[name]) { SameShape(db[name]); }
    } else {
      var init, last := specs[..|specs| - 1], specs[|specs| - 1];
      FieldsProtected(init, db, defaults);
      StepProtects(last, Apply(init, db, defaults).db, defaults);
      ProtectsAfter(init, last, db, defaults);
      var mid, later := Apply(init, db, defaults).db, Apply(specs, db, defaults).db;
      assert later == mid || later == After(last, mid, defaults);
      forall name | Unnamed(name, specs) ensures SameField(name, db, later) {
        forall i | 0 <= i < |init| ensures init[i].name != name { assert init[i] == specs[i]; }
        assert SameField(name, db, mid) && SameField(name, mid, After(last, mid, defaults));
      }
    }
  }

  lemma ProtectsAfter(init: seq<CustomFieldSpec>, last: CustomFieldSpec, db: Db, defaults: Rec)
    requires Protects(db, Apply(init, db, defaults).db)
    ensures Protects(db, After(last, Apply(init, db, defaults).db, defaults))
  {
    hide KeepsShape, Decide, After, Apply, Noted;
    var mid := Apply(init, db, defaults).db;
    StepProtects(last, mid, defaults);
    ProtectsTransitive(db, mid, After(last, mid, defaults));
  }

  // When a run is refused at spec i, what it did is the complete apply of the
  // specs before i, which same-named specs that agree leave reconciled; a field
  // that none of those names is as it was.
  lemma RefusalIsAPrefix(specs: seq<CustomFieldSpec>, db: Db, defaults: Rec)
    requires Apply(specs, db, defaults).refused.Some?
    ensures var r := Apply(specs, db, defaults);
            var i := r.refused.value;
            && r.db == Apply(specs[..i], db, defaults).db && Apply(specs[..i], db, defaults).refused.None?
            && (Compatible(specs) ==> forall j :: 0 <= j < i ==> Settled(specs[j], r.db))
            && (forall name :: Unnamed(name, specs[..i]) ==> SameField(name, db, r.db))
            && specs[i].name in r.db && !IsRecoverable(Drift(specs[i], AsStored(r.db[specs[i].name])))
  {
    hide Settled, Agree, After, Noted, Drift, AsStored, Apply, Compatible;
    RefusedAfterPrefix(specs, db, defaults);
    var i := Apply(specs, db, defaults).refused.value;
    FieldsProtected(specs[..i], db, defaults);
    if Compatible(specs) {
      CompatiblePrefix(specs, i);
      ApplySettles(specs[..i], db, defaults);
      forall j | 0 <= j < i ensures Settled(specs[j], Apply(specs, db, defaults).db) {
        assert specs[..i][j] == specs[j];
      }
    }
  }

  // Spec i is refused as the server stands, and every spec before it already
  // matches its field.
  ghost predicate RefusedAtOnce(specs: seq<CustomFieldSpec>, i: nat, db: Db)
    requires i < |specs|
  {
    Decide(specs[i], db).Refuse? && forall j :: 0 <= j < i ==> Settled(specs[j], db)
  }

  // A refused apply writes nothing exactly when the server, as it stood, already
  // matched every spec before one that it refuses. Then the server is as it
  // was; when same-named specs agree, only then.
  lemma RefusedUntouchedExactly(specs: seq<CustomFieldSpec>, db: Db, defaults: Rec)
    ensures var r := Apply(specs, db, defaults);
            var atOnce := exists i :: 0 <= i < |specs| && RefusedAtOnce(specs, i, db);
            && (r.refused.Some? && r.report.created == [] && r.report.updated == [] <==> atOnce)
            && (atOnce ==> r.db == db)
            && (Compatible(specs) ==> (r.refused.Some? && r.db == db <==> atOnce))
  {
    hide Settled, Agree, After, Noted, Apply, Decide, Compatible;
    var r := Apply(specs, db, defaults);
    if i :| 0 <= i < |specs| && RefusedAtOnce(specs, i, db) {
      NothingToDo(specs[..i], db, defaults);
      ApplyNext(specs, i, db, defaults);
      ApplyStops(specs, i + 1, db, defaults);
    }
    if r.refused.Some? {
      RefusedAfterPrefix(specs, db, defaults);
      var i := r.refused.value;
      if r.report.created == [] && r.report.updated == [] {
        NoOpKeeps(specs[..i], db, defaults);
        assert RefusedAtOnce(specs, i, db) by {
          forall j | 0 <= j < i ensures Settled(specs[j], db) { assert specs[..i][j] == specs[j]; }
        }
      }
      if Compatible(specs) && r.db == db {
        RefusalIsAPrefix(specs, db, defaults);
        assert RefusedAtOnce(specs, i, db);
      }
    }
  }

  // ----- the report ---------------------------------------------------------------------------

  lemma StepAccounts(spec: CustomFieldSpec, db: Db, defaults: Rec)
    ensures var later := After(spec, db, defaults);
            && |later| == |db| + (if Decide(spec, db).Create? then 1 else 0)
            && forall name :: name in later <==> name in db || (Decide(spec, db).Create? && name == spec.name)
  {
  }

  // Each spec taken is reported once, and the server gained the created fields.
  lemma {:induction false} ReportAccounts(specs: seq<CustomFieldSpec>, db: Db, defaults: Rec)
    ensures var r := Apply(specs, db, defaults);
            && |r.report.created| + |r.report.updated| + |r.report.untouched| ==
               (if r.refused.Some? then r.refused.value else |specs|)
            && |r.db| == |db| + |r.report.created|
            && forall name :: name in r.db <==> name in db || name in r.report.created
  {
    hide Decide, After;
    if specs != [] {
      var init, last := specs[..|specs| - 1], specs[|specs| - 1];
      ReportAccounts(init, db, defaults);
      StepAccounts(last, Apply(init, db, defaults).db, defaults);
    }
  }

  // A refused apply can have completed earlier specs.
  function NewField(): CustomFieldSpec {
    CustomFieldSpec("bf3_mode", "BlueField-3 mode", Text, ["dcim.device"], "", false, Str("nic"), None, None, None)
  }

  function ClashingField(): CustomFieldSpec {
    CustomFieldSpec("roce_tc", "RoCE traffic class", Integer, ["dcim.interface"], "", false, Null, None, None, None)
  }

  lemma RefusedApplyIsPartial(defaults: Rec)
    ensures var db: Db := map["roce_tc" := map["type" := Str("text")]];
            var r := Apply([NewField(), ClashingField()], db, defaults);
            r.refused == Some(1) && "bf3_mode" in r.db && "bf3_mode" !in db && r.report.created == ["bf3_mode"]
  {
    hide Payload;
    var db: Db := map["roce_tc" := map["type" := Str("text")]];
    var a, c := NewField(), ClashingField();
    assert [a, c][..1] == [a] && [a][..0] == [];
    var mid := db["bf3_mode" := defaults + Payload(a)];
    assert Decide(a, db).Create?;
    assert Apply([a], db, defaults) == Applied(mid, Report(["bf3_mode"], [], []), None);
    PayloadShape(c);
    assert "roce_tc"[0] != "bf3_mode"[0];
    assert mid["roce_tc"] == db["roce_tc"];
    assert "text"[0] != "integer"[0];
    assert "type" in Drift(c, AsStored(mid["roce_tc"]));
    NotRecoverable("type");
  }

  lemma NotRecoverable(key: string)
    ensures key == "type" || key == "object_types" || key == "name" ==> key !in RECOVERABLE
  {
  }
}

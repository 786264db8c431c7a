// Interrupted applies of any list of specs, also of specs of one name that
// disagree: the reconciler cannot tell the end from that of a single apply.
module SchemaRestart {
  import opened Schema
  import opened SchemaLaws

  // ----- records no comparison tells apart -----------------------------------------------

  ghost predicate Alike(a: Rec, b: Rec) { forall k :: SameValue(k, Entry(a, k), Entry(b, k)) }

  ghost predicate AlikeDb(d: Db, e: Db) {
    (forall n :: n in d <==> n in e) && forall n :: n in d && n in e ==> Alike(d[n], e[n])
  }

  lemma DecideAlike(spec: CustomFieldSpec, d: Db, e: Db)
    requires AlikeDb(d, e)
    ensures Decide(spec, d) == Decide(spec, e)
  {
    hide Payload, SameValue, IsRecoverable;
    if spec.name in d {
      var a, b := d[spec.name], e[spec.name];
      forall k | k in Payload(spec)
        ensures SameValue(k, Payload(spec)[k], Got(AsStored(a), k).value) ==
                SameValue(k, Payload(spec)[k], Got(AsStored(b), k).value)
      {
        assert Got(AsStored(a), k).value == Entry(a, k) && Got(AsStored(b), k).value == Entry(b, k);
        SameEither(k, Payload(spec)[k], Entry(a, k), Entry(b, k));
      }
      assert Drift(spec, AsStored(a)) == Drift(spec, AsStored(b));
    }
  }

  lemma SameEither(k: string, want: Value, a: Value, b: Value)
    requires SameValue(k, a, b)
    ensures SameValue(k, want, a) == SameValue(k, want, b)
  {
  }

  lemma SameValueReflexive(k: string, a: Value)
    ensures SameValue(k, a, a)
  {
  }

  lemma PatchAlike(a: Rec, b: Rec, p: Rec)
    requires Alike(a, b)
    ensures Alike(a + p, b + p)
  {
    hide SameValue;
    forall k ensures SameValue(k, Entry(a + p, k), Entry(b + p, k)) {
      if k in p { SameValueReflexive(k, p[k]); } else { assert SameValue(k, Entry(a, k), Entry(b, k)); }
    }
  }

  lemma RecAlike(a: Rec)
    ensures Alike(a, a)
  {
    hide SameValue;
    forall k ensures SameValue(k, Entry(a, k), Entry(a, k)) { SameValueReflexive(k, Entry(a, k)); }
  }

  lemma AfterAlike(spec: CustomFieldSpec, d: Db, e: Db, defaults: Rec)
    requires AlikeDb(d, e)
    ensures AlikeDb(After(spec, d, defaults), After(spec, e, defaults))
  {
    hide Payload, Alike, Drift;
    DecideAlike(spec, d, e);
    RecAlike(defaults + Payload(spec));
    if spec.name in d { PatchAlike(d[spec.name], e[spec.name], Payload(spec)); }
  }

  // ----- what a spec's turn leaves ------------------------------------------------------------

  // The three entries a spec is refused for.
  const SHAPE_KEYS: set<string> := {"name", "type", "object_types"}

  ghost predicate ShapeAlike(a: Rec, b: Rec) {
    forall k :: k in SHAPE_KEYS ==> SameValue(k, Entry(a, k), Entry(b, k))
  }

  ghost predicate ShapeWanted(spec: CustomFieldSpec, rec: Rec) {
    forall k :: k in SHAPE_KEYS ==> k in Payload(spec) && SameValue(k, Payload(spec)[k], Entry(rec, k))
  }

  lemma KeptIsAlike(a: Rec, b: Rec)
    requires KeepsShape(a, b)
    ensures ShapeAlike(a, b)
  {
    hide SameTypes;
    SameTypesIsPermutation(Items(Entry(a, "object_types")), Items(Entry(b, "object_types")));
    ShapeNames();
  }

  lemma ShapeNames()
    ensures "name" != "object_types" && "type" != "object_types" && "name" != "type"
  {
    assert |"name"| == 4 && |"type"| == 4 && |"object_types"| == 12 && "name"[0] == 'n' && "type"[0] == 't';
  }

  // A spec whose three entries are in place is not refused.
  lemma WantedNotRefused(spec: CustomFieldSpec, db: Db)
    requires spec.name in db && ShapeWanted(spec, db[spec.name])
    ensures !Decide(spec, db).Refuse?
  {
    hide Payload, Matches, SameTypes;
    RefusesExactly(spec, db);
    PayloadShape(spec);
    PayloadKeys(spec);
    ShapeNames();
    var rec := db[spec.name];
    assert "name" in SHAPE_KEYS && "type" in SHAPE_KEYS && "object_types" in SHAPE_KEYS;
    SameTypesIsPermutation(spec.objectTypes, Items(Entry(rec, "object_types")));
  }

  lemma WantedAlike(spec: CustomFieldSpec, a: Rec, b: Rec)
    requires ShapeWanted(spec, a) && ShapeAlike(a, b)
    ensures ShapeWanted(spec, b)
  {
    hide SameValue, Payload;
    forall k | k in SHAPE_KEYS ensures k in Payload(spec) && SameValue(k, Payload(spec)[k], Entry(b, k)) {
      SameValueTransitive(k, Payload(spec)[k], Entry(a, k), Entry(b, k));
    }
  }

  lemma TakenIsWanted(spec: CustomFieldSpec, db: Db, defaults: Rec)
    requires !Decide(spec, db).Refuse?
    ensures var later := After(spec, db, defaults);
            spec.name in later && Matches(Payload(spec), later[spec.name]) && ShapeWanted(spec, later[spec.name])
  {
    hide Payload, SameValue, Drift;
    StepSettles(spec, db, defaults);
    SettledMatches(spec, After(spec, db, defaults));
    PayloadShape(spec);
    PayloadKeys(spec);
  }

  // A spec writes only the entries it names.
  lemma StepKeepsEntry(spec: CustomFieldSpec, db: Db, defaults: Rec, n: string, k: string)
    requires n in db && !(spec.name == n && k in Payload(spec))
    ensures n in After(spec, db, defaults) && Entry(After(spec, db, defaults)[n], k) == Entry(db[n], k)
  {
    hide Payload, Drift;
  }

  // Some spec of specs[from..to] writes entry k of field n.
  ghost predicate Wanted(specs: seq<CustomFieldSpec>, from: nat, to: nat, n: string, k: string)
    requires from <= to <= |specs|
  {
    exists i :: from <= i < to && Asks(specs[i], n, k)
  }

  ghost predicate Asks(spec: CustomFieldSpec, n: string, k: string) { spec.name == n && k in Payload(spec) }

  // After a run, an entry compares equal to what its last spec wants.
  lemma {:induction false} LastWrite(specs: seq<CustomFieldSpec>, i: nat, db: Db, defaults: Rec, k: string)
    requires i < |specs| && Apply(specs, db, defaults).refused.None? && k in Payload(specs[i])
    requires !Wanted(specs, i + 1, |specs|, specs[i].name, k)
    ensures var left := Apply(specs, db, defaults).db;
            specs[i].name in left && SameValue(k, Payload(specs[i])[k], Entry(left[specs[i].name], k))
  {
    hide Payload, SameValue, Decide, After, Noted;
    var init, last := specs[..|specs| - 1], specs[|specs| - 1];
    var mid := Apply(init, db, defaults).db;
    if i == |init| {
      TakenIsWanted(last, mid, defaults);
    } else {
      assert init[i] == specs[i];
      assert !Asks(specs[|init|], specs[i].name, k);
      forall j | i + 1 <= j < |init| ensures !Asks(init[j], specs[i].name, k) { assert init[j] == specs[j]; }
      LastWrite(init, i, db, defaults, k);
      StepKeepsEntry(last, mid, defaults, specs[i].name, k);
    }
  }

  lemma {:induction false} ShapeStays(specs: seq<CustomFieldSpec>, i: nat, db: Db, defaults: Rec)
    requires i < |specs| && Apply(specs, db, defaults).refused.None?
    ensures var left := Apply(specs, db, defaults).db;
            specs[i].name in left && ShapeWanted(specs[i], left[specs[i].name])
  {
    hide Payload, SameValue, Decide, After, Noted, KeepsShape, ShapeWanted, ShapeAlike, Matches;
    var init, last := specs[..|specs| - 1], specs[|specs| - 1];
    var mid := Apply(init, db, defaults).db;
    if i == |init| {
      TakenIsWanted(last, mid, defaults);
    } else {
      assert init[i] == specs[i];
      ShapeStays(init, i, db, defaults);
      StepProtects(last, mid, defaults);
      var n := specs[i].name;
      KeptIsAlike(mid[n], After(last, mid, defaults)[n]);
      WantedAlike(specs[i], mid[n], After(last, mid, defaults)[n]);
    }
  }

  // ----- replay --------------------------------------------------------------------------------

  // The two servers differ at most in entries still to be written by
  // specs[from..to], and in none a spec is refused for.
  ghost predicate AgreeBut(specs: seq<CustomFieldSpec>, from: nat, to: nat, s: Db, left: Db)
    requires from <= to <= |specs|
  {
    && (forall n :: n in s <==> n in left)
    && (forall n :: n in s && n in left ==> ShapeAlike(s[n], left[n]))
    && (forall n, k :: n in s && n in left && !Wanted(specs, from, to, n, k) ==>
          SameValue(k, Entry(s[n], k), Entry(left[n], k)))
  }

  lemma ReplayStep(specs: seq<CustomFieldSpec>, j: nat, db: Db, defaults: Rec, r: Db)
    requires j < |specs| && Apply(specs, db, defaults).refused.None?
    requires AgreeBut(specs, j, |specs|, r, Apply(specs, db, defaults).db)
    ensures !Decide(specs[j], r).Refuse?
    ensures AgreeBut(specs, j + 1, |specs|, After(specs[j], r, defaults), Apply(specs, db, defaults).db)
  {
    hide Payload, SameValue, Decide, After, Apply, KeepsShape, ShapeWanted, ShapeAlike, Wanted;
    var left, spec := Apply(specs, db, defaults).db, specs[j];
    ShapeStays(specs, j, db, defaults);
    AlikeSymmetric(r[spec.name], left[spec.name]);
    WantedAlike(spec, left[spec.name], r[spec.name]);
    WantedNotRefused(spec, r);
    var next := After(spec, r, defaults);
    StepNames(spec, r, defaults);
    StepProtects(spec, r, defaults);
    forall n | n in next && n in left ensures ShapeAlike(next[n], left[n]) {
      KeptIsAlike(r[n], next[n]);
      AlikeSymmetric(r[n], next[n]);
      AlikeTransitive(next[n], r[n], left[n]);
    }
    forall n, k | n in next && n in left && !Wanted(specs, j + 1, |specs|, n, k)
      ensures SameValue(k, Entry(next[n], k), Entry(left[n], k))
    {
      EntryReplayed(specs, j, db, defaults, r, n, k);
    }
  }

  lemma EntryReplayed(specs: seq<CustomFieldSpec>, j: nat, db: Db, defaults: Rec, r: Db, n: string, k: string)
    requires j < |specs| && Apply(specs, db, defaults).refused.None? && !Decide(specs[j], r).Refuse?
    requires AgreeBut(specs, j, |specs|, r, Apply(specs, db, defaults).db)
    requires n in r && !Wanted(specs, j + 1, |specs|, n, k)
    ensures n in After(specs[j], r, defaults) && n in Apply(specs, db, defaults).db
    ensures SameValue(k, Entry(After(specs[j], r, defaults)[n], k), Entry(Apply(specs, db, defaults).db[n], k))
  {
    hide Payload, SameValue, Decide, After, Apply, ShapeAlike;
    var left, spec := Apply(specs, db, defaults).db, specs[j];
    if Asks(spec, n, k) {
      TakenIsWanted(spec, r, defaults);
      LastWrite(specs, j, db, defaults, k);
      SameValueSymmetric(k, Payload(spec)[k], Entry(After(spec, r, defaults)[n], k));
      SameValueTransitive(k, Entry(After(spec, r, defaults)[n], k), Payload(spec)[k], Entry(left[n], k));
    } else {
      StepKeepsEntry(spec, r, defaults, n, k);
      assert !Wanted(specs, j, |specs|, n, k);
    }
  }

  lemma StepNames(spec: CustomFieldSpec, db: Db, defaults: Rec)
    requires spec.name in db
    ensures forall n :: n in After(spec, db, defaults) <==> n in db
  {
    hide Payload, Drift;
  }

  lemma AlikeSymmetric(a: Rec, b: Rec)
    requires ShapeAlike(a, b)
    ensures ShapeAlike(b, a)
  {
    hide SameValue;
    forall k | k in SHAPE_KEYS ensures SameValue(k, Entry(b, k), Entry(a, k)) {
      SameValueSymmetric(k, Entry(a, k), Entry(b, k));
    }
  }

  lemma AlikeTransitive(a: Rec, b: Rec, c: Rec)
    requires ShapeAlike(a, b) && ShapeAlike(b, c)
    ensures ShapeAlike(a, c)
  {
    hide SameValue;
    forall k | k in SHAPE_KEYS ensures SameValue(k, Entry(a, k), Entry(c, k)) {
      SameValueTransitive(k, Entry(a, k), Entry(b, k), Entry(c, k));
    }
  }

  lemma ApplyNothing(specs: seq<CustomFieldSpec>, db: Db, defaults: Rec)
    ensures Apply(specs[..0], db, defaults).refused.None? && Apply(specs[..0], db, defaults).db == db
  {
  }

  // Re-running j of the specs behind left refuses nothing and leaves only
  // entries still to be rewritten.
  lemma {:induction false} Replay(specs: seq<CustomFieldSpec>, j: nat, db: Db, defaults: Rec, s: Db)
    requires j <= |specs| && Apply(specs, db, defaults).refused.None?
    requires AgreeBut(specs, 0, |specs|, s, Apply(specs, db, defaults).db)
    ensures Apply(specs[..j], s, defaults).refused.None?
    ensures AgreeBut(specs, j, |specs|, Apply(specs[..j], s, defaults).db, Apply(specs, db, defaults).db)
  {
    hide AgreeBut, Apply;
    if j == 0 {
      ApplyNothing(specs, s, defaults);
    } else {
      Replay(specs, j - 1, db, defaults, s);
      ReplayStep(specs, j - 1, db, defaults, Apply(specs[..j - 1], s, defaults).db);
      ApplyNext(specs, j - 1, s, defaults);
    }
  }

  // ----- interrupted applies ---------------------------------------------------------------------

  // s is a server that interrupted applies can leave when the furthest of them
  // took the first k specs.
  ghost predicate LeftBy(specs: seq<CustomFieldSpec>, k: nat, db: Db, defaults: Rec, s: Db) {
    && k <= |specs| && Apply(specs[..k], db, defaults).refused.None?
    && AgreeBut(specs[..k], 0, k, s, Apply(specs[..k], db, defaults).db)
  }

  // From such a server an apply does what an uninterrupted one does.
  lemma {:induction false} Resume(specs: seq<CustomFieldSpec>, k: nat, n: nat, db: Db, defaults: Rec, s: Db)
    requires LeftBy(specs, k, db, defaults, s) && k <= n <= |specs|
    ensures Apply(specs[..n], s, defaults).refused == Apply(specs[..n], db, defaults).refused
    ensures AlikeDb(Apply(specs[..n], s, defaults).db, Apply(specs[..n], db, defaults).db)
    decreases n
  {
    hide Decide, After, Noted, Apply, AlikeDb, AgreeBut;
    if n == k {
      Replay(specs[..k], k, db, defaults, s);
      assert specs[..k][..k] == specs[..k];
      NothingPending(specs[..k], Apply(specs[..k], s, defaults).db, Apply(specs[..k], db, defaults).db);
    } else {
      Resume(specs, k, n - 1, db, defaults, s);
      ApplyNext(specs, n - 1, db, defaults);
      ApplyNext(specs, n - 1, s, defaults);
      DecideAlike(specs[n - 1], Apply(specs[..n - 1], s, defaults).db, Apply(specs[..n - 1], db, defaults).db);
      AfterAlike(specs[n - 1], Apply(specs[..n - 1], s, defaults).db, Apply(specs[..n - 1], db, defaults).db, defaults);
    }
  }

  lemma NothingPending(specs: seq<CustomFieldSpec>, s: Db, left: Db)
    requires AgreeBut(specs, |specs|, |specs|, s, left)
    ensures AlikeDb(s, left)
  {
    hide SameValue, ShapeAlike;
    forall n, k ensures !Wanted(specs, |specs|, |specs|, n, k) {}
  }

  lemma AlikeAgrees(specs: seq<CustomFieldSpec>, s: Db, left: Db)
    requires AlikeDb(s, left)
    ensures AgreeBut(specs, 0, |specs|, s, left)
  {
    hide SameValue, Wanted;
    forall n, k | n in s && n in left ensures SameValue(k, Entry(s[n], k), Entry(left[n], k)) {
      assert Alike(s[n], left[n]);
    }
  }

  lemma SelfAlike(db: Db)
    ensures AlikeDb(db, db)
  {
    hide Alike;
    forall n | n in db ensures Alike(db[n], db[n]) { RecAlike(db[n]); }
  }

  lemma EarlierPending(specs: seq<CustomFieldSpec>, from: nat, s: Db, left: Db)
    requires from <= |specs| && AgreeBut(specs, from, |specs|, s, left)
    ensures AgreeBut(specs, 0, |specs|, s, left)
  {
    hide SameValue, ShapeAlike, Asks;
    forall n, k | !Wanted(specs, 0, |specs|, n, k) ensures !Wanted(specs, from, |specs|, n, k) {}
  }

  lemma {:induction false} CutsLeave(specs: seq<CustomFieldSpec>, db: Db, defaults: Rec,
                                     cuts: seq<nat>) returns (k: nat)
    ensures LeftBy(specs, k, db, defaults, AfterCuts(specs, db, defaults, cuts))
  {
    hide Decide, After, Noted, AgreeBut, AlikeDb;
    if cuts == [] {
      k := 0;
      SelfAlike(db);
      AlikeAgrees(specs[..0], db, db);
    } else {
      hide Apply;
      var k0 := CutsLeave(specs, db, defaults, cuts[..|cuts| - 1]);
      var s := AfterCuts(specs, db, defaults, cuts[..|cuts| - 1]);
      var n := if cuts[|cuts| - 1] <= |specs| then cuts[|cuts| - 1] else |specs|;
      if n <= k0 {
        k := k0;
        Replay(specs[..k0], n, db, defaults, s);
        assert specs[..k0][..n] == specs[..n];
        EarlierPending(specs[..k0], n, Apply(specs[..n], s, defaults).db, Apply(specs[..k0], db, defaults).db);
      } else {
        Resume(specs, k0, n, db, defaults, s);
        k := Reached(specs, n, db, defaults);
        AlikeAgrees(specs[..k], Apply(specs[..n], s, defaults).db, Apply(specs[..k], db, defaults).db);
      }
    }
  }

  // The specs a run of the first n took before it ended.
  lemma Reached(specs: seq<CustomFieldSpec>, n: nat, db: Db, defaults: Rec) returns (k: nat)
    requires n <= |specs|
    ensures k <= n && Apply(specs[..k], db, defaults).refused.None?
    ensures Apply(specs[..k], db, defaults).db == Apply(specs[..n], db, defaults).db
  {
    hide Apply;
    k := n;
    if Apply(specs[..n], db, defaults).refused.Some? {
      RefusedAfterPrefix(specs[..n], db, defaults);
      k := Apply(specs[..n], db, defaults).refused.value;
      assert specs[..n][..k] == specs[..k];
    }
  }

  // For every list of specs: any number of interrupted applies and then a
  // complete one are refused where one uninterrupted apply is, and end in a
  // server whose every entry compares equal to the one that apply leaves; when
  // same-named specs agree, in that very server.
  lemma InterruptedApplyConverges(specs: seq<CustomFieldSpec>, db: Db, defaults: Rec, cuts: seq<nat>)
    ensures var again := Apply(specs, AfterCuts(specs, db, defaults, cuts), defaults);
            var once := Apply(specs, db, defaults);
            && again.refused == once.refused && AlikeDb(again.db, once.db)
            && (Compatible(specs) ==> again.db == once.db)
  {
    hide Compatible, Apply, AlikeDb, AfterCuts;
    var k := CutsLeave(specs, db, defaults, cuts);
    Resume(specs, k, |specs|, db, defaults, AfterCuts(specs, db, defaults, cuts));
    assert specs[..|specs|] == specs;
    if Compatible(specs) { AgreeingApplyConverges(specs, db, defaults, cuts); }
  }

  // Each server is where some prefix of the specs led the one before it, as
  // every apply leaves it, also one that ends in a transport error.
  ghost predicate Applies(specs: seq<CustomFieldSpec>, defaults: Rec, dbs: seq<Db>) {
    forall i :: 0 <= i < |dbs| - 1 ==> LedTo(specs, dbs[i], defaults, dbs[i + 1])
  }

  lemma {:induction false} AppliesAreCuts(specs: seq<CustomFieldSpec>, defaults: Rec, dbs: seq<Db>)
    returns (cuts: seq<nat>)
    requires dbs != [] && Applies(specs, defaults, dbs)
    ensures dbs[|dbs| - 1] == AfterCuts(specs, dbs[0], defaults, cuts)
  {
    hide Apply, LedTo;
    if |dbs| == 1 {
      cuts := [];
    } else {
      var init := dbs[..|dbs| - 1];
      forall i | 0 <= i < |init| - 1 ensures LedTo(specs, init[i], defaults, init[i + 1]) {
        assert LedTo(specs, dbs[i], defaults, dbs[i + 1]);
      }
      var before := AppliesAreCuts(specs, defaults, init);
      assert LedTo(specs, dbs[|dbs| - 2], defaults, dbs[|dbs| - 2 + 1]);
      var n := LedBy(specs, init[|init| - 1], defaults, dbs[|dbs| - 1]);
      cuts := before + [n];
      assert cuts[..|cuts| - 1] == before;
    }
  }

  lemma LedBy(specs: seq<CustomFieldSpec>, db: Db, defaults: Rec, db': Db) returns (n: nat)
    requires LedTo(specs, db, defaults, db')
    ensures n <= |specs| && Apply(specs[..n], db, defaults).db == db'
  {
    n :| n <= |specs| && Apply(specs[..n], db, defaults).db == db';
  }

  // An apply after any number of earlier ones, whatever ended each, does what a
  // single apply to the first server does.
  lemma ApplyAfterErrors(specs: seq<CustomFieldSpec>, defaults: Rec, dbs: seq<Db>)
    requires dbs != [] && Applies(specs, defaults, dbs)
    ensures var again := Apply(specs, dbs[|dbs| - 1], defaults);
            var once := Apply(specs, dbs[0], defaults);
            && again.refused == once.refused && AlikeDb(again.db, once.db)
            && (Compatible(specs) ==> again.db == once.db)
  {
    hide Compatible, Apply, AlikeDb, AfterCuts, Applies;
    var cuts := AppliesAreCuts(specs, defaults, dbs);
    InterruptedApplyConverges(specs, dbs[0], defaults, cuts);
  }
}

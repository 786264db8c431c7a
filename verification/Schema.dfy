// The custom-field reconciler: create what is missing, patch recoverable drift,
// refuse the rest, against a server that may show values in another form than
// it was given them.
module Schema {
  import opened Basics
  import opened Sorting
  import opened Client

  // ----- values ------------------------------------------------------------------

  datatype Value = Null | Bool(b: bool) | Int(n: int) | Str(s: string) | Strings(items: seq<string>)

  // A value as Netbox returns it: bare, or inside a record with a "value" entry.
  datatype Shown = Bare(value: Value) | Wrapped(value: Value)

  type Rec = map<string, Value>
  type Seen = map<string, Shown>

  function Num(v: Value): Option<int> {
    match v
    case Bool(b) => Some(if b then 1 else 0)
    case Int(n) => Some(n)
    case _ => None
  }

  // Python's ==: booleans are the numbers 0 and 1
  predicate PyEq(a: Value, b: Value) { a == b || (Num(a).Some? && Num(a) == Num(b)) }

  // x or []
  function Items(v: Value): seq<string> { if v.Strings? then v.items else [] }

  // s.split("/")[-2] if "/" in s else s
  function Norm(s: string): string {
    SplitMany(s, '/');
    var parts := Split(s, '/');
    if '/' in s then parts[|parts| - 2] else s
  }

  predicate SameTypes(a: seq<string>, b: seq<string>) { Sort(StrLe, Map(Norm, a)) == Sort(StrLe, Map(Norm, b)) }

  predicate SameValue(key: string, want: Value, got: Value) {
    if key == "object_types" then SameTypes(Items(want), Items(got)) else PyEq(want, got)
  }

  predicate ValuesEqual(key: string, want: Value, got: Shown) { SameValue(key, want, got.value) }

  lemma SameTypesIsPermutation(a: seq<string>, b: seq<string>)
    ensures SameTypes(a, b) <==> multiset(Map(Norm, a)) == multiset(Map(Norm, b))
  {
    SortedStringsEqual(Map(Norm, a), Map(Norm, b));
  }

  // ----- specs -------------------------------------------------------------------

  datatype FieldType = Text | LongText | Integer | Boolean | Select | MultiSelect

  function FieldTypeValue(t: FieldType): string {
    match t
    case Text => "text"
    case LongText => "longtext"
    case Integer => "integer"
    case Boolean => "boolean"
    case Select => "select"
    case MultiSelect => "multiselect"
  }

  // default is Null when the spec gives none
  datatype CustomFieldSpec = CustomFieldSpec(
    name: string, caption: string, kind: FieldType, objectTypes: seq<string>, description: string,
    required: bool, default: Value, choices: Option<seq<string>>, minimum: Option<int>, maximum: Option<int>)

  // DEFAULT_FIELDS, with the description texts given by name.
  function DefaultFields(describe: string -> string): seq<CustomFieldSpec> {
    var onDevice, onInterface := ["dcim.device"], ["dcim.interface"];
    [CustomFieldSpec("bf3_mode", "BlueField-3 mode", Text, onDevice, describe("bf3_mode"), false, Str("nic"),
                     None, None, None),
     CustomFieldSpec("roce_tc", "RoCE traffic class", Integer, onInterface, describe("roce_tc"), false, Null,
                     None, Some(0), Some(7)),
     CustomFieldSpec("numa_node", "NUMA node", Integer, onInterface, describe("numa_node"), false, Null,
                     None, Some(0), Some(7)),
     CustomFieldSpec("sriov_vfs", "SR-IOV VF count", Integer, onInterface, describe("sriov_vfs"), false, Null,
                     None, Some(0), Some(128)),
     CustomFieldSpec("gpu_affinity", "GPU affinity", Text, onInterface, describe("gpu_affinity"), false, Null,
                     None, None, None),
     CustomFieldSpec("observed_mac", "Observed MAC", Text, onInterface, describe("observed_mac"), false, Null,
                     None, None, None),
     CustomFieldSpec("observed_firmware", "Observed firmware", LongText, onDevice, describe("observed_firmware"), false,
                     Null, None, None, None)]
  }

  function With(rec: Rec, key: string, v: Option<Value>): Rec { if v.Some? then rec[key := v.value] else rec }

  function IntValue(n: Option<int>): Option<Value> { if n.Some? then Some(Int(n.value)) else None }

  function Required(spec: CustomFieldSpec): Rec {
    map["name" := Str(spec.name), "label" := Str(spec.caption), "type" := Str(FieldTypeValue(spec.kind)),
        "object_types" := Strings(spec.objectTypes), "required" := Bool(spec.required)]
  }

  function Payload(spec: CustomFieldSpec): Rec {
    var p := With(Required(spec), "description", if spec.description != "" then Some(Str(spec.description)) else None);
    var p := With(p, "default", if spec.default.Null? then None else Some(spec.default));
    var p := With(p, "choices", if spec.choices.Some? then Some(Strings(spec.choices.value)) else None);
    var p := With(p, "validation_minimum", IntValue(spec.minimum));
    With(p, "validation_maximum", IntValue(spec.maximum))
  }

  method ToPayload(spec: CustomFieldSpec) returns (payload: Rec)
    ensures payload == Payload(spec)
  {
    payload := Required(spec);
    hide Required;
    if spec.description != "" { payload := payload["description" := Str(spec.description)]; }
    if !spec.default.Null? { payload := payload["default" := spec.default]; }
    if spec.choices.Some? { payload := payload["choices" := Strings(spec.choices.value)]; }
    if spec.minimum.Some? { payload := payload["validation_minimum" := Int(spec.minimum.value)]; }
    if spec.maximum.Some? { payload := payload["validation_maximum" := Int(spec.maximum.value)]; }
  }

  function Got(seen: Seen, key: string): Shown { if key in seen then seen[key] else Bare(Null) }

  function Drift(spec: CustomFieldSpec, seen: Seen): set<string> {
    set k | k in Payload(spec) && !ValuesEqual(k, Payload(spec)[k], Got(seen, k))
  }

  // _diff
  method Diff(spec: CustomFieldSpec, seen: Seen) returns (drift: set<string>)
    ensures drift == Drift(spec, seen)
  {
    var expected := ToPayload(spec);
    hide Payload, ValuesEqual;
    var todo := expected.Keys;
    drift := {};
    while todo != {}
      invariant todo <= expected.Keys
      invariant drift == set k | k in expected.Keys - todo && !ValuesEqual(k, expected[k], Got(seen, k))
      decreases |todo|
    {
      var key :| key in todo;
      if !ValuesEqual(key, expected[key], Got(seen, key)) { drift := drift + {key}; }
      todo := todo - {key};
    }
  }

  const RECOVERABLE: set<string> :=
    {"label", "description", "required", "default", "choices", "validation_minimum", "validation_maximum"}

  predicate IsRecoverable(drift: set<string>) { drift <= RECOVERABLE }

  // ----- what the server may show ----------------------------------------------------

  function Url(prefix: string, id: string): string { prefix + "/" + id + "/" }

  function LastPart(id: string): string { Split(id, '/')[|Split(id, '/')| - 1] }

  // A server shows each id as it is, or as a URL that ends in the id.
  datatype Form = Plain | Under(prefix: string)

  function ShowId(form: Form, id: string): string { if form.Plain? then id else Url(form.prefix, id) }

  function ShowIds(forms: seq<Form>, ids: seq<string>): (shown: seq<string>)
    requires |forms| == |ids|
    ensures |shown| == |ids| && forall i :: 0 <= i < |ids| ==> shown[i] == ShowId(forms[i], ids[i])
  {
    seq(|ids|, i requires 0 <= i < |ids| => ShowId(forms[i], ids[i]))
  }

  // What the reconciler compares the shown ids as: of a URL the last path segment.
  function ComparedAs(forms: seq<Form>, ids: seq<string>): (r: seq<string>)
    requires |forms| == |ids|
    ensures |r| == |ids|
    ensures forall i :: 0 <= i < |ids| ==> r[i] == if forms[i].Plain? then Norm(ids[i]) else LastPart(ids[i])
  {
    seq(|ids|, i requires 0 <= i < |ids| => if forms[i].Plain? then Norm(ids[i]) else LastPart(ids[i]))
  }

  // Showing the ids in these forms leaves what they are compared as alone, as
  // a whole; for one id under a URL: it has no "/", or its last two segments
  // are equal.
  ghost predicate FormsSafe(forms: seq<Form>, ids: seq<string>)
    requires |forms| == |ids|
  {
    multiset(ComparedAs(forms, ids)) == multiset(Map(Norm, ids))
  }

  predicate UrlSafe(id: string) { '/' !in id || Norm(id) == LastPart(id) }

  // The stored ids in some order, each in some form.
  ghost predicate Reorders(shown: seq<string>, forms: seq<Form>, p: seq<string>, stored: seq<string>) {
    multiset(p) == multiset(stored) && |forms| == |p| && FormsSafe(forms, p) && shown == ShowIds(forms, p)
  }

  ghost predicate ShowsValue(key: string, shown: Value, stored: Value) {
    if key == "object_types" && stored.Strings?
    then shown.Strings? && exists forms, p :: Reorders(shown.items, forms, p, stored.items)
    else shown == stored
  }

  // Any entry may be wrapped; object types may be reordered and given as URLs.
  ghost predicate Represents(seen: Seen, stored: Rec) {
    && seen.Keys == stored.Keys
    && forall k :: k in stored ==> ShowsValue(k, seen[k].value, stored[k])
  }

  function AsStored(stored: Rec): Seen { map k | k in stored :: Bare(stored[k]) }

  // A URL is compared as the last segment of its id.
  lemma UrlNorm(prefix: string, id: string)
    ensures Norm(Url(prefix, id)) == LastPart(id)
  {
    var u := Url(prefix, id);
    assert u == prefix + ['/'] + (id + ['/'] + "");
    SplitConcat(prefix, '/', id + ['/'] + "");
    SplitConcat(id, '/', "");
    assert Split("", '/') == [""];
    assert u[|prefix|] == '/';
  }

  lemma ShownCompared(forms: seq<Form>, ids: seq<string>)
    requires |forms| == |ids|
    ensures Map(Norm, ShowIds(forms, ids)) == ComparedAs(forms, ids)
  {
    hide Norm, Url, LastPart;
    forall i | 0 <= i < |ids| ensures Map(Norm, ShowIds(forms, ids))[i] == ComparedAs(forms, ids)[i] {
      if forms[i].Under? { UrlNorm(forms[i].prefix, ids[i]); }
    }
  }

  // Showing ids in some forms leaves the comparison alone exactly when the forms
  // are safe for the list; any other reads as drift that no patch removes.
  lemma UrlsCompareEqualExactly(forms: seq<Form>, ids: seq<string>)
    requires |forms| == |ids|
    ensures ValuesEqual("object_types", Strings(ids), Bare(Strings(ShowIds(forms, ids)))) <==> FormsSafe(forms, ids)
  {
    hide Norm, LastPart, ShowIds, ComparedAs, SameTypes;
    ShownCompared(forms, ids);
    SameTypesIsPermutation(ids, ShowIds(forms, ids));
  }

  // One id alone.
  lemma OneUrlComparesEqualExactly(prefix: string, id: string)
    ensures ValuesEqual("object_types", Strings([id]), Bare(Strings([Url(prefix, id)]))) <==> UrlSafe(id)
  {
    hide Norm, Url, LastPart, Split, SameTypes;
    UrlsCompareEqualExactly([Under(prefix)], [id]);
    assert ShowIds([Under(prefix)], [id]) == [Url(prefix, id)];
    assert Map(Norm, [id]) == [Norm(id)] && ComparedAs([Under(prefix)], [id]) == [LastPart(id)];
    if multiset{Norm(id)} == multiset{LastPart(id)} { assert Norm(id) in multiset{LastPart(id)}; }
    PlainId(id);
  }

  lemma PlainId(id: string)
    ensures '/' !in id ==> LastPart(id) == id && Norm(id) == id
  {
    if '/' !in id { SplitPlain(id, '/'); }
  }

  // "a/b" shown as a URL: permanent drift.
  lemma SlashedIdDrifts()
    ensures !UrlSafe("a/b")
    ensures !ValuesEqual("object_types", Strings(["a/b"]), Bare(Strings([Url("http:", "a/b")])))
  {
    OneUrlComparesEqualExactly("http:", "a/b");
    TwoParts("a", "b");
    assert "a/b" == "a" + ['/'] + "b";
  }

  lemma SwappedParts()
    ensures '/' in "a/b" && Norm("a/b") == "a" && LastPart("a/b") == "b"
    ensures '/' in "b/a" && Norm("b/a") == "b" && LastPart("b/a") == "a"
  {
    TwoParts("a", "b");
    TwoParts("b", "a");
    hide Norm, LastPart;
    assert "a/b" == "a" + ['/'] + "b" && "b/a" == "b" + ['/'] + "a";
  }

  // Ids that are unsafe each can be safe together: "a/b" and "b/a", all as URLs.
  lemma SwappedIdsCompareEqual()
    ensures !UrlSafe("a/b") && !UrlSafe("b/a")
    ensures FormsSafe([Under("http:"), Under("http:")], ["a/b", "b/a"])
  {
    hide Norm, LastPart;
    SwappedParts();
    assert "a"[0] != "b"[0];
    var forms, ids := [Under("http:"), Under("http:")], ["a/b", "b/a"];
    assert Map(Norm, ids) == ["a", "b"] && ComparedAs(forms, ids) == ["b", "a"];
    assert multiset(["a", "b"]) == multiset(["b", "a"]);
  }

  lemma TwoParts(a: string, b: string)
    requires '/' !in a && '/' !in b
    ensures '/' in a + ['/'] + b && Norm(a + ['/'] + b) == a && LastPart(a + ['/'] + b) == b
  {
    SplitConcat(a, '/', b);
    SplitPlain(a, '/');
    SplitPlain(b, '/');
    assert (a + ['/'] + b)[|a|] == '/';
  }

  lemma ShownIdsCompareEqual(shown: seq<string>, forms: seq<Form>, p: seq<string>, stored: seq<string>)
    requires Reorders(shown, forms, p, stored)
    ensures multiset(Map(Norm, shown)) == multiset(Map(Norm, stored))
  {
    hide Norm, LastPart, ShowIds, ComparedAs;
    ShownCompared(forms, p);
    MapMultiset(Norm, p, stored);
  }

  lemma ShownComparesEqual(key: string, want: Value, shown: Value, stored: Value)
    requires ShowsValue(key, shown, stored)
    ensures SameValue(key, want, shown) == SameValue(key, want, stored)
  {
    hide Reorders, SameTypes;
    if key == "object_types" && stored.Strings? {
      var forms, p :| Reorders(shown.items, forms, p, stored.items);
      ShownIdsCompareEqual(shown.items, forms, p, stored.items);
      SameTypesIsPermutation(Items(want), shown.items);
      SameTypesIsPermutation(Items(want), stored.items);
    }
  }

  // The drift found does not depend on how the server shows the record.
  lemma DriftIgnoresRepresentation(spec: CustomFieldSpec, seen: Seen, stored: Rec)
    requires Represents(seen, stored)
    ensures Drift(spec, seen) == Drift(spec, AsStored(stored))
  {
    hide Payload, SameValue, ShowsValue;
    forall k | k in Payload(spec)
      ensures ValuesEqual(k, Payload(spec)[k], Got(seen, k)) ==
              ValuesEqual(k, Payload(spec)[k], Got(AsStored(stored), k))
    {
      if k in stored { ShownComparesEqual(k, Payload(spec)[k], seen[k].value, stored[k]); }
    }
  }

  // ----- one spec, and a list of them -----------------------------------------------------

  type Db = map<string, Rec>

  datatype Decision = Create | Keep | Patch | Refuse

  function Decide(spec: CustomFieldSpec, db: Db): Decision {
    if spec.name !in db then Create
    else
      var drift := Drift(spec, AsStored(db[spec.name]));
      if drift == {} then Keep else if IsRecoverable(drift) then Patch else Refuse
  }

  // defaults: what the server fills in for a new field beyond the payload
  function After(spec: CustomFieldSpec, db: Db, defaults: Rec): Db {
    match Decide(spec, db)
    case Create => db[spec.name := defaults + Payload(spec)]
    case Patch => db[spec.name := db[spec.name] + Payload(spec)]
    case _ => db
  }

  datatype Report = Report(created: seq<string>, updated: seq<string>, untouched: seq<string>)

  function Noted(report: Report, d: Decision, name: string): Report {
    match d
    case Create => report.(created := report.created + [name])
    case Patch => report.(updated := report.updated + [name])
    case Keep => report.(untouched := report.untouched + [name])
    case Refuse => report
  }

  // refused is the index of the spec the run stopped at with a SchemaError
  datatype Applied = Applied(db: Db, report: Report, refused: Option<nat>)

  function Apply(specs: seq<CustomFieldSpec>, db: Db, defaults: Rec): (r: Applied)
    ensures r.refused.Some? ==> r.refused.value < |specs|
  {
    if specs == [] then Applied(db, Report([], [], []), None)
    else
      var r := Apply(specs[..|specs| - 1], db, defaults);
      var spec := specs[|specs| - 1];
      if r.refused.Some? then r
      else if Decide(spec, r.db).Refuse? then Applied(r.db, r.report, Some(|specs| - 1))
      else Applied(After(spec, r.db, defaults), Noted(r.report, Decide(spec, r.db), spec.name), None)
  }

  lemma ApplyNext(specs: seq<CustomFieldSpec>, k: nat, db: Db, defaults: Rec)
    requires k < |specs|
    ensures var r := Apply(specs[..k], db, defaults);
            Apply(specs[..k + 1], db, defaults) ==
            if r.refused.Some? then r
            else if Decide(specs[k], r.db).Refuse? then Applied(r.db, r.report, Some(k))
            else Applied(After(specs[k], r.db, defaults), Noted(r.report, Decide(specs[k], r.db), specs[k].name), None)
  {
    assert specs[..k + 1][..k] == specs[..k];
  }

  lemma {:induction false} ApplyStops(specs: seq<CustomFieldSpec>, k: nat, db: Db, defaults: Rec)
    requires k <= |specs| && Apply(specs[..k], db, defaults).refused.Some?
    ensures Apply(specs, db, defaults) == Apply(specs[..k], db, defaults)
    decreases |specs|
  {
    if k == |specs| {
      assert specs[..k] == specs;
    } else {
      assert specs[..|specs| - 1][..k] == specs[..k];
      ApplyStops(specs[..|specs| - 1], k, db, defaults);
    }
  }

  // ----- the reconciler --------------------------------------------------------------------

  class SchemaApplyReport {
    var created: seq<string>
    var updated: seq<string>
    var untouched: seq<string>

    constructor ()
      ensures Value() == Report([], [], [])
    {
      created, updated, untouched := [], [], [];
    }

    function Value(): Report
      reads this
    {
      Report(created, updated, untouched)
    }

    predicate IsNoOp()
      reads this
    {
      created == [] && updated == []
    }
  }

  datatype Fetched = Raised | Absent | Record(seen: Seen)

  // The custom-fields endpoint. show is how the server renders a stored record,
  // and may change from call to call.
  class CustomFieldApi {
    var db: Db
    var fault: Fault
    var calls: nat
    const defaults: Rec
    const show: (nat, Rec) -> Seen

    constructor (db: Db, fault: Fault, defaults: Rec, show: (nat, Rec) -> Seen)
      ensures this.db == db && this.fault == fault && this.defaults == defaults && this.show == show
    {
      this.db, this.fault, this.calls, this.defaults, this.show := db, fault, 0, defaults, show;
    }

    ghost predicate Honest() {
      forall n, stored :: Represents(show(n, stored), stored)
    }

    method Raises() returns (raised: bool, applied: bool)
      modifies this`fault
      ensures old(fault).NoFault? ==> !raised && fault.NoFault?
    {
      match fault {
        case NoFault => return false, true;
        case FailsAfter(n, a) =>
          if n == 0 { return true, a; }
          fault := FailsAfter(n - 1, a);
          return false, true;
      }
    }

    method Get(name: string) returns (r: Fetched)
      requires Honest()
      modifies this
      ensures db == old(db)
      ensures old(fault).NoFault? ==> !r.Raised? && fault.NoFault?
      ensures r.Absent? ==> name !in db
      ensures r.Record? ==> name in db && Represents(r.seen, db[name])
    {
      var raised, _ := Raises();
      if raised { return Raised; }
      if name !in db { return Absent; }
      calls := calls + 1;
      return Record(show(calls, db[name]));
    }

    // create or update: the field's record becomes rec
    method Put(name: string, rec: Rec) returns (ok: bool)
      modifies this
      ensures ok ==> db == old(db)[name := rec]
      ensures !ok ==> db == old(db) || db == old(db)[name := rec]
      ensures old(fault).NoFault? ==> ok && fault.NoFault?
    {
      var raised, applied := Raises();
      if !raised || applied { db := db[name := rec]; }
      return !raised;
    }
  }

  datatype SchemaResult =
    | Completed(report: SchemaApplyReport)
    | QueryError
    | SchemaError(name: string, drift: set<string>)

  // db' is where some prefix of the specs leads.
  ghost predicate LedTo(specs: seq<CustomFieldSpec>, db: Db, defaults: Rec, db': Db) {
    exists n :: 0 <= n <= |specs| && Apply(specs[..n], db, defaults).db == db'
  }

  // _patch
  method PatchField(api: CustomFieldApi, spec: CustomFieldSpec) returns (ok: bool)
    requires api.Honest() && spec.name in api.db
    modifies api
    ensures ok ==> api.db == old(api.db)[spec.name := old(api.db)[spec.name] + Payload(spec)]
    ensures !ok ==> api.db == old(api.db) || api.db == old(api.db)[spec.name := old(api.db)[spec.name] + Payload(spec)]
    ensures old(api.fault).NoFault? ==> ok && api.fault.NoFault?
  {
    var record := api.Get(spec.name);
    if record.Raised? { return false; }
    var payload := ToPayload(spec);
    ok := api.Put(spec.name, api.db[spec.name] + payload);
  }

  // apply_schema: whatever form the server shows its records in, the outcome is
  // Apply's; a transport error leaves the result of a prefix of the specs.
  method ApplySchema(api: CustomFieldApi, specs: seq<CustomFieldSpec>) returns (r: SchemaResult)
    requires api.Honest()
    modifies api
    ensures old(api.fault).NoFault? ==> !r.QueryError?
    ensures LedTo(specs, old(api.db), api.defaults, api.db)
    ensures var want := Apply(specs, old(api.db), api.defaults);
            match r
            case Completed(report) =>
              fresh(report) && want.refused.None? && api.db == want.db && report.Value() == want.report
            case SchemaError(name, drift) =>
              && want.refused.Some? && api.db == want.db && name == specs[want.refused.value].name && name in api.db
              && drift == Drift(specs[want.refused.value], AsStored(api.db[name])) && !IsRecoverable(drift)
            case QueryError => true
  {
    hide Payload, Drift, AsStored, Represents;
    var report := new SchemaApplyReport();
    ghost var db0 := api.db;
    var k := 0;
    while k < |specs|
      invariant 0 <= k <= |specs|
      invariant fresh(report)
      invariant old(api.fault).NoFault? ==> api.fault.NoFault?
      invariant Apply(specs[..k], db0, api.defaults) == Applied(api.db, report.Value(), None)
    {
      var spec := specs[k];
      ApplyNext(specs, k, db0, api.defaults);
      assert Apply(specs[..k], db0, api.defaults).db == api.db;
      var existing := api.Get(spec.name);
      if existing.Raised? { return QueryError; }
      if existing.Absent? {
        var payload := ToPayload(spec);
        var ok := api.Put(spec.name, api.defaults + payload);
        assert api.db == Apply(specs[..k], db0, api.defaults).db
               || api.db == Apply(specs[..k + 1], db0, api.defaults).db;
        if !ok { return QueryError; }
        report.created := report.created + [spec.name];
      } else {
        DriftIgnoresRepresentation(spec, existing.seen, api.db[spec.name]);
        var drift := Diff(spec, existing.seen);
        if drift == {} {
          report.untouched := report.untouched + [spec.name];
        } else if !IsRecoverable(drift) {
          ApplyStops(specs, k + 1, db0, api.defaults);
          return SchemaError(spec.name, drift);
        } else {
          var ok := PatchField(api, spec);
          assert api.db == Apply(specs[..k], db0, api.defaults).db
                 || api.db == Apply(specs[..k + 1], db0, api.defaults).db;
          if !ok { return QueryError; }
          report.updated := report.updated + [spec.name];
        }
      }
      k := k + 1;
    }
    assert specs[..|specs|] == specs;
    return Completed(report);
  }
}

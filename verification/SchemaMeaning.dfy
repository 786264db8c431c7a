// What the server holds for a field after an apply, entry by entry, in terms of
// the spec's own fields.
module SchemaMeaning {
  import opened Basics
  import opened Schema
  import opened SchemaLaws

  // ----- one entry ---------------------------------------------------------------------

  ghost predicate TypeText(t: FieldType, s: string) {
    match t
    case Text => s == "text"
    case LongText => s == "longtext"
    case Integer => s == "integer"
    case Boolean => s == "boolean"
    case Select => s == "select"
    case MultiSelect => s == "multiselect"
  }

  // The spec has something to say about the entry.
  ghost predicate Given(spec: CustomFieldSpec, key: string) {
    || key == "name" || key == "label" || key == "type" || key == "object_types" || key == "required"
    || (key == "description" && spec.description != "") || (key == "default" && spec.default != Null)
    || (key == "choices" && spec.choices.Some?)
    || (key == "validation_minimum" && spec.minimum.Some?) || (key == "validation_maximum" && spec.maximum.Some?)
  }

  // What it says.
  ghost predicate Says(spec: CustomFieldSpec, key: string, v: Value) {
    && (key == "name" ==> v == Str(spec.name))
    && (key == "label" ==> v == Str(spec.caption))
    && (key == "type" ==> v.Str? && TypeText(spec.kind, v.s))
    && (key == "object_types" ==> v == Strings(spec.objectTypes))
    && (key == "required" ==> v == Bool(spec.required))
    && (key == "description" ==> v == Str(spec.description))
    && (key == "default" ==> v == spec.default)
    && (key == "choices" ==> spec.choices.Some? && v == Strings(spec.choices.value))
    && (key == "validation_minimum" ==> spec.minimum.Some? && v == Int(spec.minimum.value))
    && (key == "validation_maximum" ==> spec.maximum.Some? && v == Int(spec.maximum.value))
  }

  lemma KeysDiffer()
    ensures Distinct(["name", "label", "type", "object_types", "required", "description", "default", "choices",
                      "validation_minimum", "validation_maximum"])
  {
    assert "name"[0] == 'n' && "label"[0] == 'l' && "type"[0] == 't' && "object_types"[0] == 'o';
    assert "required"[0] == 'r' && "choices"[0] == 'c' && "description"[2] == 's' && "default"[2] == 'f';
    assert "description"[0] == 'd' && "default"[0] == 'd' && "validation_minimum"[0] == 'v';
    assert "validation_maximum"[0] == 'v' && "validation_minimum"[12] == 'i' && "validation_maximum"[12] == 'a';
  }

  lemma WithKey(rec: Rec, key: string, v: Option<Value>, k: string)
    ensures k in With(rec, key, v) <==> k in rec || (v.Some? && k == key)
    ensures k in With(rec, key, v) ==> With(rec, key, v)[k] == if v.Some? && k == key then v.value else rec[k]
  {
  }

  lemma RequiredSays(spec: CustomFieldSpec, key: string)
    ensures key in Required(spec) <==> key in ["name", "label", "type", "object_types", "required"]
    ensures key in Required(spec) ==> Says(spec, key, Required(spec)[key])
  {
    KeysDiffer();
  }

  // The payload has exactly the entries that are given, with what is said of them.
  lemma PayloadSays(spec: CustomFieldSpec, key: string)
    ensures key in Payload(spec) <==> Given(spec, key)
    ensures key in Payload(spec) ==> Says(spec, key, Payload(spec)[key])
  {
    KeysDiffer();
    RequiredSays(spec, key);
    hide With, Required, Distinct, FieldTypeValue;
    var description := if spec.description != "" then Some(Str(spec.description)) else None;
    var default := if spec.default.Null? then None else Some(spec.default);
    var choices := if spec.choices.Some? then Some(Strings(spec.choices.value)) else None;
    var p0 := Required(spec);
    var p1 := With(p0, "description", description);
    var p2 := With(p1, "default", default);
    var p3 := With(p2, "choices", choices);
    var p4 := With(p3, "validation_minimum", IntValue(spec.minimum));
    WithKey(p0, "description", description, key);
    WithKey(p1, "default", default, key);
    WithKey(p2, "choices", choices, key);
    WithKey(p3, "validation_minimum", IntValue(spec.minimum), key);
    WithKey(p4, "validation_maximum", IntValue(spec.maximum), key);
    assert Payload(spec) == With(p4, "validation_maximum", IntValue(spec.maximum));
    hide Payload;
  }

  // ----- after an apply ------------------------------------------------------------------

  // In Python's eyes v is this number, or this truth value.
  ghost predicate IsNumber(v: Value, n: int) {
    v == Int(n) || (v == Bool(true) && n == 1) || (v == Bool(false) && n == 0)
  }

  ghost predicate IsTruth(v: Value, b: bool) { IsNumber(v, if b then 1 else 0) }

  ghost predicate PyEqual(v: Value, w: Value) { v == w || exists n :: IsNumber(v, n) && IsNumber(w, n) }

  lemma PyEqMeaning(v: Value, w: Value)
    ensures PyEq(v, w) <==> PyEqual(v, w)
  {
    if v.Int? { assert IsNumber(v, v.n); }
    if v == Bool(true) { assert IsNumber(v, 1); }
    if v == Bool(false) { assert IsNumber(v, 0); }
  }

  // Values compare equal by key: object types as multisets of normalised ids,
  // null as none; anything else as Python does.
  lemma ComparedAs(key: string, v: Value, w: Value)
    ensures key != "object_types" ==> (SameValue(key, v, w) <==> PyEqual(v, w))
    ensures key == "object_types" ==>
              (SameValue(key, v, w) <==>
               multiset(Map(Norm, if v.Strings? then v.items else [])) ==
               multiset(Map(Norm, if w.Strings? then w.items else [])))
  {
    hide Norm, SameTypes, PyEq, PyEqual;
    SameTypesIsPermutation(Items(v), Items(w));
    PyEqMeaning(v, w);
  }

  // The field's record says what the spec does.
  ghost predicate Records(spec: CustomFieldSpec, rec: Rec) {
    && Entry(rec, "name") == Str(spec.name)
    && Entry(rec, "label") == Str(spec.caption)
    && Entry(rec, "type").Str? && TypeText(spec.kind, Entry(rec, "type").s)
    && multiset(Map(Norm, Items(Entry(rec, "object_types")))) == multiset(Map(Norm, spec.objectTypes))
    && IsTruth(Entry(rec, "required"), spec.required)
    && (spec.description != "" ==> Entry(rec, "description") == Str(spec.description))
    && (spec.default != Null ==> PyEqual(Entry(rec, "default"), spec.default))
    && (spec.choices.Some? ==> Entry(rec, "choices") == Strings(spec.choices.value))
    && (spec.minimum.Some? ==> IsNumber(Entry(rec, "validation_minimum"), spec.minimum.value))
    && (spec.maximum.Some? ==> IsNumber(Entry(rec, "validation_maximum"), spec.maximum.value))
  }

  lemma EntrySays(spec: CustomFieldSpec, rec: Rec, key: string)
    requires Matches(Payload(spec), rec) && Given(spec, key)
    ensures exists v :: Says(spec, key, v) && SameValue(key, v, Entry(rec, key))
  {
    hide Payload, SameValue, Says, Given;
    PayloadSays(spec, key);
    assert SameValue(key, Payload(spec)[key], Entry(rec, key));
  }

  lemma PlainEntry(spec: CustomFieldSpec, rec: Rec, key: string)
    requires Matches(Payload(spec), rec) && Given(spec, key) && key != "object_types"
    ensures exists v :: Says(spec, key, v) && PyEqual(v, Entry(rec, key))
  {
    hide Matches, SameValue, Says, Given, PyEqual;
    EntrySays(spec, rec, key);
    var v :| Says(spec, key, v) && SameValue(key, v, Entry(rec, key));
    ComparedAs(key, v, Entry(rec, key));
  }

  lemma TextsRecorded(spec: CustomFieldSpec, rec: Rec)
    requires Matches(Payload(spec), rec)
    ensures Entry(rec, "name") == Str(spec.name) && Entry(rec, "label") == Str(spec.caption)
    ensures Entry(rec, "type").Str? && TypeText(spec.kind, Entry(rec, "type").s)
    ensures spec.description != "" ==> Entry(rec, "description") == Str(spec.description)
    ensures spec.choices.Some? ==> Entry(rec, "choices") == Strings(spec.choices.value)
  {
    hide Matches, Entry;
    PlainEntry(spec, rec, "name");
    PlainEntry(spec, rec, "label");
    PlainEntry(spec, rec, "type");
    if spec.description != "" { PlainEntry(spec, rec, "description"); }
    if spec.choices.Some? { PlainEntry(spec, rec, "choices"); }
  }

  lemma NumbersRecorded(spec: CustomFieldSpec, rec: Rec)
    requires Matches(Payload(spec), rec)
    ensures IsTruth(Entry(rec, "required"), spec.required)
    ensures spec.default != Null ==> PyEqual(Entry(rec, "default"), spec.default)
    ensures spec.minimum.Some? ==> IsNumber(Entry(rec, "validation_minimum"), spec.minimum.value)
    ensures spec.maximum.Some? ==> IsNumber(Entry(rec, "validation_maximum"), spec.maximum.value)
  {
    hide Matches, Entry;
    PlainEntry(spec, rec, "required");
    if spec.default != Null { PlainEntry(spec, rec, "default"); }
    if spec.minimum.Some? { PlainEntry(spec, rec, "validation_minimum"); }
    if spec.maximum.Some? { PlainEntry(spec, rec, "validation_maximum"); }
  }

  lemma MatchedIsRecorded(spec: CustomFieldSpec, rec: Rec)
    requires Matches(Payload(spec), rec)
    ensures Records(spec, rec)
  {
    hide Matches, SameValue, Norm, IsTruth, IsNumber, PyEqual, TypeText, Entry;
    TextsRecorded(spec, rec);
    NumbersRecorded(spec, rec);
    EntrySays(spec, rec, "object_types");
    var v :| Says(spec, "object_types", v) && SameValue("object_types", v, Entry(rec, "object_types"));
    ComparedAs("object_types", v, Entry(rec, "object_types"));
  }

  // After a successful apply of specs that agree, the server holds for every
  // spec what the spec says.
  lemma ServerHolds(specs: seq<CustomFieldSpec>, i: nat, db: Db, defaults: Rec)
    requires i < |specs| && Compatible(specs) && Apply(specs, db, defaults).refused.None?
    ensures var fin := Apply(specs, db, defaults).db;
            specs[i].name in fin && Records(specs[i], fin[specs[i].name])
  {
    hide Compatible, Apply, Drift, Matches, Records;
    ApplySettles(specs, db, defaults);
    SettledMatches(specs[i], Apply(specs, db, defaults).db);
    MatchedIsRecorded(specs[i], Apply(specs, db, defaults).db[specs[i].name]);
  }

  // ----- what a step writes ------------------------------------------------------------------

  // A created or patched field holds every given entry just as the spec says it;
  // an entry that is not given is as it was, or as the server fills it in.
  lemma StepWrites(spec: CustomFieldSpec, db: Db, defaults: Rec, key: string)
    requires Decide(spec, db).Create? || Decide(spec, db).Patch?
    ensures var later := After(spec, db, defaults);
            spec.name in later
            && if Given(spec, key) then key in later[spec.name] && Says(spec, key, later[spec.name][key])
               else Entry(later[spec.name], key) ==
                    if spec.name in db then Entry(db[spec.name], key) else Entry(defaults, key)
  {
    hide Payload, Drift, Says, Given;
    PayloadSays(spec, key);
  }

  ghost predicate NoneGives(specs: seq<CustomFieldSpec>, name: string, key: string) {
    forall i :: 0 <= i < |specs| ==> !(specs[i].name == name && Given(specs[i], key))
  }

  // On every run, also one that is refused: an entry that no spec gives stays as
  // it was, or in a new field as the server fills it in.
  lemma {:induction false} NotGivenStays(specs: seq<CustomFieldSpec>, db: Db, defaults: Rec, name: string, key: string)
    requires NoneGives(specs, name, key) && name in Apply(specs, db, defaults).db
    ensures Entry(Apply(specs, db, defaults).db[name], key) ==
            if name in db then Entry(db[name], key) else Entry(defaults, key)
  {
    hide Given, Decide, Noted, Payload, Drift;
    if specs != [] {
      var init, last := specs[..|specs| - 1], specs[|specs| - 1];
      var mid := Apply(init, db, defaults).db;
      assert NoneGives(init, name, key) by {
        forall i | 0 <= i < |init| ensures !(init[i].name == name && Given(init[i], key)) {
          assert init[i] == specs[i];
        }
      }
      if name in mid { NotGivenStays(init, db, defaults, name, key); }
      assert !(last.name == name && Given(last, key));
      if last.name == name && (Decide(last, mid).Create? || Decide(last, mid).Patch?) {
        StepWrites(last, mid, defaults, key);
      }
      StayedIn(init, db, defaults, name);
    }
  }

  lemma StayedIn(specs: seq<CustomFieldSpec>, db: Db, defaults: Rec, name: string)
    ensures name in db ==> name in Apply(specs, db, defaults).db
  {
    hide Apply, KeepsShape;
    FieldsProtected(specs, db, defaults);
  }

  // ----- the default fields -----------------------------------------------------------------

  ghost predicate DistinctSpecs(specs: seq<CustomFieldSpec>) {
    forall i, j :: 0 <= i < j < |specs| ==> specs[i].name != specs[j].name
  }

  lemma NewName(specs: seq<CustomFieldSpec>, db: Db, defaults: Rec, name: string)
    requires Unnamed(name, specs)
    ensures name in Apply(specs, db, defaults).db <==> name in db
    ensures name in db ==> Apply(specs, db, defaults).db[name] == db[name]
  {
    hide Apply, KeepsShape, Unnamed;
    FieldsProtected(specs, db, defaults);
  }

  // Specs of distinct new names are all created, each as its payload over what
  // the server fills in.
  lemma {:induction false} AllCreated(specs: seq<CustomFieldSpec>, db: Db, defaults: Rec)
    requires DistinctSpecs(specs) && forall i :: 0 <= i < |specs| ==> specs[i].name !in db
    ensures var r := Apply(specs, db, defaults);
            r.refused.None? && forall i :: 0 <= i < |specs| ==>
              specs[i].name in r.db && r.db[specs[i].name] == defaults + Payload(specs[i])
  {
    hide Payload, Noted, Drift;
    if specs != [] {
      var init, last := specs[..|specs| - 1], specs[|specs| - 1];
      forall i, j | 0 <= i < j < |init| ensures init[i].name != init[j].name {
        assert init[i] == specs[i] && init[j] == specs[j];
      }
      AllCreated(init, db, defaults);
      assert Unnamed(last.name, init);
      NewName(init, db, defaults, last.name);
      forall i | 0 <= i < |specs|
        ensures specs[i].name in Apply(specs, db, defaults).db
                && Apply(specs, db, defaults).db[specs[i].name] == defaults + Payload(specs[i])
      {
        if i < |init| { assert init[i] == specs[i] && specs[i].name != last.name; }
      }
    }
  }

  // One field; its description is given apart.
  datatype FieldRow = FieldRow(name: string, caption: string, kind: string, on: string, default: Value,
                               range: Option<(int, int)>)

  ghost predicate IsField(rec: Rec, row: FieldRow, description: string) {
    && Entry(rec, "description") == (if description != "" then Str(description) else Null)
    && Entry(rec, "name") == Str(row.name) && Entry(rec, "label") == Str(row.caption)
    && Entry(rec, "type") == Str(row.kind) && Entry(rec, "object_types") == Strings([row.on])
    && Entry(rec, "required") == Bool(false) && Entry(rec, "default") == row.default && "choices" !in rec
    && Entry(rec, "validation_minimum") == (if row.range.Some? then Int(row.range.value.0) else Null)
    && Entry(rec, "validation_maximum") == (if row.range.Some? then Int(row.range.value.1) else Null)
  }

  const DEFAULT_ROWS: seq<FieldRow> :=
    [FieldRow("bf3_mode", "BlueField-3 mode", "text", "dcim.device", Str("nic"), None),
     FieldRow("roce_tc", "RoCE traffic class", "integer", "dcim.interface", Null, Some((0, 7))),
     FieldRow("numa_node", "NUMA node", "integer", "dcim.interface", Null, Some((0, 7))),
     FieldRow("sriov_vfs", "SR-IOV VF count", "integer", "dcim.interface", Null, Some((0, 128))),
     FieldRow("gpu_affinity", "GPU affinity", "text", "dcim.interface", Null, None),
     FieldRow("observed_mac", "Observed MAC", "text", "dcim.interface", Null, None),
     FieldRow("observed_firmware", "Observed firmware", "longtext", "dcim.device", Null, None)]

  ghost predicate SpecOf(spec: CustomFieldSpec, row: FieldRow) {
    && spec.name == row.name && spec.caption == row.caption && TypeText(spec.kind, row.kind)
    && spec.objectTypes == [row.on] && !spec.required && spec.default == row.default && spec.choices.None?
    && spec.minimum == (if row.range.Some? then Some(row.range.value.0) else None)
    && spec.maximum == (if row.range.Some? then Some(row.range.value.1) else None)
  }

  lemma SpecIsField(spec: CustomFieldSpec, row: FieldRow)
    requires SpecOf(spec, row)
    ensures IsField(Payload(spec), row, spec.description)
  {
    KeysDiffer();
    hide Payload, Distinct;
    PayloadSays(spec, "name");
    PayloadSays(spec, "label");
    PayloadSays(spec, "type");
    PayloadSays(spec, "object_types");
    PayloadSays(spec, "required");
    PayloadSays(spec, "description");
    PayloadSays(spec, "default");
    PayloadSays(spec, "choices");
    PayloadSays(spec, "validation_minimum");
    PayloadSays(spec, "validation_maximum");
  }

  lemma DefaultSpec(describe: string -> string, i: nat)
    requires i < |DEFAULT_ROWS|
    ensures |DefaultFields(describe)| == |DEFAULT_ROWS| && SpecOf(DefaultFields(describe)[i], DEFAULT_ROWS[i])
    ensures DefaultFields(describe)[i].description == describe(DEFAULT_ROWS[i].name)
  {
  }

  lemma DefaultsDistinct(describe: string -> string)
    ensures DistinctSpecs(DefaultFields(describe))
  {
    DefaultNames(describe);
    DefaultNamesDiffer();
    hide DefaultFields;
    var specs := DefaultFields(describe);
    forall i, j | 0 <= i < j < |specs| ensures specs[i].name != specs[j].name {
      assert DEFAULT_NAMES[i] != DEFAULT_NAMES[j];
    }
  }

  // The default fields on a server without custom fields: these seven, as they
  // are tabled here.
  lemma DefaultsOnEmpty(describe: string -> string)
    ensures var r := Apply(DefaultFields(describe), map[], map[]);
            && r.refused.None?
            && (forall i :: 0 <= i < |DEFAULT_ROWS| ==>
                  && DEFAULT_ROWS[i].name in r.db
                  && IsField(r.db[DEFAULT_ROWS[i].name], DEFAULT_ROWS[i], describe(DEFAULT_ROWS[i].name)))
            && forall n :: n in r.db ==> exists i :: 0 <= i < |DEFAULT_ROWS| && DEFAULT_ROWS[i].name == n
  {
    var s := DefaultFields(describe);
    DefaultNames(describe);
    hide DefaultFields, Payload, IsField, Apply, Distinct, SpecOf;
    DefaultsDistinct(describe);
    AllCreated(s, map[], map[]);
    var db := Apply(s, map[], map[]).db;
    forall i | 0 <= i < |DEFAULT_ROWS|
      ensures DEFAULT_ROWS[i].name in db
      ensures IsField(db[DEFAULT_ROWS[i].name], DEFAULT_ROWS[i], describe(DEFAULT_ROWS[i].name))
    {
      DefaultSpec(describe, i);
      SpecNamed(s[i], DEFAULT_ROWS[i]);
      SpecIsField(s[i], DEFAULT_ROWS[i]);
      assert map[] + Payload(s[i]) == Payload(s[i]);
    }
    forall n | n in db ensures exists i :: 0 <= i < |DEFAULT_ROWS| && DEFAULT_ROWS[i].name == n {
      if forall i :: 0 <= i < |s| ==> s[i].name != n { NewName(s, map[], map[], n); }
      var i :| 0 <= i < |s| && s[i].name == n;
      SomeRows();
      DefaultSpec(describe, 0);
      DefaultSpec(describe, i);
      SpecNamed(s[i], DEFAULT_ROWS[i]);
    }
  }

  lemma SomeRows()
    ensures |DEFAULT_ROWS| == 7
  {
  }

  lemma SpecNamed(spec: CustomFieldSpec, row: FieldRow)
    requires SpecOf(spec, row)
    ensures spec.name == row.name
  {
  }
}

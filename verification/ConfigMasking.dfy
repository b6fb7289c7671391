/** Sending back what a masked read shows (src/DynamicConfigManager.cpp): when it changes nothing, and when it does not. */
module ConfigMasking {
  import opened Bytes
  import opened Json
  import opened ConfigSchema
  import opened DynamicConfig

  // ----- Any document -----

  /** An incoming entry that leaves the stored values as they are: the mask of a secret, or the stored value itself. */
  predicate Harmless(m: Member, members: seq<Member>, fields: seq<Field>) {
    (LastSecret(fields, m.key) && m.value == Str(MASKED)) || Find(members, m.key) == Some(m.value)
  }

  ghost predicate AllHarmless(flat: seq<Member>, n: nat, members: seq<Member>, fields: seq<Field>)
    requires n <= |flat|
  {
    forall i :: 0 <= i < n ==> Harmless(flat[i], members, fields)
  }

  lemma {:induction false} HarmlessMerge(members: seq<Member>, fields: seq<Field>, flat: seq<Member>, n: nat)
    requires n <= |flat| && AllHarmless(flat, n, members, fields)
    ensures Merged(members, fields, flat, n) == members
    decreases n
  {
    if n > 0 {
      HarmlessMerge(members, fields, flat, n - 1);
      assert Harmless(flat[n - 1], members, fields);
      if Find(members, flat[n - 1].key) == Some(flat[n - 1].value) {
        PutSame(members, flat[n - 1].key, flat[n - 1].value);
      }
    }
  }

  /** Merging a document changes nothing if and only if each of its entries is harmless. */
  lemma MergeUnchangedIff(members: seq<Member>, fields: seq<Field>, flat: seq<Member>)
    requires Unique(flat)
    ensures Merged(members, fields, flat, |flat|) == members <==> AllHarmless(flat, |flat|, members, fields)
  {
    if AllHarmless(flat, |flat|, members, fields) {
      HarmlessMerge(members, fields, flat, |flat|);
    }
    if Merged(members, fields, flat, |flat|) == members {
      forall i | 0 <= i < |flat| ensures Harmless(flat[i], members, fields) {
        assert flat[..|flat|] == flat;
        MergedFind(members, fields, flat, |flat|, flat[i].key);
        FindAt(flat, i);
      }
    }
  }

  /** A registered project with valid values in memory. */
  predicate Holding(s: State, project: Project, members: seq<Member>) {
    && project in s.schemas && !s.schemas[project].isNull
    && project in s.values && s.values[project] == Object(members) && Valid(s.schemas[project], Object(members))
  }

  /** An update succeeds and changes no value if and only if each entry of the flat document is harmless. */
  lemma UpdateUnchangedIff(s: State, project: Project, members: seq<Member>, document: Json)
    requires Holding(s, project, members) && document.Object?
    ensures var (s', result) := Updated(s, project, document, true, true);
      (result == Done && s'.values == s.values) <==>
      AllHarmless(Flat(document), |Flat(document)|, members, CollectFields(s.schemas[project]))
  {
    var fields, flat := CollectFields(s.schemas[project]), Flat(document);
    FlatIsNormal(document);
    MergeUnchangedIff(members, fields, flat);
    var next := Object(Merged(members, fields, flat, |flat|));
    if Merged(members, fields, flat, |flat|) == members {
      assert next == s.values[project] && s.values[project := next] == s.values;
    } else {
      assert s.values[project := next][project] != s.values[project];
    }
  }

  /** Sending the masked document back succeeds and leaves the stored values, secrets included, as they are if and only if
      each entry it flattens into is the mask of a key taken for secret on the way back or the stored value of its key. */
  lemma MaskedRoundTrip(s: State, project: Project, members: seq<Member>)
    requires Holding(s, project, members)
    ensures var fields := CollectFields(s.schemas[project]);
      var document := Object(Masked(members, fields));
      var (s', result) := Updated(s, project, document, true, true);
      (result == Done && s'.values == s.values) <==> AllHarmless(Flat(document), |Flat(document)|, members, fields)
  {
    UpdateUnchangedIff(s, project, members, Object(Masked(members, CollectFields(s.schemas[project]))));
  }

  // ----- What a masked read shows of an object -----

  predicate SameKeys(a: seq<Member>, b: seq<Member>) {
    |a| == |b| && forall i :: 0 <= i < |a| ==> a[i].key == b[i].key
  }

  function Shown(fields: seq<Field>, m: Member): Json {
    if AnySecret(fields, m.key) then Str(MASKED) else m.value
  }

  lemma AnySecretStep(fields: seq<Field>, key: string)
    requires fields != []
    ensures var last := fields[|fields| - 1];
      AnySecret(fields, key) <==> AnySecret(fields[..|fields| - 1], key) || (last.key == key && IsSecret(last))
  {
    var front := fields[..|fields| - 1];
    if AnySecret(front, key) {
      var i :| 0 <= i < |front| && front[i].key == key && IsSecret(front[i]);
      assert fields[i].key == key;
    }
  }

  /** Masking replaces exactly the values of the secret keys, in place. */
  lemma {:induction false} MaskedAt(members: seq<Member>, fields: seq<Field>)
    requires Unique(members)
    ensures SameKeys(Masked(members, fields), members)
    ensures forall i :: 0 <= i < |members| ==> Masked(members, fields)[i].value == Shown(fields, members[i])
    decreases |fields|
  {
    if fields != [] {
      var front, f := fields[..|fields| - 1], fields[|fields| - 1];
      MaskedAt(members, front);
      var before := Masked(members, front);
      forall i | 0 <= i < |members| ensures
        Shown(fields, members[i]) ==
        if members[i].key == f.key && IsSecret(f) then Str(MASKED) else Shown(front, members[i])
      {
        AnySecretStep(fields, members[i].key);
      }
      FindNone(before, f.key);
      if IsSecret(f) && Find(before, f.key).Some? {
        var j :| 0 <= j < |before| && before[j].key == f.key;
        PutAt(before, j, Str(MASKED));
      }
    }
  }

  lemma {:induction false} LastSecretIsAny(fields: seq<Field>, key: string)
    requires LastSecret(fields, key)
    ensures AnySecret(fields, key)
  {
    AnySecretStep(fields, key);
    if fields[|fields| - 1].key != key {
      LastSecretIsAny(fields[..|fields| - 1], key);
    }
  }

  /** A field whose value is not to be shown. */
  predicate Hidden(field: Field, key: string) {
    field.key == key && (field.kind == Password || field.kind == Secret || field.secret)
  }

  ghost predicate SomeHidden(fields: seq<Field>, key: string) {
    exists k :: 0 <= k < |fields| && Hidden(fields[k], key)
  }

  lemma HiddenIsSecret(fields: seq<Field>, key: string)
    ensures AnySecret(fields, key) <==> SomeHidden(fields, key)
  {
    if AnySecret(fields, key) {
      var k :| 0 <= k < |fields| && fields[k].key == key && IsSecret(fields[k]);
      assert Hidden(fields[k], key);
    }
  }

  /** A masked read of a registered project shows eight asterisks for every key that has a password, a secret or a field marked
      secret, at any depth of groups, and every other value as it is stored. */
  lemma MaskedView(s: State, project: Project, members: seq<Member>, i: nat)
    requires Holding(s, project, members) && Unique(members) && i < |members|
    ensures var shown, fields := View(s, project, true, true), CollectFields(s.schemas[project]);
      && shown.Object? && |shown.members| == |members| && shown.members[i].key == members[i].key
      && shown.members[i].value == if SomeHidden(fields, members[i].key) then Str("********") else members[i].value
  {
    MaskedAt(members, CollectFields(s.schemas[project]));
    HiddenIsSecret(CollectFields(s.schemas[project]), members[i].key);
  }

  // ----- Documents without object values -----

  /** No key is shown masked and yet not taken for secret on the way back, unless its value is the mask itself. */
  ghost predicate MaskReturns(members: seq<Member>, fields: seq<Field>) {
    forall i :: 0 <= i < |members| ==> MaskReturnsFor(members[i], fields)
  }

  predicate MaskReturnsFor(m: Member, fields: seq<Field>) {
    AnySecret(fields, m.key) && !LastSecret(fields, m.key) ==> m.value == Str(MASKED)
  }

  lemma MaskedFlat(members: seq<Member>, fields: seq<Field>)
    requires Unique(members) && NoObjects(members)
    ensures Flat(Object(Masked(members, fields))) == Masked(members, fields)
  {
    var masked := Masked(members, fields);
    var none: seq<Member> := [];
    MaskedAt(members, fields);
    assert NoObjects(masked) && Unique(masked);
    FlattenFlat(masked, |masked|, none);
    assert masked[..|masked|] == masked;
  }

  lemma MaskedHarmlessIff(members: seq<Member>, fields: seq<Field>)
    requires Unique(members)
    ensures var masked := Masked(members, fields);
      AllHarmless(masked, |masked|, members, fields) <==> MaskReturns(members, fields)
  {
    var masked := Masked(members, fields);
    MaskedAt(members, fields);
    forall i | 0 <= i < |members| ensures Harmless(masked[i], members, fields) <==> MaskReturnsFor(members[i], fields) {
      FindAt(members, i);
      if LastSecret(fields, members[i].key) {
        LastSecretIsAny(fields, members[i].key);
      }
    }
  }

  /** Without object values, the round trip changes nothing if and only if every key shown masked is taken for secret on the
      way back. */
  lemma MaskedRoundTripFlat(s: State, project: Project, members: seq<Member>)
    requires Holding(s, project, members) && Unique(members) && NoObjects(members)
    ensures var fields := CollectFields(s.schemas[project]);
      var (s', result) := Updated(s, project, Object(Masked(members, fields)), true, true);
      (result == Done && s'.values == s.values) <==> MaskReturns(members, fields)
  {
    var fields := CollectFields(s.schemas[project]);
    MaskedRoundTrip(s, project, members);
    MaskedFlat(members, fields);
    MaskedHarmlessIff(members, fields);
  }

  predicate UniqueKeys(fields: seq<Field>) {
    forall i, j :: 0 <= i < j < |fields| ==> fields[i].key != fields[j].key
  }

  lemma {:induction false} UniqueKeysAgree(fields: seq<Field>, key: string)
    requires UniqueKeys(fields)
    ensures AnySecret(fields, key) ==> LastSecret(fields, key)
    decreases |fields|
  {
    if fields != [] {
      UniqueKeysAgree(fields[..|fields| - 1], key);
      AnySecretStep(fields, key);
      if fields[|fields| - 1].key == key {
        assert forall i :: 0 <= i < |fields| - 1 ==> fields[i].key != key;
      }
    }
  }

  /** With one field per key and no object values the masked document always comes back unchanged. */
  lemma MaskedRoundTripUnique(s: State, project: Project, members: seq<Member>)
    requires Holding(s, project, members) && Unique(members) && NoObjects(members)
    requires UniqueKeys(CollectFields(s.schemas[project]))
    ensures var (s', result) :=
        Updated(s, project, Object(Masked(members, CollectFields(s.schemas[project]))), true, true);
      result == Done && s'.values == s.values && s'.schemas == s.schemas
  {
    var fields := CollectFields(s.schemas[project]);
    forall i | 0 <= i < |members| ensures MaskReturnsFor(members[i], fields) {
      UniqueKeysAgree(fields, members[i].key);
    }
    MaskedRoundTripFlat(s, project, members);
  }

  // ----- Inputs that do not come back -----

  function TextField(key: string, kind: Kind): Field {
    Field(key, kind, false, false, None, 0, None, Schema(1, [], []), None, None, None)
  }

  /** A password field followed by a plain field of the same key: the mask replaces the stored secret. */
  lemma MaskOverwritesSecret(secret: string)
    requires secret != "" && secret != MASKED
    ensures var schema := Schema(1, [TextField("a", Password), TextField("a", Text)], []);
      var values := [Member("a", Str(secret))];
      var s := State(map["p" := schema], map["p" := Object(values)], map[]);
      var (s', result) := Updated(s, "p", Object(Masked(values, CollectFields(schema))), true, true);
      Valid(schema, Object(values)) && !(result == Done && s'.values == s.values)
  {
    var schema := Schema(1, [TextField("a", Password), TextField("a", Text)], []);
    var values := [Member("a", Str(secret))];
    var s := State(map["p" := schema], map["p" := Object(values)], map[]);
    var fields := CollectFields(schema);
    assert fields == schema.fields;
    assert HasKey(schema.fields, "a") by {
      assert schema.fields[0].key == "a";
    }
    PlainValid(schema, values);
    assert AnySecret(fields, "a") && !LastSecret(fields, "a") by {
      assert fields[0].key == "a" && IsSecret(fields[0]) && fields[1].key == "a";
    }
    assert !MaskReturnsFor(values[0], fields);
    MaskedRoundTripFlat(s, "p", values);
  }

  /** A schema of two text-like fields of one key accepts a nonempty text under it. */
  lemma PlainValid(schema: Schema, values: seq<Member>)
    requires schema == Schema(1, [TextField("a", Password), TextField("a", Text)], [])
    requires |values| == 1 && values[0].key == "a" && values[0].value.Str? && values[0].value.text != ""
    ensures Valid(schema, Object(values))
  {
    var path: seq<Step> := [];
    assert Find(values, "a") == Some(values[0].value);
    assert schema.fields[0].key == "a";
    assert ErrorsOfField(schema.fields[0], values, path) == [];
    assert ErrorsOfField(schema.fields[1], values, path) == [];
    assert ErrorsOfFields(schema, 1, values, path) == [];
    assert ErrorsOfFields(schema, 2, values, path) == [];
    assert Unknown(schema, values, 1, path) == [];
  }

  lemma ObjectValueValid(schema: Schema, values: seq<Member>)
    requires schema == Schema(1, [TextField("x", OtherKind)], []) && values == [Member("x", Object([Member("y", Null)]))]
    ensures Valid(schema, Object(values)) && Masked(values, CollectFields(schema)) == values
  {
    var path: seq<Step> := [];
    assert CollectFields(schema) == schema.fields && schema.fields[..0] == [];
    assert schema.fields[0].key == "x" && Find(values, "x") == Some(values[0].value);
    assert ErrorsOfField(schema.fields[0], values, path) == [];
    assert ErrorsOfFields(schema, 1, values, path) == [];
    assert Unknown(schema, values, 1, path) == [];
  }

  lemma ObjectValueFlat(values: seq<Member>)
    requires values == [Member("x", Object([Member("y", Null)]))]
    ensures Flat(Object(values)) == [Member("x.y", Null)]
  {
    var none: seq<Member> := [];
    assert Prefixed("x", "y") == "x.y";
    assert Flatten(values[0].value, 0, "x", none) == none;
    assert Flatten(values[0].value, 1, "x", none) == [Member("x.y", Null)];
    assert Flatten(Object(values), 0, "", none) == none;
    assert Flatten(Object(values), 1, "", none) == [Member("x.y", Null)];
  }

  /** A stored value that is an object does not come back: it returns as dotted keys, which the schema does not know. */
  lemma ObjectValueRefused()
    ensures var schema := Schema(1, [TextField("x", OtherKind)], []);
      var values := [Member("x", Object([Member("y", Null)]))];
      var s := State(map["p" := schema], map["p" := Object(values)], map[]);
      Valid(schema, Object(values)) && Updated(s, "p", Object(Masked(values, CollectFields(schema))), true, true).1 != Done
  {
    var schema := Schema(1, [TextField("x", OtherKind)], []);
    var values := [Member("x", Object([Member("y", Null)]))];
    var fields, flat := CollectFields(schema), Flat(Object(values));
    ObjectValueValid(schema, values);
    ObjectValueFlat(values);
    var next := Merged(values, fields, flat, 1);
    assert Merged(values, fields, flat, 0) == values;
    PutNew(values, "x.y", Null);
    assert next == values + flat;
    assert !KnownKey(schema, next[1].key);
    UnknownIff(schema, next, |next|, []);
  }
}

/** Configuration schemas (src/DynamicConfigManager.cpp): collecting fields, stripping secret defaults, building defaults
    and validating, over schemas that nest through groups and through the item schemas of array groups. */
module ConfigSchema {
  import opened Bytes
  import opened Json

  datatype Kind = Text | Password | Secret | Url | Numeric | Boolean | Select | ArrayGroup | OtherKind

  /** A field; an absent entry of the schema document has the value the code falls back to. */
  datatype Field = Field(
    key: string, kind: Kind, secret: bool, required: bool, default_: Option<Json>,
    minItems: int, maxItems: Option<int>, itemSchema: Schema,
    min: Option<real>, max: Option<real>, options: Option<seq<Json>>)

  /** A schema document; `isNull` stands for the JSON null that reading an unknown project leaves behind. */
  datatype Schema = Schema(version: int, fields: seq<Field>, groups: seq<Schema>, isNull: bool := false)

  const NULL_SCHEMA := Schema(0, [], [], true)

  predicate IsSecret(field: Field) {
    field.kind.Password? || field.kind.Secret? || field.secret
  }

  /** CollectFields: the fields of a schema and of all its groups, at every depth. */
  function CollectFields(schema: Schema): seq<Field> {
    schema.fields + CollectGroups(schema, |schema.groups|)
  }

  function CollectGroups(schema: Schema, n: nat): seq<Field>
    requires n <= |schema.groups|
    decreases schema, 0, n
  {
    if n == 0 then [] else CollectGroups(schema, n - 1) + CollectFields(schema.groups[n - 1])
  }

  function StripField(field: Field): Field {
    if IsSecret(field) then field.(default_ := None) else field
  }

  /** RemoveSecretDefaults: through the groups, not into item schemas. */
  function Strip(schema: Schema): Schema {
    schema.(
      fields := seq(|schema.fields|, i requires 0 <= i < |schema.fields| => StripField(schema.fields[i])),
      groups := seq(|schema.groups|, i requires 0 <= i < |schema.groups| => Strip(schema.groups[i])))
  }

  // ----- Defaults -----

  /** DefaultsUnlocked: fields first, then each group's defaults over them, at every depth. */
  function Defaults(schema: Schema): seq<Member>
    decreases schema, 2
  {
    DefaultsOfGroups(schema, |schema.groups|)
  }

  function DefaultsOfFields(schema: Schema, n: nat): seq<Member>
    requires n <= |schema.fields|
    decreases schema, 0, n
  {
    if n == 0 then [] else
      var field, before := schema.fields[n - 1], DefaultsOfFields(schema, n - 1);
      if field.key == "" then before
      else if field.default_.Some? then Put(before, field.key, field.default_.value)
      else if field.kind.ArrayGroup? then Put(before, field.key, EmptyItems(field))
      else before
  }

  /** As many default items as the field asks for at least. */
  function EmptyItems(field: Field): Json
    decreases field
  {
    var item := Object(Defaults(field.itemSchema));
    Array(seq(if field.minItems > 0 then field.minItems else 0, _ => item))
  }

  function DefaultsOfGroups(schema: Schema, n: nat): seq<Member>
    requires n <= |schema.groups|
    decreases schema, 1, n
  {
    if n == 0 then DefaultsOfFields(schema, |schema.fields|)
    else PutAll(DefaultsOfGroups(schema, n - 1), Defaults(schema.groups[n - 1]))
  }

  // ----- Validation -----

  datatype Step = Key(key: string) | Index(index: nat)

  datatype Code = Required | InvalidType | ItemCount | OutOfRange | InvalidUrl | NotAllowed | UnknownField

  datatype Error = Error(path: seq<Step>, code: Code)

  predicate TextAt(text: string, part: string, i: int) {
    0 <= i <= |text| - |part| && text[i..i + |part|] == part
  }

  predicate HasText(text: string, part: string) {
    exists i | 0 <= i <= |text| :: TextAt(text, part, i)
  }

  predicate IsUrl(text: string) {
    HasText(text, "://") && !(exists i :: 0 <= i < |text| && text[i] in " \t\r\n")
  }

  predicate TypeOk(kind: Kind, value: Json) {
    match kind
    case Text | Password | Secret | Url | Select => value.Str?
    case Numeric => value.Number?
    case Boolean => value.Bool?
    case ArrayGroup => value.Array?
    case OtherKind => true
  }

  predicate Blank(value: Option<Json>) {
    value.None? || value.value.Null? || value.value == Str("")
  }

  function If(condition: bool, error: Error): seq<Error> {
    if condition then [error] else []
  }

  /** validate: an object against one level of a schema. */
  function Errors(schema: Schema, value: Json, path: seq<Step>): seq<Error>
    decreases schema, 3
  {
    if !value.Object? then [Error(path, InvalidType)]
    else GroupErrors(schema, value.members, path) +
         ErrorsOfGroups(schema, |schema.groups|, value.members, path) +
         Unknown(schema, value.members, |value.members|, path)
  }

  function ErrorsOfFields(schema: Schema, n: nat, members: seq<Member>, path: seq<Step>): seq<Error>
    requires n <= |schema.fields|
    decreases schema, 1, n
  {
    if n == 0 then [] else
      ErrorsOfFields(schema, n - 1, members, path) + ErrorsOfField(schema.fields[n - 1], members, path)
  }

  /** The fields of a schema or of one of its groups, without their own groups. */
  function GroupErrors(group: Schema, members: seq<Member>, path: seq<Step>): seq<Error>
    decreases group, 2
  {
    ErrorsOfFields(group, |group.fields|, members, path)
  }

  /** Groups count one level deep: the fields of a group, not of its own groups. */
  function ErrorsOfGroups(schema: Schema, n: nat, members: seq<Member>, path: seq<Step>): seq<Error>
    requires n <= |schema.groups|
    decreases schema, 2, n
  {
    if n == 0 then [] else
      ErrorsOfGroups(schema, n - 1, members, path) + GroupErrors(schema.groups[n - 1], members, path)
  }

  function ErrorsOfField(field: Field, members: seq<Member>, path: seq<Step>): seq<Error>
    decreases field, 1
  {
    var found, at := Find(members, field.key), path + [Key(field.key)];
    if field.key == "" then []
    else if Blank(found) then If(field.required, Error(at, Required))
    else
      var value := found.value;
      if !TypeOk(field.kind, value) then [Error(at, InvalidType)]
      else if field.kind.ArrayGroup? then
        If(|value.items| < field.minItems || (field.maxItems.Some? && |value.items| > field.maxItems.value),
           Error(at, ItemCount)) +
        ErrorsOfItems(field, value.items, |value.items|, at)
      else ErrorsOfPlain(field, value, at)
  }

  /** A value of the right type, not an array group: its range, its form, its options. */
  function ErrorsOfPlain(field: Field, value: Json, at: seq<Step>): seq<Error>
    requires TypeOk(field.kind, value)
  {
    If(value.Number? && field.min.Some? && value.number < field.min.value, Error(at, OutOfRange)) +
    If(value.Number? && field.max.Some? && value.number > field.max.value, Error(at, OutOfRange)) +
    If(field.kind.Url? && !IsUrl(value.text), Error(at, InvalidUrl)) +
    If(field.kind.Select? && field.options.Some? && value !in field.options.value, Error(at, NotAllowed))
  }

  function ErrorsOfItems(field: Field, items: seq<Json>, n: nat, at: seq<Step>): seq<Error>
    requires n <= |items|
    decreases field, 0, n
  {
    if n == 0 then [] else
      ErrorsOfItems(field, items, n - 1, at) + Errors(field.itemSchema, items[n - 1], at + [Index(n - 1)])
  }

  predicate HasKey(fields: seq<Field>, key: string) {
    exists i :: 0 <= i < |fields| && fields[i].key == key
  }

  /** A key the validation knows: a named field of the schema or of one of its groups. */
  predicate KnownKey(schema: Schema, key: string) {
    key != "" &&
    (HasKey(schema.fields, key) || exists j :: 0 <= j < |schema.groups| && HasKey(schema.groups[j].fields, key))
  }

  function Unknown(schema: Schema, members: seq<Member>, n: nat, path: seq<Step>): seq<Error>
    requires n <= |members|
  {
    if n == 0 then [] else
      Unknown(schema, members, n - 1, path) +
      If(!KnownKey(schema, members[n - 1].key), Error(path + [Key(members[n - 1].key)], UnknownField))
  }

  predicate Valid(schema: Schema, value: Json) {
    Errors(schema, value, []) == []
  }

  // ----- Stripping never changes a verdict -----

  lemma StripFieldKeepsErrors(field: Field, members: seq<Member>, path: seq<Step>)
    ensures ErrorsOfField(StripField(field), members, path) == ErrorsOfField(field, members, path)
  {
    var found, at := Find(members, field.key), path + [Key(field.key)];
    if found.Some? && found.value.Array? {
      StripFieldKeepsItems(field, found.value.items, |found.value.items|, at);
    }
  }

  lemma {:induction false} StripFieldKeepsItems(field: Field, items: seq<Json>, n: nat, at: seq<Step>)
    requires n <= |items|
    ensures ErrorsOfItems(StripField(field), items, n, at) == ErrorsOfItems(field, items, n, at)
  {
    if n > 0 {
      StripFieldKeepsItems(field, items, n - 1, at);
    }
  }

  lemma {:induction false} StripKeepsFields(schema: Schema, n: nat, members: seq<Member>, path: seq<Step>)
    requires n <= |schema.fields|
    ensures ErrorsOfFields(Strip(schema), n, members, path) == ErrorsOfFields(schema, n, members, path)
    decreases n
  {
    if n > 0 {
      StripKeepsFields(schema, n - 1, members, path);
      StripFieldKeepsErrors(schema.fields[n - 1], members, path);
    }
  }

  lemma {:induction false} StripKeepsGroups(schema: Schema, n: nat, members: seq<Member>, path: seq<Step>)
    requires n <= |schema.groups|
    ensures ErrorsOfGroups(Strip(schema), n, members, path) == ErrorsOfGroups(schema, n, members, path)
    decreases n
  {
    if n > 0 {
      var group := schema.groups[n - 1];
      StripKeepsGroups(schema, n - 1, members, path);
      StripKeepsFields(group, |group.fields|, members, path);
    }
  }

  lemma StripKeepsKeys(fields: seq<Field>, stripped: seq<Field>, key: string)
    requires |stripped| == |fields| && forall i :: 0 <= i < |fields| ==> stripped[i] == StripField(fields[i])
    ensures HasKey(stripped, key) <==> HasKey(fields, key)
  {
    if HasKey(fields, key) {
      var i :| 0 <= i < |fields| && fields[i].key == key;
      assert stripped[i].key == key;
    }
  }

  lemma StripKeepsKnown(schema: Schema, key: string)
    ensures KnownKey(Strip(schema), key) <==> KnownKey(schema, key)
  {
    var stripped := Strip(schema);
    StripKeepsKeys(schema.fields, stripped.fields, key);
    forall j | 0 <= j < |schema.groups|
      ensures HasKey(stripped.groups[j].fields, key) <==> HasKey(schema.groups[j].fields, key)
    {
      assert stripped.groups[j] == Strip(schema.groups[j]);
      StripKeepsKeys(schema.groups[j].fields, stripped.groups[j].fields, key);
    }
  }

  lemma {:induction false} StripKeepsUnknown(schema: Schema, members: seq<Member>, n: nat, path: seq<Step>)
    requires n <= |members|
    ensures Unknown(Strip(schema), members, n, path) == Unknown(schema, members, n, path)
    decreases n
  {
    if n > 0 {
      StripKeepsUnknown(schema, members, n - 1, path);
      StripKeepsKnown(schema, members[n - 1].key);
    }
  }

  /** Removing secret defaults, at every depth of groups, leaves the whole list of validation errors as it was. */
  lemma StripKeepsErrors(schema: Schema, value: Json, path: seq<Step>)
    ensures Errors(Strip(schema), value, path) == Errors(schema, value, path)
  {
    if value.Object? {
      StripKeepsFields(schema, |schema.fields|, value.members, path);
      StripKeepsGroups(schema, |schema.groups|, value.members, path);
      StripKeepsUnknown(schema, value.members, |value.members|, path);
    }
  }

  /** Stripping keeps which keys are secret, field by field. */
  lemma {:induction false} StripKeepsCollected(schema: Schema)
    ensures |CollectFields(Strip(schema))| == |CollectFields(schema)|
    ensures forall i :: 0 <= i < |CollectFields(schema)| ==>
      CollectFields(Strip(schema))[i] == StripField(CollectFields(schema)[i])
    decreases schema, 1
  {
    StripKeepsCollectedGroups(schema, |schema.groups|);
  }

  lemma {:induction false} StripKeepsCollectedGroups(schema: Schema, n: nat)
    requires n <= |schema.groups|
    ensures |CollectGroups(Strip(schema), n)| == |CollectGroups(schema, n)|
    ensures forall i :: 0 <= i < |CollectGroups(schema, n)| ==>
      CollectGroups(Strip(schema), n)[i] == StripField(CollectGroups(schema, n)[i])
    decreases schema, 0, n
  {
    if n > 0 {
      StripKeepsCollectedGroups(schema, n - 1);
      assert Strip(schema).groups[n - 1] == Strip(schema.groups[n - 1]);
      StripKeepsCollected(schema.groups[n - 1]);
    }
  }

  /** No secret field, at any depth of groups, keeps a default. */
  lemma StripRemovesSecrets(schema: Schema, i: nat)
    requires i < |CollectFields(Strip(schema))|
    ensures var f := CollectFields(Strip(schema))[i]; IsSecret(f) ==> f.default_.None?
  {
    StripKeepsCollected(schema);
  }

  // ----- Groups inside groups -----

  lemma NoneOfTwo(a: seq<Error>, b: seq<Error>)
    ensures a + b == [] <==> a == [] && b == []
  {
  }

  lemma {:induction false} UnknownIff(schema: Schema, members: seq<Member>, n: nat, path: seq<Step>)
    requires n <= |members|
    ensures Unknown(schema, members, n, path) == [] <==>
            forall i :: 0 <= i < n ==> KnownKey(schema, members[i].key)
    decreases n
  {
    if n > 0 {
      var known, at := KnownKey(schema, members[n - 1].key), Error(path + [Key(members[n - 1].key)], UnknownField);
      UnknownIff(schema, members, n - 1, path);
      NoneOfTwo(Unknown(schema, members, n - 1, path), If(!known, at));
    }
  }

  /** What a field contributes to the defaults. */
  function DefaultEntry(field: Field): seq<Member> {
    if field.key == "" then []
    else if field.default_.Some? then [Member(field.key, field.default_.value)]
    else if field.kind.ArrayGroup? then [Member(field.key, EmptyItems(field))]
    else []
  }

  function DefaultEntries(fields: seq<Field>): seq<Member> {
    if fields == [] then [] else DefaultEntries(fields[..|fields| - 1]) + DefaultEntry(fields[|fields| - 1])
  }

  lemma {:induction false} DefaultEntriesConcat(a: seq<Field>, b: seq<Field>)
    ensures DefaultEntries(a + b) == DefaultEntries(a) + DefaultEntries(b)
    decreases |b|
  {
    if b == [] {
      assert a + b == a;
    } else {
      assert (a + b)[..|a + b| - 1] == a + b[..|b| - 1];
      DefaultEntriesConcat(a, b[..|b| - 1]);
    }
  }

  lemma PutAllOne(members: seq<Member>, more: seq<Member>)
    requires |more| <= 1
    ensures PutAll(members, more) == if more == [] then members else Put(members, more[0].key, more[0].value)
  {
    if more != [] {
      assert more[..0] == [];
    }
  }

  lemma DefaultsStep(schema: Schema, n: nat)
    requires 0 < n <= |schema.fields|
    ensures DefaultsOfFields(schema, n) == PutAll(DefaultsOfFields(schema, n - 1), DefaultEntry(schema.fields[n - 1]))
  {
    PutAllOne(DefaultsOfFields(schema, n - 1), DefaultEntry(schema.fields[n - 1]));
  }

  lemma DefaultEntriesStep(fields: seq<Field>, n: nat)
    requires 0 < n <= |fields|
    ensures DefaultEntries(fields[..n]) == DefaultEntries(fields[..n - 1]) + DefaultEntry(fields[n - 1])
  {
    assert fields[..n][..n - 1] == fields[..n - 1];
  }

  lemma {:induction false} DefaultsOfFieldsArePuts(schema: Schema, n: nat, none: seq<Member>)
    requires n <= |schema.fields| && none == []
    ensures DefaultsOfFields(schema, n) == PutAll(none, DefaultEntries(schema.fields[..n]))
    decreases n
  {
    if n > 0 {
      DefaultsOfFieldsArePuts(schema, n - 1, none);
      DefaultsStep(schema, n);
      DefaultEntriesStep(schema.fields, n);
      PutAllConcat(none, DefaultEntries(schema.fields[..n - 1]), DefaultEntry(schema.fields[n - 1]));
    }
  }

  /** The schema's own fields and those of its first n groups. */
  function CollectTo(schema: Schema, n: nat): seq<Field>
    requires n <= |schema.groups|
  {
    schema.fields + CollectGroups(schema, n)
  }

  lemma CollectStep(schema: Schema, n: nat)
    requires 0 < n <= |schema.groups|
    ensures CollectTo(schema, n) == CollectTo(schema, n - 1) + CollectFields(schema.groups[n - 1])
  {
    var b, c := CollectGroups(schema, n - 1), CollectFields(schema.groups[n - 1]);
    assert CollectGroups(schema, n) == b + c;
    assert schema.fields + (b + c) == (schema.fields + b) + c;
  }

  /** Their entries. */
  function EntriesTo(schema: Schema, n: nat): seq<Member>
    requires n <= |schema.groups|
  {
    DefaultEntries(CollectTo(schema, n))
  }

  lemma EntriesStep(schema: Schema, n: nat)
    requires 0 < n <= |schema.groups|
    ensures EntriesTo(schema, n) == EntriesTo(schema, n - 1) + DefaultEntries(CollectFields(schema.groups[n - 1]))
  {
    CollectStep(schema, n);
    DefaultEntriesConcat(CollectTo(schema, n - 1), CollectFields(schema.groups[n - 1]));
  }

  lemma {:induction false} DefaultsOfGroupsArePuts(schema: Schema, n: nat, none: seq<Member>)
    requires n <= |schema.groups| && none == []
    ensures DefaultsOfGroups(schema, n) == PutAll(none, EntriesTo(schema, n))
    decreases schema, 0, n
  {
    if n == 0 {
      DefaultsWithoutGroups(schema, none);
    } else {
      DefaultsOfGroupsArePuts(schema, n - 1, none);
      DefaultsArePuts(schema.groups[n - 1], none);
      GroupAdds(schema, n, DefaultsOfGroups(schema, n - 1), Defaults(schema.groups[n - 1]), none);
    }
  }

  lemma GroupAdds(schema: Schema, n: nat, before: seq<Member>, nested: seq<Member>, none: seq<Member>)
    requires 0 < n <= |schema.groups| && none == [] && before == PutAll(none, EntriesTo(schema, n - 1))
    requires nested == PutAll(none, DefaultEntries(CollectFields(schema.groups[n - 1])))
    ensures PutAll(before, nested) == PutAll(none, EntriesTo(schema, n))
  {
    EntriesStep(schema, n);
    PutBatches(none, EntriesTo(schema, n - 1), DefaultEntries(CollectFields(schema.groups[n - 1])));
  }

  lemma DefaultsWithoutGroups(schema: Schema, none: seq<Member>)
    requires none == []
    ensures DefaultsOfGroups(schema, 0) == PutAll(none, EntriesTo(schema, 0))
  {
    DefaultsOfFieldsArePuts(schema, |schema.fields|, none);
    assert schema.fields[..|schema.fields|] == schema.fields + CollectGroups(schema, 0);
  }

  /** The recursive defaults are one pass over all fields of all groups, later fields over earlier ones. */
  lemma {:induction false} DefaultsArePuts(schema: Schema, none: seq<Member>)
    requires none == []
    ensures Defaults(schema) == PutAll(none, DefaultEntries(CollectFields(schema)))
    decreases schema, 1
  {
    DefaultsOfGroupsArePuts(schema, |schema.groups|, none);
  }

  /** The field puts something into the defaults. */
  predicate Contributes(field: Field) {
    field.key != "" && (field.default_.Some? || field.kind.ArrayGroup?)
  }

  ghost predicate ContributesKey(fields: seq<Field>, key: string) {
    exists i :: 0 <= i < |fields| && Contributes(fields[i]) && fields[i].key == key
  }

  lemma {:induction false} DefaultEntriesHave(fields: seq<Field>, key: string)
    ensures !Lacks(DefaultEntries(fields), key) <==> ContributesKey(fields, key)
    decreases |fields|
  {
    if fields != [] {
      var front, last := fields[..|fields| - 1], fields[|fields| - 1];
      DefaultEntriesHave(front, key);
      LacksConcat(DefaultEntries(front), DefaultEntry(last), key);
      EntryHas(last, key);
      if ContributesKey(front, key) {
        var i :| 0 <= i < |front| && Contributes(front[i]) && front[i].key == key;
        assert fields[i] == front[i];
      }
      if Contributes(last) && last.key == key {
        assert fields[|fields| - 1] == last;
      }
    }
  }

  lemma EntryHas(field: Field, key: string)
    ensures Lacks(DefaultEntry(field), key) <==> !(Contributes(field) && field.key == key)
  {
    var entry := DefaultEntry(field);
    if Contributes(field) {
      assert entry[0].key == field.key;
    }
  }

  lemma LacksConcat(a: seq<Member>, b: seq<Member>, key: string)
    ensures Lacks(a + b, key) <==> Lacks(a, key) && Lacks(b, key)
  {
    if Lacks(a + b, key) {
      assert forall i :: 0 <= i < |a| ==> a[i] == (a + b)[i];
      assert forall i :: 0 <= i < |b| ==> b[i] == (a + b)[|a| + i];
    }
  }

  lemma DefaultsHave(schema: Schema, key: string)
    ensures !Lacks(Defaults(schema), key) <==> ContributesKey(CollectFields(schema), key)
  {
    var none: seq<Member> := [];
    DefaultsArePuts(schema, none);
    DefaultEntriesHave(CollectFields(schema), key);
    PutAllHas(none, DefaultEntries(CollectFields(schema)), key);
  }

  /** Every field that puts something into the defaults, however deep, has a key of the schema's own fields or those of its
      direct groups. */
  ghost predicate DefaultsReachable(schema: Schema) {
    var fields := CollectFields(schema);
    forall i :: 0 <= i < |fields| && Contributes(fields[i]) ==> KnownKey(schema, fields[i].key)
  }

  /** Defaults reach into groups at every depth and validation only into the first: the defaults of a schema have no unknown
      key if and only if no field below the first level adds a key that is not known above. */
  lemma DefaultsKnownIff(schema: Schema, path: seq<Step>)
    ensures Unknown(schema, Defaults(schema), |Defaults(schema)|, path) == [] <==> DefaultsReachable(schema)
  {
    var fields, defaults := CollectFields(schema), Defaults(schema);
    UnknownIff(schema, defaults, |defaults|, path);
    if DefaultsReachable(schema) {
      forall m | 0 <= m < |defaults| ensures KnownKey(schema, defaults[m].key) {
        DefaultsHave(schema, defaults[m].key);
      }
    } else {
      var i :| 0 <= i < |fields| && Contributes(fields[i]) && !KnownKey(schema, fields[i].key);
      DefaultsHave(schema, fields[i].key);
      var m :| 0 <= m < |defaults| && defaults[m].key == fields[i].key;
    }
  }

  /** So such a schema fails its own validation and can never be registered. */
  lemma UnreachableDefaultFails(schema: Schema)
    requires !DefaultsReachable(schema)
    ensures !Valid(schema, Object(Defaults(schema)))
  {
    DefaultsKnownIff(schema, []);
  }

  // ----- What validation means -----

  ghost predicate FieldOk(field: Field, members: seq<Member>)
    decreases field, 1
  {
    var found := Find(members, field.key);
    field.key != "" ==>
      if Blank(found) then !field.required
      else
        var value := found.value;
        && TypeOk(field.kind, value)
        && (field.kind.ArrayGroup? ==>
              && field.minItems <= |value.items|
              && (field.maxItems.Some? ==> |value.items| <= field.maxItems.value)
              && forall i :: 0 <= i < |value.items| ==> Satisfies(field.itemSchema, value.items[i]))
        && (!field.kind.ArrayGroup? && value.Number? ==>
              && (field.min.Some? ==> field.min.value <= value.number)
              && (field.max.Some? ==> value.number <= field.max.value))
        && (field.kind.Url? ==> IsUrl(value.text))
        && (field.kind.Select? && field.options.Some? ==> value in field.options.value)
  }

  /** An object that has only known keys and satisfies every field of the schema and of its direct groups. */
  ghost predicate Satisfies(schema: Schema, value: Json)
    decreases schema, 3
  {
    && value.Object?
    && FieldsOk(schema, value.members) && GroupsOk(schema, |schema.groups|, value.members)
    && KeysKnown(schema, value.members)
  }

  ghost predicate FieldsOk(group: Schema, members: seq<Member>)
    decreases group, 1
  {
    forall i :: 0 <= i < |group.fields| ==> FieldOk(group.fields[i], members)
  }

  ghost predicate GroupsOk(schema: Schema, n: nat, members: seq<Member>)
    requires n <= |schema.groups|
    decreases schema, 2
  {
    forall j :: 0 <= j < n ==> FieldsOk(schema.groups[j], members)
  }

  predicate KeysKnown(schema: Schema, members: seq<Member>) {
    forall i :: 0 <= i < |members| ==> KnownKey(schema, members[i].key)
  }

  lemma {:induction false} ItemsMeaning(field: Field, items: seq<Json>, n: nat, at: seq<Step>)
    requires n <= |items|
    ensures ErrorsOfItems(field, items, n, at) == [] <==>
            forall i :: 0 <= i < n ==> Satisfies(field.itemSchema, items[i])
    decreases field, 0, n
  {
    if n > 0 {
      ItemsMeaning(field, items, n - 1, at);
      ValidMeaning(field.itemSchema, items[n - 1], at + [Index(n - 1)]);
    }
  }

  lemma {:induction false} FieldMeaning(field: Field, members: seq<Member>, path: seq<Step>)
    ensures ErrorsOfField(field, members, path) == [] <==> FieldOk(field, members)
    decreases field, 1
  {
    var found, at := Find(members, field.key), path + [Key(field.key)];
    if found.Some? && found.value.Array? {
      ItemsMeaning(field, found.value.items, |found.value.items|, at);
    }
  }

  lemma {:induction false} FieldsMeaning(schema: Schema, n: nat, members: seq<Member>, path: seq<Step>)
    requires n <= |schema.fields|
    ensures ErrorsOfFields(schema, n, members, path) == [] <==>
            forall i :: 0 <= i < n ==> FieldOk(schema.fields[i], members)
    decreases schema, 1, n
  {
    if n > 0 {
      FieldsMeaning(schema, n - 1, members, path);
      FieldMeaning(schema.fields[n - 1], members, path);
    }
  }

  lemma {:induction false} GroupsMeaning(schema: Schema, n: nat, members: seq<Member>, path: seq<Step>)
    requires n <= |schema.groups|
    ensures ErrorsOfGroups(schema, n, members, path) == [] <==>
            GroupsOk(schema, n, members)
    decreases schema, 2, n
  {
    if n > 0 {
      GroupsMeaning(schema, n - 1, members, path);
      GroupMeaning(schema.groups[n - 1], members, path);
      var before, last := ErrorsOfGroups(schema, n - 1, members, path), GroupErrors(schema.groups[n - 1], members, path);
      assert ErrorsOfGroups(schema, n, members, path) == before + last;
      assert before + last == [] <==> before == [] && last == [];
    }
  }

  lemma {:induction false} GroupMeaning(group: Schema, members: seq<Member>, path: seq<Step>)
    ensures GroupErrors(group, members, path) == [] <==> FieldsOk(group, members)
    decreases group, 1, |group.fields| + 1
  {
    FieldsMeaning(group, |group.fields|, members, path);
  }

  lemma NoneOfThree(a: seq<Error>, b: seq<Error>, c: seq<Error>)
    ensures a + b + c == [] <==> a == [] && b == [] && c == []
  {
  }

  lemma KeysMeaning(schema: Schema, members: seq<Member>, path: seq<Step>)
    ensures Unknown(schema, members, |members|, path) == [] <==> KeysKnown(schema, members)
  {
    UnknownIff(schema, members, |members|, path);
  }

  /** Validation reports no error, at any path, exactly when the value satisfies the schema. */
  lemma {:induction false} ValidMeaning(schema: Schema, value: Json, path: seq<Step>)
    ensures Errors(schema, value, path) == [] <==> Satisfies(schema, value)
    decreases schema, 3
  {
    if value.Object? {
      GroupMeaning(schema, value.members, path);
      GroupsMeaning(schema, |schema.groups|, value.members, path);
      KeysMeaning(schema, value.members, path);
      NoneOfThree(GroupErrors(schema, value.members, path),
                  ErrorsOfGroups(schema, |schema.groups|, value.members, path),
                  Unknown(schema, value.members, |value.members|, path));
    }
  }
}

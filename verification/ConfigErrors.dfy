/** Which errors validation reports (src/DynamicConfigManager.cpp): for every path and code, exactly when the list has it;
    and what the defaults hold for each key. */
module ConfigErrors {
  import opened Bytes
  import opened Json
  import opened ConfigSchema

  // ----- Each error, declaratively -----

  /** The JSON type each kind of field asks for; a kind of any other name takes every value. */
  predicate WrongType(kind: Kind, value: Json) {
    || (kind == Numeric && !value.Number?)
    || (kind == Boolean && !value.Bool?)
    || (kind == ArrayGroup && !value.Array?)
    || ((kind == Text || kind == Password || kind == Secret || kind == Url || kind == Select) && !value.Str?)
  }

  predicate HasScheme(text: string) {
    exists i :: 0 <= i < |text| && SchemeAt(text, i)
  }

  predicate SchemeAt(text: string, i: int) {
    0 <= i && i + 2 < |text| && text[i] == ':' && text[i + 1] == '/' && text[i + 2] == '/'
  }

  predicate HasSpace(text: string) {
    exists i :: 0 <= i < |text| && (text[i] == ' ' || text[i] == '\t' || text[i] == '\r' || text[i] == '\n')
  }

  lemma UrlMeans(text: string)
    ensures IsUrl(text) <==> HasScheme(text) && !HasSpace(text)
  {
    var scheme := "://";
    if HasText(text, scheme) {
      var i :| 0 <= i <= |text| && TextAt(text, scheme, i);
      assert text[i..i + 3][0] == ':' && text[i..i + 3][1] == '/' && text[i..i + 3][2] == '/';
      assert SchemeAt(text, i);
    }
    if HasScheme(text) {
      var i :| 0 <= i < |text| && SchemeAt(text, i);
      assert text[i..i + 3] == scheme;
      assert TextAt(text, scheme, i);
    }
  }

  /** An error of one field of an object. */
  ghost predicate FieldReports(field: Field, members: seq<Member>, path: seq<Step>, e: Error)
    decreases field, 1
  {
    var found, at := Find(members, field.key), path + [Key(field.key)];
    field.key != "" &&
    if found.None? || found.value == Null || found.value == Str("") then field.required && e == Error(at, Required)
    else
      var value := found.value;
      if WrongType(field.kind, value) then e == Error(at, InvalidType)
      else if field.kind.ArrayGroup? then
        || (e == Error(at, ItemCount) &&
            (|value.items| < field.minItems || (field.maxItems.Some? && |value.items| > field.maxItems.value)))
        || ItemsReport(field, value.items, |value.items|, at, e)
      else PlainReports(field, value, at, e)
  }

  /** An error of a value of the right type. */
  predicate PlainReports(field: Field, value: Json, at: seq<Step>, e: Error)
    requires !WrongType(field.kind, value)
  {
    || (e == Error(at, OutOfRange) && value.Number? &&
        ((field.min.Some? && value.number < field.min.value) || (field.max.Some? && value.number > field.max.value)))
    || (e == Error(at, InvalidUrl) && field.kind.Url? && (!HasScheme(value.text) || HasSpace(value.text)))
    || (e == Error(at, NotAllowed) && field.kind.Select? && field.options.Some? && value !in field.options.value)
  }

  ghost predicate ItemsReport(field: Field, items: seq<Json>, n: nat, at: seq<Step>, e: Error)
    requires n <= |items|
    decreases field, 0
  {
    exists i :: 0 <= i < n && Reported(field.itemSchema, items[i], at + [Index(i)], e)
  }

  ghost predicate FieldsReport(group: Schema, n: nat, members: seq<Member>, path: seq<Step>, e: Error)
    requires n <= |group.fields|
    decreases group, 1
  {
    exists i :: 0 <= i < n && FieldReports(group.fields[i], members, path, e)
  }

  ghost predicate GroupsReport(schema: Schema, n: nat, members: seq<Member>, path: seq<Step>, e: Error)
    requires n <= |schema.groups|
    decreases schema, 2
  {
    exists j :: 0 <= j < n && FieldsReport(schema.groups[j], |schema.groups[j].fields|, members, path, e)
  }

  /** An entry under a key that is no field. */
  predicate UnknownReports(schema: Schema, m: Member, path: seq<Step>, e: Error) {
    !KnownKey(schema, m.key) && e == Error(path + [Key(m.key)], UnknownField)
  }

  ghost predicate UnknownsReport(schema: Schema, members: seq<Member>, n: nat, path: seq<Step>, e: Error)
    requires n <= |members|
  {
    exists i :: 0 <= i < n && UnknownReports(schema, members[i], path, e)
  }

  /** An error of a value against a schema. */
  ghost predicate Reported(schema: Schema, value: Json, path: seq<Step>, e: Error)
    decreases schema, 3
  {
    if !value.Object? then e == Error(path, InvalidType)
    else
      || FieldsReport(schema, |schema.fields|, value.members, path, e)
      || GroupsReport(schema, |schema.groups|, value.members, path, e)
      || UnknownsReport(schema, value.members, |value.members|, path, e)
  }

  // ----- The list has exactly these -----

  lemma IfHas(condition: bool, error: Error, e: Error)
    ensures e in If(condition, error) <==> condition && e == error
  {
  }

  lemma TypesAgree(kind: Kind, value: Json)
    ensures WrongType(kind, value) <==> !TypeOk(kind, value)
  {
  }

  lemma PlainHas(field: Field, value: Json, at: seq<Step>, e: Error)
    requires !WrongType(field.kind, value) && TypeOk(field.kind, value)
    ensures e in ErrorsOfPlain(field, value, at) <==> PlainReports(field, value, at, e)
  {
    if value.Str? {
      UrlMeans(value.text);
    }
  }

  lemma {:induction false} ItemsHave(field: Field, items: seq<Json>, n: nat, at: seq<Step>, e: Error)
    requires n <= |items|
    ensures e in ErrorsOfItems(field, items, n, at) <==> ItemsReport(field, items, n, at, e)
    decreases field, 0, n
  {
    if n > 0 {
      ItemsHave(field, items, n - 1, at, e);
      ErrorsHave(field.itemSchema, items[n - 1], at + [Index(n - 1)], e);
    }
  }

  lemma {:induction false} FieldHas(field: Field, members: seq<Member>, path: seq<Step>, e: Error)
    ensures e in ErrorsOfField(field, members, path) <==> FieldReports(field, members, path, e)
    decreases field, 1
  {
    var found, at := Find(members, field.key), path + [Key(field.key)];
    if found.Some? && found.value.Array? {
      ItemsHave(field, found.value.items, |found.value.items|, at, e);
    }
    if found.Some? {
      TypesAgree(field.kind, found.value);
      if TypeOk(field.kind, found.value) {
        PlainHas(field, found.value, at, e);
      }
    }
  }

  lemma {:induction false} FieldsHave(group: Schema, n: nat, members: seq<Member>, path: seq<Step>, e: Error)
    requires n <= |group.fields|
    ensures e in ErrorsOfFields(group, n, members, path) <==> FieldsReport(group, n, members, path, e)
    decreases group, 1, n
  {
    if n > 0 {
      FieldsHave(group, n - 1, members, path, e);
      FieldHas(group.fields[n - 1], members, path, e);
    }
  }

  lemma {:induction false} GroupHas(group: Schema, members: seq<Member>, path: seq<Step>, e: Error)
    ensures e in GroupErrors(group, members, path) <==> FieldsReport(group, |group.fields|, members, path, e)
    decreases group, 1, |group.fields| + 1
  {
    FieldsHave(group, |group.fields|, members, path, e);
  }

  lemma {:induction false} GroupsHave(schema: Schema, n: nat, members: seq<Member>, path: seq<Step>, e: Error)
    requires n <= |schema.groups|
    ensures e in ErrorsOfGroups(schema, n, members, path) <==> GroupsReport(schema, n, members, path, e)
    decreases schema, 2, n
  {
    if n > 0 {
      GroupsHave(schema, n - 1, members, path, e);
      GroupHas(schema.groups[n - 1], members, path, e);
    }
  }

  lemma {:induction false} UnknownHas(schema: Schema, members: seq<Member>, n: nat, path: seq<Step>, e: Error)
    requires n <= |members|
    ensures e in Unknown(schema, members, n, path) <==> UnknownsReport(schema, members, n, path, e)
    decreases n
  {
    if n > 0 {
      UnknownHas(schema, members, n - 1, path, e);
      IfHas(!KnownKey(schema, members[n - 1].key), Error(path + [Key(members[n - 1].key)], UnknownField), e);
    }
  }

  /** For every schema, value and path, an error is in the list if and only if its path and code are those of a condition
      that fails: the list is right in every entry. */
  lemma {:induction false} ErrorsHave(schema: Schema, value: Json, path: seq<Step>, e: Error)
    ensures e in Errors(schema, value, path) <==> Reported(schema, value, path, e)
    decreases schema, 3
  {
    if value.Object? {
      GroupHas(schema, value.members, path, e);
      GroupsHave(schema, |schema.groups|, value.members, path, e);
      UnknownHas(schema, value.members, |value.members|, path, e);
    }
  }

  // ----- Errors lie below their path -----

  predicate Below(path: seq<Step>, e: Error) {
    |path| <= |e.path| && e.path[..|path|] == path
  }

  lemma {:induction false} FieldBelow(field: Field, members: seq<Member>, path: seq<Step>, e: Error)
    requires FieldReports(field, members, path, e)
    ensures Below(path + [Key(field.key)], e)
    decreases field, 1
  {
    var found, at := Find(members, field.key), path + [Key(field.key)];
    if found.Some? && found.value.Array? && field.kind.ArrayGroup? &&
       ItemsReport(field, found.value.items, |found.value.items|, at, e) {
      ItemsBelow(field, found.value.items, at, e);
    }
  }

  lemma {:induction false} ItemsBelow(field: Field, items: seq<Json>, at: seq<Step>, e: Error)
    requires ItemsReport(field, items, |items|, at, e)
    ensures Below(at, e) && |e.path| > |at|
    decreases field, 0
  {
    var i :| 0 <= i < |items| && Reported(field.itemSchema, items[i], at + [Index(i)], e);
    ReportedBelow(field.itemSchema, items[i], at + [Index(i)], e);
    Shorten(at, Index(i), e);
  }

  lemma Shorten(path: seq<Step>, step: Step, e: Error)
    requires Below(path + [step], e)
    ensures Below(path, e) && |e.path| > |path|
  {
    assert e.path[..|path|] == e.path[..|path| + 1][..|path|];
  }

  lemma {:induction false} FieldsBelow(group: Schema, members: seq<Member>, path: seq<Step>, e: Error)
    requires FieldsReport(group, |group.fields|, members, path, e)
    ensures Below(path, e)
    decreases group, 1
  {
    var i :| 0 <= i < |group.fields| && FieldReports(group.fields[i], members, path, e);
    FieldBelow(group.fields[i], members, path, e);
    Shorten(path, Key(group.fields[i].key), e);
  }

  /** Every error of a value has the value's path for a beginning. */
  lemma {:induction false} ReportedBelow(schema: Schema, value: Json, path: seq<Step>, e: Error)
    requires Reported(schema, value, path, e)
    ensures Below(path, e)
    decreases schema, 3
  {
    if value.Object? {
      if FieldsReport(schema, |schema.fields|, value.members, path, e) {
        FieldsBelow(schema, value.members, path, e);
      } else if GroupsReport(schema, |schema.groups|, value.members, path, e) {
        var j :| 0 <= j < |schema.groups| &&
                 FieldsReport(schema.groups[j], |schema.groups[j].fields|, value.members, path, e);
        FieldsBelow(schema.groups[j], value.members, path, e);
      } else {
        var i :| 0 <= i < |value.members| && UnknownReports(schema, value.members[i], path, e);
        Shorten(path, Key(value.members[i].key), e);
      }
    }
  }

  // ----- What the defaults hold -----

  /** The field puts the last entry of its key into the defaults. */
  ghost predicate LastContributor(fields: seq<Field>, i: nat) {
    && i < |fields| && Contributes(fields[i])
    && forall j :: i < j < |fields| && Contributes(fields[j]) ==> fields[j].key != fields[i].key
  }

  /** The value a contributing field has by default. */
  predicate DefaultsTo(field: Field, value: Json) {
    if field.default_.Some? then value == field.default_.value
    else
      && value.Array? && |value.items| == (if field.minItems > 0 then field.minItems else 0)
      && forall k :: 0 <= k < |value.items| ==> value.items[k] == Object(Defaults(field.itemSchema))
  }

  lemma {:induction false} LastEntryFound(fields: seq<Field>, i: nat, none: seq<Member>)
    requires LastContributor(fields, i) && none == []
    ensures var found := Find(PutAll(none, DefaultEntries(fields)), fields[i].key);
      found.Some? && DefaultsTo(fields[i], found.value)
    decreases |fields|
  {
    var front, last := fields[..|fields| - 1], fields[|fields| - 1];
    var before := PutAll(none, DefaultEntries(front));
    PutAllConcat(none, DefaultEntries(front), DefaultEntry(last));
    PutAllOne(before, DefaultEntry(last));
    if DefaultEntry(last) != [] {
      FindPut(before, last.key, DefaultEntry(last)[0].value, fields[i].key);
    }
    if i < |fields| - 1 {
      LastEntryFound(front, i, none);
    }
  }

  /** Among all fields of all groups, the last one that contributes to a key decides its default: the default given, or, for
      an array group without one, as many default items as it asks for at least. */
  lemma DefaultFound(schema: Schema, i: nat)
    requires LastContributor(CollectFields(schema), i)
    ensures var field := CollectFields(schema)[i];
      var found := Find(Defaults(schema), field.key); found.Some? && DefaultsTo(field, found.value)
  {
    var none: seq<Member> := [];
    DefaultsArePuts(schema, none);
    LastEntryFound(CollectFields(schema), i, none);
  }

  /** So the defaults of an array group without a default have the wrong number of items if and only if the field allows
      fewer at most than it asks for at least. */
  lemma DefaultItemCount(schema: Schema, i: nat, path: seq<Step>)
    requires LastContributor(CollectFields(schema), i)
    requires var field := CollectFields(schema)[i]; field.kind.ArrayGroup? && field.default_.None?
    ensures var field := CollectFields(schema)[i];
      Error(path + [Key(field.key)], ItemCount) in ErrorsOfField(field, Defaults(schema), path) <==>
      field.maxItems.Some? && field.maxItems.value < if field.minItems > 0 then field.minItems else 0
  {
    var field, members := CollectFields(schema)[i], Defaults(schema);
    var at := path + [Key(field.key)];
    var e := Error(at, ItemCount);
    DefaultFound(schema, i);
    FieldHas(field, members, path, e);
    var items := Find(members, field.key).value.items;
    if ItemsReport(field, items, |items|, at, e) {
      ItemsBelow(field, items, at, e);
    }
  }
}

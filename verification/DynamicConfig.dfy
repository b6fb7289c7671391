/** Project-scoped configuration (src/DynamicConfigManager.cpp): schemas and values in memory and in the database.

    The class keeps the two maps of the source and the stored table; `State` is its value, and each method is proved
    against a function on states. Runs are sequences of those functions. */
module DynamicConfig {
  import opened Bytes
  import opened Json
  import opened ConfigSchema

  const MASKED := "********"

  type Project = string

  datatype Row = Row(schema: Schema, values: Json)

  datatype State = State(schemas: map<Project, Schema>, values: map<Project, Json>, table: map<Project, Row>)

  datatype Failure = BadInput | Unavailable | NotFound | NotValid(errors: seq<Error>) | NotSaved | Thrown

  datatype Result = Done | Failed(failure: Failure)

  // ----- Masks and documents -----

  /** What Values(mask) shows: every secret field's value replaced. */
  function Masked(members: seq<Member>, fields: seq<Field>): seq<Member> {
    if fields == [] then members else
      var before, f := Masked(members, fields[..|fields| - 1]), fields[|fields| - 1];
      if IsSecret(f) && Find(before, f.key).Some? then Put(before, f.key, Str(MASKED)) else before
  }

  /** SetValues asks the last field of a key whether it is secret. */
  function LastSecret(fields: seq<Field>, key: string): bool {
    if fields == [] then false
    else if fields[|fields| - 1].key == key then IsSecret(fields[|fields| - 1])
    else LastSecret(fields[..|fields| - 1], key)
  }

  /** Values masks a key if any field of that key is secret. */
  predicate AnySecret(fields: seq<Field>, key: string) {
    exists i :: 0 <= i < |fields| && fields[i].key == key && IsSecret(fields[i])
  }

  function Prefixed(prefix: string, key: string): string {
    if prefix == "" then key else prefix + "." + key
  }

  /** flatten: the first n members of an object, below a prefix, on top of what is there. */
  function Flatten(node: Json, n: nat, prefix: string, flat: seq<Member>): seq<Member>
    requires node.Object? && n <= |node.members|
    decreases node, n
  {
    if n == 0 then flat else
      var before, m := Flatten(node, n - 1, prefix, flat), node.members[n - 1];
      if m.value.Object? then Flatten(m.value, |m.value.members|, Prefixed(prefix, m.key), before)
      else Put(before, Prefixed(prefix, m.key), m.value)
  }

  function Flat(document: Json): seq<Member>
    requires document.Object?
  {
    Flatten(document, |document.members|, "", [])
  }

  /** The first n entries of a flat document over the stored values; a masked secret is left alone. */
  function Merged(members: seq<Member>, fields: seq<Field>, flat: seq<Member>, n: nat): seq<Member>
    requires n <= |flat|
  {
    if n == 0 then members else
      var before, m := Merged(members, fields, flat, n - 1), flat[n - 1];
      if LastSecret(fields, m.key) && m.value == Str(MASKED) then before else Put(before, m.key, m.value)
  }

  // ----- Operations on states -----

  function Loaded(s: State, project: Project, available: bool): State {
    if project in s.schemas || !available || project !in s.table then s
    else s.(schemas := s.schemas[project := s.table[project].schema],
            values := s.values[project := s.table[project].values])
  }

  /** The loop of RegisterSchema over the stored values: a kept entry is written under its own key. */
  function Spilled(values: map<Project, Json>, members: seq<Member>, fields: seq<Field>, n: nat): map<Project, Json>
    requires n <= |members|
  {
    if n == 0 then values else
      var before, m := Spilled(values, members, fields, n - 1), members[n - 1];
      if HasKey(fields, m.key) then before[m.key := m.value] else before
  }

  function AfterSpill(s: State, project: Project, schema: Schema): map<Project, Json> {
    if project in s.values && s.values[project].Object? then
      var members := s.values[project].members;
      Spilled(s.values, members, CollectFields(schema), |members|)
    else s.values
  }

  function Registered(s: State, project: Project, schema: Schema, available: bool, saved: bool): (State, Result) {
    if project == "" || schema.isNull then (s, Failed(BadInput))
    else if !available then (s, Failed(Unavailable))
    else
      var l := Loaded(s, project, available);
      var defaults := Object(Defaults(schema));
      var spilled := l.(values := AfterSpill(l, project, schema));
      var errors := Errors(schema, defaults, []);
      if errors != [] then (spilled, Failed(NotValid(errors)))
      else if !saved then (spilled, Failed(NotSaved))
      else
        (State(l.schemas[project := Strip(schema)], spilled.values[project := defaults],
               l.table[project := Row(Strip(schema), defaults)]), Done)
  }

  /** The stored value with a flat document merged in; None where the source's indexing throws, because the stored value
      is neither an object nor null and there is something to store. */
  function Next(base: Json, fields: seq<Field>, flat: seq<Member>): Option<Json> {
    if base.Object? then Some(Object(Merged(base.members, fields, flat, |flat|)))
    else
      var fresh_ := Merged([], fields, flat, |flat|);
      if fresh_ == [] then Some(base) else if base.Null? then Some(Object(fresh_)) else None
  }

  function Updated(s: State, project: Project, document: Json, available: bool, saved: bool): (State, Result) {
    var l := Loaded(s, project, available);
    if project !in l.schemas || !document.Object? then (l, Failed(NotFound))
    else
      var base := if project in l.values then l.values[project] else Null;
      var touched := l.(values := l.values[project := base]);
      var next := Next(base, CollectFields(l.schemas[project]), Flat(document));
      if next.None? then (touched, Failed(Thrown))
      else
        var errors := Errors(l.schemas[project], next.value, []);
        if errors != [] then (touched, Failed(NotValid(errors)))
        else if l.schemas[project].isNull then (touched, Failed(Thrown))
        else if !available || !saved then (touched, Failed(NotSaved))
        else
          (l.(values := l.values[project := next.value],
              table := l.table[project := Row(l.schemas[project], next.value)]), Done)
  }

  /** What reading a project's values does to memory: a masked read looks the schema up by indexing, which inserts a null
      schema for a name that has values and no schema. */
  function Read(s: State, project: Project, mask: bool, available: bool): State {
    var l := Loaded(s, project, available);
    if mask && project in l.values && project !in l.schemas
    then l.(schemas := l.schemas[project := NULL_SCHEMA]) else l
  }

  /** What the read shows: null for a name without values. */
  function View(s: State, project: Project, mask: bool, available: bool): Json {
    var r := Read(s, project, mask, available);
    if project !in r.values then Null
    else if mask && r.values[project].Object? && project in r.schemas
    then Object(Masked(r.values[project].members, CollectFields(r.schemas[project])))
    else r.values[project]
  }

  // ----- The class -----

  class Manager {
    var schemas: map<Project, Schema>
    var values: map<Project, Json>
    var table: map<Project, Row>

    ghost function Value(): State
      reads this
    {
      State(schemas, values, table)
    }

    constructor (table: map<Project, Row>)
      ensures Value() == State(map[], map[], table)
    {
      schemas, values, this.table := map[], map[], table;
    }

    method LoadProject(project: Project, available: bool)
      modifies this`schemas, this`values
      ensures Value() == Loaded(old(Value()), project, available)
    {
      if project in schemas || !available {
        return;
      }
      if project in table {
        schemas := schemas[project := table[project].schema];
        values := values[project := table[project].values];
      }
    }

    method RegisterSchema(project: Project, schema: Schema, available: bool, saved: bool) returns (result: Result)
      modifies this
      ensures (Value(), result) == Registered(old(Value()), project, schema, available, saved)
    {
      if project == "" || schema.isNull {
        return Failed(BadInput);
      }
      if !available {
        return Failed(Unavailable);
      }
      LoadProject(project, available);
      ghost var l := Value();
      var defaults := Object(Defaults(schema));
      if project in values && values[project].Object? {
        var fields, members := CollectFields(schema), values[project].members;
        var i := 0;
        while i < |members|
          invariant 0 <= i <= |members| && schemas == l.schemas && table == l.table
          invariant values == Spilled(l.values, members, fields, i)
        {
          if HasKey(fields, members[i].key) {
            values := values[members[i].key := members[i].value];
          }
          i := i + 1;
        }
      }
      var errors := Errors(schema, defaults, []);
      if errors != [] {
        return Failed(NotValid(errors));
      }
      if !saved {
        return Failed(NotSaved);
      }
      table := table[project := Row(Strip(schema), defaults)];
      schemas := schemas[project := Strip(schema)];
      values := values[project := defaults];
      return Done;
    }

    method Values(project: Project, mask: bool, available: bool) returns (shown: Json)
      modifies this`schemas, this`values
      ensures Value() == Read(old(Value()), project, mask, available)
      ensures shown == View(old(Value()), project, mask, available)
    {
      LoadProject(project, available);
      if project !in values {
        return Null;
      }
      shown := values[project];
      if mask {
        if project !in schemas {
          schemas := schemas[project := NULL_SCHEMA];
        }
        shown := Mask(shown, CollectFields(schemas[project]));
      }
    }

    method SetValues(project: Project, document: Json, available: bool, saved: bool) returns (result: Result)
      modifies this
      ensures (Value(), result) == Updated(old(Value()), project, document, available, saved)
    {
      LoadProject(project, available);
      if project !in schemas || !document.Object? {
        return Failed(NotFound);
      }
      if project !in values {
        values := values[project := Null];
      }
      ghost var before := Loaded(old(Value()), project, available).values;
      assert values == before[project := values[project]];
      var next := Merge(values[project], CollectFields(schemas[project]), Flat(document));
      if next.None? {
        return Failed(Thrown);
      }
      var errors := Errors(schemas[project], next.value, []);
      if errors != [] {
        return Failed(NotValid(errors));
      }
      if schemas[project].isNull {
        return Failed(Thrown);
      }
      if !available || !saved {
        return Failed(NotSaved);
      }
      table := table[project := Row(schemas[project], next.value)];
      values := values[project := next.value];
      assert values == before[project := next.value];
      return Done;
    }
  }

  lemma {:induction false} MergedStaysNonempty(fields: seq<Field>, flat: seq<Member>, m: nat, n: nat, none: seq<Member>)
    requires m <= n <= |flat| && none == [] && Merged(none, fields, flat, m) != []
    ensures Merged(none, fields, flat, n) != []
    decreases n
  {
    if m < n {
      MergedStaysNonempty(fields, flat, m, n - 1, none);
    }
  }

  /** The merging loop of SetValues. */
  method Merge(base: Json, fields: seq<Field>, flat: seq<Member>) returns (next: Option<Json>)
    ensures next == Next(base, fields, flat)
  {
    var value := base;
    ghost var none: seq<Member> := [];
    var i := 0;
    while i < |flat|
      invariant 0 <= i <= |flat|
      invariant base.Object? ==> value == Object(Merged(base.members, fields, flat, i))
      invariant !base.Object? && Merged(none, fields, flat, i) == [] ==> value == base
      invariant !base.Object? && Merged(none, fields, flat, i) != [] ==>
        base.Null? && value == Object(Merged(none, fields, flat, i))
    {
      var secret := IsLastSecret(fields, flat[i].key);
      if !(secret && flat[i].value == Str(MASKED)) {
        if !value.Object? && !value.Null? {
          MergedStaysNonempty(fields, flat, i + 1, |flat|, none);
          return None;
        }
        value := Object(Put(if value.Object? then value.members else [], flat[i].key, flat[i].value));
      }
      i := i + 1;
    }
    return Some(value);
  }

  /** The masking loop of Values. */
  method Mask(value: Json, fields: seq<Field>) returns (shown: Json)
    ensures shown == if value.Object? then Object(Masked(value.members, fields)) else value
  {
    if !value.Object? {
      return value;
    }
    var members := value.members;
    var i := 0;
    while i < |fields|
      invariant 0 <= i <= |fields| && members == Masked(value.members, fields[..i])
    {
      assert fields[..i + 1][..i] == fields[..i];
      if IsSecret(fields[i]) && Find(members, fields[i].key).Some? {
        members := Put(members, fields[i].key, Str(MASKED));
      }
      i := i + 1;
    }
    assert fields[..i] == fields;
    return Object(members);
  }

  method IsLastSecret(fields: seq<Field>, key: string) returns (secret: bool)
    ensures secret == LastSecret(fields, key)
  {
    secret := false;
    var i := 0;
    while i < |fields|
      invariant 0 <= i <= |fields| && secret == LastSecret(fields[..i], key)
    {
      assert fields[..i + 1][..i] == fields[..i];
      if fields[i].key == key {
        secret := IsSecret(fields[i]);
      }
      i := i + 1;
    }
    assert fields[..i] == fields;
  }

  // ----- Nested and dotted documents -----

  predicate NoObjects(members: seq<Member>) {
    forall i :: 0 <= i < |members| ==> !members[i].value.Object?
  }

  lemma {:induction false} PutNoObject(members: seq<Member>, key: string, value: Json)
    requires NoObjects(members) && !value.Object?
    ensures NoObjects(Put(members, key, value))
  {
    if members != [] && members[0].key != key {
      PutNoObject(members[1..], key, value);
    }
  }

  lemma {:induction false} FlattenIsFlat(node: Json, n: nat, prefix: string, flat: seq<Member>)
    requires node.Object? && n <= |node.members| && NoObjects(flat) && Unique(flat)
    ensures NoObjects(Flatten(node, n, prefix, flat)) && Unique(Flatten(node, n, prefix, flat))
    decreases node, n
  {
    if n > 0 {
      var before, m := Flatten(node, n - 1, prefix, flat), node.members[n - 1];
      FlattenIsFlat(node, n - 1, prefix, flat);
      if m.value.Object? {
        FlattenIsFlat(m.value, |m.value.members|, Prefixed(prefix, m.key), before);
      } else {
        PutNoObject(before, Prefixed(prefix, m.key), m.value);
        PutUnique(before, Prefixed(prefix, m.key), m.value);
      }
    }
  }

  lemma {:induction false} FlattenFlat(members: seq<Member>, n: nat, none: seq<Member>)
    requires NoObjects(members) && Unique(members) && n <= |members| && none == []
    ensures Flatten(Object(members), n, "", none) == members[..n]
    decreases n
  {
    if n > 0 {
      FlattenFlat(members, n - 1, none);
      PutNew(members[..n - 1], members[n - 1].key, members[n - 1].value);
      assert members[..n - 1] + [members[n - 1]] == members[..n];
    }
  }

  /** Flattening ends with no objects and one entry per key, and flattening again changes nothing. */
  lemma FlatIsNormal(document: Json)
    requires document.Object?
    ensures NoObjects(Flat(document)) && Unique(Flat(document))
    ensures Flat(Object(Flat(document))) == Flat(document)
  {
    var none: seq<Member> := [];
    FlattenIsFlat(document, |document.members|, "", none);
    var flat := Flat(document);
    FlattenFlat(flat, |flat|, none);
    assert flat[..|flat|] == flat;
  }

  /** A nested document has the same effect and the same answer as its dotted form, in every state. */
  lemma NestedIsDotted(s: State, project: Project, document: Json, available: bool, saved: bool)
    requires document.Object?
    ensures Updated(s, project, document, available, saved) ==
            Updated(s, project, Object(Flat(document)), available, saved)
  {
    FlatIsNormal(document);
  }

  // ----- What flattening and merging mean -----

  /** A path of positions from an object down to a value that is not an object. */
  predicate IsLeaf(node: Json, path: seq<nat>)
    decreases |path|
  {
    && node.Object? && path != [] && path[0] < |node.members|
    && var value := node.members[path[0]].value;
       if |path| == 1 then !value.Object? else IsLeaf(value, path[1..])
  }

  /** The keys along a path, joined with dots. */
  function LeafKey(node: Json, path: seq<nat>, prefix: string): string
    requires IsLeaf(node, path)
    decreases |path|
  {
    var m := node.members[path[0]];
    if |path| == 1 then Prefixed(prefix, m.key) else LeafKey(m.value, path[1..], Prefixed(prefix, m.key))
  }

  function LeafValue(node: Json, path: seq<nat>): Json
    requires IsLeaf(node, path)
    decreases |path|
  {
    var m := node.members[path[0]];
    if |path| == 1 then m.value else LeafValue(m.value, path[1..])
  }

  /** Document order: p comes before q. */
  predicate Before(p: seq<nat>, q: seq<nat>)
    decreases |p|
  {
    p != [] && q != [] && (p[0] < q[0] || (p[0] == q[0] && Before(p[1..], q[1..])))
  }

  /** A leaf among the first n members whose path has the dotted key. */
  ghost predicate LeafFor(node: Json, n: nat, prefix: string, path: seq<nat>, key: string) {
    IsLeaf(node, path) && path[0] < n && LeafKey(node, path, prefix) == key
  }

  ghost predicate NoLeafFor(node: Json, n: nat, prefix: string, key: string) {
    forall q :: !LeafFor(node, n, prefix, q, key)
  }

  /** The last leaf in document order that has the key. */
  ghost predicate LastLeafFor(node: Json, n: nat, prefix: string, path: seq<nat>, key: string) {
    LeafFor(node, n, prefix, path, key) && forall q :: LeafFor(node, n, prefix, q, key) ==> !Before(path, q)
  }

  /** A leaf of a member that is an object is a leaf of that object. */
  lemma LeafBelow(node: Json, n: nat, prefix: string, q: seq<nat>, key: string)
    requires node.Object? && 0 < n <= |node.members| && q != [] && q[0] == n - 1
    ensures var m := node.members[n - 1];
      LeafFor(node, n, prefix, q, key) <==>
      if m.value.Object?
      then LeafFor(m.value, |m.value.members|, Prefixed(prefix, m.key), q[1..], key)
      else |q| == 1 && Prefixed(prefix, m.key) == key
  {
    var m := node.members[n - 1];
    if |q| == 1 {
      assert q[1..] == [];
    } else {
      assert IsLeaf(node, q) <==> IsLeaf(m.value, q[1..]);
    }
  }

  lemma LeafEarlier(node: Json, n: nat, prefix: string, q: seq<nat>, key: string)
    requires node.Object? && 0 < n <= |node.members|
    ensures LeafFor(node, n, prefix, q, key) <==>
            LeafFor(node, n - 1, prefix, q, key) || (q != [] && q[0] == n - 1 && LeafFor(node, n, prefix, q, key))
  {
  }

  lemma LastBelow(node: Json, n: nat, prefix: string, inner: seq<nat>, key: string)
    requires node.Object? && 0 < n <= |node.members| && node.members[n - 1].value.Object?
    requires var m := node.members[n - 1]; LastLeafFor(m.value, |m.value.members|, Prefixed(prefix, m.key), inner, key)
    ensures LastLeafFor(node, n, prefix, [n - 1] + inner, key)
    ensures LeafValue(node, [n - 1] + inner) == LeafValue(node.members[n - 1].value, inner)
  {
    var path := [n - 1] + inner;
    assert path[1..] == inner;
    LeafBelow(node, n, prefix, path, key);
    forall q | LeafFor(node, n, prefix, q, key) ensures !Before(path, q) {
      if q[0] == n - 1 {
        LeafBelow(node, n, prefix, q, key);
      }
    }
  }

  lemma LastHere(node: Json, n: nat, prefix: string, key: string)
    requires node.Object? && 0 < n <= |node.members| && !node.members[n - 1].value.Object?
    requires Prefixed(prefix, node.members[n - 1].key) == key
    ensures LastLeafFor(node, n, prefix, [n - 1], key) && LeafValue(node, [n - 1]) == node.members[n - 1].value
  {
    var path := [n - 1];
    LeafBelow(node, n, prefix, path, key);
    forall q | LeafFor(node, n, prefix, q, key) ensures !Before(path, q) {
      if q[0] == n - 1 {
        LeafBelow(node, n, prefix, q, key);
        assert path[1..] == [];
      }
    }
  }

  /** Where the last member has no leaf for the key, nothing changes. */
  lemma LastBefore(node: Json, n: nat, prefix: string, path: seq<nat>, key: string, hit: bool)
    requires node.Object? && 0 < n <= |node.members|
    requires var m := node.members[n - 1];
      if m.value.Object? then NoLeafFor(m.value, |m.value.members|, Prefixed(prefix, m.key), key)
      else Prefixed(prefix, m.key) != key
    requires if hit then LastLeafFor(node, n - 1, prefix, path, key) else NoLeafFor(node, n - 1, prefix, key)
    ensures if hit then LastLeafFor(node, n, prefix, path, key) else NoLeafFor(node, n, prefix, key)
  {
    forall q ensures LeafFor(node, n, prefix, q, key) <==> LeafFor(node, n - 1, prefix, q, key) {
      LeafEarlier(node, n, prefix, q, key);
      if q != [] && q[0] == n - 1 {
        LeafBelow(node, n, prefix, q, key);
      }
    }
  }

  /** What flattening leaves under a key: the last leaf with that dotted path, or what was there if there is none. */
  lemma {:induction false} FlattenLast(node: Json, n: nat, prefix: string, flat: seq<Member>, key: string)
      returns (hit: bool, path: seq<nat>)
    requires node.Object? && n <= |node.members|
    ensures hit ==> LastLeafFor(node, n, prefix, path, key)
    ensures hit ==> Find(Flatten(node, n, prefix, flat), key) == Some(LeafValue(node, path))
    ensures !hit ==> NoLeafFor(node, n, prefix, key) && Find(Flatten(node, n, prefix, flat), key) == Find(flat, key)
    decreases node, n
  {
    hit, path := false, [];
    if n > 0 {
      var before, m := Flatten(node, n - 1, prefix, flat), node.members[n - 1];
      var below := Prefixed(prefix, m.key);
      hit, path := FlattenLast(node, n - 1, prefix, flat, key);
      if m.value.Object? {
        var hit', inner := FlattenLast(m.value, |m.value.members|, below, before, key);
        if hit' {
          LastBelow(node, n, prefix, inner, key);
          hit, path := true, [n - 1] + inner;
        } else {
          LastBefore(node, n, prefix, path, key, hit);
        }
      } else {
        FindPut(before, below, m.value, key);
        if below == key {
          LastHere(node, n, prefix, key);
          hit, path := true, [n - 1];
        } else {
          LastBefore(node, n, prefix, path, key, hit);
        }
      }
    }
  }

  /** The last leaf of a document with a dotted path. */
  ghost predicate LastLeaf(document: Json, path: seq<nat>, key: string)
    requires document.Object?
  {
    LastLeafFor(document, |document.members|, "", path, key)
  }

  /** A flat document has an entry for a dotted key exactly when some leaf of the document has that path, and its value is
      that of the last such leaf in document order. */
  lemma FlatMeaning(document: Json, key: string)
    requires document.Object?
    ensures Find(Flat(document), key).None? <==> NoLeafFor(document, |document.members|, "", key)
    ensures Find(Flat(document), key).Some? ==>
      exists path :: LastLeaf(document, path, key) && LeafValue(document, path) == Find(Flat(document), key).value
  {
    var none: seq<Member> := [];
    var hit, path := FlattenLast(document, |document.members|, "", none, key);
    if hit {
      assert LastLeaf(document, path, key) && LeafFor(document, |document.members|, "", path, key);
    }
  }

  lemma {:induction false} FindAppend(members: seq<Member>, m: Member, key: string)
    ensures Find(members + [m], key) ==
            if Find(members, key).Some? then Find(members, key) else if m.key == key then Some(m.value) else None
  {
    if members == [] {
      assert members + [m] == [m] && [m][1..] == [];
    } else if members[0].key != key {
      FindAppend(members[1..], m, key);
      assert (members + [m])[1..] == members[1..] + [m];
    }
  }

  /** The value a key has after merging: the incoming one, unless there is none or it is the mask of a secret. */
  function Chosen(stored: Option<Json>, incoming: Option<Json>, secret: bool): Option<Json> {
    if incoming.None? || (secret && incoming.value == Str(MASKED)) then stored else incoming
  }

  lemma {:induction false} MergedFind(members: seq<Member>, fields: seq<Field>, flat: seq<Member>, n: nat, key: string)
    requires n <= |flat| && Unique(flat)
    ensures Find(Merged(members, fields, flat, n), key) ==
            Chosen(Find(members, key), Find(flat[..n], key), LastSecret(fields, key))
    decreases n
  {
    if n > 0 {
      var before, m := Merged(members, fields, flat, n - 1), flat[n - 1];
      MergedFind(members, fields, flat, n - 1, key);
      assert flat[..n] == flat[..n - 1] + [m];
      FindAppend(flat[..n - 1], m, key);
      FindPut(before, m.key, m.value, key);
      if m.key == key {
        FindNone(flat[..n - 1], key);
      }
    }
  }

  /** The entries a project has stored. */
  function StoredIn(l: State, project: Project): seq<Member> {
    if project in l.values && l.values[project].Object? then l.values[project].members else []
  }

  lemma DoneMeansObject(s: State, project: Project, document: Json, saved: bool)
    requires Updated(s, project, document, true, saved).1 == Done
    ensures var l := Loaded(s, project, true); var s' := Updated(s, project, document, true, saved).0;
      && project in l.schemas && document.Object? && s'.schemas == l.schemas
      && s'.values == l.values[project := Object(
           Merged(StoredIn(l, project), CollectFields(l.schemas[project]), Flat(document), |Flat(document)|))]
  {
  }

  /** A successful update, from any state, gives every key the incoming value, or leaves it as it was where the document has
      none or sends back the mask of a secret; every other project stays as it was. */
  lemma UpdateMeaning(s: State, project: Project, document: Json, saved: bool, key: string)
    requires Updated(s, project, document, true, saved).1 == Done
    ensures var l := Loaded(s, project, true); var after := Updated(s, project, document, true, saved).0.values;
      && project in l.schemas && document.Object? && project in after && after[project].Object?
      && after == l.values[project := after[project]]
      && Find(after[project].members, key) ==
         Chosen(Find(StoredIn(l, project), key), Find(Flat(document), key),
                LastSecret(CollectFields(l.schemas[project]), key))
  {
    var l, flat := Loaded(s, project, true), Flat(document);
    DoneMeansObject(s, project, document, saved);
    FlatIsNormal(document);
    MergedFind(StoredIn(l, project), CollectFields(l.schemas[project]), flat, |flat|, key);
    assert flat[..|flat|] == flat;
  }

  // ----- Merging and the order of members -----

  lemma {:induction false} MergedUnique(members: seq<Member>, fields: seq<Field>, flat: seq<Member>, n: nat)
    requires n <= |flat| && Unique(members)
    ensures Unique(Merged(members, fields, flat, n))
    decreases n
  {
    if n > 0 {
      MergedUnique(members, fields, flat, n - 1);
      PutUnique(Merged(members, fields, flat, n - 1), flat[n - 1].key, flat[n - 1].value);
    }
  }

  lemma {:induction false} MergedGrows(members: seq<Member>, fields: seq<Field>, flat: seq<Member>, n: nat)
    requires n <= |flat|
    ensures var merged := Merged(members, fields, flat, n);
      |members| <= |merged| && forall i :: 0 <= i < |members| ==> members[i].key == merged[i].key
    decreases n
  {
    if n > 0 {
      MergedGrows(members, fields, flat, n - 1);
      PutShape(Merged(members, fields, flat, n - 1), flat[n - 1].key, flat[n - 1].value);
    }
  }

  /** Whether an update changes the stored object does not depend on the order in which the model lists its members. */
  lemma MergedSameObject(members: seq<Member>, fields: seq<Field>, flat: seq<Member>, n: nat)
    requires n <= |flat| && Unique(members)
    ensures Merged(members, fields, flat, n) == members <==> SameObject(members, Merged(members, fields, flat, n))
  {
    MergedGrows(members, fields, flat, n);
    MergedUnique(members, fields, flat, n);
    SameObjectSameList(members, Merged(members, fields, flat, n));
  }
}

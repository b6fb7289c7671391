/** Every run of registrations, updates and reads (src/DynamicConfigManager.cpp): when the stored values stay valid and
    saved, what registering again keeps, and what a read can show. */
module ConfigRuns {
  import opened Bytes
  import opened Json
  import opened ConfigSchema
  import opened DynamicConfig
  import opened ConfigMasking

  // ----- Valid values -----

  /** Values that satisfy a schema, as an object with one entry per key. */
  ghost predicate Ok(schema: Schema, values: Json) {
    values.Object? && Valid(schema, values) && Unique(values.members)
  }

  ghost predicate ProjectOk(s: State, p: Project) {
    p in s.schemas ==> p in s.values && Ok(s.schemas[p], s.values[p])
  }

  ghost predicate RowOk(s: State, p: Project) {
    p in s.table ==> !s.table[p].schema.isNull && Ok(s.table[p].schema, s.table[p].values)
  }

  ghost predicate Consistent(s: State) {
    forall p :: ProjectOk(s, p)
  }

  ghost predicate TableOk(s: State) {
    forall p :: RowOk(s, p)
  }

  lemma {:induction false} FieldDefaultsUnique(schema: Schema, n: nat)
    requires n <= |schema.fields|
    ensures Unique(DefaultsOfFields(schema, n))
    decreases n
  {
    if n > 0 {
      var field, before := schema.fields[n - 1], DefaultsOfFields(schema, n - 1);
      FieldDefaultsUnique(schema, n - 1);
      if field.default_.Some? {
        PutUnique(before, field.key, field.default_.value);
      } else if field.kind.ArrayGroup? {
        PutUnique(before, field.key, EmptyItems(field));
      }
    }
  }

  lemma {:induction false} DefaultsUnique(schema: Schema, n: nat)
    requires n <= |schema.groups|
    ensures Unique(DefaultsOfGroups(schema, n))
    decreases n
  {
    if n == 0 {
      FieldDefaultsUnique(schema, |schema.fields|);
    } else {
      DefaultsUnique(schema, n - 1);
      PutAllUnique(DefaultsOfGroups(schema, n - 1), Defaults(schema.groups[n - 1]));
    }
  }

  /** What a schema's defaults store is valid against the stored, stripped schema. */
  lemma StoredDefaultsOk(schema: Schema)
    requires Valid(schema, Object(Defaults(schema)))
    ensures Ok(Strip(schema), Object(Defaults(schema)))
  {
    StripKeepsErrors(schema, Object(Defaults(schema)), []);
    DefaultsUnique(schema, |schema.groups|);
  }

  lemma LoadKeeps(s: State, project: Project, available: bool)
    requires Consistent(s) && TableOk(s)
    ensures Consistent(Loaded(s, project, available)) && TableOk(Loaded(s, project, available))
  {
    var l := Loaded(s, project, available);
    forall p ensures ProjectOk(l, p) && RowOk(l, p) {
      assert ProjectOk(s, p) && RowOk(s, p);
    }
  }

  lemma UpdateKeeps(s: State, project: Project, document: Json, available: bool, saved: bool)
    requires Consistent(s) && TableOk(s)
    ensures var s' := Updated(s, project, document, available, saved).0; Consistent(s') && TableOk(s')
  {
    var l := Loaded(s, project, available);
    var s' := Updated(s, project, document, available, saved).0;
    LoadKeeps(s, project, available);
    assert ProjectOk(l, project);
    if project in l.schemas && document.Object? {
      var flat := Flat(document);
      MergedUnique(l.values[project].members, CollectFields(l.schemas[project]), flat, |flat|);
    }
    forall p ensures ProjectOk(s', p) && RowOk(s', p) {
      assert ProjectOk(l, p) && RowOk(l, p);
    }
  }

  predicate Spills(members: seq<Member>, fields: seq<Field>, i: nat, key: Project)
    requires i < |members|
  {
    members[i].key == key && HasKey(fields, key)
  }

  /** Where the loop of RegisterSchema leaves its mark: under the kept keys, and nowhere else. */
  lemma {:induction false} SpilledAt(
      values: map<Project, Json>, members: seq<Member>, fields: seq<Field>, n: nat, key: Project)
    requires n <= |members|
    ensures var after := Spilled(values, members, fields, n);
      && (Unique(members) ==> forall i :: 0 <= i < n && Spills(members, fields, i, key) ==> key in after && after[key] == members[i].value)
      && ((forall i :: 0 <= i < n ==> !Spills(members, fields, i, key)) ==>
            (key in after <==> key in values) && (key in values ==> after[key] == values[key]))
    decreases n
  {
    if n > 0 {
      SpilledAt(values, members, fields, n - 1, key);
      if Spills(members, fields, n - 1, key) {
        assert members[n - 1].key == key;
      }
    }
  }

  ghost predicate SpillsOnto(l: State, project: Project, schema: Schema, i: nat, key: Project) {
    && project in l.values && l.values[project].Object? && i < |l.values[project].members|
    && Spills(l.values[project].members, CollectFields(schema), i, key) && key in l.schemas
  }

  /** RegisterSchema answers true. */
  predicate Succeeds(schema: Schema, saved: bool) {
    Valid(schema, Object(Defaults(schema))) && saved
  }

  /** A kept entry lands on a known project and does not satisfy that project's schema. When the call succeeds, its own
      project is written again afterwards. */
  ghost predicate Clash(l: State, project: Project, schema: Schema, saved: bool, i: nat, key: Project) {
    && SpillsOnto(l, project, schema, i, key)
    && !(key == project && Succeeds(schema, saved))
    && !Ok(l.schemas[key], l.values[project].members[i].value)
  }

  ghost predicate NoClashOn(l: State, project: Project, schema: Schema, saved: bool, key: Project) {
    forall i: nat :: !Clash(l, project, schema, saved, i, key)
  }

  ghost predicate NoClash(l: State, project: Project, schema: Schema, saved: bool) {
    forall key :: NoClashOn(l, project, schema, saved, key)
  }

  ghost predicate OneEntryPerKey(l: State, project: Project) {
    project in l.values && l.values[project].Object? ==> Unique(l.values[project].members)
  }

  lemma SpilledProject(l: State, project: Project, schema: Schema, p: Project)
    requires ProjectOk(l, p) && p in l.schemas
    ensures var after := AfterSpill(l, project, schema);
      && p in after
      && (OneEntryPerKey(l, project) ==>
            forall i: nat :: SpillsOnto(l, project, schema, i, p) ==> after[p] == l.values[project].members[i].value)
      && ((forall i: nat :: !SpillsOnto(l, project, schema, i, p)) ==> after[p] == l.values[p])
  {
    if project in l.values && l.values[project].Object? {
      var members, fields := l.values[project].members, CollectFields(schema);
      SpilledAt(l.values, members, fields, |members|, p);
      SpilledStays(l.values, members, fields, |members|, p);
      forall i | 0 <= i < |members| ensures Spills(members, fields, i, p) ==> SpillsOnto(l, project, schema, i, p) {
      }
    }
  }

  lemma {:induction false} SpilledStays(
      values: map<Project, Json>, members: seq<Member>, fields: seq<Field>, n: nat, key: Project)
    requires n <= |members| && key in values
    ensures key in Spilled(values, members, fields, n)
    decreases n
  {
    if n > 0 {
      SpilledStays(values, members, fields, n - 1, key);
    }
  }

  lemma AfterRegister(s: State, project: Project, schema: Schema, saved: bool)
    requires project != "" && !schema.isNull
    ensures var l := Loaded(s, project, true); var (s', result) := Registered(s, project, schema, true, saved);
      && (result == Done <==> Succeeds(schema, saved))
      && (Succeeds(schema, saved) ==>
            s'.schemas == l.schemas[project := Strip(schema)] &&
            s'.values == AfterSpill(l, project, schema)[project := Object(Defaults(schema))] &&
            s'.table == l.table[project := Row(Strip(schema), Object(Defaults(schema)))])
      && (!Succeeds(schema, saved) ==> s' == l.(values := AfterSpill(l, project, schema)))
  {
  }

  lemma SpilledOkIff(l: State, project: Project, schema: Schema, saved: bool, p: Project)
    requires ProjectOk(l, p) && p in l.schemas && OneEntryPerKey(l, project)
    requires !(p == project && Succeeds(schema, saved))
    ensures p in AfterSpill(l, project, schema)
    ensures Ok(l.schemas[p], AfterSpill(l, project, schema)[p]) <==> NoClashOn(l, project, schema, saved, p)
  {
    var after := AfterSpill(l, project, schema);
    SpilledProject(l, project, schema, p);
    if i: nat :| SpillsOnto(l, project, schema, i, p) {
      assert after[p] == l.values[project].members[i].value;
      assert Clash(l, project, schema, saved, i, p) <==> !Ok(l.schemas[p], after[p]);
    }
  }

  lemma RegisterProject(s: State, project: Project, schema: Schema, saved: bool, p: Project)
    requires project != "" && !schema.isNull && Consistent(s) && TableOk(s) && OneEntryPerKey(Loaded(s, project, true), project)
    ensures ProjectOk(Registered(s, project, schema, true, saved).0, p) <==>
            NoClashOn(Loaded(s, project, true), project, schema, saved, p)
  {
    var l := Loaded(s, project, true);
    LoadKeeps(s, project, true);
    assert ProjectOk(l, p);
    if p == project && Succeeds(schema, saved) {
      RegisterItself(s, project, schema, saved);
    } else {
      RegisterOther(s, project, schema, saved, p);
      if p in l.schemas {
        SpilledOkIff(l, project, schema, saved, p);
      }
    }
  }

  lemma RegisterItself(s: State, project: Project, schema: Schema, saved: bool)
    requires project != "" && !schema.isNull && Succeeds(schema, saved)
    ensures ProjectOk(Registered(s, project, schema, true, saved).0, project)
  {
    StoredDefaultsOk(schema);
  }

  lemma RegisterOther(s: State, project: Project, schema: Schema, saved: bool, p: Project)
    requires project != "" && !schema.isNull && !(p == project && Succeeds(schema, saved))
    ensures var l, s' := Loaded(s, project, true), Registered(s, project, schema, true, saved).0;
      var after := AfterSpill(l, project, schema);
      && (p in s'.schemas <==> p in l.schemas) && (p in l.schemas ==> s'.schemas[p] == l.schemas[p])
      && (p in s'.values <==> p in after) && (p in after ==> s'.values[p] == after[p])
  {
    AfterRegister(s, project, schema, saved);
  }

  /** Registering keeps every project's values valid against its stored schema if and only if no kept entry lands on a
      known project without satisfying that project's schema. */
  lemma RegisterKeepsIff(s: State, project: Project, schema: Schema, saved: bool)
    requires project != "" && !schema.isNull && Consistent(s) && TableOk(s) && OneEntryPerKey(Loaded(s, project, true), project)
    ensures Consistent(Registered(s, project, schema, true, saved).0) <==>
            NoClash(Loaded(s, project, true), project, schema, saved)
  {
    var l, s' := Loaded(s, project, true), Registered(s, project, schema, true, saved).0;
    forall p ensures ProjectOk(s', p) <==> NoClashOn(l, project, schema, saved, p) {
      RegisterProject(s, project, schema, saved, p);
    }
  }

  // ----- Reads -----

  /** What is in memory is what the database holds. */
  ghost predicate SavedOk(s: State, p: Project) {
    p in s.schemas ==> p in s.values && p in s.table && s.table[p] == Row(s.schemas[p], s.values[p])
  }

  ghost predicate Saved(s: State) {
    forall p :: SavedOk(s, p)
  }

  /** A masked read of a name that has values and no schema. */
  predicate Phantom(s: State, project: Project, mask: bool, available: bool) {
    var l := Loaded(s, project, available);
    mask && project in l.values && project !in l.schemas
  }

  lemma LoadSaves(s: State, project: Project, available: bool)
    requires Saved(s)
    ensures Saved(Loaded(s, project, available))
  {
    forall p ensures SavedOk(Loaded(s, project, available), p) {
      assert SavedOk(s, p);
    }
  }

  /** A read keeps every known project valid and saved if and only if it is not a masked read of a name with values and no
      schema. */
  lemma ReadKeepsIff(s: State, project: Project, mask: bool, available: bool)
    requires Consistent(s) && TableOk(s) && Saved(s)
    ensures TableOk(Read(s, project, mask, available))
    ensures Consistent(Read(s, project, mask, available)) && Saved(Read(s, project, mask, available)) <==>
            !Phantom(s, project, mask, available)
  {
    var s' := Read(s, project, mask, available);
    LoadKeeps(s, project, available);
    LoadSaves(s, project, available);
    forall p ensures RowOk(s', p) {
      assert RowOk(s, p);
    }
    if Phantom(s, project, mask, available) {
      assert RowOk(s, project);
      assert !SavedOk(s', project);
    }
  }

  // ----- Runs -----

  datatype Event =
    | Register(project: Project, schema: Schema, available: bool, saved: bool)
    | Update(project: Project, document: Json, available: bool, saved: bool)
    | ReadValues(project: Project, mask: bool, available: bool)   // the schema is read as values are without a mask

  function Apply(s: State, e: Event): State {
    match e
    case Register(project, schema, available, saved) => Registered(s, project, schema, available, saved).0
    case Update(project, document, available, saved) => Updated(s, project, document, available, saved).0
    case ReadValues(project, mask, available) => Read(s, project, mask, available)
  }

  /** No kept entry has a known project for its key. */
  ghost predicate KeysApart(s: State, e: Event) {
    e.Register? ==>
      forall i: nat, key :: !SpillsOnto(Loaded(s, e.project, e.available), e.project, e.schema, i, key)
  }

  /** No masked read of a name that has values and no schema. */
  predicate NoPhantom(s: State, e: Event) {
    e.ReadValues? ==> !Phantom(s, e.project, e.mask, e.available)
  }

  lemma RegisterKeeps(s: State, project: Project, schema: Schema, saved: bool)
    requires project != "" && !schema.isNull && Consistent(s) && TableOk(s) && Saved(s)
    requires KeysApart(s, Register(project, schema, true, saved))
    ensures var s' := Registered(s, project, schema, true, saved).0; Consistent(s') && TableOk(s') && Saved(s')
  {
    var l, s' := Loaded(s, project, true), Registered(s, project, schema, true, saved).0;
    LoadKeeps(s, project, true);
    AfterRegister(s, project, schema, saved);
    if Succeeds(schema, saved) {
      StoredDefaultsOk(schema);
    }
    forall p ensures ProjectOk(s', p) && RowOk(s', p) && SavedOk(s', p) {
      assert ProjectOk(l, p) && RowOk(l, p) && SavedOk(s, p) && RowOk(s, p);
      if p in l.schemas {
        SpilledProject(l, project, schema, p);
      }
    }
  }

  lemma StepKeeps(s: State, e: Event)
    requires Consistent(s) && TableOk(s) && Saved(s) && KeysApart(s, e) && NoPhantom(s, e)
    ensures Consistent(Apply(s, e)) && TableOk(Apply(s, e)) && Saved(Apply(s, e))
  {
    match e
    case Register(project, schema, available, saved) =>
      if project != "" && !schema.isNull && available {
        RegisterKeeps(s, project, schema, saved);
      }
    case Update(project, document, available, saved) =>
      UpdateKeeps(s, project, document, available, saved);
      UpdateSaves(s, project, document, available, saved);
    case ReadValues(project, mask, available) =>
      ReadKeepsIff(s, project, mask, available);
  }

  lemma UpdateSaves(s: State, project: Project, document: Json, available: bool, saved: bool)
    requires Saved(s)
    ensures Saved(Updated(s, project, document, available, saved).0)
  {
    LoadSaves(s, project, available);
    var l := Loaded(s, project, available);
    assert SavedOk(l, project);
    forall p ensures SavedOk(Updated(s, project, document, available, saved).0, p) {
      assert SavedOk(l, p);
    }
  }

  ghost predicate StepAt(states: seq<State>, events: seq<Event>, i: int) {
    0 <= i < |events| && i + 1 < |states| ==> states[i + 1] == Apply(states[i], events[i])
  }

  ghost predicate ApartAt(states: seq<State>, events: seq<Event>, i: int) {
    0 <= i < |events| && i < |states| ==> KeysApart(states[i], events[i]) && NoPhantom(states[i], events[i])
  }

  /** A run from a start with nothing loaded and a table of valid rows. */
  ghost predicate IsRun(states: seq<State>, events: seq<Event>) {
    && |states| == |events| + 1
    && states[0].schemas == map[] && states[0].values == map[] && TableOk(states[0])
    && forall i :: StepAt(states, events, i)
  }

  /** In every run in which no kept entry has a known project for its key and no masked read names a project with values
      and no schema, every project's values in memory satisfy its stored schema, every row of the database is valid too,
      and memory and database agree. */
  lemma {:induction false} EveryRunStaysValid(states: seq<State>, events: seq<Event>, n: nat)
    requires IsRun(states, events) && n < |states| && forall i :: ApartAt(states, events, i)
    ensures Consistent(states[n]) && TableOk(states[n]) && Saved(states[n])
    decreases n
  {
    if n > 0 {
      EveryRunStaysValid(states, events, n - 1);
      assert StepAt(states, events, n - 1) && ApartAt(states, events, n - 1);
      StepKeeps(states[n - 1], events[n - 1]);
    }
  }

  // ----- Registering again -----

  /** The stored entries whose key is still a field. */
  function KeptEntries(members: seq<Member>, fields: seq<Field>): seq<Member> {
    if members == [] then [] else
      KeptEntries(members[..|members| - 1], fields) +
      if HasKey(fields, members[|members| - 1].key) then [members[|members| - 1]] else []
  }

  /** What registering a schema again is meant to store: its defaults, with the kept entries over them. */
  function Intended(schema: Schema, members: seq<Member>): seq<Member> {
    PutAll(Defaults(schema), KeptEntries(members, CollectFields(schema)))
  }

  /** Every kept entry is the default of its key. */
  ghost predicate KeptAreDefaults(schema: Schema, members: seq<Member>) {
    forall i :: 0 <= i < |members| && HasKey(CollectFields(schema), members[i].key) ==>
      Find(Defaults(schema), members[i].key) == Some(members[i].value)
  }

  lemma {:induction false} PutAllSame(members: seq<Member>, more: seq<Member>)
    requires forall i :: 0 <= i < |more| ==> Find(members, more[i].key) == Some(more[i].value)
    ensures PutAll(members, more) == members
    decreases |more|
  {
    if more != [] {
      PutAllSame(members, more[..|more| - 1]);
      PutSame(members, more[|more| - 1].key, more[|more| - 1].value);
    }
  }

  lemma {:induction false} FindPutAll(members: seq<Member>, more: seq<Member>, i: nat)
    requires Unique(more) && i < |more|
    ensures Find(PutAll(members, more), more[i].key) == Some(more[i].value)
    decreases |more|
  {
    var front, last := more[..|more| - 1], more[|more| - 1];
    FindPut(PutAll(members, front), last.key, last.value, more[i].key);
    if i < |more| - 1 {
      FindPutAll(members, front, i);
    }
  }

  lemma {:induction false} KeptAt(members: seq<Member>, fields: seq<Field>, m: Member)
    ensures m in KeptEntries(members, fields) <==> m in members && HasKey(fields, m.key)
  {
    if members != [] {
      KeptAt(members[..|members| - 1], fields, m);
      assert members == members[..|members| - 1] + [members[|members| - 1]];
    }
  }

  lemma {:induction false} KeptUnique(members: seq<Member>, fields: seq<Field>)
    requires Unique(members)
    ensures Unique(KeptEntries(members, fields))
  {
    if members != [] {
      var front, last := members[..|members| - 1], members[|members| - 1];
      KeptUnique(front, fields);
      var kept := KeptEntries(front, fields);
      forall i | 0 <= i < |kept| ensures kept[i].key != last.key {
        KeptAt(front, fields, kept[i]);
        assert kept[i] in front;
      }
    }
  }

  lemma IntendedIsDefaultsIff(schema: Schema, members: seq<Member>)
    requires Unique(members)
    ensures Intended(schema, members) == Defaults(schema) <==> KeptAreDefaults(schema, members)
  {
    var fields, defaults := CollectFields(schema), Defaults(schema);
    var kept := KeptEntries(members, fields);
    if KeptAreDefaults(schema, members) {
      forall i | 0 <= i < |kept| ensures Find(defaults, kept[i].key) == Some(kept[i].value) {
        KeptAt(members, fields, kept[i]);
      }
      PutAllSame(defaults, kept);
    }
    if Intended(schema, members) == defaults {
      KeptUnique(members, fields);
      forall i | 0 <= i < |members| && HasKey(fields, members[i].key)
        ensures Find(defaults, members[i].key) == Some(members[i].value)
      {
        KeptAt(members, fields, members[i]);
        var j :| 0 <= j < |kept| && kept[j] == members[i];
        FindPutAll(defaults, kept, j);
      }
    }
  }

  /** A registration that succeeds stores what it is meant to store, the defaults with the kept entries over them, if and only
      if every kept entry is the default of its key: any other kept value is lost. */
  lemma ReRegistrationKeepsIff(s: State, project: Project, schema: Schema, members: seq<Member>)
    requires project != "" && !schema.isNull && Succeeds(schema, true) && Unique(members)
    requires var l := Loaded(s, project, true); project in l.values && l.values[project] == Object(members)
    ensures Registered(s, project, schema, true, true).0.values[project] == Object(Intended(schema, members)) <==>
            KeptAreDefaults(schema, members)
  {
    AfterRegister(s, project, schema, true);
    IntendedIsDefaultsIff(schema, members);
  }

  /** A stored value that its own unchanged schema would have kept is lost when the script registers the schema again. */
  lemma StoredValueIsLost(text: string)
    requires text != "" && text != "x"
    ensures var schema := Schema(1, [TextField("a", Text).(default_ := Some(Str("x")))], []);
      var row := Row(schema, Object([Member("a", Str(text))]));
      var s := State(map["p" := schema], map["p" := row.values], map["p" := row]);
      var (s', result) := Registered(s, "p", schema, true, true);
      result == Done && s'.values["p"] == Object([Member("a", Str("x"))])
  {
    var field := TextField("a", Text).(default_ := Some(Str("x")));
    var schema := Schema(1, [field], []);
    var row := Row(schema, Object([Member("a", Str(text))]));
    var s := State(map["p" := schema], map["p" := row.values], map["p" := row]);
    var path: seq<Step> := [];
    var values := [Member("a", Str("x"))];
    assert DefaultsOfFields(schema, 0) == [] && DefaultsOfFields(schema, 1) == values;
    assert Defaults(schema) == values;
    assert schema.fields[0].key == "a" && Find(values, "a") == Some(Str("x"));
    assert ErrorsOfField(field, values, path) == [];
    assert ErrorsOfFields(schema, 1, values, path) == [];
    assert KnownKey(schema, "a");
    assert Unknown(schema, values, 1, path) == [];
    assert Errors(schema, Object(values), path) == [];
    AfterRegister(s, "p", schema, true);
  }

  // ----- Spilled values can be read -----

  /** A name that is no project, in memory or in the database. */
  predicate NoProject(l: State, name: Project) {
    name !in l.schemas && name !in l.table
  }

  lemma ViewOfNoProject(l: State, name: Project)
    requires NoProject(l, name)
    ensures View(l, name, true, true) == if name in l.values then l.values[name] else Null
  {
  }

  /** After a registration, a masked read of a name that is no project shows the value the registered project has stored
      under that key, as it is, if the key is still a field; and what it showed before if not. */
  lemma SpillShown(s: State, project: Project, schema: Schema, saved: bool, members: seq<Member>, name: Project)
    requires project != "" && !schema.isNull && name != project
    requires var l := Loaded(s, project, true);
      NoProject(l, name) && project in l.values && l.values[project] == Object(members) && Unique(members)
    ensures var after := Registered(s, project, schema, true, saved).0;
      && NoProject(after, name)
      && (HasKey(CollectFields(schema), name) && Find(members, name).Some? ==>
            View(after, name, true, true) == Find(members, name).value)
      && (!HasKey(CollectFields(schema), name) || Find(members, name).None? ==>
            View(after, name, true, true) == View(Loaded(s, project, true), name, true, true))
  {
    var l, fields := Loaded(s, project, true), CollectFields(schema);
    AfterRegister(s, project, schema, saved);
    SpilledAt(l.values, members, fields, |members|, name);
    FindNone(members, name);
    if HasKey(fields, name) && Find(members, name).Some? {
      var i :| 0 <= i < |members| && members[i].key == name;
      FindAt(members, i);
      assert Spills(members, fields, i, name);
    }
    ViewOfNoProject(l, name);
    ViewOfNoProject(Registered(s, project, schema, true, saved).0, name);
  }

  /** So a stored value, secret or not, that a masked read of its key as a name did not show before is shown after a
      registration if and only if the registered schema still has the key. */
  lemma SecretShownIff(s: State, project: Project, schema: Schema, saved: bool, members: seq<Member>, key: Project)
    requires project != "" && !schema.isNull && key != project
    requires var l := Loaded(s, project, true);
      && NoProject(l, key) && project in l.values && l.values[project] == Object(members) && Unique(members)
      && Find(members, key).Some? && View(l, key, true, true) != Find(members, key).value
    ensures View(Registered(s, project, schema, true, saved).0, key, true, true) == Find(members, key).value <==>
            HasKey(CollectFields(schema), key)
  {
    SpillShown(s, project, schema, saved, members, key);
  }

  /** One project whose single field, of any text-like kind, holds a text. */
  function OneField(kind: Kind): Schema {
    Schema(1, [TextField("a", kind)], [])
  }

  function OneProject(kind: Kind, text: string): State {
    var row := Row(OneField(kind), Object([Member("a", Str(text))]));
    State(map["p" := row.schema], map["p" := row.values], map["p" := row])
  }

  lemma OneProjectOk(kind: Kind, text: string)
    requires kind == Password || kind == Text
    ensures var s := OneProject(kind, text); Consistent(s) && TableOk(s) && Saved(s)
    ensures Succeeds(OneField(kind), true) && HasKey(CollectFields(OneField(kind)), "a")
  {
    var schema, path: seq<Step> := OneField(kind), [];
    var values := [Member("a", Str(text))];
    var s, field := OneProject(kind, text), TextField("a", kind);
    assert CollectFields(schema) == schema.fields && schema.fields[0].key == "a";
    assert Find(values, "a") == Some(Str(text)) && KnownKey(schema, "a");
    assert ErrorsOfField(field, values, path) == [];
    assert ErrorsOfFields(schema, 1, values, path) == [];
    assert Unknown(schema, values, 1, path) == [];
    assert Errors(schema, Object(values), path) == [];
    forall p ensures ProjectOk(s, p) && RowOk(s, p) && SavedOk(s, p) {
    }
    assert DefaultsOfFields(schema, 0) == [] && DefaultsOfFields(schema, 1) == [];
    NoValuesValid(schema, field, Defaults(schema));
  }

  lemma NoValuesValid(schema: Schema, field: Field, none: seq<Member>)
    requires schema.fields == [field] && schema.groups == [] && none == [] && !field.required && field.key != ""
    ensures Valid(schema, Object(none))
  {
    var path: seq<Step> := [];
    assert ErrorsOfField(field, none, path) == [];
    assert ErrorsOfFields(schema, 1, none, path) == [];
  }

  /** A project registered again and then a masked read of one of its keys as a project name: the key has become a known
      project whose value is neither valid nor saved. */
  lemma MaskedReadBreaks(text: string)
    ensures var s := OneProject(Text, text);
      var registered := Apply(s, Register("p", OneField(Text), true, true));
      var after := Apply(registered, ReadValues("a", true, true));
      && Consistent(s) && TableOk(s) && Saved(s) && KeysApart(s, Register("p", OneField(Text), true, true))
      && Consistent(registered) && Saved(registered) && !Consistent(after) && !Saved(after)
  {
    var s, schema := OneProject(Text, text), OneField(Text);
    var e := Register("p", schema, true, true);
    var members := [Member("a", Str(text))];
    OneProjectOk(Text, text);
    forall i: nat, key ensures !SpillsOnto(s, "p", schema, i, key) {
    }
    StepKeeps(s, e);
    var registered := Apply(s, e);
    SpillShown(s, "p", schema, true, members, "a");
    ViewOfNoProject(registered, "a");
    assert Find(members, "a") == Some(Str(text));
    var after := Apply(registered, ReadValues("a", true, true));
    assert !ProjectOk(after, "a") && !SavedOk(after, "a");
  }

  /** A password: a masked read of its project shows the mask, but once the script registers again a masked read
      of the password's key as a project name shows the password. */
  lemma SecretShown(secret: string)
    ensures var s := OneProject(Password, secret);
      var registered := Apply(s, Register("p", OneField(Password), true, true));
      && View(s, "p", true, true) == Object([Member("a", Str(MASKED))]) && View(s, "a", true, true) == Null
      && View(registered, "a", true, true) == Str(secret)
  {
    var s, schema := OneProject(Password, secret), OneField(Password);
    var members := [Member("a", Str(secret))];
    OneProjectOk(Password, secret);
    assert Find(members, "a") == Some(Str(secret));
    assert CollectFields(schema) == schema.fields && schema.fields[..0] == [];
    assert Masked(members, schema.fields) == [Member("a", Str(MASKED))];
    SpillShown(s, "p", schema, true, members, "a");
  }
}

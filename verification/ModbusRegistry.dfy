/** Named dashboard points and the script that owns each (src/ModbusRegistry.cpp).

    The simple picture of a point list is `Rows`, one row per name. Every operation is proved to act on the rows, and
    `OwnedIff` says from the history alone which rows a list shows. */
module ModbusRegistry {
  import opened Bytes
  import Lua = LuaRuntimeManager

  type Owner = nat

  /** A point: `shape` is what a cached `reading` depends on, `detail` is display data. */
  datatype Point<S(==), R, D> = Point(name: string, shape: S, reading: R, detail: D, owner: Owner)

  datatype Source = Auto | DiscreteInput | Coil
  datatype BitShape = BitShape(address: int, source: Source)
  datatype BitReading = BitReading(value: bool, valid: bool, functionCode: int)
  type BitPoint = Point<BitShape, BitReading, ()>

  datatype RegisterShape =
    RegisterShape(address: int, inputRegister: bool, kind: string, byteSwap: bool, wordSwap: bool, length: int)
  datatype RegisterReading = RegisterReading(raw: seq<word>, value: string, valid: bool, error: string)
  datatype RegisterDetail = RegisterDetail(writable: bool, display: string)
  type RegisterPoint = Point<RegisterShape, RegisterReading, RegisterDetail>

  const UNREAD := BitReading(false, false, 0)

  // ----- The simple picture -----

  ghost predicate Unique<S, R, D>(points: seq<Point<S, R, D>>) {
    forall i, j :: 0 <= i < j < |points| ==> points[i].name != points[j].name
  }

  ghost function Rows<S, R, D>(points: seq<Point<S, R, D>>): map<string, Point<S, R, D>> {
    if points == [] then map[] else
      var last := points[|points| - 1];
      Rows(points[..|points| - 1])[last.name := last]
  }

  ghost function Owners<S, R, D>(points: seq<Point<S, R, D>>): map<string, Owner> {
    var rows := Rows(points);
    map n | n in rows :: rows[n].owner
  }

  lemma {:induction false} RowsHave<S, R, D>(points: seq<Point<S, R, D>>, n: string)
    requires Unique(points)
    ensures n in Rows(points) <==> exists i :: 0 <= i < |points| && points[i].name == n
    ensures n in Rows(points) ==> Rows(points)[n].name == n
    ensures forall i :: 0 <= i < |points| && points[i].name == n ==> n in Rows(points) && Rows(points)[n] == points[i]
    decreases |points|
  {
    if points != [] {
      var front := points[..|points| - 1];
      RowsHave(front, n);
      if exists i :: 0 <= i < |front| && front[i].name == n {
        var i :| 0 <= i < |front| && front[i].name == n;
        assert points[i].name == n;
      }
    }
  }

  /** What re-registering makes of a row: the new registration, with the old reading while it still describes the point. */
  function Merged<S, R, D>(existing: Point<S, R, D>, fresh_: Point<S, R, D>): Point<S, R, D> {
    if existing.shape == fresh_.shape then fresh_.(reading := existing.reading) else fresh_
  }

  ghost predicate Absent<S, R, D>(points: seq<Point<S, R, D>>, name: string) {
    forall i :: 0 <= i < |points| ==> points[i].name != name
  }

  /** What a registration does to a list: it replaces the row of that name where it stands, or adds one at the end. */
  ghost predicate Registered<S, R, D>(
      before: seq<Point<S, R, D>>, after: seq<Point<S, R, D>>, point: Point<S, R, D>) {
    || (Absent(before, point.name) && after == before + [point])
    || exists i :: 0 <= i < |before| && before[i].name == point.name && after == before[i := Merged(before[i], point)]
  }

  function Kept<S, R, D>(points: seq<Point<S, R, D>>, owner: Owner): (kept: seq<Point<S, R, D>>)
    ensures forall i :: 0 <= i < |kept| ==> kept[i] in points && kept[i].owner != owner
    ensures forall i :: 0 <= i < |points| && points[i].owner != owner ==> points[i] in kept
  {
    if points == [] then [] else
      var last := points[|points| - 1];
      Kept(points[..|points| - 1], owner) + if last.owner != owner then [last] else []
  }

  /** Registering keeps names unique and changes the row of that name only. */
  lemma RegisteredRows<S, R, D>(before: seq<Point<S, R, D>>, after: seq<Point<S, R, D>>, point: Point<S, R, D>)
    requires Unique(before) && Registered(before, after, point)
    ensures Unique(after)
    ensures var rows := Rows(before);
      Rows(after) == rows[point.name := if point.name in rows then Merged(rows[point.name], point) else point]
  {
    var rows := Rows(before);
    var row := if point.name in rows then Merged(rows[point.name], point) else point;
    RowsHave(before, point.name);
    forall n ensures n in Rows(after) <==> n in rows[point.name := row] {
      RegisteredRow(before, after, point, n);
    }
    forall n | n in Rows(after) ensures Rows(after)[n] == rows[point.name := row][n] {
      RegisteredRow(before, after, point, n);
    }
  }

  lemma RegisteredRow<S, R, D>(
      before: seq<Point<S, R, D>>, after: seq<Point<S, R, D>>, point: Point<S, R, D>, n: string)
    requires Unique(before) && Registered(before, after, point)
    ensures Unique(after)
    ensures n != point.name ==> (n in Rows(after) <==> n in Rows(before))
    ensures n != point.name && n in Rows(after) ==> Rows(after)[n] == Rows(before)[n]
    ensures n == point.name ==> n in Rows(after)
    ensures n == point.name ==>
      Rows(after)[n] == if n in Rows(before) then Merged(Rows(before)[n], point) else point
  {
    RowsHave(before, n);
    if Absent(before, point.name) && after == before + [point] {
      RowsHave(after, n);
      assert after[|before|] == point;
      assert forall i :: 0 <= i < |before| ==> after[i] == before[i];
    } else {
      var i :| 0 <= i < |before| && before[i].name == point.name && after == before[i := Merged(before[i], point)];
      assert after[i].name == point.name;
      RowsHave(after, n);
      assert forall j :: 0 <= j < |before| && j != i ==> after[j] == before[j];
    }
  }

  lemma {:induction false} KeptUnique<S, R, D>(points: seq<Point<S, R, D>>, owner: Owner)
    requires Unique(points)
    ensures Unique(Kept(points, owner))
    decreases |points|
  {
    if points != [] {
      var front, last := points[..|points| - 1], points[|points| - 1];
      KeptUnique(front, owner);
      var kept := Kept(front, owner);
      forall i | 0 <= i < |kept| ensures kept[i].name != last.name {
        assert kept[i] in front;
      }
    }
  }

  /** Clearing an owner keeps names unique and drops exactly the rows it owns. */
  lemma KeptRows<S, R, D>(points: seq<Point<S, R, D>>, owner: Owner)
    requires Unique(points)
    ensures Unique(Kept(points, owner))
    ensures Rows(Kept(points, owner)) == map n | n in Rows(points) && Rows(points)[n].owner != owner :: Rows(points)[n]
  {
    KeptUnique(points, owner);
    forall n ensures KeptRow(points, owner, n) {
      var kept := Kept(points, owner);
      RowsHave(points, n);
      RowsHave(kept, n);
      if n in Rows(points) && Rows(points)[n].owner != owner {
        assert Rows(points)[n] in kept;
      }
      if n in Rows(kept) {
        assert Rows(kept)[n] in points;
      }
    }
    forall n ensures n in Rows(Kept(points, owner)) <==> n in Rows(points) && Rows(points)[n].owner != owner {
      assert KeptRow(points, owner, n);
    }
    forall n | n in Rows(Kept(points, owner)) ensures Rows(Kept(points, owner))[n] == Rows(points)[n] {
      assert KeptRow(points, owner, n);
    }
  }

  ghost predicate KeptRow<S, R, D>(points: seq<Point<S, R, D>>, owner: Owner, n: string) {
    var rows, kept := Rows(points), Rows(Kept(points, owner));
    && (n in kept <==> n in rows && rows[n].owner != owner)
    && (n in kept ==> kept[n] == rows[n])
  }

  // ----- Histories -----

  datatype Op<S(==), R, D> =
    | Register(point: Point<S, R, D>)
    | Update(name: string, reading: R)
    | ClearOwner(owner: Owner)
    | Clear

  /** What a poll does to a list: it gives the row of that name a new reading, if there is one. */
  ghost predicate Refreshed<S, R, D>(
      before: seq<Point<S, R, D>>, after: seq<Point<S, R, D>>, name: string, reading: R) {
    || (Absent(before, name) && after == before)
    || exists i :: 0 <= i < |before| && before[i].name == name && after == before[i := before[i].(reading := reading)]
  }

  lemma RefreshedRow<S, R, D>(
      before: seq<Point<S, R, D>>, after: seq<Point<S, R, D>>, name: string, reading: R, n: string)
    requires Unique(before) && Refreshed(before, after, name, reading)
    ensures Unique(after)
    ensures n in Rows(after) <==> n in Rows(before)
    ensures n in Rows(after) ==>
      Rows(after)[n] == if n == name then Rows(before)[n].(reading := reading) else Rows(before)[n]
  {
    RowsHave(before, n);
    if !(Absent(before, name) && after == before) {
      var i :| 0 <= i < |before| && before[i].name == name && after == before[i := before[i].(reading := reading)];
      assert after[i].name == name;
      RowsHave(after, n);
      assert forall j :: 0 <= j < |before| && j != i ==> after[j] == before[j];
    }
  }

  ghost predicate Step<S, R, D>(
      before: seq<Point<S, R, D>>, after: seq<Point<S, R, D>>, op: Op<S, R, D>) {
    match op
    case Register(point) => Registered(before, after, point)
    case Update(name, reading) => Refreshed(before, after, name, reading)
    case ClearOwner(owner) => after == Kept(before, owner)
    case Clear => after == []
  }

  ghost predicate StepAt<S, R, D>(lists: seq<seq<Point<S, R, D>>>, ops: seq<Op<S, R, D>>, i: int) {
    0 <= i < |ops| && i + 1 < |lists| ==> Step(lists[i], lists[i + 1], ops[i])
  }

  ghost predicate IsRun<S, R, D>(lists: seq<seq<Point<S, R, D>>>, ops: seq<Op<S, R, D>>) {
    && |lists| == |ops| + 1 && lists[0] == []
    && forall i :: StepAt(lists, ops, i)
  }

  predicate Ends<S, R, D>(op: Op<S, R, D>, name: string, owner: Owner) {
    match op
    case Register(point) => point.name == name
    case Update(_, _) => false
    case ClearOwner(cleared) => cleared == owner
    case Clear => true
  }

  /** The k-th operation registers the name for the owner and nothing up to n takes it away again. */
  ghost predicate Holds<S, R, D>(ops: seq<Op<S, R, D>>, n: nat, k: int, name: string, owner: Owner)
    requires n <= |ops|
  {
    && 0 <= k < n && ops[k].Register? && ops[k].point.name == name && ops[k].point.owner == owner
    && forall j :: k < j < n ==> !Ends(ops[j], name, owner)
  }

  /** In the ownership picture used for the runtimes, a registration takes the name over and ClearOwner drops the owner. */
  lemma OwnersStep<S, R, D>(before: seq<Point<S, R, D>>, after: seq<Point<S, R, D>>, op: Op<S, R, D>)
    requires Unique(before) && Step(before, after, op)
    ensures Unique(after)
    ensures Owners(after) == match op
      case Register(point) => Owners(before)[point.name := point.owner]
      case Update(_, _) => Owners(before)
      case ClearOwner(owner) => Lua.WithoutOwner(Owners(before), owner)
      case Clear => map[]
  {
    match op
    case Register(point) =>
      RegisteredRows(before, after, point);
    case Update(name, reading) =>
      RefreshedOwners(before, after, name, reading);
    case ClearOwner(owner) =>
      KeptRows(before, owner);
    case Clear =>
  }

  lemma RefreshedOwners<S, R, D>(before: seq<Point<S, R, D>>, after: seq<Point<S, R, D>>, name: string, reading: R)
    requires Unique(before) && Refreshed(before, after, name, reading)
    ensures Unique(after) && Owners(after) == Owners(before)
  {
    RefreshedRow(before, after, name, reading, name);
    forall n ensures n in Owners(after) <==> n in Owners(before) {
      RefreshedRow(before, after, name, reading, n);
    }
    forall n | n in Owners(after) ensures Owners(after)[n] == Owners(before)[n] {
      RefreshedRow(before, after, name, reading, n);
    }
  }

  /** After any history a list shows a name as owned by a script exactly when that script registered it last and nobody
      has cleared the script or the list since; each name has one row. So clearing an owner removes exactly the points
      it registered last. */
  lemma {:induction false} OwnedIff<S, R, D>(
      lists: seq<seq<Point<S, R, D>>>, ops: seq<Op<S, R, D>>, n: nat, name: string, owner: Owner)
    requires IsRun(lists, ops) && n < |lists|
    ensures Unique(lists[n])
    ensures (name in Owners(lists[n]) && Owners(lists[n])[name] == owner) <==>
            exists k :: Holds(ops, n, k, name, owner)
    decreases n
  {
    if n > 0 {
      var op := ops[n - 1];
      OwnedIff(lists, ops, n - 1, name, owner);
      assert StepAt(lists, ops, n - 1);
      OwnersStep(lists[n - 1], lists[n], op);
      if exists k :: Holds(ops, n, k, name, owner) {
        var k :| Holds(ops, n, k, name, owner);
        if k < n - 1 {
          assert Holds(ops, n - 1, k, name, owner) && !Ends(op, name, owner);
        }
      }
      var m := n - 1;
      if exists k :: Holds(ops, m, k, name, owner) {
        var k :| Holds(ops, m, k, name, owner);
        if !Ends(op, name, owner) {
          assert Holds(ops, n, k, name, owner);
        }
      }
      if op.Register? && op.point.name == name && op.point.owner == owner {
        assert Holds(ops, n, n - 1, name, owner);
      }
    }
  }

  // ----- Readings -----

  /** The last reading given to a name after step k, or else the one its registration at step k came with. */
  function LatestReading<S, R, D>(ops: seq<Op<S, R, D>>, k: nat, n: nat, name: string): R
    requires k < n <= |ops| && ops[k].Register?
    decreases n
  {
    if n == k + 1 then ops[k].point.reading
    else if ops[n - 1].Update? && ops[n - 1].name == name then ops[n - 1].reading
    else LatestReading(ops, k, n - 1, name)
  }

  /** What one operation does to the row of a name that is there afterwards. */
  lemma RowStep<S, R, D>(before: seq<Point<S, R, D>>, after: seq<Point<S, R, D>>, op: Op<S, R, D>, name: string)
    requires Unique(before) && Step(before, after, op) && name in Rows(after)
    ensures op.Register? && op.point.name == name ==>
      Rows(after)[name] == if name in Rows(before) then Merged(Rows(before)[name], op.point) else op.point
    ensures !(op.Register? && op.point.name == name) ==> name in Rows(before)
    ensures !(op.Register? && op.point.name == name) ==>
      Rows(after)[name] ==
      if op.Update? && op.name == name then Rows(before)[name].(reading := op.reading) else Rows(before)[name]
  {
    match op
    case Register(point) =>
      RegisteredRow(before, after, point, name);
    case Update(n, reading) =>
      RefreshedRow(before, after, n, reading, name);
    case ClearOwner(owner) =>
      KeptRows(before, owner);
    case Clear =>
  }

  /** In every history, a row has the shape of the registration, at some step k, that first gave it this shape, or brought
      it back, and has kept it since; and its reading is the last one given to it after that, or what that registration
      came with: for a bit point, unread. */
  lemma {:induction false} ReadingSinceShape<S, R, D>(
      lists: seq<seq<Point<S, R, D>>>, ops: seq<Op<S, R, D>>, n: nat, name: string) returns (k: nat)
    requires IsRun(lists, ops) && n < |lists| && name in Rows(lists[n])
    ensures k < n && ops[k].Register? && ops[k].point.name == name
    ensures name !in Rows(lists[k]) || Rows(lists[k])[name].shape != ops[k].point.shape
    ensures forall m :: k < m <= n ==> name in Rows(lists[m]) && Rows(lists[m])[name].shape == ops[k].point.shape
    ensures Rows(lists[n])[name].reading == LatestReading(ops, k, n, name)
    decreases n
  {
    assert n > 0;
    var before, after, op := lists[n - 1], lists[n], ops[n - 1];
    StaysUnique(lists, ops, n - 1);
    assert StepAt(lists, ops, n - 1);
    RowStep(before, after, op, name);
    if op.Register? && op.point.name == name &&
       (name !in Rows(before) || Rows(before)[name].shape != op.point.shape) {
      k := n - 1;
    } else {
      k := ReadingSinceShape(lists, ops, n - 1, name);
    }
  }

  lemma StaysUnique<S, R, D>(lists: seq<seq<Point<S, R, D>>>, ops: seq<Op<S, R, D>>, n: nat)
    requires IsRun(lists, ops) && n < |lists|
    ensures Unique(lists[n])
  {
    OwnedIff(lists, ops, n, "", 0);
  }

  // ----- Three lists, one picture -----

  /** The names each list shows and their owners. */
  datatype Shown = Shown(inputs: map<string, Owner>, outputs: map<string, Owner>, registers: map<string, Owner>) {
    ghost function Of(list: Lua.PointList): map<string, Owner> {
      match list
      case Inputs => inputs
      case Outputs => outputs
      case Registers => registers
    }

    /** The owners of all points, as the runtimes see them. */
    ghost function Owners(): map<Lua.Point, Owner> {
      map l: Lua.PointList, n | l in {Lua.Inputs, Lua.Outputs, Lua.Registers} && n in Of(l) :: Lua.Point(l, n) := Of(l)[n]
    }
  }

  lemma ShownAt(shown: Shown, p: Lua.Point)
    ensures p in shown.Owners() <==> p.name in shown.Of(p.list)
    ensures p in shown.Owners() ==> shown.Owners()[p] == shown.Of(p.list)[p.name]
  {
    assert p == Lua.Point(p.list, p.name);
  }

  lemma ShownWithOwnerAt(before: Shown, after: Shown, list: Lua.PointList, name: string, owner: Owner, p: Lua.Point)
    requires after.Of(list) == before.Of(list)[name := owner]
    requires p.list != list ==> after.Of(p.list) == before.Of(p.list)
    ensures var expected := before.Owners()[Lua.Point(list, name) := owner];
      (p in after.Owners() <==> p in expected) && (p in expected ==> after.Owners()[p] == expected[p])
  {
    ShownAt(before, p);
    ShownAt(after, p);
  }

  /** Registering in one list takes over that point and no point of the same name elsewhere. */
  lemma ShownWithOwner(before: Shown, after: Shown, list: Lua.PointList, name: string, owner: Owner)
    requires after.Of(list) == before.Of(list)[name := owner]
    requires forall l :: l != list ==> after.Of(l) == before.Of(l)
    ensures after.Owners() == before.Owners()[Lua.Point(list, name) := owner]
  {
    var expected := before.Owners()[Lua.Point(list, name) := owner];
    forall p ensures p in after.Owners() <==> p in expected {
      ShownWithOwnerAt(before, after, list, name, owner, p);
    }
    forall p | p in expected ensures after.Owners()[p] == expected[p] {
      ShownWithOwnerAt(before, after, list, name, owner, p);
    }
  }

  /** Clearing an owner in all three lists is what the runtime model does to the points. */
  lemma ShownWithoutOwner(before: Shown, after: Shown, owner: Owner)
    requires forall l :: after.Of(l) == Lua.WithoutOwner(before.Of(l), owner)
    ensures after.Owners() == Lua.WithoutOwner(before.Owners(), owner)
  {
    var expected := Lua.WithoutOwner(before.Owners(), owner);
    forall p ensures p in after.Owners() <==> p in expected {
      ShownAt(before, p);
      ShownAt(after, p);
    }
    forall p | p in expected ensures after.Owners()[p] == expected[p] {
      ShownAt(before, p);
      ShownAt(after, p);
    }
  }

  // ----- The code -----

  /** UpsertUnlocked: update the row of that name in place, or append one. */
  method Upsert(points: seq<BitPoint>, name: string, address: int, source: Source, owner: Owner)
    returns (after: seq<BitPoint>)
    requires Unique(points)
    ensures Registered(points, after, Point(name, BitShape(address, source), UNREAD, (), owner))
    ensures Unique(after)
  {
    ghost var point := Point(name, BitShape(address, source), UNREAD, (), owner);
    after := points;
    var i := 0;
    while i < |after|
      invariant 0 <= i <= |after| && after == points
      invariant forall j :: 0 <= j < i ==> after[j].name != name
    {
      if after[i].name == name {
        if after[i].shape.address != address || after[i].shape.source != source {
          after := after[i := after[i].(shape := BitShape(address, source), reading := UNREAD)];
        }
        after := after[i := after[i].(owner := owner)];
        assert points[i].detail == ();
        assert after == points[i := Merged(points[i], point)];
        RegisteredRows(points, after, point);
        return;
      }
      i := i + 1;
    }
    after := after + [Point(name, BitShape(address, source), UNREAD, (), owner)];
    RegisteredRows(points, after, point);
  }

  /** The body of RegisterRegister: replace the whole row, carrying the reading over while the layout is the same. */
  method UpsertRegister(points: seq<RegisterPoint>, point: RegisterPoint) returns (after: seq<RegisterPoint>)
    requires Unique(points)
    ensures Registered(points, after, point) && Unique(after)
  {
    after := points;
    var i := 0;
    while i < |after|
      invariant 0 <= i <= |after| && after == points
      invariant forall j :: 0 <= j < i ==> after[j].name != point.name
    {
      if after[i].name == point.name {
        var updated := point;
        if after[i].shape == point.shape {
          updated := updated.(reading := after[i].reading);
        }
        after := after[i := updated];
        assert after == points[i := Merged(points[i], point)];
        RegisteredRows(points, after, point);
        return;
      }
      i := i + 1;
    }
    after := after + [point];
    RegisteredRows(points, after, point);
  }

  /** UpdateUnlocked: the reading a poll brought. */
  method UpdateBit(points: seq<BitPoint>, name: string, value: bool, functionCode: int) returns (after: seq<BitPoint>)
    requires Unique(points)
    ensures Step(points, after, Update(name, BitReading(value, true, functionCode))) && Unique(after)
  {
    ghost var reading := BitReading(value, true, functionCode);
    after := points;
    var i := 0;
    while i < |after|
      invariant 0 <= i <= |after| && after == points
      invariant forall j :: 0 <= j < i ==> after[j].name != name
    {
      if after[i].name == name {
        after := after[i := after[i].(reading := BitReading(value, true, functionCode))];
        RefreshedRow(points, after, name, reading, name);
        return;
      }
      i := i + 1;
    }
    RefreshedRow(points, after, name, reading, name);
  }

  /** The body of UpdateRegister. */
  method UpdateRegisterReading(points: seq<RegisterPoint>, name: string, raw: seq<word>, value: string)
    returns (after: seq<RegisterPoint>)
    requires Unique(points)
    ensures Step(points, after, Update(name, RegisterReading(raw, value, true, ""))) && Unique(after)
  {
    ghost var reading := RegisterReading(raw, value, true, "");
    after := points;
    var i := 0;
    while i < |after|
      invariant 0 <= i <= |after| && after == points
      invariant forall j :: 0 <= j < i ==> after[j].name != name
    {
      if after[i].name == name {
        after := after[i := after[i].(reading := RegisterReading(raw, value, true, ""))];
        RefreshedRow(points, after, name, reading, name);
        return;
      }
      i := i + 1;
    }
    RefreshedRow(points, after, name, reading, name);
  }

  /** The erase-remove_if of ClearOwner on one list. */
  method Drop<S, R, D>(points: seq<Point<S, R, D>>, owner: Owner) returns (kept: seq<Point<S, R, D>>)
    requires Unique(points)
    ensures kept == Kept(points, owner) && Unique(kept)
  {
    kept := [];
    var i := 0;
    while i < |points|
      invariant 0 <= i <= |points| && kept == Kept(points[..i], owner)
    {
      assert points[..i + 1][..i] == points[..i];
      if points[i].owner != owner {
        kept := kept + [points[i]];
      }
      i := i + 1;
    }
    assert points[..i] == points;
    KeptRows(points, owner);
  }

  class Registry {
    var inputs: seq<BitPoint>
    var outputs: seq<BitPoint>
    var registers: seq<RegisterPoint>

    ghost predicate Valid()
      reads this
    {
      Unique(inputs) && Unique(outputs) && Unique(registers)
    }

    constructor ()
      ensures Valid() && inputs == [] && outputs == [] && registers == []
    {
      inputs, outputs, registers := [], [], [];
    }

    method RegisterInput(name: string, address: int, source: Source, owner: Owner)
      requires Valid()
      modifies this`inputs
      ensures Valid()
      ensures Step(old(inputs), inputs, Op.Register(Point(name, BitShape(address, source), UNREAD, (), owner)))
    {
      inputs := Upsert(inputs, name, address, source, owner);
    }

    method RegisterOutput(name: string, address: int, owner: Owner)
      requires Valid()
      modifies this`outputs
      ensures Valid()
      ensures Step(old(outputs), outputs, Op.Register(Point(name, BitShape(address, Coil), UNREAD, (), owner)))
    {
      outputs := Upsert(outputs, name, address, Coil, owner);
    }

    method RegisterRegister(point: RegisterPoint)
      requires Valid()
      modifies this`registers
      ensures Valid()
      ensures Step(old(registers), registers, Op.Register(point))
    {
      registers := UpsertRegister(registers, point);
    }

    method ClearOwner(owner: Owner)
      requires Valid()
      modifies this
      ensures Valid()
      ensures Step(old(inputs), inputs, Op.ClearOwner(owner))
      ensures Step(old(outputs), outputs, Op.ClearOwner(owner))
      ensures Step(old(registers), registers, Op.ClearOwner(owner))
    {
      inputs := Drop(inputs, owner);
      outputs := Drop(outputs, owner);
      registers := Drop(registers, owner);
    }
  }
}

/** What holds in every run of the runtime manager, with no assumption on its callers: an invariant on records, reapers
    and points, and when exactly a thread is left with nobody to join it. */
module LuaRuntimeSafety {
  import opened LuaRuntimeManager

  // Each quantifier below ranges over a named predicate, so that a proof uses an instance only where it names one.

  predicate PointNotOf(points: map<Point, Id>, id: Id, p: Point) {
    p in points ==> points[p] != id
  }

  ghost predicate OwnsNoPoint(points: map<Point, Id>, id: Id) {
    forall p :: PointNotOf(points, id, p)
  }

  predicate EntryOk(s: State, n: Name) {
    n in s.table ==> s.table[n] in s.runtimes && s.runtimes[s.table[n]].name == n
  }

  ghost predicate TableOk(s: State) {
    forall n :: EntryOk(s, n)
  }

  ghost predicate RuntimeOk(s: State, id: Id)
    requires id in s.runtimes
  {
    var r := s.runtimes[id];
    && id < s.nextId
    && r.joins <= 1
    && (r.joins == 1 ==> !r.joinable && r.pc.Exited?)
    && (r.phase == Terminal ==> r.pc.Clearing? || r.pc.Exited?)
    && (r.stopRequested ==> !r.joinable)
    && (r.pc.SawStop? ==> r.stopRequested)
    && (r.reaping ==> SomePastClaim(s.callers, id))
    && (!r.joinable && r.joins == 0 ==> SomeHolds(s.callers, id))
  }

  ghost predicate ReaperOk(s: State, reaper: Reaper)
    requires reaper.id in s.runtimes
  {
    var r := s.runtimes[reaper.id];
    && (!reaper.pc.Claim? ==> r.reaping)
    && (reaper.held ==> !reaper.pc.Claim? && !reaper.pc.Move? && !r.joinable && r.joins == 0)
    && (reaper.pc.Clear? || reaper.pc.SetTerminal? || reaper.pc.Release? ==> !reaper.held)
    && (!reaper.pc.Claim? && !reaper.pc.Move? ==> !r.joinable && (reaper.held || r.joins == 1))
    && (reaper.pc.SetTerminal? || reaper.pc.Release? ==> r.engineUp || OwnsNoPoint(s.points, reaper.id))
  }

  ghost predicate CallerOk(s: State, c: Caller) {
    && CallerIds(c) <= s.runtimes.Keys
    && (c.Reaping? ==> ReaperOk(s, c.reaper))
    && (c.Reaping? && c.after.ThenErase? ==> c.after.existing == c.reaper.id)
    && (c.StartErase? ==> Released(s.runtimes[c.existing]))
    && (c.StartInsert? ==> s.runtimes[c.id].name == c.name)
  }

  predicate SameReaper(s: State, t: Tid, u: Tid, id: Id) {
    t in s.callers && u in s.callers && PastClaim(s.callers[t], id) && PastClaim(s.callers[u], id) ==> t == u
  }

  ghost predicate OneReaper(s: State) {
    forall t, u, id :: SameReaper(s, t, u, id)
  }

  /** Thread ended, phase terminal, engine down, and no reaper on the way to clearing. */
  ghost predicate Quiescent(s: State, id: Id) {
    && id in s.runtimes && s.runtimes[id].pc.Exited? && s.runtimes[id].phase == Terminal && !s.runtimes[id].engineUp
    && forall t :: t in s.callers ==> !BeforeClear(s.callers[t], id)
  }

  ghost predicate PointOk(s: State, p: Point) {
    p in s.points ==> s.points[p] in s.runtimes && !Quiescent(s, s.points[p])
  }

  ghost predicate PointsOk(s: State) {
    forall p :: PointOk(s, p)
  }

  ghost predicate RecordOk(s: State, id: Id) {
    id in s.runtimes ==> RuntimeOk(s, id)
  }

  ghost predicate RuntimesOk(s: State) {
    forall id :: RecordOk(s, id)
  }

  ghost predicate ThreadOk(s: State, t: Tid) {
    t in s.callers ==> CallerOk(s, s.callers[t])
  }

  ghost predicate CallersOk(s: State) {
    forall t :: ThreadOk(s, t)
  }

  ghost predicate Inv(s: State) {
    TableOk(s) && RuntimesOk(s) && CallersOk(s) && OneReaper(s) && PointsOk(s)
  }

  // ----- Preservation, piece by piece -----

  /** Only caller t moves. */
  ghost predicate OnlyCaller(s: State, s': State, t: Tid) {
    t in s.callers && t in s'.callers && forall u :: SameCaller(s, s', t, u)
  }

  predicate SameCaller(s: State, s': State, t: Tid, u: Tid) {
    (u in s.callers <==> u in s'.callers) && (u in s.callers && u != t ==> s'.callers[u] == s.callers[u])
  }

  /** The other callers still stand for a runtime what they stood for. */
  lemma OthersStay(s: State, s': State, t: Tid, id: Id)
    requires OnlyCaller(s, s', t)
    ensures SomePastClaim(s.callers, id) ==> PastClaim(s.callers[t], id) || SomePastClaim(s'.callers, id)
    ensures SomeHolds(s.callers, id) ==> Holds(s.callers[t], id) || SomeHolds(s'.callers, id)
    ensures PastClaim(s'.callers[t], id) ==> SomePastClaim(s'.callers, id)
    ensures Holds(s'.callers[t], id) ==> SomeHolds(s'.callers, id)
  {
    if SomePastClaim(s.callers, id) {
      var u :| u in s.callers && PastClaim(s.callers[u], id);
      assert SameCaller(s, s', t, u);
      assert u != t ==> PastClaim(s'.callers[u], id);
    }
    if SomeHolds(s.callers, id) {
      var u :| u in s.callers && Holds(s.callers[u], id);
      assert SameCaller(s, s', t, u);
      assert u != t ==> Holds(s'.callers[u], id);
    }
  }

  /** A runtime whose record does not change stays in order if caller t stands for no less. */
  lemma RuntimeStays(s: State, s': State, t: Tid, id: Id)
    requires id in s.runtimes && RuntimeOk(s, id) && OnlyCaller(s, s', t)
    requires id in s'.runtimes && s'.runtimes[id] == s.runtimes[id] && s'.nextId >= s.nextId
    requires PastClaim(s.callers[t], id) ==> PastClaim(s'.callers[t], id)
    requires Holds(s.callers[t], id) ==> Holds(s'.callers[t], id)
    ensures RuntimeOk(s', id)
  {
    OthersStay(s, s', t, id);
  }

  /** Records other than `id` are the same, and `id` keeps its name. */
  ghost predicate OnlyRuntime(s: State, s': State, id: Id) {
    && id in s.runtimes && id in s'.runtimes && s'.runtimes.Keys == s.runtimes.Keys
    && (forall x :: SameRecord(s, s', id, x))
    && s'.runtimes[id].name == s.runtimes[id].name
  }

  predicate SameRecord(s: State, s': State, id: Id, x: Id) {
    (x in s.runtimes <==> x in s'.runtimes) && (x in s.runtimes && x != id ==> s'.runtimes[x] == s.runtimes[x])
  }

  /** A caller that is not past the claim of the changed runtime stays in order. */
  lemma CallerStays(s: State, s': State, id: Id, c: Caller)
    requires CallerOk(s, c) && OnlyRuntime(s, s', id) && !PastClaim(c, id)
    requires c.Reaping? && OwnsNoPoint(s.points, c.reaper.id) ==> OwnsNoPoint(s'.points, c.reaper.id)
    requires Released(s.runtimes[id]) ==> Released(s'.runtimes[id])
    ensures CallerOk(s', c)
  {
    if c.Reaping? {
      assert SameRecord(s, s', id, c.reaper.id);
    }
    if c.StartInsert? {
      assert SameRecord(s, s', id, c.id);
    }
    if c.StartErase? {
      assert SameRecord(s, s', id, c.existing);
    }
  }

  lemma FewerPoints(s: State, s': State, id: Id, x: Id)
    requires s'.points == s.points || s'.points == WithoutOwner(s.points, id)
    ensures OwnsNoPoint(s.points, x) ==> OwnsNoPoint(s'.points, x)
    ensures s'.points == WithoutOwner(s.points, id) ==> OwnsNoPoint(s'.points, id)
  {
    if OwnsNoPoint(s.points, x) {
      forall p ensures PointNotOf(s'.points, x, p) {
        assert PointNotOf(s.points, x, p);
      }
    }
  }

  /** A runtime with points is not quiescent: either its own record says so, or a reaper is on the way. */
  lemma NotQuiescent(s: State, s': State, t: Tid, x: Id)
    requires x in s.runtimes && !Quiescent(s, x) && OnlyCaller(s, s', t)
    requires x in s'.runtimes && s'.runtimes[x] == s.runtimes[x]
    requires BeforeClear(s.callers[t], x) ==> BeforeClear(s'.callers[t], x)
    ensures !Quiescent(s', x)
  {
    if exists u :: u in s.callers && BeforeClear(s.callers[u], x) {
      var u :| u in s.callers && BeforeClear(s.callers[u], x);
      assert SameCaller(s, s', t, u);
      assert BeforeClear(s'.callers[u], x);
    }
  }

  // ----- Steps that change no record: one caller moves, the table may change, a record may be added -----

  /** Caller t moves to a place where it reaps nothing past the claim; every record stays. */
  ghost predicate MoveShape(s: State, s': State, t: Tid) {
    && OnlyCaller(s, s', t) && s'.points == s.points && s'.nextId >= s.nextId
    && (forall id :: KeptRecord(s, s', id))
    && (forall id :: NotPast(s, s', t, id))
  }

  predicate KeptRecord(s: State, s': State, id: Id) {
    id in s.runtimes ==> id in s'.runtimes && s'.runtimes[id] == s.runtimes[id]
  }

  predicate NotPast(s: State, s': State, t: Tid, id: Id) {
    t in s.callers && t in s'.callers ==> !PastClaim(s.callers[t], id) && !PastClaim(s'.callers[t], id)
  }

  lemma MoveCaller(s: State, s': State, c: Caller)
    requires CallerOk(s, c) && s'.points == s.points && forall id :: KeptRecord(s, s', id)
    ensures CallerOk(s', c)
  {
    assert forall id :: id in CallerIds(c) ==> KeptRecord(s, s', id);
    if c.Reaping? {
      assert KeptRecord(s, s', c.reaper.id);
      assert c.reaper.id in CallerIds(c);
    }
    if c.StartErase? {
      assert KeptRecord(s, s', c.existing);
      assert c.existing in CallerIds(c);
    }
    if c.StartInsert? {
      assert KeptRecord(s, s', c.id);
      assert c.id in CallerIds(c);
    }
  }

  lemma MoveStep(s: State, s': State, t: Tid)
    requires Inv(s) && MoveShape(s, s', t) && TableOk(s') && CallerOk(s', s'.callers[t])
    requires forall id :: id in s'.runtimes && id !in s.runtimes ==> RuntimeOk(s', id)
    ensures Inv(s')
  {
    forall id ensures RecordOk(s', id) {
      assert RecordOk(s, id) && KeptRecord(s, s', id) && NotPast(s, s', t, id);
      if id in s.runtimes {
        RuntimeStays(s, s', t, id);
      }
    }
    forall u ensures ThreadOk(s', u) {
      assert ThreadOk(s, u) && SameCaller(s, s', t, u);
      if u in s.callers && u != t {
        MoveCaller(s, s', s.callers[u]);
      }
    }
    forall p ensures PointOk(s', p) {
      assert PointOk(s, p);
      if p in s.points {
        assert KeptRecord(s, s', s.points[p]) && NotPast(s, s', t, s.points[p]);
        NotQuiescent(s, s', t, s.points[p]);
      }
    }
    forall v, u, id ensures SameReaper(s', v, u, id) {
      assert SameReaper(s, v, u, id) && NotPast(s, s', t, id) && SameCaller(s, s', t, u) && SameCaller(s, s', t, v);
    }
  }

  /** The simplest case: nothing but the caller's place changes. */
  lemma CallerMoves(s: State, t: Tid, c: Caller)
    requires Inv(s) && t in s.callers && CallerOk(s, c)
    requires forall id :: !PastClaim(s.callers[t], id) && !PastClaim(c, id)
    ensures Inv(s.(callers := s.callers[t := c]))
  {
    var s' := s.(callers := s.callers[t := c]);
    forall id ensures KeptRecord(s, s', id) && NotPast(s, s', t, id) {
    }
    forall n ensures EntryOk(s', n) {
      assert EntryOk(s, n);
    }
    MoveCaller(s, s', c);
    MoveStep(s, s', t);
  }

  lemma CheckStep(s: State, t: Tid)
    requires Inv(s) && Enabled(s, Continue(t)) && s.callers[t].StartCheck?
    ensures Inv(ContinueFrom(s, t))
  {
    var name := s.callers[t].name;
    assert EntryOk(s, name);
    if name in s.table && IsActive(s.runtimes[s.table[name]]) {
      CallerMoves(s, t, Idle);
    } else if name in s.table {
      CallerMoves(s, t, BeginReap(s.table[name], false, ThenErase(name, s.table[name])));
    } else {
      CallerMoves(s, t, StartCreate(name));
    }
  }

  lemma NextCaller(s: State, rest: seq<Id>, sweep: bool)
    requires rest != [] && CallerIds(NextOf(rest, sweep)) <= s.runtimes.Keys
    ensures CallerOk(s, NextOf(rest[1..], sweep))
    ensures CallerOk(s, BeginReap(rest[0], sweep, ThenNext(rest[1..], sweep)))
  {
    assert rest[0] in CallerIds(NextOf(rest, sweep));
    forall id | id in rest[1..] ensures id in s.runtimes {
      assert id in CallerIds(NextOf(rest, sweep));
    }
  }

  lemma NextStep(s: State, t: Tid)
    requires Inv(s) && Enabled(s, Continue(t)) && s.callers[t].NextOf?
    ensures Inv(ContinueFrom(s, t))
  {
    var rest, sweep := s.callers[t].rest, s.callers[t].sweep;
    if rest == [] {
      CallerMoves(s, t, Idle);
    } else {
      NextCaller(s, rest, sweep);
      if sweep && !IsActive(s.runtimes[rest[0]]) {
        CallerMoves(s, t, NextOf(rest[1..], sweep));
      } else {
        CallerMoves(s, t, BeginReap(rest[0], sweep, ThenNext(rest[1..], sweep)));
      }
    }
  }

  lemma RestartStep(s: State, t: Tid)
    requires Inv(s) && Enabled(s, Continue(t)) && s.callers[t].RestartCheck?
    ensures Inv(ContinueFrom(s, t))
  {
    var name, id := s.callers[t].name, s.callers[t].id;
    CallerMoves(s, t, if IsActive(s.runtimes[id]) then BeginReap(id, true, ThenStart(name)) else StartCheck(name));
  }

  lemma ResumeOk(s: State, c: Caller)
    requires c.Reaping? && CallerOk(s, c) && Released(s.runtimes[c.reaper.id])
    ensures CallerOk(s, Resume(c.after))
  {
  }

  /** A claim that finds the runtime claimed: the other reaper answers for the thread. */
  lemma ClaimFails(s: State, t: Tid)
    requires Inv(s) && Enabled(s, Continue(t)) && s.callers[t].Reaping? && s.callers[t].reaper.pc.Claim?
    requires s.runtimes[s.callers[t].reaper.id].reaping
    ensures Inv(ContinueFrom(s, t))
  {
    var c := s.callers[t];
    var id := c.reaper.id;
    assert ThreadOk(s, t);
    assert s.runtimes[id := s.runtimes[id].(reaping := true)] == s.runtimes;
    ResumeOk(s, c);
    CallerMoves(s, t, Resume(c.after));
  }

  lemma EraseStep(s: State, t: Tid)
    requires Inv(s) && Enabled(s, Continue(t)) && s.callers[t].StartErase?
    ensures Inv(ContinueFrom(s, t))
  {
    var s' := ContinueFrom(s, t);
    forall id ensures KeptRecord(s, s', id) && NotPast(s, s', t, id) {
    }
    forall n ensures EntryOk(s', n) {
      assert EntryOk(s, n);
    }
    MoveStep(s, s', t);
  }

  lemma CreateStep(s: State, t: Tid)
    requires Inv(s) && Enabled(s, Continue(t)) && s.callers[t].StartCreate?
    ensures Inv(ContinueFrom(s, t))
  {
    var s' := ContinueFrom(s, t);
    assert RecordOk(s, s.nextId);
    forall id ensures KeptRecord(s, s', id) && NotPast(s, s', t, id) {
    }
    forall n ensures EntryOk(s', n) {
      assert EntryOk(s, n);
    }
    MoveStep(s, s', t);
  }

  lemma InsertStep(s: State, t: Tid)
    requires Inv(s) && Enabled(s, Continue(t)) && s.callers[t].StartInsert?
    ensures Inv(ContinueFrom(s, t))
  {
    var s' := ContinueFrom(s, t);
    assert ThreadOk(s, t);
    forall id ensures KeptRecord(s, s', id) && NotPast(s, s', t, id) {
    }
    forall n ensures EntryOk(s', n) {
      assert EntryOk(s, n);
    }
    MoveStep(s, s', t);
  }

  lemma PruneStep(s: State, e: Event)
    requires Inv(s) && Enabled(s, e) && e.BeginPrune?
    ensures Inv(Apply(s, e))
  {
    var s' := Apply(s, e);
    forall id ensures KeptRecord(s, s', id) && NotPast(s, s', e.t, id) {
    }
    forall n ensures EntryOk(s', n) {
      assert EntryOk(s, n);
    }
    MoveStep(s, s', e.t);
  }

  lemma BeginStep(s: State, e: Event)
    requires Inv(s) && Enabled(s, e)
    requires e.BeginStart? || e.BeginStop? || e.BeginStopAll? || e.BeginRestart?
    ensures Inv(Apply(s, e))
  {
    match e {
      case BeginStart(t, name) => CallerMoves(s, t, StartCheck(name));
      case BeginStop(t, name) =>
        if Apply(s, e) != s {
          CallerMoves(s, t, BeginReap(s.table[name], true, Finish));
        }
      case BeginStopAll(t, snapshot) =>
        forall id | id in snapshot ensures id in s.runtimes {
          var n :| n in s.table && s.table[n] == id;
          assert EntryOk(s, n);
        }
        CallerMoves(s, t, NextOf(snapshot, true));
      case BeginRestart(t, name) =>
        if name in s.table {
          assert EntryOk(s, name);
          CallerMoves(s, t, RestartCheck(name, s.table[name]));
        }
    }
  }

  // ----- Steps of Reap that touch the record -----

  /** What one step of Reap by caller t changes. */
  ghost predicate ReapShape(s: State, s': State, t: Tid) {
    && t in s.callers && s.callers[t].Reaping? && s.callers[t].reaper.id in s.runtimes
    && var c := s.callers[t];
    var r := s.runtimes[c.reaper.id];
    && ReapEnabled(r, c.reaper)
    && (c.reaper.pc.Claim? ==> !r.reaping)
    && s'.runtimes == s.runtimes[c.reaper.id := ReapRuntime(r, c.reaper)]
    && s'.callers == s.callers[t := ReapCaller(r, c.reaper, c.after)]
    && s'.table == s.table && s'.nextId == s.nextId
    && s'.points == if c.reaper.pc.Clear? then WithoutOwner(s.points, c.reaper.id) else s.points
  }

  lemma ReapFrames(s: State, s': State, t: Tid)
    requires ReapShape(s, s', t)
    ensures OnlyCaller(s, s', t) && OnlyRuntime(s, s', s.callers[t].reaper.id)
  {
  }

  lemma ReapItsRuntime(s: State, s': State, t: Tid)
    requires ReapShape(s, s', t)
    requires RuntimeOk(s, s.callers[t].reaper.id) && ReaperOk(s, s.callers[t].reaper)
    ensures RuntimeOk(s', s.callers[t].reaper.id)
  {
    var c := s.callers[t];
    var id := c.reaper.id;
    ReapFrames(s, s', t);
    OthersStay(s, s', t, id);
    match c.reaper.pc {
      case Move => assert s.runtimes[id].joinable ==> Holds(s'.callers[t], id);
      case Release => assert s.runtimes[id].joins == 1;
      case _ =>
    }
  }

  /** Nobody but the reaper past the claim can hold the thread. */
  lemma OnlyHolder(s: State, t: Tid, id: Id)
    requires OneReaper(s) && t in s.callers && PastClaim(s.callers[t], id) && SomeHolds(s.callers, id)
    ensures Holds(s.callers[t], id)
  {
    var u :| u in s.callers && Holds(s.callers[u], id);
    assert SameReaper(s, t, u, id);
  }

  lemma ReapItsReaper(s: State, s': State, t: Tid)
    requires ReapShape(s, s', t) && OneReaper(s)
    requires ReaperOk(s, s.callers[t].reaper) && RuntimeOk(s, s.callers[t].reaper.id)
    requires s'.callers[t].Reaping? && PastClaim(s'.callers[t], s.callers[t].reaper.id)
    ensures ReaperOk(s', s'.callers[t].reaper)
  {
    var c := s.callers[t];
    var id := c.reaper.id;
    FewerPoints(s, s', id, id);
    if c.reaper.pc.Move? && SomeHolds(s.callers, id) {
      OnlyHolder(s, t, id);
      assert false;
    }
  }

  lemma ReapItsCaller(s: State, s': State, t: Tid)
    requires ReapShape(s, s', t) && OneReaper(s)
    requires CallerOk(s, s.callers[t]) && RuntimeOk(s, s.callers[t].reaper.id)
    ensures CallerOk(s', s'.callers[t])
  {
    var c := s.callers[t];
    var id := c.reaper.id;
    ReapFrames(s, s', t);
    if !c.reaper.pc.Release? {
      ReapItsReaper(s, s', t);
    }
  }

  lemma ReapOther(s: State, s': State, t: Tid, u: Tid)
    requires CallersOk(s) && OneReaper(s) && ReapShape(s, s', t) && u in s.callers && u != t
    ensures !PastClaim(s.callers[u], s.callers[t].reaper.id) && CallerOk(s', s.callers[u])
  {
    var id := s.callers[t].reaper.id;
    ReapFrames(s, s', t);
    assert ThreadOk(s, u) && SameReaper(s, t, u, id) && ThreadOk(s, t);
    if s.callers[u].Reaping? {
      FewerPoints(s, s', id, s.callers[u].reaper.id);
    }
    CallerStays(s, s', id, s.callers[u]);
  }

  lemma ReapPoint(s: State, s': State, t: Tid, p: Point)
    requires ReapShape(s, s', t) && PointOk(s, p) && ReaperOk(s, s.callers[t].reaper)
    ensures PointOk(s', p)
  {
    var c := s.callers[t];
    var id := c.reaper.id;
    ReapFrames(s, s', t);
    if p in s'.points {
      var x := s.points[p];
      assert SameRecord(s, s', id, x);
      if x != id {
        NotQuiescent(s, s', t, x);
      } else if c.reaper.pc.Release? || c.reaper.pc.SetTerminal? {
        assert !PointNotOf(s.points, id, p);
        assert s.runtimes[id].engineUp;
      } else {
        assert BeforeClear(s'.callers[t], id);
      }
    }
  }

  lemma ReapRecord(s: State, s': State, t: Tid, x: Id)
    requires ReapShape(s, s', t) && ReaperOk(s, s.callers[t].reaper) && RecordOk(s, x)
    ensures RecordOk(s', x)
  {
    var id := s.callers[t].reaper.id;
    ReapFrames(s, s', t);
    assert SameRecord(s, s', id, x);
    if x == id {
      ReapItsRuntime(s, s', t);
    } else if x in s.runtimes {
      RuntimeStays(s, s', t, x);
    }
  }

  lemma ReapStep(s: State, s': State, t: Tid)
    requires Inv(s) && ReapShape(s, s', t)
    ensures Inv(s')
  {
    var id := s.callers[t].reaper.id;
    assert ThreadOk(s, t) && RecordOk(s, id);
    ReapFrames(s, s', t);
    ReapItsCaller(s, s', t);
    forall x ensures RecordOk(s', x) {
      assert RecordOk(s, x);
      ReapRecord(s, s', t, x);
    }
    forall u ensures ThreadOk(s', u) {
      if u in s.callers && u != t {
        ReapOther(s, s', t, u);
      }
    }
    forall v, u, x ensures SameReaper(s', v, u, x) {
      assert SameReaper(s, v, u, x);
      if u in s.callers && u != t {
        ReapOther(s, s', t, u);
      }
      if v in s.callers && v != t {
        ReapOther(s, s', t, v);
      }
    }
    forall p ensures PointOk(s', p) {
      assert PointOk(s, p);
      ReapPoint(s, s', t, p);
    }
    forall n ensures EntryOk(s', n) {
      assert EntryOk(s, n);
    }
  }

  // ----- Steps of the runtime's own thread and of its script -----

  ghost predicate ThreadShape(s: State, s': State, id: Id, ok: bool) {
    && id in s.runtimes && !s.runtimes[id].pc.Exited?
    && s'.runtimes == s.runtimes[id := ThreadRuntime(s.runtimes[id], ok)]
    && s'.callers == s.callers && s'.table == s.table && s'.nextId == s.nextId
    && s'.points == if s.runtimes[id].pc.Clearing? then WithoutOwner(s.points, id) else s.points
  }

  lemma ThreadCaller(s: State, s': State, id: Id, ok: bool, c: Caller)
    requires ThreadShape(s, s', id, ok) && CallerOk(s, c) && RuntimeOk(s, id)
    ensures CallerOk(s', c)
  {
    if c.Reaping? {
      FewerPoints(s, s', id, c.reaper.id);
    }
  }

  lemma ThreadPoint(s: State, s': State, id: Id, ok: bool, p: Point)
    requires ThreadShape(s, s', id, ok) && RuntimeOk(s, id) && CallersOk(s) && PointOk(s, p)
    ensures PointOk(s', p)
  {
    if p in s'.points && s.points[p] == id && s.runtimes[id].pc.SawStop? {
      // The stop was requested by a reaper that took the thread and is still waiting for it.
      var u :| u in s.callers && Holds(s.callers[u], id);
      assert ThreadOk(s, u);
      assert BeforeClear(s'.callers[u], id);
    }
    if p in s'.points && s.points[p] != id {
      var x := s.points[p];
      if exists u :: u in s.callers && BeforeClear(s.callers[u], x) {
        var u :| u in s.callers && BeforeClear(s.callers[u], x);
        assert BeforeClear(s'.callers[u], x);
      }
    }
  }

  lemma ThreadStep(s: State, s': State, id: Id, ok: bool)
    requires Inv(s) && ThreadShape(s, s', id, ok)
    ensures Inv(s')
  {
    assert RecordOk(s, id);
    forall x ensures RecordOk(s', x) {
      assert RecordOk(s, x);
    }
    forall u ensures ThreadOk(s', u) {
      assert ThreadOk(s, u);
      if u in s.callers {
        ThreadCaller(s, s', id, ok, s.callers[u]);
      }
    }
    forall v, u, x ensures SameReaper(s', v, u, x) {
      assert SameReaper(s, v, u, x);
    }
    forall p ensures PointOk(s', p) {
      assert PointOk(s, p);
      ThreadPoint(s, s', id, ok, p);
    }
    forall n ensures EntryOk(s', n) {
      assert EntryOk(s, n);
    }
  }

  lemma RegisterCaller(s: State, id: Id, point: Point, c: Caller)
    requires id in s.runtimes && s.runtimes[id].engineUp && CallerOk(s, c)
    ensures CallerOk(s.(points := s.points[point := id]), c)
  {
    var s' := s.(points := s.points[point := id]);
    if c.Reaping? && c.reaper.id != id && OwnsNoPoint(s.points, c.reaper.id) {
      forall p ensures PointNotOf(s'.points, c.reaper.id, p) {
        assert PointNotOf(s.points, c.reaper.id, p);
      }
    }
  }

  lemma RegisterStep(s: State, id: Id, point: Point)
    requires Inv(s) && id in s.runtimes && s.runtimes[id].engineUp
    ensures Inv(s.(points := s.points[point := id]))
  {
    var s' := s.(points := s.points[point := id]);
    forall x ensures RecordOk(s', x) {
      assert RecordOk(s, x);
    }
    forall u ensures ThreadOk(s', u) {
      assert ThreadOk(s, u);
      if u in s.callers {
        RegisterCaller(s, id, point, s.callers[u]);
      }
    }
    forall v, u, x ensures SameReaper(s', v, u, x) {
      assert SameReaper(s, v, u, x);
    }
    forall p ensures PointOk(s', p) {
      assert PointOk(s, p);
    }
    forall n ensures EntryOk(s', n) {
      assert EntryOk(s, n);
    }
  }

  /** Every step of every caller and every thread keeps the invariant. */
  lemma StepKeepsInv(s: State, e: Event)
    requires Inv(s) && Enabled(s, e)
    ensures Inv(Apply(s, e))
  {
    match e {
      case Continue(t) => ContinueStep(s, t);
      case RunThread(id, ok) => ThreadStep(s, Apply(s, e), id, ok);
      case RegisterPoint(id, point) => RegisterStep(s, id, point);
      case BeginPrune(_, _) => PruneStep(s, e);
      case _ => BeginStep(s, e);
    }
  }

  lemma ContinueStep(s: State, t: Tid)
    requires Inv(s) && Enabled(s, Continue(t))
    ensures Inv(ContinueFrom(s, t))
  {
    match s.callers[t] {
      case StartCheck(_) => CheckStep(s, t);
      case StartErase(_, _) => EraseStep(s, t);
      case StartCreate(_) => CreateStep(s, t);
      case StartInsert(_, _) => InsertStep(s, t);
      case RestartCheck(_, _) => RestartStep(s, t);
      case NextOf(_, _) => NextStep(s, t);
      case Reaping(reaper, _) =>
        if reaper.pc.Claim? && s.runtimes[reaper.id].reaping {
          ClaimFails(s, t);
        } else {
          ReapStep(s, ContinueFrom(s, t), t);
        }
    }
  }

  lemma {:induction false} RunKeepsInv(states: seq<State>, events: seq<Event>, n: nat)
    requires IsRun(states, events) && n < |states|
    ensures Inv(states[n])
  {
    if n > 0 {
      RunKeepsInv(states, events, n - 1);
      assert StepAt(states, events, n - 1);
      StepKeepsInv(states[n - 1], events[n - 1]);
    }
  }

  // ----- What every run keeps -----

  /** Each thread is joined at most once; a thread that is out of its record and not joined is in the hands of a reaper
      that will join it; one that has been joined has ended. */
  lemma JoinedAtMostOnce(states: seq<State>, events: seq<Event>, n: nat, id: Id)
    requires IsRun(states, events) && n < |states| && id in states[n].runtimes
    ensures var r := states[n].runtimes[id];
      && r.joins <= 1 && (r.joins == 1 ==> !r.joinable && r.pc.Exited?)
      && (!r.joinable && r.joins == 0 ==> SomeHolds(states[n].callers, id))
  {
    RunKeepsInv(states, events, n);
    assert RecordOk(states[n], id);
  }

  /** The terminal phase is visible only after the top-level code has returned. */
  lemma TerminalMeansReturned(states: seq<State>, events: seq<Event>, n: nat, id: Id)
    requires IsRun(states, events) && n < |states| && id in states[n].runtimes
    ensures states[n].runtimes[id].phase == Terminal ==> !Live(states[n].runtimes[id])
  {
    RunKeepsInv(states, events, n);
    assert RecordOk(states[n], id);
  }

  /** When a runtime has come to rest (thread ended, phase terminal, engine down, no reaper left to clear), the dashboard
      shows none of its points. */
  lemma RestingRuntimeOwnsNothing(states: seq<State>, events: seq<Event>, n: nat, id: Id)
    requires IsRun(states, events) && n < |states| && Quiescent(states[n], id)
    ensures forall p :: p in states[n].points ==> states[n].points[p] != id
  {
    RunKeepsInv(states, events, n);
    forall p | p in states[n].points ensures states[n].points[p] != id {
      assert PointOk(states[n], p);
    }
  }

  /** A record outlives the step, under its name, and a thread that is out of it never comes back. */
  ghost predicate Persists(s: State, s': State, id: Id)
    requires id in s.runtimes
  {
    && s'.nextId >= s.nextId && id in s'.runtimes && s'.runtimes[id].name == s.runtimes[id].name
    && (s'.runtimes[id].joinable ==> s.runtimes[id].joinable)
  }

  lemma ContinuePersists(s: State, t: Tid, id: Id)
    requires Enabled(s, Continue(t)) && id in s.runtimes && id < s.nextId
    ensures Persists(s, ContinueFrom(s, t), id)
  {
    if s.callers[t].Reaping? {
      assert ContinueFrom(s, t).nextId == s.nextId;
    }
  }

  lemma RecordPersists(s: State, e: Event, id: Id)
    requires Enabled(s, e) && id in s.runtimes && id < s.nextId
    ensures Persists(s, Apply(s, e), id)
  {
    if e.Continue? {
      ContinuePersists(s, e.t, id);
    }
  }

  /** Ids are never reused: once given out, an id belongs to a runtime of the same name in every later state, below every
      id still to be given out; and a thread taken out of the record stays out. */
  lemma {:induction false} IdsNeverReused(states: seq<State>, events: seq<Event>, m: nat, n: nat, id: Id)
    requires IsRun(states, events) && m <= n < |states| && id in states[m].runtimes
    ensures id < states[n].nextId && id in states[n].runtimes
    ensures states[n].runtimes[id].name == states[m].runtimes[id].name
    ensures states[n].runtimes[id].joinable ==> states[m].runtimes[id].joinable
    decreases n
  {
    if m < n {
      IdsNeverReused(states, events, m, n - 1, id);
      assert StepAt(states, events, n - 1);
      RecordPersists(states[n - 1], events[n - 1], id);
    } else {
      RunKeepsInv(states, events, m);
      assert RecordOk(states[m], id);
    }
  }

  // ----- When a thread is lost -----

  /** Somebody answers for a thread that is still in its record: the table lists it, a start is about to list it, or
      somebody is about to take the thread. */
  ghost predicate Answerable(s: State, id: Id)
    requires id in s.runtimes
  {
    var name := s.runtimes[id].name;
    Listed(s.table, id, name) || Inserting(s.callers, id, name) || SomeWillTake(s.callers, id)
  }

  /** The thread of a runtime is where somebody answers for it: in a record that is answerable, in the hands of the reaper
      that will join it, or joined. */
  ghost predicate ThreadAccounted(s: State, id: Id)
    requires id in s.runtimes
  {
    var r := s.runtimes[id];
    || (r.joinable && r.joins == 0 && Answerable(s, id))
    || (!r.joinable && r.joins == 0 && SomeHolds(s.callers, id))
    || (!r.joinable && r.joins == 1)
  }

  /** The step inserts another runtime over an entry whose thread is still in its record and that nobody else is about to
      take or to list. */
  ghost predicate Overwritten(s: State, e: Event, id: Id) {
    && e.Continue? && e.t in s.callers && s.callers[e.t].StartInsert? && s.callers[e.t].id != id
    && id in s.runtimes && s.runtimes[id].joinable
    && Listed(s.table, id, s.callers[e.t].name)
    && !SomeWillTake(s.callers, id) && !Inserting(s.callers, id, s.callers[e.t].name)
  }

  lemma OthersAnswer(s: State, s': State, t: Tid, id: Id, name: Name)
    requires OnlyCaller(s, s', t)
    ensures SomeWillTake(s.callers, id) ==> WillTake(s.callers[t], id) || SomeWillTake(s'.callers, id)
    ensures SomeWillTake(s'.callers, id) ==> WillTake(s'.callers[t], id) || SomeWillTake(s.callers, id)
    ensures Inserting(s.callers, id, name) ==> s.callers[t] == StartInsert(name, id) || Inserting(s'.callers, id, name)
    ensures Inserting(s'.callers, id, name) ==> s'.callers[t] == StartInsert(name, id) || Inserting(s.callers, id, name)
    ensures WillTake(s'.callers[t], id) ==> SomeWillTake(s'.callers, id)
    ensures s'.callers[t] == StartInsert(name, id) ==> Inserting(s'.callers, id, name)
  {
    if SomeWillTake(s.callers, id) {
      var u :| u in s.callers && WillTake(s.callers[u], id);
      assert SameCaller(s, s', t, u);
      assert u != t ==> WillTake(s'.callers[u], id);
    }
    if SomeWillTake(s'.callers, id) {
      var u :| u in s'.callers && WillTake(s'.callers[u], id);
      assert SameCaller(s, s', t, u);
      assert u != t ==> WillTake(s.callers[u], id);
    }
    if Inserting(s.callers, id, name) {
      var u :| u in s.callers && s.callers[u] == StartInsert(name, id);
      assert SameCaller(s, s', t, u);
      assert u != t ==> s'.callers[u] == StartInsert(name, id);
    }
    if Inserting(s'.callers, id, name) {
      var u :| u in s'.callers && s'.callers[u] == StartInsert(name, id);
      assert SameCaller(s, s', t, u);
      assert u != t ==> s.callers[u] == StartInsert(name, id);
    }
  }

  /** A claimed runtime whose thread is still in its record has a reaper about to take it. */
  lemma ClaimedIsTaken(s: State, id: Id) returns (u: Tid)
    requires Inv(s) && id in s.runtimes && s.runtimes[id].joinable && s.runtimes[id].reaping
    ensures u in s.callers && PastClaim(s.callers[u], id) && s.callers[u].reaper.pc.Move? && WillTake(s.callers[u], id)
  {
    assert RecordOk(s, id);
    u :| u in s.callers && PastClaim(s.callers[u], id);
    assert ThreadOk(s, u);
  }

  lemma ReapAnswers(s: State, t: Tid, id: Id)
    requires Inv(s) && Enabled(s, Continue(t)) && s.callers[t].Reaping?
    requires id in s.runtimes && Answerable(s, id)
    requires s.runtimes[id].joinable && ContinueFrom(s, t).runtimes[id].joinable
    ensures Answerable(ContinueFrom(s, t), id)
  {
    var s', c := ContinueFrom(s, t), s.callers[t];
    assert ThreadOk(s, t);
    OthersAnswer(s, s', t, id, s.runtimes[id].name);
    if c.reaper.id == id && c.reaper.pc.Claim? && s.runtimes[id].reaping {
      var u := ClaimedIsTaken(s, id);
      assert u != t && WillTake(s'.callers[u], id);
    }
  }

  lemma EraseAnswers(s: State, t: Tid, id: Id)
    requires Inv(s) && Enabled(s, Continue(t)) && s.callers[t].StartErase?
    requires id in s.runtimes && Answerable(s, id) && s.runtimes[id].joinable
    ensures Answerable(ContinueFrom(s, t), id)
  {
    var s', c := ContinueFrom(s, t), s.callers[t];
    assert ThreadOk(s, t);
    OthersAnswer(s, s', t, id, s.runtimes[id].name);
    if id == c.existing {
      var u := ClaimedIsTaken(s, id);
      assert u != t && WillTake(s'.callers[u], id);
    }
  }

  lemma InsertAnswers(s: State, t: Tid, id: Id)
    requires Inv(s) && Enabled(s, Continue(t)) && s.callers[t].StartInsert?
    requires id in s.runtimes && Answerable(s, id) && s.runtimes[id].joinable
    ensures Answerable(ContinueFrom(s, t), id) <==> !Overwritten(s, Continue(t), id)
  {
    var s', c := ContinueFrom(s, t), s.callers[t];
    assert ThreadOk(s, t) && EntryOk(s, c.name);
    OthersAnswer(s, s', t, id, s.runtimes[id].name);
  }

  lemma NextAnswers(s: State, t: Tid, id: Id)
    requires Inv(s) && Enabled(s, Continue(t)) && s.callers[t].NextOf?
    requires id in s.runtimes && Answerable(s, id)
    ensures Answerable(ContinueFrom(s, t), id)
  {
    var s', rest := ContinueFrom(s, t), s.callers[t].rest;
    OthersAnswer(s, s', t, id, s.runtimes[id].name);
    if id in rest && !s.callers[t].sweep {
      assert id == rest[0] || id in rest[1..];
      assert WillTake(s'.callers[t], id);
    }
  }

  lemma ContinueAnswers(s: State, t: Tid, id: Id)
    requires Inv(s) && Enabled(s, Continue(t)) && id in s.runtimes && Answerable(s, id)
    requires s.runtimes[id].joinable && ContinueFrom(s, t).runtimes[id].joinable
    ensures Answerable(ContinueFrom(s, t), id) <==> !Overwritten(s, Continue(t), id)
  {
    match s.callers[t] {
      case StartErase(_, _) => EraseAnswers(s, t, id);
      case StartInsert(_, _) => InsertAnswers(s, t, id);
      case NextOf(_, _) => NextAnswers(s, t, id);
      case Reaping(_, _) => ReapAnswers(s, t, id);
      case _ => QuietAnswers(s, t, id);
    }
  }

  lemma QuietAnswers(s: State, t: Tid, id: Id)
    requires Inv(s) && Enabled(s, Continue(t)) && id in s.runtimes && Answerable(s, id)
    requires s.callers[t].StartCheck? || s.callers[t].StartCreate? || s.callers[t].RestartCheck?
    ensures id in ContinueFrom(s, t).runtimes && Answerable(ContinueFrom(s, t), id)
  {
    assert RecordOk(s, id);
    OthersAnswer(s, ContinueFrom(s, t), t, id, s.runtimes[id].name);
  }

  lemma StepAnswers(s: State, e: Event, id: Id)
    requires Inv(s) && Enabled(s, e) && id in s.runtimes && Answerable(s, id) && id in Apply(s, e).runtimes
    requires s.runtimes[id].joinable && Apply(s, e).runtimes[id].joinable
    ensures Answerable(Apply(s, e), id) <==> !Overwritten(s, e, id)
  {
    var s' := Apply(s, e);
    match e {
      case Continue(t) => ContinueAnswers(s, t, id);
      case RunThread(_, _) =>
      case RegisterPoint(_, _) =>
      case BeginPrune(t, dead) => OthersAnswer(s, s', t, id, s.runtimes[id].name);
      case BeginStart(t, _) => OthersAnswer(s, s', t, id, s.runtimes[id].name);
      case BeginStop(t, _) => OthersAnswer(s, s', t, id, s.runtimes[id].name);
      case BeginStopAll(t, _) => OthersAnswer(s, s', t, id, s.runtimes[id].name);
      case BeginRestart(t, _) => OthersAnswer(s, s', t, id, s.runtimes[id].name);
    }
  }

  /** In every run, an accounted thread becomes unaccounted exactly at a step that inserts another runtime over its entry
      while the thread is still in the record and nobody is about to take it. */
  lemma LostIffOverwritten(states: seq<State>, events: seq<Event>, n: nat, id: Id)
    requires IsRun(states, events) && n < |events| && id in states[n].runtimes && ThreadAccounted(states[n], id)
    ensures id in states[n + 1].runtimes
    ensures ThreadAccounted(states[n + 1], id) <==> !Overwritten(states[n], events[n], id)
  {
    var s, s', e := states[n], states[n + 1], events[n];
    assert StepAt(states, events, n);
    RunKeepsInv(states, events, n);
    RunKeepsInv(states, events, n + 1);
    IdsNeverReused(states, events, n, n + 1, id);
    assert RecordOk(s, id) && RecordOk(s', id);
    if s'.runtimes[id].joinable {
      StepAnswers(s, e, id);
    } else {
      NotTakenByInsert(s, e, id);
    }
  }

  lemma NotTakenByInsert(s: State, e: Event, id: Id)
    requires Enabled(s, e) && id in s.runtimes && Inv(s)
    requires id in Apply(s, e).runtimes && !Apply(s, e).runtimes[id].joinable
    ensures !Overwritten(s, e, id)
  {
    if e.Continue? && s.callers[e.t].StartInsert? {
      assert Apply(s, e).runtimes == s.runtimes;
    }
  }

  /** A new runtime's thread is accounted for. */
  lemma CreatedIsAccounted(s: State, e: Event, id: Id)
    requires Inv(s) && Enabled(s, e) && id !in s.runtimes && id in Apply(s, e).runtimes
    ensures ThreadAccounted(Apply(s, e), id)
  {
    assert e.Continue? && s.callers[e.t].StartCreate?;
    assert Apply(s, e).callers[e.t] == StartInsert(s.callers[e.t].name, id);
  }

  /** So a thread on which no insert ever lands in this way is accounted for at all times. */
  lemma {:induction false} AccountedUnlessOverwritten(states: seq<State>, events: seq<Event>, n: nat, id: Id)
    requires IsRun(states, events) && n < |states| && id in states[n].runtimes
    requires forall i :: 0 <= i < n ==> !Overwritten(states[i], events[i], id)
    ensures ThreadAccounted(states[n], id)
    decreases n
  {
    if n > 0 {
      assert StepAt(states, events, n - 1);
      RunKeepsInv(states, events, n - 1);
      if id in states[n - 1].runtimes {
        AccountedUnlessOverwritten(states, events, n - 1, id);
        LostIffOverwritten(states, events, n - 1, id);
      } else {
        CreatedIsAccounted(states[n - 1], events[n - 1], id);
      }
    }
  }
}

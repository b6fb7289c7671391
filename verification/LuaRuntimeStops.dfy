/** What Stop and StopAll leave behind, in every run: whether the engine is down when a reaper is done, and what has become
    of each thread when StopAll returns. */
module LuaRuntimeStops {
  import opened LuaRuntimeManager
  import opened LuaRuntimeSafety

  // ----- The engine after an interrupting Reap -----

  /** The step at which the top-level code of a runtime answers ok. */
  predicate AnswersOk(s: State, e: Event, id: Id) {
    e == RunThread(id, true) && id in s.runtimes && s.runtimes[id].pc.Executing?
  }

  ghost predicate AnsweredOk(states: seq<State>, events: seq<Event>, id: Id, k: int, m: int)
    requires |states| == |events| + 1 && 0 <= k && m <= |events|
  {
    exists j :: k < j < m && AnswersOk(states[j], events[j], id)
  }

  /** The code had not begun when the engine was stopped. */
  predicate Early(r: Runtime) {
    r.pc.Spawned? || r.pc.Entered?
  }

  /** Between the stop of the engine and the end of the reaper: while the code has not returned it was early and has not
      answered; afterwards the engine is up exactly if the code answered ok in between. */
  ghost predicate EngineTrack(states: seq<State>, events: seq<Event>, id: Id, k: int, m: int)
    requires |states| == |events| + 1 && 0 <= k < m <= |events|
  {
    && id in states[k].runtimes && id in states[m].runtimes
    && (Live(states[m].runtimes[id]) ==> Early(states[k].runtimes[id]) && !AnsweredOk(states, events, id, k, m))
    && (!Live(states[m].runtimes[id]) ==> (states[m].runtimes[id].engineUp <==> AnsweredOk(states, events, id, k, m)))
    && (AnsweredOk(states, events, id, k, m) ==> Early(states[k].runtimes[id]))
  }

  lemma AnsweredStep(states: seq<State>, events: seq<Event>, id: Id, k: int, m: int)
    requires |states| == |events| + 1 && 0 <= k < m < |events|
    ensures AnsweredOk(states, events, id, k, m + 1) <==>
            AnsweredOk(states, events, id, k, m) || AnswersOk(states[m], events[m], id)
  {
    if AnsweredOk(states, events, id, k, m) {
      var j :| k < j < m && AnswersOk(states[j], events[j], id);
      assert k < j < m + 1;
    }
    if AnswersOk(states[m], events[m], id) {
      assert k < m < m + 1;
    }
  }

  /** A step of anybody but another reaper past its claim moves the engine only with the code. */
  ghost predicate EngineStep(s: State, s': State, e: Event, id: Id)
    requires id in s.runtimes
  {
    && id in s'.runtimes
    && (Live(s'.runtimes[id]) ==> Live(s.runtimes[id]) && !AnswersOk(s, e, id))
    && (Live(s.runtimes[id]) && !Live(s'.runtimes[id]) ==>
          e.RunThread? && e.id == id && s.runtimes[id].pc.Executing? && s'.runtimes[id].engineUp == e.ok)
    && (!Live(s.runtimes[id]) ==> s'.runtimes[id].engineUp == s.runtimes[id].engineUp)
  }

  lemma ReapEngine(s: State, t: Tid, u: Tid, id: Id)
    requires Inv(s) && Enabled(s, Continue(u)) && s.callers[u].Reaping? && id in s.runtimes
    requires t in s.callers && PastClaim(s.callers[t], id) && (u == t ==> !s.callers[t].reaper.pc.StopEngine?)
    ensures EngineStep(s, ContinueFrom(s, u), Continue(u), id)
  {
    assert SameReaper(s, t, u, id);
  }

  lemma ContinueEngine(s: State, t: Tid, u: Tid, id: Id)
    requires Inv(s) && Enabled(s, Continue(u)) && id in s.runtimes
    requires t in s.callers && PastClaim(s.callers[t], id) && (u == t ==> !s.callers[t].reaper.pc.StopEngine?)
    ensures EngineStep(s, ContinueFrom(s, u), Continue(u), id)
  {
    if s.callers[u].Reaping? {
      ReapEngine(s, t, u, id);
    } else {
      assert RecordOk(s, id);
    }
  }

  lemma StepEngine(s: State, t: Tid, e: Event, id: Id)
    requires Inv(s) && Enabled(s, e) && id in s.runtimes
    requires t in s.callers && PastClaim(s.callers[t], id)
    requires e == Continue(t) ==> !s.callers[t].reaper.pc.StopEngine?
    ensures EngineStep(s, Apply(s, e), e, id)
  {
    if e.Continue? {
      ContinueEngine(s, t, e.t, id);
    }
  }

  lemma TrackStep(states: seq<State>, events: seq<Event>, id: Id, k: int, m: int)
    requires |states| == |events| + 1 && 0 <= k < m < |events| && EngineTrack(states, events, id, k, m)
    requires EngineStep(states[m], states[m + 1], events[m], id)
    ensures EngineTrack(states, events, id, k, m + 1)
  {
    AnsweredStep(states, events, id, k, m);
  }

  /** The step that stops the engine. */
  ghost predicate StopsEngine(s: State, e: Event, t: Tid, id: Id) {
    && e == Continue(t) && t in s.callers && s.callers[t].Reaping?
    && s.callers[t].reaper.id == id && s.callers[t].reaper.pc.StopEngine?
  }

  lemma StopBegins(states: seq<State>, events: seq<Event>, k: nat, t: Tid, id: Id)
    requires IsRun(states, events) && k < |events| && StopsEngine(states[k], events[k], t, id)
    ensures id in states[k].runtimes && t in states[k + 1].callers && states[k + 1].callers[t].Reaping?
    ensures states[k + 1].callers[t].reaper.pc.Join?
    ensures EngineTrack(states, events, id, k, k + 1)
  {
    assert StepAt(states, events, k);
    RunKeepsInv(states, events, k);
    assert ThreadOk(states[k], t);
  }

  /** Caller t is on the way from having stopped the engine to the end of this Reap. */
  predicate Finishing(c: Caller, id: Id) {
    PastClaim(c, id) && (c.reaper.pc.Join? || c.reaper.pc.Clear? || c.reaper.pc.SetTerminal? || c.reaper.pc.Release?)
  }

  lemma FinishingContinues(s: State, t: Tid, id: Id)
    requires Enabled(s, Continue(t)) && Finishing(s.callers[t], id)
    ensures !PastClaim(ContinueFrom(s, t).callers[t], id) || Finishing(ContinueFrom(s, t).callers[t], id)
  {
  }

  lemma FinishingStep(s: State, e: Event, t: Tid, id: Id)
    requires Enabled(s, e) && t in s.callers && Finishing(s.callers[t], id) && t in Apply(s, e).callers
    ensures !PastClaim(Apply(s, e).callers[t], id) || Finishing(Apply(s, e).callers[t], id)
  {
    if e == Continue(t) {
      FinishingContinues(s, t, id);
    }
  }

  lemma {:induction false} TrackTo(states: seq<State>, events: seq<Event>, k: nat, m: nat, t: Tid, id: Id)
    requires IsRun(states, events) && k < m < |states| && StopsEngine(states[k], events[k], t, id)
    requires forall i :: k < i <= m ==> t in states[i].callers && PastClaim(states[i].callers[t], id)
    ensures EngineTrack(states, events, id, k, m) && Finishing(states[m].callers[t], id)
    decreases m
  {
    if m == k + 1 {
      StopBegins(states, events, k, t, id);
    } else {
      TrackTo(states, events, k, m - 1, t, id);
      assert StepAt(states, events, m - 1);
      RunKeepsInv(states, events, m - 1);
      StepEngine(states[m - 1], t, events[m - 1], id);
      TrackStep(states, events, id, k, m - 1);
      FinishingStep(states[m - 1], events[m - 1], t, id);
    }
  }

  /** Let step k be where an interrupting Reap stops the engine. When that Reap comes to release the runtime, the engine is up
      if and only if the code had not begun at step k and has answered ok since. */
  lemma EngineUpIffEarly(states: seq<State>, events: seq<Event>, k: nat, n: nat, t: Tid, id: Id)
    requires IsRun(states, events) && k < n < |states| && StopsEngine(states[k], events[k], t, id)
    requires forall i :: k < i <= n ==> t in states[i].callers && PastClaim(states[i].callers[t], id)
    requires t in states[n].callers && states[n].callers[t].Reaping? && states[n].callers[t].reaper.pc.Release?
    ensures id in states[k].runtimes && id in states[n].runtimes
    ensures states[n].runtimes[id].pc.Exited?
    ensures states[n].runtimes[id].engineUp <==>
            Early(states[k].runtimes[id]) && AnsweredOk(states, events, id, k, n)
  {
    TrackTo(states, events, k, n, t, id);
    RunKeepsInv(states, events, n);
    assert ThreadOk(states[n], t) && RecordOk(states[n], id);
  }

  predicate Down(s: State, id: Id) {
    id in s.runtimes && !Live(s.runtimes[id]) && !s.runtimes[id].engineUp
  }

  lemma DownContinue(s: State, t: Tid, id: Id)
    requires Enabled(s, Continue(t)) && Down(s, id) && id < s.nextId
    ensures Down(ContinueFrom(s, t), id)
  {
    if s.callers[t].Reaping? {
      assert ContinueFrom(s, t).runtimes.Keys == s.runtimes.Keys;
    }
  }

  lemma DownStep(s: State, e: Event, id: Id)
    requires Inv(s) && Enabled(s, e) && Down(s, id)
    ensures Down(Apply(s, e), id)
  {
    assert RecordOk(s, id);
    if e.Continue? {
      DownContinue(s, e.t, id);
    }
  }

  /** A runtime whose engine is down and whose code has returned keeps its engine down in every later state. */
  lemma {:induction false} EngineStaysDown(states: seq<State>, events: seq<Event>, m: nat, n: nat, id: Id)
    requires IsRun(states, events) && m <= n < |states| && Down(states[m], id)
    ensures Down(states[n], id)
    decreases n
  {
    if m < n {
      EngineStaysDown(states, events, m, n - 1, id);
      assert StepAt(states, events, n - 1);
      RunKeepsInv(states, events, n - 1);
      DownStep(states[n - 1], events[n - 1], id);
    }
  }

  // ----- Threads after StopAll -----

  /** The step at which a reaper takes the thread out of the record. */
  predicate TakesThread(s: State, e: Event, id: Id) {
    && e.Continue? && e.t in s.callers && s.callers[e.t].Reaping?
    && s.callers[e.t].reaper.id == id && s.callers[e.t].reaper.pc.Move?
  }

  /** The thread is out of the record, or a reaper is past its claim and will take it. */
  ghost predicate Taken(s: State, id: Id) {
    id in s.runtimes && (s.runtimes[id].joinable ==> SomePastClaim(s.callers, id))
  }

  lemma TakenContinue(s: State, t: Tid, u: Tid, id: Id)
    requires Inv(s) && Enabled(s, Continue(t)) && id in s.runtimes && s.runtimes[id].joinable
    requires u in s.callers && PastClaim(s.callers[u], id)
    ensures Taken(ContinueFrom(s, t), id)
  {
    var s' := ContinueFrom(s, t);
    assert ThreadOk(s, u) && RecordOk(s, id);
    if t != u {
      assert s'.callers[u] == s.callers[u];
    }
  }

  /** Once taken, always taken. */
  lemma TakenStep(s: State, e: Event, id: Id)
    requires Inv(s) && Enabled(s, e) && Taken(s, id)
    ensures Taken(Apply(s, e), id)
  {
    assert RecordOk(s, id);
    RecordPersists(s, e, id);
    if s.runtimes[id].joinable {
      var u :| u in s.callers && PastClaim(s.callers[u], id);
      if e.Continue? {
        TakenContinue(s, e.t, u, id);
      } else {
        assert PastClaim(Apply(s, e).callers[u], id);
      }
    }
  }

  lemma {:induction false} TakenForGood(states: seq<State>, events: seq<Event>, m: nat, n: nat, id: Id)
    requires IsRun(states, events) && m <= n < |states| && Taken(states[m], id)
    ensures Taken(states[n], id)
    decreases n
  {
    if m < n {
      TakenForGood(states, events, m, n - 1, id);
      assert StepAt(states, events, n - 1);
      RunKeepsInv(states, events, n - 1);
      TakenStep(states[n - 1], events[n - 1], id);
    }
  }

  lemma LeavesByTaking(s: State, e: Event, id: Id)
    requires Enabled(s, e) && id in s.runtimes && s.runtimes[id].joinable && id < s.nextId
    requires id in Apply(s, e).runtimes && !Apply(s, e).runtimes[id].joinable
    ensures TakesThread(s, e, id)
  {
    if e.Continue? {
      assert Apply(s, e) == ContinueFrom(s, e.t);
      assert s.callers[e.t].Reaping?;
    }
  }

  /** A thread leaves its record only at a step that takes it. */
  lemma {:induction false} TakenBySomebody(states: seq<State>, events: seq<Event>, m: nat, n: nat, id: Id) returns (j: nat)
    requires IsRun(states, events) && m <= n < |states| && id in states[m].runtimes && id in states[n].runtimes
    requires states[m].runtimes[id].joinable && !states[n].runtimes[id].joinable
    ensures m <= j < n && TakesThread(states[j], events[j], id)
    decreases n
  {
    j := n - 1;
    IdsNeverReused(states, events, m, j, id);
    assert StepAt(states, events, j);
    if states[j].runtimes[id].joinable {
      LeavesByTaking(states[j], events[j], id);
    } else {
      j := TakenBySomebody(states, events, m, n - 1, id);
    }
  }

  /** StopAll has visited the first p runtimes of its snapshot and is between visits or reaping the last of them. */
  predicate Sweeping(c: Caller, snapshot: seq<Id>, p: nat) {
    && p <= |snapshot|
    && (c == NextOf(snapshot[p..], true) ||
        (p > 0 && c.Reaping? && c.reaper.id == snapshot[p - 1] && c.after == ThenNext(snapshot[p..], true)))
  }

  predicate AtClaim(c: Caller, id: Id) {
    c.Reaping? && c.reaper.id == id && c.reaper.pc.Claim?
  }

  /** How far StopAll is after a step of anybody. */
  lemma SweepStep(s: State, e: Event, t: Tid, snapshot: seq<Id>, p: nat) returns (q: nat)
    requires Enabled(s, e) && t in s.callers && Sweeping(s.callers[t], snapshot, p)
    requires t in Apply(s, e).callers && Apply(s, e).callers[t] != Idle
    ensures Sweeping(Apply(s, e).callers[t], snapshot, q)
    ensures q == p || (q == p + 1 && e == Continue(t) && s.callers[t] == NextOf(snapshot[p..], true))
    ensures q == p && s.callers[t].NextOf? ==> Apply(s, e).callers[t] == s.callers[t]
    ensures q == p + 1 ==> snapshot[p] in s.runtimes
    ensures q == p + 1 && s.runtimes[snapshot[p]].phase == Terminal ==> Apply(s, e).callers[t].NextOf?
    ensures q == p + 1 && s.runtimes[snapshot[p]].phase != Terminal ==> AtClaim(Apply(s, e).callers[t], snapshot[p])
  {
    q := p;
    if e == Continue(t) {
      q := SweepContinues(s, t, snapshot, p);
    }
  }

  lemma SweepContinues(s: State, t: Tid, snapshot: seq<Id>, p: nat) returns (q: nat)
    requires Enabled(s, Continue(t)) && Sweeping(s.callers[t], snapshot, p)
    requires ContinueFrom(s, t).callers[t] != Idle
    ensures var c := ContinueFrom(s, t).callers[t];
      && Sweeping(c, snapshot, q)
      && (s.callers[t].Reaping? ==> q == p)
      && (s.callers[t].NextOf? ==> q == p + 1 && snapshot[p] in s.runtimes)
      && (s.callers[t].NextOf? && s.runtimes[snapshot[p]].phase == Terminal ==> c.NextOf?)
      && (s.callers[t].NextOf? && s.runtimes[snapshot[p]].phase != Terminal ==> AtClaim(c, snapshot[p]))
  {
    q := p;
    if s.callers[t].NextOf? {
      q := p + 1;
      assert snapshot[p..][1..] == snapshot[q..] && snapshot[p] in CallerIds(s.callers[t]);
    }
  }

  /** Caller t takes the thread of id at none of the steps from b up to m. */
  ghost predicate TakesNot(states: seq<State>, events: seq<Event>, b: int, m: int, t: Tid, id: Id) {
    forall j :: b <= j < m ==> LeavesAt(states, events, j, t, id)
  }

  predicate LeavesAt(states: seq<State>, events: seq<Event>, j: int, t: Tid, id: Id) {
    0 <= j < |events| && j < |states| && events[j] == Continue(t) ==> !TakesThread(states[j], events[j], id)
  }

  /** StopAll comes to the i-th runtime of its snapshot at step v. */
  predicate Visits(states: seq<State>, events: seq<Event>, v: nat, t: Tid, snapshot: seq<Id>, i: nat) {
    && v < |events| && v < |states| && i < |snapshot| && events[v] == Continue(t) && t in states[v].callers
    && states[v].callers[t] == NextOf(snapshot[i..], true) && snapshot[i] in states[v].runtimes
  }

  /** What is known of the i-th runtime when StopAll has visited p of them; v is its visit. */
  ghost predicate SweepKnows(
      states: seq<State>, events: seq<Event>, b: nat, m: nat, t: Tid, snapshot: seq<Id>, i: nat, p: nat, v: nat)
  {
    && m < |states| && i < |snapshot| && t in states[m].callers && Sweeping(states[m].callers[t], snapshot, p)
    && (p <= i ==> TakesNot(states, events, b, m, t, snapshot[i]))
    && (p > i ==> b < v < m && Visits(states, events, v, t, snapshot, i))
    && (p > i && states[v].runtimes[snapshot[i]].phase != Terminal ==>
          Taken(states[m], snapshot[i]) || AtClaim(states[m].callers[t], snapshot[i]))
    && (p > i && states[v].runtimes[snapshot[i]].phase == Terminal ==>
          TakesNot(states, events, b, m, t, snapshot[i]) && (p == i + 1 ==> states[m].callers[t].NextOf?))
  }

  lemma ClaimTakes(s: State, t: Tid, id: Id)
    requires Inv(s) && Enabled(s, Continue(t)) && AtClaim(s.callers[t], id)
    ensures Taken(ContinueFrom(s, t), id)
  {
    var s' := ContinueFrom(s, t);
    if s.runtimes[id].reaping {
      assert RecordOk(s, id) && ThreadOk(s, t);
      var u :| u in s.callers && PastClaim(s.callers[u], id);
      assert PastClaim(s'.callers[u], id);
    } else {
      assert PastClaim(s'.callers[t], id);
    }
  }

  /** One more step does not make caller t take the thread of a runtime it is not reaping. */
  lemma StillTakesNot(states: seq<State>, events: seq<Event>, b: int, m: nat, t: Tid, id: Id)
    requires m < |events| && m < |states| && TakesNot(states, events, b, m, t, id)
    requires t in states[m].callers && !(states[m].callers[t].Reaping? && states[m].callers[t].reaper.id == id)
    ensures TakesNot(states, events, b, m + 1, t, id)
  {
    assert LeavesAt(states, events, m, t, id);
  }

  lemma SweepLearns(states: seq<State>, events: seq<Event>, b: nat, m: nat, t: Tid, snapshot: seq<Id>, i: nat, p: nat, v: nat)
      returns (q: nat, w: nat)
    requires IsRun(states, events) && m < |events| && NoRepeats(snapshot) && b < m
    requires SweepKnows(states, events, b, m, t, snapshot, i, p, v)
    requires t in states[m + 1].callers && states[m + 1].callers[t] != Idle
    ensures SweepKnows(states, events, b, m + 1, t, snapshot, i, q, w)
  {
    var s, e, id := states[m], events[m], snapshot[i];
    assert StepAt(states, events, m);
    RunKeepsInv(states, events, m);
    q := SweepStep(s, e, t, snapshot, p);
    w := if p <= i then m else v;
    if p <= i || states[v].runtimes[id].phase == Terminal {
      StillTakesNot(states, events, b, m, t, id);
    } else if Taken(s, id) {
      TakenStep(s, e, id);
    } else if e == Continue(t) {
      ClaimTakes(s, t, id);
    } else {
      assert states[m + 1].callers[t] == s.callers[t];
    }
  }

  lemma {:induction false} SweepTo(
      states: seq<State>, events: seq<Event>, b: nat, m: nat, t: Tid, snapshot: seq<Id>, i: nat)
      returns (p: nat, v: nat)
    requires IsRun(states, events) && b < m < |states| && events[b] == BeginStopAll(t, snapshot) && i < |snapshot|
    requires forall x :: b < x <= m ==> t in states[x].callers && states[x].callers[t] != Idle
    ensures SweepKnows(states, events, b, m, t, snapshot, i, p, v)
    decreases m
  {
    assert StepAt(states, events, b);
    if m == b + 1 {
      p, v := 0, 0;
      assert snapshot[0..] == snapshot;
      assert LeavesAt(states, events, b, t, snapshot[i]);
    } else {
      p, v := SweepTo(states, events, b, m - 1, t, snapshot, i);
      p, v := SweepLearns(states, events, b, m - 1, t, snapshot, i, p, v);
    }
  }

  lemma SweepEnds(s: State, e: Event, t: Tid, snapshot: seq<Id>, p: nat)
    requires Enabled(s, e) && t in s.callers && Sweeping(s.callers[t], snapshot, p)
    requires t in Apply(s, e).callers && Apply(s, e).callers[t] == Idle
    ensures p == |snapshot| && s.callers[t].NextOf? && e == Continue(t)
  {
    assert e == Continue(t);
    assert Apply(s, e) == ContinueFrom(s, t);
  }

  /** From the call of StopAll at step b to its return at state n, for each runtime of its snapshot: StopAll visits it at some
      step v. If the phase is not terminal there, then from the return on and ever after the thread is out of the record
      or a reaper is past its claim. If it is terminal, StopAll itself never takes the thread: one that is still in the
      record at the visit is there at the return, unless another caller has taken it. */
  lemma StopAllOutcome(states: seq<State>, events: seq<Event>, b: nat, n: nat, t: Tid, snapshot: seq<Id>, i: nat)
      returns (v: nat)
    requires IsRun(states, events) && b < n < |states| && events[b] == BeginStopAll(t, snapshot) && i < |snapshot|
    requires t in states[n].callers && states[n].callers[t] == Idle
    requires forall x :: b < x < n ==> t in states[x].callers && states[x].callers[t] != Idle
    ensures b < v < n && Visits(states, events, v, t, snapshot, i)
    ensures states[v].runtimes[snapshot[i]].phase != Terminal ==>
      forall m :: n <= m < |states| ==> Taken(states[m], snapshot[i])
    ensures states[v].runtimes[snapshot[i]].phase == Terminal ==>
      TakesNot(states, events, b, n, t, snapshot[i]) && snapshot[i] in states[n].runtimes &&
      (states[v].runtimes[snapshot[i]].joinable ==>
        || states[n].runtimes[snapshot[i]].joinable
        || exists j :: v <= j < n && TakesThread(states[j], events[j], snapshot[i]) && events[j].t != t)
  {
    var id := snapshot[i];
    assert StepAt(states, events, b);
    assert b + 1 < n by {
      assert states[b + 1].callers[t] == NextOf(snapshot, true);
    }
    var p: nat;
    p, v := SweepTo(states, events, b, n - 1, t, snapshot, i);
    assert StepAt(states, events, n - 1);
    RunKeepsInv(states, events, n - 1);
    SweepEnds(states[n - 1], events[n - 1], t, snapshot, p);
    if states[v].runtimes[id].phase != Terminal {
      forall m | n <= m < |states| ensures Taken(states[m], id) {
        TakenForGood(states, events, n - 1, m, id);
      }
    } else {
      StillTakesNot(states, events, b, n - 1, t, id);
      IdsNeverReused(states, events, v, n, id);
      if states[v].runtimes[id].joinable && !states[n].runtimes[id].joinable {
        var j := TakenBySomebody(states, events, v, n, id);
        assert LeavesAt(states, events, j, t, id);
      }
    }
  }
}

/** What Start, Restart, Stop and Prune have done when they return, in every run: the steps each caller takes from its call
    to its return, whatever all other callers and threads do in between. */
module LuaRuntimeOutcomes {
  import opened LuaRuntimeManager
  import opened LuaRuntimeSafety
  import opened LuaRuntimeStops

  // ----- Following one caller -----

  /** Caller t is at work from m on and returns at n. */
  ghost predicate Returns(states: seq<State>, m: nat, n: nat, t: Tid) {
    && m < n < |states| && t in states[n].callers && states[n].callers[t] == Idle
    && forall x :: m <= x < n ==> t in states[x].callers && states[x].callers[t] != Idle
  }

  /** A caller at work moves only by its own steps. */
  lemma OthersLeave(s: State, e: Event, t: Tid)
    requires Enabled(s, e) && t in s.callers && s.callers[t] != Idle && e != Continue(t)
    ensures t in Apply(s, e).callers && Apply(s, e).callers[t] == s.callers[t]
  {
    if e.Continue? {
      assert Apply(s, e) == ContinueFrom(s, e.t);
    }
  }

  /** The next step k of the caller, until which it stays where it is. */
  lemma {:induction false} NextMove(states: seq<State>, events: seq<Event>, m: nat, n: nat, t: Tid) returns (k: nat)
    requires IsRun(states, events) && Returns(states, m, n, t)
    ensures m <= k < n && events[k] == Continue(t) && t in states[k].callers
    ensures states[k].callers[t] == states[m].callers[t]
    ensures Enabled(states[k], Continue(t)) && states[k + 1] == ContinueFrom(states[k], t) && Inv(states[k])
    decreases n - m
  {
    assert StepAt(states, events, m);
    RunKeepsInv(states, events, m);
    if events[m] == Continue(t) {
      k := m;
    } else {
      OthersLeave(states[m], events[m], t);
      k := NextMove(states, events, m + 1, n, t);
    }
  }

  lemma StillReturns(states: seq<State>, m: nat, k: nat, n: nat, t: Tid)
    requires Returns(states, m, n, t) && m <= k < n
    ensures k + 1 == n || Returns(states, k + 1, n, t)
  {
  }

  lemma {:induction false} NextIdGrows(states: seq<State>, events: seq<Event>, m: nat, n: nat)
    requires IsRun(states, events) && m <= n < |states|
    ensures states[m].nextId <= states[n].nextId
    decreases n
  {
    if m < n {
      NextIdGrows(states, events, m, n - 1);
      assert StepAt(states, events, n - 1);
      NextIdStep(states[n - 1], events[n - 1]);
    }
  }

  lemma NextIdStep(s: State, e: Event)
    requires Enabled(s, e)
    ensures s.nextId <= Apply(s, e).nextId
  {
    if e.Continue? {
      assert s.nextId <= ContinueFrom(s, e.t).nextId;
    }
  }

  // ----- A whole Reap -----

  /** What a reaper past its claim has done so far. */
  predicate Progress(s: State, c: Caller, id: Id) {
    && PastClaim(c, id) && id in s.runtimes
    && (c.reaper.pc.Release? ==> s.runtimes[id].phase == Terminal)
    && (c.reaper.interrupt && !c.reaper.pc.Move? && !c.reaper.pc.SetStop? ==> s.runtimes[id].stopRequested)
  }

  lemma ProgressContinues(s: State, t: Tid, id: Id)
    requires Inv(s) && Enabled(s, Continue(t)) && Progress(s, s.callers[t], id) && !s.callers[t].reaper.pc.Release?
    ensures var s', c := ContinueFrom(s, t), s.callers[t];
      && Progress(s', s'.callers[t], id) && s'.callers[t].after == c.after
      && s'.callers[t].reaper.interrupt == c.reaper.interrupt
  {
  }

  lemma ProgressWaits(s: State, u: Tid, t: Tid, id: Id)
    requires Inv(s) && Enabled(s, Continue(u)) && u != t && t in s.callers && Progress(s, s.callers[t], id)
    ensures t in ContinueFrom(s, u).callers && ContinueFrom(s, u).callers[t] == s.callers[t]
    ensures Progress(ContinueFrom(s, u), s.callers[t], id)
  {
    assert SameReaper(s, t, u, id) && RecordOk(s, id);
  }

  lemma ProgressKept(s: State, e: Event, t: Tid, id: Id)
    requires Inv(s) && Enabled(s, e) && e != Continue(t) && t in s.callers && Progress(s, s.callers[t], id)
    ensures t in Apply(s, e).callers && Apply(s, e).callers[t] == s.callers[t]
    ensures Progress(Apply(s, e), s.callers[t], id)
  {
    if e.Continue? {
      ProgressWaits(s, e.t, t, id);
    } else {
      assert ThreadOk(s, t) && RecordOk(s, id);
      OthersLeave(s, e, t);
    }
  }

  /** The thread is joined, and everybody can see that the runtime has stopped. */
  predicate Stopped(s: State, id: Id, interrupt: bool) {
    && id in s.runtimes
    && var r := s.runtimes[id];
       && r.joins == 1 && !r.joinable && r.pc.Exited? && r.phase == Terminal && (interrupt ==> r.stopRequested)
  }

  lemma ReleaseStops(s: State, t: Tid, id: Id)
    requires Inv(s) && Enabled(s, Continue(t)) && Progress(s, s.callers[t], id) && s.callers[t].reaper.pc.Release?
    ensures Stopped(ContinueFrom(s, t), id, s.callers[t].reaper.interrupt)
    ensures ContinueFrom(s, t).callers[t] == Resume(s.callers[t].after)
  {
    assert ThreadOk(s, t) && RecordOk(s, id);
  }

  lemma {:induction false} ReapStops(states: seq<State>, events: seq<Event>, m: nat, n: nat, t: Tid, id: Id) returns (a: nat)
    requires IsRun(states, events) && Returns(states, m, n, t) && Progress(states[m], states[m].callers[t], id)
    ensures m < a <= n && t in states[a].callers && states[a].callers[t] == Resume(states[m].callers[t].after)
    ensures Stopped(states[a], id, states[m].callers[t].reaper.interrupt)
    decreases n - m
  {
    assert StepAt(states, events, m);
    RunKeepsInv(states, events, m);
    var c := states[m].callers[t];
    if events[m] != Continue(t) {
      ProgressKept(states[m], events[m], t, id);
      a := ReapStops(states, events, m + 1, n, t, id);
    } else if c.reaper.pc.Release? {
      ReleaseStops(states[m], t, id);
      a := m + 1;
    } else {
      ProgressContinues(states[m], t, id);
      a := ReapStops(states, events, m + 1, n, t, id);
    }
  }

  /** A whole Reap, from before its claim at step d to its return at state a: the thread is taken, and unless another reaper
      has the runtime at the claim, the runtime is stopped. */
  ghost predicate Reaped(states: seq<State>, events: seq<Event>, d: nat, a: nat, t: Tid, id: Id, interrupt: bool) {
    && d < a < |states| && d < |events| && events[d] == Continue(t) && t in states[d].callers
    && AtClaim(states[d].callers[t], id) && id in states[d].runtimes && Taken(states[a], id)
    && (!states[d].runtimes[id].reaping ==> Stopped(states[a], id, interrupt))
  }

  lemma WholeReap(states: seq<State>, events: seq<Event>, m: nat, n: nat, t: Tid, id: Id, interrupt: bool, after: After)
      returns (d: nat, a: nat)
    requires IsRun(states, events) && Returns(states, m, n, t) && states[m].callers[t] == BeginReap(id, interrupt, after)
    ensures m <= d < a <= n && t in states[a].callers && states[a].callers[t] == Resume(after)
    ensures Reaped(states, events, d, a, t, id, interrupt)
  {
    d := NextMove(states, events, m, n, t);
    StillReturns(states, m, d, n, t);
    ClaimTakes(states[d], t, id);
    if states[d].runtimes[id].reaping {
      a := d + 1;
    } else {
      a := ReapStops(states, events, d + 1, n, t, id);
      TakenForGood(states, events, d + 1, a, id);
    }
  }

  // ----- Start -----

  /** At step v caller t looks the name up. */
  predicate LooksUp(states: seq<State>, events: seq<Event>, v: nat, t: Tid, name: Name) {
    v < |events| && v < |states| && events[v] == Continue(t) && t in states[v].callers &&
    states[v].callers[t] == StartCheck(name)
  }

  /** The name is listed and its runtime is active. */
  predicate ActiveListed(s: State, name: Name) {
    name in s.table && s.table[name] in s.runtimes && IsActive(s.runtimes[s.table[name]])
  }

  /** At step w caller t lists a runtime x of the name, new since `since`, and the table then shows it. */
  ghost predicate Inserts(states: seq<State>, events: seq<Event>, w: nat, t: Tid, name: Name, x: Id, since: Id) {
    && w < |events| && w + 1 < |states| && events[w] == Continue(t) && t in states[w].callers
    && states[w].callers[t] == StartInsert(name, x)
    && since <= x && x in states[w].runtimes && states[w].runtimes[x].name == name
    && name in states[w + 1].table && states[w + 1].table[name] == x
  }

  /** What a start that got past its check has done by its return: the runtime it found has been reaped, without an
      interrupt, and a new one is listed. */
  ghost predicate Replaces(states: seq<State>, events: seq<Event>, v: nat, w: nat, n: nat, t: Tid, name: Name, x: Id, since: Id) {
    && v < w && n == w + 1 && Inserts(states, events, w, t, name, x, since)
    && (v < |states| && name in states[v].table ==>
          exists d: nat, a: nat :: v < d && a < w && Reaped(states, events, d, a, t, states[v].table[name], false))
  }

  /** From StartCreate on: a runtime is created and listed. */
  lemma CreatedAndListed(states: seq<State>, events: seq<Event>, m: nat, n: nat, t: Tid, name: Name)
      returns (w: nat, x: Id)
    requires IsRun(states, events) && Returns(states, m, n, t) && states[m].callers[t] == StartCreate(name)
    ensures m < w && n == w + 1 && Inserts(states, events, w, t, name, x, states[m].nextId)
  {
    var k := NextMove(states, events, m, n, t);
    NextIdGrows(states, events, m, k);
    x := states[k].nextId;
    StillReturns(states, m, k, n, t);
    w := NextMove(states, events, k + 1, n, t);
    assert ThreadOk(states[w], t);
    StillReturns(states, k + 1, w, n, t);
  }

  /** From the return of the Reap on: the entry is erased, then a runtime is created and listed. */
  lemma ErasedAndListed(states: seq<State>, events: seq<Event>, m: nat, n: nat, t: Tid, name: Name, id: Id)
      returns (w: nat, x: Id)
    requires IsRun(states, events) && Returns(states, m, n, t) && states[m].callers[t] == StartErase(name, id)
    ensures m < w && n == w + 1 && Inserts(states, events, w, t, name, x, states[m].nextId)
  {
    var k := NextMove(states, events, m, n, t);
    StillReturns(states, m, k, n, t);
    w, x := CreatedAndListed(states, events, k + 1, n, t, name);
    NextIdGrows(states, events, m, k + 1);
  }

  /** A start that has not looked the name up yet. It does so at some step v. If the runtime listed there is active, it
      returns at once; if not, it returns with a new runtime of that name created and listed, and the old one reaped before
      that. */
  lemma StartFrom(states: seq<State>, events: seq<Event>, m: nat, n: nat, t: Tid, name: Name)
      returns (v: nat, w: nat, x: Id)
    requires IsRun(states, events) && Returns(states, m, n, t) && states[m].callers[t] == StartCheck(name)
    ensures m <= v < n && LooksUp(states, events, v, t, name)
    ensures ActiveListed(states[v], name) ==> n == v + 1
    ensures !ActiveListed(states[v], name) ==> Replaces(states, events, v, w, n, t, name, x, states[m].nextId)
  {
    w, x := 0, 0;
    v := NextMove(states, events, m, n, t);
    var s := states[v];
    assert EntryOk(s, name);
    NextIdGrows(states, events, m, v + 1);
    StillReturns(states, m, v, n, t);
    if !ActiveListed(s, name) {
      if name in s.table {
        var id := s.table[name];
        var d, a := WholeReap(states, events, v + 1, n, t, id, false, ThenErase(name, id));
        NextIdGrows(states, events, v + 1, a);
        w, x := ErasedAndListed(states, events, a, n, t, name, id);
        assert v < d && a < w && Reaped(states, events, d, a, t, id, false);
      } else {
        w, x := CreatedAndListed(states, events, v + 1, n, t, name);
      }
    }
  }

  /** Start, from call to return. */
  lemma StartOutcome(states: seq<State>, events: seq<Event>, b: nat, n: nat, t: Tid, name: Name)
      returns (v: nat, w: nat, x: Id)
    requires IsRun(states, events) && b < |events| && events[b] == BeginStart(t, name) && Returns(states, b + 1, n, t)
    ensures b < v < n && LooksUp(states, events, v, t, name)
    ensures ActiveListed(states[v], name) ==> n == v + 1
    ensures !ActiveListed(states[v], name) ==> Replaces(states, events, v, w, n, t, name, x, states[b].nextId)
  {
    assert StepAt(states, events, b);
    NextIdGrows(states, events, b, b + 1);
    v, w, x := StartFrom(states, events, b + 1, n, t, name);
  }

  // ----- Restart -----

  /** Restart of a listed name, from call to return: at some step c it checks the runtime it found; if that is active there,
      it is reaped, with an interrupt, before the start part looks the name up; and then it starts as Start does. */
  lemma RestartOutcome(states: seq<State>, events: seq<Event>, b: nat, n: nat, t: Tid, name: Name)
      returns (c: nat, v: nat, w: nat, x: Id)
    requires IsRun(states, events) && b < |events| && events[b] == BeginRestart(t, name) && name in states[b].table
    requires Returns(states, b + 1, n, t)
    ensures b < c < v < n && events[c] == Continue(t) && t in states[c].callers
    ensures states[c].callers[t] == RestartCheck(name, states[b].table[name])
    ensures states[b].table[name] in states[c].runtimes
    ensures IsActive(states[c].runtimes[states[b].table[name]]) ==>
      exists d: nat, a: nat :: c < d && a <= v && Reaped(states, events, d, a, t, states[b].table[name], true)
    ensures LooksUp(states, events, v, t, name)
    ensures ActiveListed(states[v], name) ==> n == v + 1
    ensures !ActiveListed(states[v], name) ==> Replaces(states, events, v, w, n, t, name, x, states[b].nextId)
  {
    var id := states[b].table[name];
    assert StepAt(states, events, b);
    c := NextMove(states, events, b + 1, n, t);
    StillReturns(states, b + 1, c, n, t);
    var d, a := c, c + 1;
    if IsActive(states[c].runtimes[id]) {
      d, a := WholeReap(states, events, c + 1, n, t, id, true, ThenStart(name));
    }
    NextIdGrows(states, events, b, a);
    v, w, x := StartFrom(states, events, a, n, t, name);
    assert IsActive(states[c].runtimes[id]) ==> c < d && a <= v && Reaped(states, events, d, a, t, id, true);
  }

  /** Restart of a name that is not listed does nothing. */
  lemma RestartRefused(states: seq<State>, events: seq<Event>, b: nat, t: Tid, name: Name)
    requires IsRun(states, events) && b < |events| && events[b] == BeginRestart(t, name)
    ensures name !in states[b].table ==> states[b + 1] == states[b]
    ensures name in states[b].table ==> t in states[b + 1].callers && states[b + 1].callers[t] != Idle
  {
    assert StepAt(states, events, b);
  }

  // ----- Prune -----

  lemma {:induction false} PrunedFrom(states: seq<State>, events: seq<Event>, m: nat, n: nat, t: Tid, rest: seq<Id>, id: Id)
      returns (d: nat, a: nat)
    requires IsRun(states, events) && Returns(states, m, n, t) && states[m].callers[t] == NextOf(rest, false)
    requires id in rest
    ensures m < d && a < n && Reaped(states, events, d, a, t, id, false)
    decreases |rest|
  {
    var k := NextMove(states, events, m, n, t);
    StillReturns(states, m, k, n, t);
    d, a := WholeReap(states, events, k + 1, n, t, rest[0], false, ThenNext(rest[1..], false));
    if id != rest[0] {
      d, a := PrunedFrom(states, events, a, n, t, rest[1..], id);
    }
  }

  /** Prune, from call to return: it keeps exactly the entries of active runtimes and reaps, without an interrupt, every other
      runtime it found listed. */
  lemma PruneOutcome(states: seq<State>, events: seq<Event>, b: nat, n: nat, t: Tid, dead: seq<Id>, name: Name)
    requires IsRun(states, events) && b < |events| && events[b] == BeginPrune(t, dead) && Returns(states, b + 1, n, t)
    ensures name in states[b + 1].table <==> ActiveListed(states[b], name)
    ensures name in states[b + 1].table ==> states[b + 1].table[name] == states[b].table[name]
    ensures name in states[b].table && !ActiveListed(states[b], name) ==>
      exists d: nat, a: nat :: b < d && a < n && Reaped(states, events, d, a, t, states[b].table[name], false)
  {
    assert StepAt(states, events, b);
    RunKeepsInv(states, events, b);
    assert EntryOk(states[b], name);
    if name in states[b].table && !ActiveListed(states[b], name) {
      var id := states[b].table[name];
      assert id in states[b].table.Values;
      var d, a := PrunedFrom(states, events, b + 1, n, t, dead, id);
    }
  }

  // ----- Stop -----

  /** Stop of a listed, active runtime, from call to return: the runtime is reaped with an interrupt. Unless another reaper
      has it at the claim, Stop returns with the thread joined, the phase terminal and the stop recorded; and in any case the
      thread is from the return on out of its record or claimed. */
  lemma StopOutcome(states: seq<State>, events: seq<Event>, b: nat, n: nat, t: Tid, name: Name) returns (d: nat)
    requires IsRun(states, events) && b < |events| && events[b] == BeginStop(t, name) && ActiveListed(states[b], name)
    requires Returns(states, b + 1, n, t)
    ensures b < d && Reaped(states, events, d, n, t, states[b].table[name], true)
    ensures forall m :: n <= m < |states| ==> Taken(states[m], states[b].table[name])
  {
    var id := states[b].table[name];
    assert StepAt(states, events, b);
    var a: nat;
    d, a := WholeReap(states, events, b + 1, n, t, id, true, Finish);
    assert a == n;
    forall m | n <= m < |states| ensures Taken(states[m], id) {
      TakenForGood(states, events, n, m, id);
    }
  }

  /** Stop of anything else does nothing. */
  lemma StopRefused(states: seq<State>, events: seq<Event>, b: nat, t: Tid, name: Name)
    requires IsRun(states, events) && b < |events| && events[b] == BeginStop(t, name)
    ensures !ActiveListed(states[b], name) ==> states[b + 1] == states[b]
    ensures ActiveListed(states[b], name) ==> t in states[b + 1].callers && states[b + 1].callers[t] != Idle
  {
    assert StepAt(states, events, b);
  }

  // ----- Who interrupts -----

  /** A Reap interrupts exactly if Stop, Restart or StopAll began it. */
  predicate InterruptsRightly(s: State, t: Tid) {
    t in s.callers && s.callers[t].Reaping? ==>
      var after := s.callers[t].after;
      s.callers[t].reaper.interrupt <==> after.Finish? || after.ThenStart? || (after.ThenNext? && after.sweep)
  }

  lemma InterruptsStep(s: State, e: Event, t: Tid)
    requires Enabled(s, e) && InterruptsRightly(s, t)
    ensures InterruptsRightly(Apply(s, e), t)
  {
    if e == Continue(t) {
      InterruptsContinue(s, t);
    } else if t in s.callers && s.callers[t] != Idle {
      OthersLeave(s, e, t);
    } else if e.Continue? {
      assert Apply(s, e) == ContinueFrom(s, e.t);
    }
  }

  lemma InterruptsContinue(s: State, t: Tid)
    requires Enabled(s, Continue(t)) && InterruptsRightly(s, t)
    ensures InterruptsRightly(ContinueFrom(s, t), t)
  {
  }

  /** In every run a runtime is told to stop only by Stop, Restart or StopAll. */
  lemma {:induction false} OnlyStopsInterrupt(states: seq<State>, events: seq<Event>, n: nat, t: Tid)
    requires IsRun(states, events) && n < |states|
    ensures InterruptsRightly(states[n], t)
    decreases n
  {
    if n > 0 {
      OnlyStopsInterrupt(states, events, n - 1, t);
      assert StepAt(states, events, n - 1);
      InterruptsStep(states[n - 1], events[n - 1], t);
    }
  }

  // ----- What the phase tells -----

  /** As long as no reaper has taken the thread, the phase tells where the script is: starting before the thread runs, active
      from then on, and terminal exactly after a failure. */
  predicate PhaseTells(s: State, id: Id) {
    id in s.runtimes && s.runtimes[id].joinable ==>
      var r := s.runtimes[id];
      match r.pc
      case Spawned => r.phase == Starting
      case Entered | Executing | Returned(_) | Faulted => r.phase == Active
      case SawStop => false
      case Clearing => r.phase == Terminal
      case Exited => r.phase == Active || r.phase == Terminal
  }

  lemma PhaseContinues(s: State, t: Tid, id: Id)
    requires Inv(s) && Enabled(s, Continue(t)) && PhaseTells(s, id)
    ensures PhaseTells(ContinueFrom(s, t), id)
  {
    assert ThreadOk(s, t);
  }

  lemma PhaseStep(s: State, e: Event, id: Id)
    requires Inv(s) && Enabled(s, e) && PhaseTells(s, id)
    ensures PhaseTells(Apply(s, e), id)
  {
    assert RecordOk(s, id);
    if e.Continue? {
      PhaseContinues(s, e.t, id);
    }
  }

  /** In every run the phase tells where an untouched script is. */
  lemma {:induction false} PhaseTellsAlways(states: seq<State>, events: seq<Event>, n: nat, id: Id)
    requires IsRun(states, events) && n < |states|
    ensures PhaseTells(states[n], id)
    decreases n
  {
    if n > 0 {
      PhaseTellsAlways(states, events, n - 1, id);
      assert StepAt(states, events, n - 1);
      RunKeepsInv(states, events, n - 1);
      PhaseStep(states[n - 1], events[n - 1], id);
    }
  }
}

/** Runs in which the runtime manager falls short of what it is for, state by state and event by event. */
module LuaRuntimeFailures {
  import opened LuaRuntimeManager
  import opened LuaRuntimeSafety

  function Fresh(name: Name): Runtime {
    Runtime(name, Starting, false, false, true, 0, Spawned, false)
  }

  function TwoCallers(a: Caller, b: Caller): map<Tid, Caller> {
    map[0 := a, 1 := b]
  }

  /** A run of two overlapping starts, state by state and event by event. */
  function OverlapState(k: nat): State {
    var none: map<Id, Runtime> := map[];
    var one := map[1 := Fresh("a")];
    var two := map[1 := Fresh("a"), 2 := Fresh("a")];
    match k
    case 0 => State(none, map[], TwoCallers(Idle, Idle), 1, map[])
    case 1 => State(none, map[], TwoCallers(StartCheck("a"), Idle), 1, map[])
    case 2 => State(none, map[], TwoCallers(StartCheck("a"), StartCheck("a")), 1, map[])
    case 3 => State(none, map[], TwoCallers(StartCreate("a"), StartCheck("a")), 1, map[])
    case 4 => State(none, map[], TwoCallers(StartCreate("a"), StartCreate("a")), 1, map[])
    case 5 => State(one, map[], TwoCallers(StartInsert("a", 1), StartCreate("a")), 2, map[])
    case 6 => State(two, map[], TwoCallers(StartInsert("a", 1), StartInsert("a", 2)), 3, map[])
    case 7 => State(two, map["a" := 1], TwoCallers(Idle, StartInsert("a", 2)), 3, map[])
    case _ => State(two, map["a" := 2], TwoCallers(Idle, Idle), 3, map[])
  }

  function OverlapEvent(k: nat): Event {
    if k < 2 then BeginStart(k, "a") else Continue(k % 2)
  }

  lemma OverlapStep(k: nat)
    requires k < 8
    ensures Enabled(OverlapState(k), OverlapEvent(k))
    ensures OverlapState(k + 1) == Apply(OverlapState(k), OverlapEvent(k))
  {
    if k < 4 {
      OverlapEarly(k);
    } else if k < 6 {
      OverlapCreates(k);
    } else {
      OverlapInserts(k);
    }
  }

  lemma OverlapEarly(k: nat)
    requires k < 4
    ensures Enabled(OverlapState(k), OverlapEvent(k))
    ensures OverlapState(k + 1) == Apply(OverlapState(k), OverlapEvent(k))
  {
  }

  lemma OverlapCreates(k: nat)
    requires 4 <= k < 6
    ensures Enabled(OverlapState(k), OverlapEvent(k))
    ensures OverlapState(k + 1) == Apply(OverlapState(k), OverlapEvent(k))
  {
  }

  lemma OverlapInserts(k: nat)
    requires 6 <= k < 8
    ensures Enabled(OverlapState(k), OverlapEvent(k))
    ensures OverlapState(k + 1) == Apply(OverlapState(k), OverlapEvent(k))
  {
  }

  /** Overlapping starts of one name: the second insert drops the first runtime from the table while its thread is neither
      joined nor in anyone's hands, and two runtimes of the name are live. */
  lemma OverlapLosesThread() returns (states: seq<State>, events: seq<Event>)
    ensures IsRun(states, events)
    ensures var s := states[|states| - 1];
      && 1 in s.runtimes && 2 in s.runtimes && !ThreadAccounted(s, 1)
      && Live(s.runtimes[1]) && Live(s.runtimes[2]) && s.runtimes[1].name == s.runtimes[2].name
  {
    states := seq(9, k requires 0 <= k => OverlapState(k));
    events := seq(8, k requires 0 <= k => OverlapEvent(k));
    forall k ensures StepAt(states, events, k) {
      if 0 <= k < 8 {
        OverlapStep(k);
      }
    }
  }

  // One script, started by caller 0; caller 1 acts on it. `r` is its record and `c` the second caller.
  function OneScript(r: Runtime, c: Caller): State {
    State(map[1 := r], map["a" := 1], TwoCallers(Idle, c), 2, map[])
  }

  function StartedState(k: nat): State {
    match k
    case 0 => OverlapState(0)
    case 1 => OverlapState(1)
    case 2 => State(map[], map[], TwoCallers(StartCreate("a"), Idle), 1, map[])
    case 3 => State(map[1 := Fresh("a")], map[], TwoCallers(StartInsert("a", 1), Idle), 2, map[])
    case _ => OneScript(Fresh("a"), Idle)
  }

  function StartedEvent(k: nat): Event {
    if k == 0 then BeginStart(0, "a") else Continue(0)
  }

  lemma StartedStep(k: nat)
    requires k < 4
    ensures Enabled(StartedState(k), StartedEvent(k))
    ensures StartedState(k + 1) == Apply(StartedState(k), StartedEvent(k))
  {
  }

  function FailedRecord(k: nat): Runtime {
    var r := Fresh("a");
    match k
    case 0 => r
    case 1 => r.(phase := Active, pc := Entered)
    case 2 => r.(phase := Active, pc := Executing, engineUp := true)
    case 3 => r.(phase := Active, pc := Returned(false))
    case 4 => r.(phase := Active, pc := Faulted)
    case 5 => r.(phase := Terminal, pc := Clearing)
    case _ => r.(phase := Terminal, pc := Exited)
  }

  lemma FailedStep(k: nat)
    requires k < 6
    ensures var s := OneScript(FailedRecord(k), Idle);
      Enabled(s, RunThread(1, false)) && OneScript(FailedRecord(k + 1), Idle) == Apply(s, RunThread(1, false))
  {
  }

  function SweepState(k: nat): State {
    OneScript(FailedRecord(6), if k == 1 then NextOf([1], true) else if k == 2 then NextOf([], true) else Idle)
  }

  function SweepEvent(k: nat): Event {
    if k == 0 then BeginStopAll(1, [1]) else Continue(1)
  }

  lemma SweepStep(k: nat)
    requires k < 3
    ensures Enabled(SweepState(k), SweepEvent(k))
    ensures SweepState(k + 1) == Apply(SweepState(k), SweepEvent(k))
  {
    var s := SweepState(k);
    if k == 0 {
      forall id ensures id in [1] <==> id in s.table.Values {
        assert s.table["a"] == 1;
      }
    } else if k == 1 {
      assert [1][1..] == [];
    }
  }

  /** StopAll passes over a runtime that failed on its own: when it has returned and nobody else is at work, the thread is
      still waiting to be joined. */
  lemma StopAllLeavesFailedThread() returns (states: seq<State>, events: seq<Event>)
    ensures IsRun(states, events) && |events| == 13 && events[10].BeginStopAll?
    ensures var s := states[13];
      && (forall t :: t in s.callers ==> s.callers[t] == Idle)
      && 1 in s.runtimes && s.runtimes[1].joinable && s.runtimes[1].joins == 0 && s.runtimes[1].pc.Exited?
  {
    states := seq(14, k requires 0 <= k => if k < 4 then StartedState(k)
                                           else if k < 10 then OneScript(FailedRecord(k - 4), Idle)
                                           else SweepState(k - 10));
    events := seq(13, k requires 0 <= k => if k < 4 then StartedEvent(k)
                                           else if k < 10 then RunThread(1, false) else SweepEvent(k - 10));
    forall k ensures StepAt(states, events, k) {
      if 0 <= k < 4 {
        StartedStep(k);
        assert StartedState(4) == OneScript(FailedRecord(0), Idle);
        assert states[k + 1] == StartedState(k + 1);
      } else if 4 <= k < 10 {
        FailedStep(k - 4);
        assert SweepState(0) == OneScript(FailedRecord(6), Idle);
        assert states[k] == OneScript(FailedRecord(k - 4), Idle);
        assert states[k + 1] == OneScript(FailedRecord(k - 3), Idle);
      } else if 10 <= k < 13 {
        SweepStep(k - 10);
      }
    }
    assert states[0] == StartedState(0);
    assert states[13] == SweepState(3) && events[10] == SweepEvent(0);
  }

  function EarlyCaller(pc: ReapPc, held: bool): Caller {
    Reaping(Reaper(1, true, pc, held), Finish)
  }

  /** A stop that reaches the engine before the script does. */
  function EarlyState(k: nat): State {
    var r := Fresh("a").(reaping := true);
    var moved := r.(joinable := false, stopRequested := true, phase := Stopping);
    var ran := moved.(phase := Active, engineUp := true, pc := Exited);
    match k
    case 0 => OneScript(Fresh("a"), Idle)
    case 1 => OneScript(Fresh("a"), EarlyCaller(Claim, false))
    case 2 => OneScript(r, EarlyCaller(Move, false))
    case 3 => OneScript(r.(joinable := false), EarlyCaller(SetStop, true))
    case 4 => OneScript(r.(joinable := false, stopRequested := true), EarlyCaller(SetStopping, true))
    case 5 => OneScript(moved, EarlyCaller(StopEngine, true))
    case 6 => OneScript(moved, EarlyCaller(Join, true))
    case 7 => OneScript(moved.(phase := Active, pc := Entered), EarlyCaller(Join, true))
    case 8 => OneScript(ran.(pc := Executing), EarlyCaller(Join, true))
    case 9 => OneScript(ran.(pc := Returned(true)), EarlyCaller(Join, true))
    case 10 => OneScript(ran, EarlyCaller(Join, true))
    case 11 => OneScript(ran.(joins := 1), EarlyCaller(Clear, false))
    case 12 => OneScript(ran.(joins := 1), EarlyCaller(SetTerminal, false))
    case 13 => OneScript(ran.(joins := 1, phase := Terminal), EarlyCaller(Release, false))
    case _ => OneScript(ran.(joins := 1, phase := Terminal, reaping := false), Idle)
  }

  function EarlyEvent(k: nat): Event {
    if k == 0 then BeginStop(1, "a") else if 6 <= k < 10 then RunThread(1, true) else Continue(1)
  }

  ghost predicate EarlyStepOk(k: nat) {
    Enabled(EarlyState(k), EarlyEvent(k)) && EarlyState(k + 1) == Apply(EarlyState(k), EarlyEvent(k))
  }

  lemma EarlyStep(k: nat)
    requires k < 14
    ensures EarlyStepOk(k)
  {
    if k < 3 {
      EarlyClaims(k);
    } else if k < 5 {
      EarlyFlags(k);
    } else if k < 6 {
      EarlyStops(k);
    } else if k < 10 {
      EarlyRuns(k);
    } else if k < 12 {
      EarlyJoins(k);
    } else {
      EarlyReleases(k);
    }
  }

  lemma EarlyClaims(k: nat)
    requires k < 3
    ensures EarlyStepOk(k)
  {
  }

  lemma EarlyFlags(k: nat)
    requires 3 <= k < 5
    ensures EarlyStepOk(k)
  {
  }

  lemma EarlyStops(k: nat)
    requires k == 5
    ensures EarlyStepOk(k)
  {
  }

  lemma EarlyRuns(k: nat)
    requires 6 <= k < 10
    ensures EarlyStepOk(k)
  {
  }

  lemma EarlyJoins(k: nat)
    requires 10 <= k < 12
    ensures EarlyStepOk(k)
  {
    var none: map<Point, Id> := map[];
    assert WithoutOwner(none, 1) == none;
  }

  lemma EarlyReleases(k: nat)
    requires 12 <= k < 14
    ensures EarlyStepOk(k)
  {
  }

  /** A Stop that overtakes the script's thread stops an engine that is not running yet: the script then comes up, and the
      runtime is reported terminal, joined and released while its engine still serves events. */
  lemma EarlyStopLeavesEngineUp() returns (states: seq<State>, events: seq<Event>)
    ensures IsRun(states, events)
    ensures var s := states[|states| - 1];
      && (forall t :: t in s.callers ==> s.callers[t] == Idle)
      && 1 in s.runtimes && s.runtimes[1].phase == Terminal && s.runtimes[1].joins == 1 && s.runtimes[1].engineUp
  {
    states := seq(19, k requires 0 <= k => if k < 4 then StartedState(k) else EarlyState(k - 4));
    events := seq(18, k requires 0 <= k => if k < 4 then StartedEvent(k) else EarlyEvent(k - 4));
    forall k ensures StepAt(states, events, k) {
      if 0 <= k < 4 {
        StartedStep(k);
      } else if 4 <= k < 18 {
        assert EarlyState(0) == StartedState(4);
        EarlyStep(k - 4);
      }
    }
    assert states[0] == StartedState(0);
    assert states[18] == EarlyState(14);
  }
}

/** Life cycle of Lua runtimes (src/LuaRuntimeManager.cpp): callers that start, stop, restart, prune and reap runtimes,
    and one thread per runtime, interleaved at every lock, atomic access and blocking call.

    A state holds the runtime records, the name table under the manager's mutex, one program counter per caller, and
    the owners of the dashboard's Modbus points. `Apply` is one atomic step. */
module LuaRuntimeManager {

  type Id = nat
  type Tid = nat
  type Name = string

  datatype Phase = Starting | Active | Stopping | Terminal

  /** Where RunThread is. `Executing` is the script's top-level code. */
  datatype ThreadPc = Spawned | Entered | Executing | Returned(ok: bool) | SawStop | Faulted | Clearing | Exited

  /** A Runtime record. `joinable` says whether the record still owns its std::thread; `joins` counts completed joins. */
  datatype Runtime = Runtime(
    name: Name, phase: Phase, stopRequested: bool, reaping: bool, joinable: bool, joins: nat,
    pc: ThreadPc, engineUp: bool)

  /** Where Reap is, and whether its local std::thread holds a thread. */
  datatype ReapPc = Claim | Move | SetStop | SetStopping | StopEngine | Join | Clear | SetTerminal | Release

  datatype Reaper = Reaper(id: Id, interrupt: bool, pc: ReapPc, held: bool)

  /** What a caller does when its Reap returns. */
  datatype After = Finish | ThenErase(name: Name, existing: Id) | ThenStart(name: Name) | ThenNext(rest: seq<Id>, sweep: bool)

  datatype Caller =
    | Idle
    | StartCheck(name: Name)
    | StartErase(name: Name, existing: Id)
    | StartCreate(name: Name)
    | StartInsert(name: Name, id: Id)
    | RestartCheck(name: Name, id: Id)
    | NextOf(rest: seq<Id>, sweep: bool)
    | Reaping(reaper: Reaper, after: After)

  /** A dashboard point: the registry keeps three lists, each with its own names. */
  datatype PointList = Inputs | Outputs | Registers
  datatype Point = Point(list: PointList, name: string)

  datatype State = State(
    runtimes: map<Id, Runtime>, table: map<Name, Id>, callers: map<Tid, Caller>, nextId: Id, points: map<Point, Id>)

  datatype Event =
    | BeginStart(t: Tid, name: Name)
    | BeginStop(t: Tid, name: Name)
    | BeginStopAll(t: Tid, snapshot: seq<Id>)
    | BeginRestart(t: Tid, name: Name)
    | BeginPrune(t: Tid, dead: seq<Id>)
    | Continue(t: Tid)
    | RunThread(id: Id, ok: bool)
    | RegisterPoint(id: Id, point: Point)

  predicate IsActive(r: Runtime) {
    r.phase != Terminal
  }

  /** The top-level code has not returned yet. */
  predicate Live(r: Runtime) {
    r.pc.Spawned? || r.pc.Entered? || r.pc.Executing?
  }

  ghost predicate Init(s: State) {
    && s.runtimes == map[] && s.table == map[] && s.points == map[]
    && forall t :: t in s.callers ==> s.callers[t] == Idle
  }

  // ----- Steps -----

  function Resume(after: After): Caller {
    match after
    case Finish => Idle
    case ThenErase(name, existing) => StartErase(name, existing)
    case ThenStart(name) => StartCheck(name)
    case ThenNext(rest, sweep) => NextOf(rest, sweep)
  }

  function BeginReap(id: Id, interrupt: bool, after: After): Caller {
    Reaping(Reaper(id, interrupt, Claim, false), after)
  }

  function WithoutOwner<K>(points: map<K, Id>, id: Id): map<K, Id> {
    map p | p in points && points[p] != id :: points[p]
  }

  predicate ReapEnabled(r: Runtime, reaper: Reaper) {
    // The engine's own mutex is held while the script executes; a join waits for the thread to end.
    && (reaper.pc.StopEngine? ==> !r.pc.Executing?)
    && (reaper.pc.Join? && reaper.held ==> r.pc.Exited?)
  }

  /** The runtime record after one step of Reap. */
  function ReapRuntime(r: Runtime, reaper: Reaper): Runtime {
    match reaper.pc
    case Claim => r.(reaping := true)
    case Move => r.(joinable := false)
    case SetStop => r.(stopRequested := true)
    case SetStopping => r.(phase := Stopping)
    case StopEngine => r.(engineUp := false)
    case Join => if reaper.held then r.(joins := r.joins + 1) else r
    case Clear => r
    case SetTerminal => r.(phase := Terminal)
    case Release => r.(reaping := false)
  }

  /** The caller after one step of Reap on a runtime record. */
  function ReapCaller(r: Runtime, reaper: Reaper, after: After): Caller {
    match reaper.pc
    case Claim => if r.reaping then Resume(after) else Reaping(reaper.(pc := Move), after)
    case Move => Reaping(reaper.(pc := if reaper.interrupt then SetStop else Join, held := r.joinable), after)
    case SetStop => Reaping(reaper.(pc := SetStopping), after)
    case SetStopping => Reaping(reaper.(pc := StopEngine), after)
    case StopEngine => Reaping(reaper.(pc := Join), after)
    case Join => Reaping(reaper.(pc := Clear, held := false), after)
    case Clear => Reaping(reaper.(pc := SetTerminal), after)
    case SetTerminal => Reaping(reaper.(pc := Release), after)
    case Release => Resume(after)
  }

  /** RunThread, one step at a time; `ok` is what the script's top-level code answers. */
  function ThreadRuntime(r: Runtime, ok: bool): Runtime {
    match r.pc
    case Spawned => r.(phase := Active, pc := Entered)
    case Entered => r.(engineUp := true, pc := Executing)
    case Executing => r.(engineUp := ok, pc := Returned(ok))
    case Returned(good) => r.(pc := if good then Exited else if r.stopRequested then SawStop else Faulted)
    case SawStop => r.(phase := Terminal, pc := Exited)
    case Faulted => r.(phase := Terminal, pc := Clearing)
    case Clearing => r.(pc := Exited)
    case Exited => r
  }

  ghost predicate Enabled(s: State, e: Event) {
    match e
    case BeginStart(t, _) => t in s.callers && s.callers[t].Idle?
    case BeginStop(t, _) => t in s.callers && s.callers[t].Idle?
    case BeginRestart(t, _) => t in s.callers && s.callers[t].Idle?
    case BeginStopAll(t, snapshot) =>
      && t in s.callers && s.callers[t].Idle? && NoRepeats(snapshot)
      && forall id :: id in snapshot <==> id in s.table.Values
    case BeginPrune(t, dead) =>
      && t in s.callers && s.callers[t].Idle?
      && forall id :: id in dead <==> id in s.table.Values && id in s.runtimes && !IsActive(s.runtimes[id])
    case Continue(t) =>
      && t in s.callers && !s.callers[t].Idle?
      && CallerIds(s.callers[t]) <= s.runtimes.Keys
      && (s.callers[t].Reaping? ==> ReapEnabled(s.runtimes[s.callers[t].reaper.id], s.callers[t].reaper))
    case RunThread(id, _) => id in s.runtimes && !s.runtimes[id].pc.Exited?
    case RegisterPoint(id, _) => id in s.runtimes && s.runtimes[id].engineUp
  }

  predicate NoRepeats(ids: seq<Id>) {
    forall i, j :: 0 <= i < j < |ids| ==> ids[i] != ids[j]
  }

  /** Runtimes a caller has a pointer to. */
  function CallerIds(c: Caller): set<Id> {
    match c
    case StartErase(_, existing) => {existing}
    case StartInsert(_, id) => {id}
    case RestartCheck(_, id) => {id}
    case NextOf(rest, _) => set id | id in rest
    case Reaping(reaper, after) => {reaper.id} + AfterIds(after)
    case _ => {}
  }

  function AfterIds(after: After): set<Id> {
    match after
    case ThenErase(_, existing) => {existing}
    case ThenNext(rest, _) => set id | id in rest
    case _ => {}
  }

  ghost function ContinueFrom(s: State, t: Tid): State
    requires Enabled(s, Continue(t))
  {
    match s.callers[t]
    case Idle => s
    case StartCheck(name) =>
      if name in s.table && s.table[name] in s.runtimes then
        var id := s.table[name];
        if IsActive(s.runtimes[id]) then s.(callers := s.callers[t := Idle])
        else s.(callers := s.callers[t := BeginReap(id, false, ThenErase(name, id))])
      else s.(callers := s.callers[t := StartCreate(name)])
    case StartErase(name, existing) =>
      s.(table := if name in s.table && s.table[name] == existing then s.table - {name} else s.table,
         callers := s.callers[t := StartCreate(name)])
    case StartCreate(name) =>
      var created := Runtime(name, Starting, false, false, true, 0, Spawned, false);
      s.(runtimes := s.runtimes[s.nextId := created], nextId := s.nextId + 1,
         callers := s.callers[t := StartInsert(name, s.nextId)])
    case StartInsert(name, id) =>
      s.(table := s.table[name := id], callers := s.callers[t := Idle])
    case RestartCheck(name, id) =>
      s.(callers := s.callers[t := if IsActive(s.runtimes[id]) then BeginReap(id, true, ThenStart(name))
                                   else StartCheck(name)])
    case NextOf(rest, sweep) =>
      s.(callers := s.callers[t :=
        if rest == [] then Idle
        else if sweep && !IsActive(s.runtimes[rest[0]]) then NextOf(rest[1..], sweep)
        else BeginReap(rest[0], sweep, ThenNext(rest[1..], sweep))])
    case Reaping(reaper, after) =>
      var r := s.runtimes[reaper.id];
      s.(runtimes := s.runtimes[reaper.id := ReapRuntime(r, reaper)],
         callers := s.callers[t := ReapCaller(r, reaper, after)],
         points := if reaper.pc.Clear? then WithoutOwner(s.points, reaper.id) else s.points)
  }

  ghost function Apply(s: State, e: Event): State
    requires Enabled(s, e)
  {
    match e
    case BeginStart(t, name) => s.(callers := s.callers[t := StartCheck(name)])
    case BeginStop(t, name) =>
      if name in s.table && s.table[name] in s.runtimes && IsActive(s.runtimes[s.table[name]])
      then s.(callers := s.callers[t := BeginReap(s.table[name], true, Finish)]) else s
    case BeginStopAll(t, snapshot) => s.(callers := s.callers[t := NextOf(snapshot, true)])
    case BeginRestart(t, name) =>
      if name in s.table then s.(callers := s.callers[t := RestartCheck(name, s.table[name])]) else s
    case BeginPrune(t, dead) =>
      s.(table := map n | n in s.table && s.table[n] !in dead :: s.table[n],
         callers := s.callers[t := NextOf(dead, false)])
    case Continue(t) => ContinueFrom(s, t)
    case RunThread(id, ok) =>
      s.(runtimes := s.runtimes[id := ThreadRuntime(s.runtimes[id], ok)],
         points := if s.runtimes[id].pc.Clearing? then WithoutOwner(s.points, id) else s.points)
    case RegisterPoint(id, point) => s.(points := s.points[point := id])
  }

  // ----- Runs -----

  ghost predicate IsRun(states: seq<State>, events: seq<Event>) {
    && |states| == |events| + 1
    && Init(states[0])
    && forall i :: StepAt(states, events, i)
  }

  ghost predicate StepAt(states: seq<State>, events: seq<Event>, i: int) {
    0 <= i < |events| && i + 1 < |states| ==>
      Enabled(states[i], events[i]) && states[i + 1] == Apply(states[i], events[i])
  }

  // ----- What callers stand for -----

  predicate PastClaim(c: Caller, id: Id) {
    c.Reaping? && c.reaper.id == id && !c.reaper.pc.Claim?
  }

  /** A reaper whose local std::thread is the runtime's and that has not joined it yet. */
  predicate Holds(c: Caller, id: Id) {
    PastClaim(c, id) && c.reaper.held
  }

  /** Past the claim but not yet past clearing the runtime's points. */
  predicate BeforeClear(c: Caller, id: Id) {
    PastClaim(c, id) && !c.reaper.pc.SetTerminal? && !c.reaper.pc.Release?
  }

  /** A caller that is about to take the thread out of the record: it is reaping it, or pruning has it on the list. */
  predicate WillTake(c: Caller, id: Id) {
    match c
    case Reaping(reaper, after) =>
      || (reaper.id == id && (reaper.pc.Claim? || reaper.pc.Move?))
      || (after.ThenNext? && !after.sweep && id in after.rest)
    case NextOf(rest, sweep) => !sweep && id in rest
    case _ => false
  }

  ghost predicate SomePastClaim(callers: map<Tid, Caller>, id: Id) {
    exists t :: t in callers && PastClaim(callers[t], id)
  }

  ghost predicate SomeHolds(callers: map<Tid, Caller>, id: Id) {
    exists t :: t in callers && Holds(callers[t], id)
  }

  ghost predicate SomeWillTake(callers: map<Tid, Caller>, id: Id) {
    exists t :: t in callers && WillTake(callers[t], id)
  }

  ghost predicate Inserting(callers: map<Tid, Caller>, id: Id, name: Name) {
    exists t :: t in callers && callers[t] == StartInsert(name, id)
  }

  predicate Listed(table: map<Name, Id>, id: Id, name: Name) {
    name in table && table[name] == id
  }

  /** Reap has returned: the thread is out of the record, or another reaper is at it. */
  predicate Released(r: Runtime) {
    r.joinable ==> r.reaping
  }
}

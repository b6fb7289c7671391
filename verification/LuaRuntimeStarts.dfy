/** What holds while starts of one name do not overlap: at most one runtime of a name is live, and no thread is ever
    lost. */
module LuaRuntimeStarts {
  import opened LuaRuntimeManager
  import opened LuaRuntimeSafety

  /** The caller is between entering StartInternal for a name and inserting into the table. */
  predicate InStart(c: Caller, name: Name) {
    match c
    case StartCheck(n) => n == name
    case StartErase(n, _) => n == name
    case StartCreate(n) => n == name
    case StartInsert(n, _) => n == name
    case Reaping(_, ThenErase(n, _)) => n == name
    case _ => false
  }

  predicate Apart(s: State, t: Tid, u: Tid, name: Name) {
    t in s.callers && u in s.callers && InStart(s.callers[t], name) && InStart(s.callers[u], name) ==> t == u
  }

  /** Two starts of one name never overlap. */
  ghost predicate StartsApart(s: State) {
    forall t, u, name :: Apart(s, t, u, name)
  }

  // ----- Invariant on starts -----

  predicate NotLiveAs(runtimes: map<Id, Runtime>, name: Name, id: Id) {
    id in runtimes && runtimes[id].name == name ==> !Live(runtimes[id])
  }

  ghost predicate NoneLive(runtimes: map<Id, Runtime>, name: Name) {
    forall id :: NotLiveAs(runtimes, name, id)
  }

  /** A live runtime is in the table or about to be. */
  ghost predicate LiveListed(s: State, id: Id) {
    id in s.runtimes && Live(s.runtimes[id]) ==>
      Listed(s.table, id, s.runtimes[id].name) || Inserting(s.callers, id, s.runtimes[id].name)
  }

  ghost predicate EraseOk(s: State, name: Name, existing: Id) {
    NoneLive(s.runtimes, name) && (name in s.table ==> s.table[name] == existing)
  }

  /** Past its check, a start of a name knows that none of that name is live and what the table lists for it. */
  ghost predicate StartOk(s: State, c: Caller) {
    && (c.Reaping? && c.after.ThenErase? ==> EraseOk(s, c.after.name, c.after.existing))
    && (c.StartErase? ==> EraseOk(s, c.name, c.existing))
    && (c.StartCreate? ==> c.name !in s.table && NoneLive(s.runtimes, c.name))
    && (c.StartInsert? ==> c.name !in s.table)
  }

  ghost predicate StarterOk(s: State, t: Tid) {
    t in s.callers ==> StartOk(s, s.callers[t])
  }

  ghost predicate StartsInv(s: State) {
    (forall id :: LiveListed(s, id)) && (forall t :: StarterOk(s, t))
  }

  // ----- Preservation -----

  /** No runtime comes to life or changes its name. */
  ghost predicate NoNewLife(s: State, s': State) {
    forall id :: OldLife(s, s', id)
  }

  predicate OldLife(s: State, s': State, id: Id) {
    id in s'.runtimes && Live(s'.runtimes[id]) ==>
      id in s.runtimes && Live(s.runtimes[id]) && s.runtimes[id].name == s'.runtimes[id].name
  }

  lemma NoneLiveStays(s: State, s': State, name: Name)
    requires NoNewLife(s, s') && NoneLive(s.runtimes, name)
    ensures NoneLive(s'.runtimes, name)
  {
    forall id ensures NotLiveAs(s'.runtimes, name, id) {
      assert OldLife(s, s', id) && NotLiveAs(s.runtimes, name, id);
    }
  }

  lemma StarterStays(s: State, s': State, c: Caller)
    requires StartOk(s, c) && NoNewLife(s, s')
    requires forall n :: n in s'.table ==> n in s.table && s'.table[n] == s.table[n]
    ensures StartOk(s', c)
  {
    if c.Reaping? && c.after.ThenErase? {
      NoneLiveStays(s, s', c.after.name);
    }
    if c.StartErase? || c.StartCreate? {
      NoneLiveStays(s, s', c.name);
    }
  }

  /** A step of caller t, not an insert, that brings nothing to life and adds nothing to the table. */
  lemma MoveKeepsStarts(s: State, s': State, t: Tid)
    requires StartsInv(s) && OnlyCaller(s, s', t) && NoNewLife(s, s')
    requires forall n :: n in s'.table ==> n in s.table && s'.table[n] == s.table[n]
    requires forall id :: LiveKept(s, s', id)
    requires !s.callers[t].StartInsert? && StartOk(s, s'.callers[t])
    ensures StartsInv(s')
  {
    forall id ensures LiveListed(s', id) {
      assert LiveListed(s, id) && OldLife(s, s', id) && LiveKept(s, s', id);
      if id in s.runtimes {
        OthersAnswer(s, s', t, id, s.runtimes[id].name);
      }
    }
    forall u ensures StarterOk(s', u) {
      assert StarterOk(s, u) && SameCaller(s, s', t, u);
      if u in s'.callers {
        StarterStays(s, s', s'.callers[u]);
      }
    }
  }

  /** A live runtime keeps its entry. */
  predicate LiveKept(s: State, s': State, id: Id) {
    id in s.runtimes && Live(s.runtimes[id]) && Listed(s.table, id, s.runtimes[id].name) ==>
      Listed(s'.table, id, s.runtimes[id].name)
  }

  lemma CallerKeepsStarts(s: State, t: Tid, c: Caller)
    requires StartsInv(s) && t in s.callers && StartOk(s, c) && !s.callers[t].StartInsert?
    ensures StartsInv(s.(callers := s.callers[t := c]))
  {
    var s' := s.(callers := s.callers[t := c]);
    forall id ensures OldLife(s, s', id) && LiveKept(s, s', id) {
    }
    MoveKeepsStarts(s, s', t);
  }

  lemma NoneInserted(s: State, t: Tid, name: Name, id: Id)
    requires StartsApart(s) && t in s.callers
    requires InStart(s.callers[t], name) && !s.callers[t].StartInsert?
    ensures !Inserting(s.callers, id, name)
  {
    forall u | u in s.callers ensures s.callers[u] != StartInsert(name, id) {
      assert Apart(s, t, u, name);
    }
  }

  /** With starts apart, a name whose listed runtime is terminal or missing has no live runtime. */
  lemma CheckFindsNoneLive(s: State, t: Tid, name: Name)
    requires RuntimesOk(s) && StartsInv(s) && StartsApart(s)
    requires t in s.callers && s.callers[t] == StartCheck(name)
    requires name in s.table ==> s.table[name] in s.runtimes && !IsActive(s.runtimes[s.table[name]])
    ensures NoneLive(s.runtimes, name)
  {
    forall id ensures NotLiveAs(s.runtimes, name, id) {
      assert RecordOk(s, id) && LiveListed(s, id);
      NoneInserted(s, t, name, id);
    }
  }

  lemma CheckKeepsStarts(s: State, t: Tid)
    requires Inv(s) && StartsInv(s) && StartsApart(s) && Enabled(s, Continue(t)) && s.callers[t].StartCheck?
    ensures StartsInv(ContinueFrom(s, t))
  {
    var name := s.callers[t].name;
    assert EntryOk(s, name);
    if name in s.table && IsActive(s.runtimes[s.table[name]]) {
      CallerKeepsStarts(s, t, Idle);
    } else {
      CheckFindsNoneLive(s, t, name);
      if name in s.table {
        CallerKeepsStarts(s, t, BeginReap(s.table[name], false, ThenErase(name, s.table[name])));
      } else {
        CallerKeepsStarts(s, t, StartCreate(name));
      }
    }
  }

  lemma EraseKeepsStarts(s: State, t: Tid)
    requires StartsInv(s) && Enabled(s, Continue(t)) && s.callers[t].StartErase?
    ensures StartsInv(ContinueFrom(s, t))
  {
    var name := s.callers[t].name;
    var erased := s.(table := ContinueFrom(s, t).table);
    assert StarterOk(s, t);
    forall id ensures OldLife(s, erased, id) && LiveKept(s, erased, id) {
      assert NotLiveAs(s.runtimes, name, id);
    }
    MoveKeepsStarts(s, erased, t);
    CallerKeepsStarts(erased, t, StartCreate(name));
  }

  lemma ReapKeepsStarts(s: State, t: Tid)
    requires StartsInv(s) && Enabled(s, Continue(t)) && s.callers[t].Reaping?
    ensures StartsInv(ContinueFrom(s, t))
  {
    var s', c := ContinueFrom(s, t), s.callers[t];
    assert StarterOk(s, t);
    forall id ensures OldLife(s, s', id) && LiveKept(s, s', id) {
    }
    ReapKeepsStart(s, c);
    MoveKeepsStarts(s, s', t);
  }

  lemma ReapKeepsStart(s: State, c: Caller)
    requires c.Reaping? && StartOk(s, c) && c.reaper.id in s.runtimes
    ensures StartOk(s, ReapCaller(s.runtimes[c.reaper.id], c.reaper, c.after))
  {
  }

  /** A start elsewhere does not care what becomes of a name. */
  lemma StarterIgnores(s: State, s': State, name: Name, c: Caller)
    requires StartOk(s, c) && !InStart(c, name)
    requires forall n :: n != name ==> (n in s.table <==> n in s'.table) && (n in s.table ==> s'.table[n] == s.table[n])
    requires forall n :: n != name && NoneLive(s.runtimes, n) ==> NoneLive(s'.runtimes, n)
    ensures StartOk(s', c)
  {
  }

  lemma CreateKeepsStarts(s: State, t: Tid)
    requires Inv(s) && StartsInv(s) && StartsApart(s) && Enabled(s, Continue(t)) && s.callers[t].StartCreate?
    ensures StartsInv(ContinueFrom(s, t))
  {
    var s', name := ContinueFrom(s, t), s.callers[t].name;
    assert RecordOk(s, s.nextId) && StarterOk(s, t);
    forall id ensures LiveListed(s', id) {
      assert LiveListed(s, id);
      OthersAnswer(s, s', t, id, if id in s.runtimes then s.runtimes[id].name else name);
    }
    forall n | n != name && NoneLive(s.runtimes, n) ensures NoneLive(s'.runtimes, n) {
      forall id ensures NotLiveAs(s'.runtimes, n, id) {
        assert NotLiveAs(s.runtimes, n, id);
      }
    }
    forall u ensures StarterOk(s', u) {
      assert StarterOk(s, u) && Apart(s, t, u, name);
      if u in s.callers && u != t {
        StarterIgnores(s, s', name, s.callers[u]);
      }
    }
  }

  lemma InsertKeepsStarts(s: State, t: Tid)
    requires Inv(s) && StartsInv(s) && StartsApart(s) && Enabled(s, Continue(t)) && s.callers[t].StartInsert?
    ensures StartsInv(ContinueFrom(s, t))
  {
    var s', name := ContinueFrom(s, t), s.callers[t].name;
    assert StarterOk(s, t) && ThreadOk(s, t);
    forall id ensures LiveListed(s', id) {
      assert LiveListed(s, id);
      if id in s.runtimes {
        OthersAnswer(s, s', t, id, s.runtimes[id].name);
      }
    }
    forall u ensures StarterOk(s', u) {
      assert StarterOk(s, u) && Apart(s, t, u, name);
      if u in s.callers && u != t {
        StarterIgnores(s, s', name, s.callers[u]);
      }
    }
  }

  lemma PruneKeepsStarts(s: State, e: Event)
    requires Inv(s) && StartsInv(s) && Enabled(s, e) && e.BeginPrune?
    ensures StartsInv(Apply(s, e))
  {
    var s' := Apply(s, e);
    forall id ensures OldLife(s, s', id) && LiveKept(s, s', id) {
      assert RecordOk(s, id);
    }
    MoveKeepsStarts(s, s', e.t);
  }

  lemma ThreadKeepsStarts(s: State, e: Event)
    requires StartsInv(s) && Enabled(s, e) && (e.RunThread? || e.RegisterPoint?)
    ensures StartsInv(Apply(s, e))
  {
    var s' := Apply(s, e);
    forall id ensures OldLife(s, s', id) {
    }
    forall id ensures LiveListed(s', id) {
      assert LiveListed(s, id) && OldLife(s, s', id);
    }
    forall u ensures StarterOk(s', u) {
      assert StarterOk(s, u);
      if u in s.callers {
        StarterStays(s, s', s.callers[u]);
      }
    }
  }

  lemma BeginKeepsStarts(s: State, e: Event)
    requires StartsInv(s) && Enabled(s, e)
    requires e.BeginStart? || e.BeginStop? || e.BeginStopAll? || e.BeginRestart?
    ensures StartsInv(Apply(s, e))
  {
    if Apply(s, e) != s {
      CallerKeepsStarts(s, e.t, Apply(s, e).callers[e.t]);
    }
  }

  lemma ContinueKeepsStarts(s: State, t: Tid)
    requires Inv(s) && StartsInv(s) && StartsApart(s) && Enabled(s, Continue(t))
    ensures StartsInv(ContinueFrom(s, t))
  {
    match s.callers[t] {
      case StartCheck(_) => CheckKeepsStarts(s, t);
      case StartErase(_, _) => EraseKeepsStarts(s, t);
      case StartCreate(_) => CreateKeepsStarts(s, t);
      case StartInsert(_, _) => InsertKeepsStarts(s, t);
      case Reaping(_, _) => ReapKeepsStarts(s, t);
      case RestartCheck(_, _) => CallerKeepsStarts(s, t, ContinueFrom(s, t).callers[t]);
      case NextOf(_, _) => CallerKeepsStarts(s, t, ContinueFrom(s, t).callers[t]);
    }
  }

  /** Every step taken while starts of one name do not overlap keeps the invariant on starts. */
  lemma StepKeepsStarts(s: State, e: Event)
    requires Inv(s) && StartsInv(s) && StartsApart(s) && Enabled(s, e)
    ensures StartsInv(Apply(s, e))
  {
    match e {
      case Continue(t) => ContinueKeepsStarts(s, t);
      case RunThread(_, _) => ThreadKeepsStarts(s, e);
      case RegisterPoint(_, _) => ThreadKeepsStarts(s, e);
      case BeginPrune(_, _) => PruneKeepsStarts(s, e);
      case _ => BeginKeepsStarts(s, e);
    }
  }

  lemma {:induction false} RunKeepsStarts(states: seq<State>, events: seq<Event>, n: nat)
    requires IsRun(states, events) && n < |states|
    requires forall i :: 0 <= i < n ==> StartsApart(states[i])
    ensures Inv(states[n]) && StartsInv(states[n])
  {
    RunKeepsInv(states, events, n);
    if n > 0 {
      RunKeepsStarts(states, events, n - 1);
      assert StepAt(states, events, n - 1);
      StepKeepsStarts(states[n - 1], events[n - 1]);
    }
  }

  // ----- What such runs keep -----

  /** While starts of one name do not overlap, no thread is ever lost: a runtime is out of the table only when its thread is
      joined, held by a reaper that will join it, or about to be taken by one. */
  lemma JoinSafety(states: seq<State>, events: seq<Event>, n: nat, id: Id)
    requires IsRun(states, events) && n < |states| && id in states[n].runtimes
    requires forall i :: 0 <= i < n ==> StartsApart(states[i])
    ensures ThreadAccounted(states[n], id)
  {
    forall i | 0 <= i < n ensures !Overwritten(states[i], events[i], id) {
      RunKeepsStarts(states, events, i);
      if events[i].Continue? {
        assert StarterOk(states[i], events[i].t);
      }
    }
    AccountedUnlessOverwritten(states, events, n, id);
  }

  lemma InsertedNotListed(s: State, id: Id, name: Name)
    requires StartsInv(s) && Inserting(s.callers, id, name)
    ensures name !in s.table
  {
    var t :| t in s.callers && s.callers[t] == StartInsert(name, id);
    assert StarterOk(s, t);
  }

  lemma OneInserter(s: State, a: Id, b: Id, name: Name)
    requires StartsApart(s) && Inserting(s.callers, a, name) && Inserting(s.callers, b, name)
    ensures a == b
  {
    var t :| t in s.callers && s.callers[t] == StartInsert(name, a);
    var u :| u in s.callers && s.callers[u] == StartInsert(name, b);
    assert Apart(s, t, u, name);
  }

  /** At most one runtime of a name is executing its top-level code, or about to. */
  lemma OneLivePerName(states: seq<State>, events: seq<Event>, n: nat, a: Id, b: Id)
    requires IsRun(states, events) && n < |states| && a in states[n].runtimes && b in states[n].runtimes
    requires forall i :: 0 <= i <= n ==> StartsApart(states[i])
    requires states[n].runtimes[a].name == states[n].runtimes[b].name
    requires Live(states[n].runtimes[a]) && Live(states[n].runtimes[b])
    ensures a == b
  {
    var s := states[n];
    var name := s.runtimes[a].name;
    RunKeepsStarts(states, events, n);
    assert LiveListed(s, a) && LiveListed(s, b);
    if Inserting(s.callers, a, name) {
      InsertedNotListed(s, a, name);
    }
    if Inserting(s.callers, b, name) {
      InsertedNotListed(s, b, name);
    }
    if Inserting(s.callers, a, name) && Inserting(s.callers, b, name) {
      OneInserter(s, a, b, name);
    }
  }
}

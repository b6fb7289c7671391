/** Handing HTTP requests from web threads to a script (src/LuaEngine.cpp): a bounded queue shared by SubmitHttp on web
    threads, DrainPendingHttp on the script's thread, and CloseState.

    A handler may itself reach a draining call, so the requests being handled form a stack. CloseState and the script
    exclude one another through the engine's mutex; the queue and the routes have their own short lock. */
module HttpHandoff {

  type Id = nat

  const MAX_PENDING := 64

  datatype State = State(
    running: bool, routes: set<string>,
    submitting: set<Id>,      // web threads past the running check, before the lock
    pending: seq<Id>,
    handling: seq<Id>,        // innermost first
    closing: bool, abandoned: seq<Id>)

  datatype Event =
    | SetRunning(running: bool)
    | Register(key: string)
    | Unregister(key: string)
    | BeginSubmit(id: Id)
    | Enqueue(id: Id)
    | Take                          // DrainPendingHttp pops a request
    | Complete(status: int)         // and completes the innermost one
    | Close                         // CloseState clears the routes and takes the whole queue
    | Abandon                       // and answers the next one with 503
    | Closed

  ghost predicate Init(s: State) {
    s == State(s.running, {}, {}, [], [], false, [])
  }

  predicate Enabled(s: State, e: Event) {
    match e
    case SetRunning(_) => true
    case Register(_) => !s.closing
    case Unregister(_) => !s.closing
    case BeginSubmit(id) => s.running
    case Enqueue(id) => id in s.submitting
    case Take => !s.closing && s.pending != []
    case Complete(_) => s.handling != []
    case Close => !s.closing && s.handling == []
    case Abandon => s.closing && s.abandoned != []
    case Closed => s.closing && s.abandoned == []
  }

  /** SubmitHttp answers true. */
  predicate Accepts(s: State, e: Event) {
    e.Enqueue? && s.routes != {} && |s.pending| < MAX_PENDING
  }

  function Apply(s: State, e: Event): State
    requires Enabled(s, e)
  {
    match e
    case SetRunning(running) => s.(running := running)
    case Register(key) => s.(routes := s.routes + {key})
    case Unregister(key) => s.(routes := s.routes - {key})
    case BeginSubmit(id) => s.(submitting := s.submitting + {id})
    case Enqueue(id) =>
      if s.routes == {} || |s.pending| >= MAX_PENDING then s.(submitting := s.submitting - {id})
      else s.(submitting := s.submitting - {id}, pending := s.pending + [id])
    case Take => s.(pending := s.pending[1..], handling := [s.pending[0]] + s.handling)
    case Complete(_) => s.(handling := s.handling[1..])
    case Close => s.(routes := {}, pending := [], abandoned := s.pending, closing := true)
    case Abandon => s.(abandoned := s.abandoned[1..])
    case Closed => s.(closing := false)
  }

  /** The request a step sets `completed` on, if any. */
  function Answered(s: State, e: Event): (answered: seq<Id>)
    ensures |answered| <= 1
  {
    if e.Complete? && s.handling != [] then [s.handling[0]]
    else if e.Abandon? && s.abandoned != [] then [s.abandoned[0]]
    else []
  }

  function Admitted(s: State, e: Event): (admitted: seq<Id>)
    ensures |admitted| <= 1
  {
    if Accepts(s, e) then [e.id] else []
  }

  // ----- Runs -----

  ghost predicate StepAt(states: seq<State>, events: seq<Event>, i: int) {
    0 <= i < |events| && i + 1 < |states| ==>
      Enabled(states[i], events[i]) && states[i + 1] == Apply(states[i], events[i])
  }

  /** Two submissions never concern the same request object. */
  ghost predicate Distinct(events: seq<Event>) {
    forall i, j :: ApartAt(events, i, j)
  }

  predicate ApartAt(events: seq<Event>, i: int, j: int) {
    0 <= i < j < |events| && events[i].BeginSubmit? && events[j].BeginSubmit? ==> events[i].id != events[j].id
  }

  ghost predicate IsRun(states: seq<State>, events: seq<Event>) {
    && |states| == |events| + 1 && Init(states[0]) && Distinct(events)
    && forall i :: StepAt(states, events, i)
  }

  function Accepted(states: seq<State>, events: seq<Event>, n: nat): seq<Id>
    requires n <= |events| && n < |states|
  {
    if n == 0 then [] else Accepted(states, events, n - 1) + Admitted(states[n - 1], events[n - 1])
  }

  function Completed(states: seq<State>, events: seq<Event>, n: nat): seq<Id>
    requires n <= |events| && n < |states|
  {
    if n == 0 then [] else Completed(states, events, n - 1) + Answered(states[n - 1], events[n - 1])
  }

  /** How often a request occurs in a list. */
  function Count(ids: seq<Id>, id: Id): nat {
    if ids == [] then 0 else (if ids[0] == id then 1 else 0) + Count(ids[1..], id)
  }

  lemma {:induction false} CountConcat(a: seq<Id>, b: seq<Id>, id: Id)
    ensures Count(a + b, id) == Count(a, id) + Count(b, id)
  {
    if a == [] {
      assert a + b == b;
    } else {
      assert (a + b)[1..] == a[1..] + b;
      CountConcat(a[1..], b, id);
    }
  }

  lemma {:induction false} CountIn(ids: seq<Id>, id: Id)
    ensures Count(ids, id) > 0 <==> id in ids
  {
    if ids != [] {
      CountIn(ids[1..], id);
      assert ids == [ids[0]] + ids[1..];
    }
  }

  // ----- Nothing is lost or answered twice -----

  /** Occurrences of a request between its acceptance and its completion. */
  function Inside(s: State, id: Id): nat {
    Count(s.pending, id) + Count(s.handling, id) + Count(s.abandoned, id)
  }

  lemma StepConserves(s: State, e: Event, id: Id)
    requires Enabled(s, e) && (!s.closing ==> s.abandoned == [])
    ensures Inside(s, id) + Count(Admitted(s, e), id) == Inside(Apply(s, e), id) + Count(Answered(s, e), id)
    ensures !Apply(s, e).closing ==> Apply(s, e).abandoned == []
  {
    match e
    case Enqueue(x) =>
      CountConcat(s.pending, [x], id);
    case Take =>
      CountConcat([s.pending[0]], s.handling, id);
    case _ =>
  }

  lemma ConservesAt(states: seq<State>, events: seq<Event>, m: nat, id: Id)
    requires IsRun(states, events) && m < |events| && (!states[m].closing ==> states[m].abandoned == [])
    ensures Inside(states[m], id) + Count(Admitted(states[m], events[m]), id) ==
            Inside(states[m + 1], id) + Count(Answered(states[m], events[m]), id)
    ensures !states[m + 1].closing ==> states[m + 1].abandoned == []
    ensures Count(Accepted(states, events, m + 1), id) ==
            Count(Accepted(states, events, m), id) + Count(Admitted(states[m], events[m]), id)
    ensures Count(Completed(states, events, m + 1), id) ==
            Count(Completed(states, events, m), id) + Count(Answered(states[m], events[m]), id)
  {
    assert StepAt(states, events, m);
    StepConserves(states[m], events[m], id);
    CountConcat(Accepted(states, events, m), Admitted(states[m], events[m]), id);
    CountConcat(Completed(states, events, m), Answered(states[m], events[m]), id);
  }

  /** Counted with multiplicity, the accepted requests are those queued, being handled, being abandoned, or completed. */
  lemma {:induction false} Conserved(states: seq<State>, events: seq<Event>, n: nat, id: Id)
    requires IsRun(states, events) && n < |states|
    ensures Count(Accepted(states, events, n), id) == Inside(states[n], id) + Count(Completed(states, events, n), id)
    ensures !states[n].closing ==> states[n].abandoned == []
    decreases n
  {
    if n > 0 {
      Conserved(states, events, n - 1, id);
      ConservesAt(states, events, n - 1, id);
    }
  }

  /** How many submissions of a request have begun. */
  function Begun(events: seq<Event>, n: nat, id: Id): nat
    requires n <= |events|
  {
    if n == 0 then 0 else Begun(events, n - 1, id) + if events[n - 1] == BeginSubmit(id) then 1 else 0
  }

  lemma {:induction false} FirstBegun(events: seq<Event>, n: nat, id: Id) returns (i: nat)
    requires n <= |events| && Begun(events, n, id) > 0
    ensures i < n && events[i] == BeginSubmit(id)
  {
    i := n - 1;
    if events[i] != BeginSubmit(id) {
      i := FirstBegun(events, n - 1, id);
    }
  }

  lemma {:induction false} BegunOnce(events: seq<Event>, n: nat, id: Id)
    requires n <= |events| && Distinct(events)
    ensures Begun(events, n, id) <= 1
    decreases n
  {
    if n > 0 {
      BegunOnce(events, n - 1, id);
      if Begun(events, n - 1, id) > 0 {
        var i := FirstBegun(events, n - 1, id);
        assert ApartAt(events, i, n - 1);
      }
    }
  }

  /** Being submitted, or accepted so many times. */
  function Submissions(s: State, accepted: seq<Id>, id: Id): nat {
    Count(accepted, id) + if id in s.submitting then 1 else 0
  }

  lemma SubmissionsStep(s: State, e: Event, accepted: seq<Id>, id: Id)
    requires Enabled(s, e)
    ensures Submissions(Apply(s, e), accepted + Admitted(s, e), id) <=
            Submissions(s, accepted, id) + if e == BeginSubmit(id) then 1 else 0
  {
    CountConcat(accepted, Admitted(s, e), id);
  }

  lemma {:induction false} SubmittedAsBegun(states: seq<State>, events: seq<Event>, n: nat, id: Id)
    requires IsRun(states, events) && n < |states|
    ensures Submissions(states[n], Accepted(states, events, n), id) <= Begun(events, n, id)
    decreases n
  {
    if n > 0 {
      SubmittedAsBegun(states, events, n - 1, id);
      assert StepAt(states, events, n - 1);
      SubmissionsStep(states[n - 1], events[n - 1], Accepted(states, events, n - 1), id);
    }
  }

  /** A request is accepted at most once, and only after its submission began. */
  lemma AcceptedOnce(states: seq<State>, events: seq<Event>, n: nat, id: Id)
    requires IsRun(states, events) && n < |states|
    ensures Count(Accepted(states, events, n), id) <= Begun(events, n, id) <= 1
  {
    SubmittedAsBegun(states, events, n, id);
    BegunOnce(events, n, id);
  }

  /** At every moment of every run, each accepted request is in exactly one of the queue, the stack of handlers, the list
      being abandoned, and the completed ones, and only once; any other request is in none of them. */
  lemma ExactlyOnePlace(states: seq<State>, events: seq<Event>, n: nat, id: Id)
    requires IsRun(states, events) && n < |states|
    ensures var s := states[n];
      Count(s.pending, id) + Count(s.handling, id) + Count(s.abandoned, id) +
      Count(Completed(states, events, n), id) == if id in Accepted(states, events, n) then 1 else 0
  {
    Conserved(states, events, n, id);
    AcceptedOnce(states, events, n, id);
    CountIn(Accepted(states, events, n), id);
  }

  // ----- Order -----

  /** What a step takes out of the queue: one request by a drain, all of them by a close. */
  function Leaving(s: State, e: Event): seq<Id> {
    if e.Take? && s.pending != [] then [s.pending[0]] else if e.Close? then s.pending else []
  }

  function Removed(states: seq<State>, events: seq<Event>, n: nat): seq<Id>
    requires n <= |events| && n < |states|
  {
    if n == 0 then [] else Removed(states, events, n - 1) + Leaving(states[n - 1], events[n - 1])
  }

  lemma QueueStep(s: State, e: Event)
    requires Enabled(s, e) && |s.pending| <= MAX_PENDING
    ensures s.pending + Admitted(s, e) == Leaving(s, e) + Apply(s, e).pending
    ensures |Apply(s, e).pending| <= MAX_PENDING
  {
    if e.Take? {
      assert s.pending == [s.pending[0]] + s.pending[1..];
    }
  }

  lemma Regroup(accepted: seq<Id>, removed: seq<Id>, before: seq<Id>, more: seq<Id>, leaving: seq<Id>, after: seq<Id>)
    requires accepted == removed + before && before + more == leaving + after
    ensures accepted + more == removed + leaving + after
  {
    assert removed + before + more == removed + (before + more);
    assert removed + leaving + after == removed + (leaving + after);
  }

  /** Requests leave the queue in the order they were accepted, and it never holds more than 64. */
  lemma {:induction false} FirstInFirstOut(states: seq<State>, events: seq<Event>, n: nat)
    requires IsRun(states, events) && n < |states|
    ensures Accepted(states, events, n) == Removed(states, events, n) + states[n].pending
    ensures |states[n].pending| <= 64
    decreases n
  {
    if n > 0 {
      var s, e := states[n - 1], events[n - 1];
      FirstInFirstOut(states, events, n - 1);
      assert StepAt(states, events, n - 1);
      QueueStep(s, e);
      Regroup(Accepted(states, events, n - 1), Removed(states, events, n - 1), s.pending,
              Admitted(s, e), Leaving(s, e), states[n].pending);
    }
  }

  /** A request past the running check is refused exactly when no route is registered or 64 requests are waiting. */
  lemma RefusedIff(states: seq<State>, events: seq<Event>, n: nat)
    requires IsRun(states, events) && n < |events| && events[n].Enqueue?
    ensures Accepted(states, events, n + 1) == Accepted(states, events, n) <==>
            states[n].routes == {} || |states[n].pending| == 64
  {
    FirstInFirstOut(states, events, n);
    var s, e := states[n], events[n];
    assert |Accepted(states, events, n + 1)| == |Accepted(states, events, n)| + |Admitted(s, e)|;
    if Admitted(s, e) == [] {
      assert Accepted(states, events, n) + [] == Accepted(states, events, n);
    }
  }

  // ----- Closing -----

  /** From a close until a script registers a route, nothing is queued, taken up or accepted, whatever web threads that
      were already past the running check do. */
  lemma {:induction false} ClosedMeansClosed(states: seq<State>, events: seq<Event>, k: nat, n: nat)
    requires IsRun(states, events) && k < n < |states| && events[k].Close?
    requires forall i :: k < i < n ==> !events[i].Register?
    ensures states[n].pending == [] && states[n].routes == {} && states[n].handling == []
    ensures Accepted(states, events, n) == Accepted(states, events, k)
    decreases n
  {
    assert StepAt(states, events, n - 1);
    if k < n - 1 {
      ClosedMeansClosed(states, events, k, n - 1);
    }
  }

  /** When the close is over, every request ever accepted has been completed, exactly once. */
  lemma CloseAnswersEverything(states: seq<State>, events: seq<Event>, k: nat, n: nat, id: Id)
    requires IsRun(states, events) && k < n < |states| && events[k].Close?
    requires forall i :: k < i < n ==> !events[i].Register?
    requires !states[n].closing
    ensures Count(Completed(states, events, n), id) == if id in Accepted(states, events, n) then 1 else 0
  {
    ClosedMeansClosed(states, events, k, n);
    Conserved(states, events, n, id);
    ExactlyOnePlace(states, events, n, id);
  }
}

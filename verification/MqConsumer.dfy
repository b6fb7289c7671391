/** How the RabbitMQ client keeps its consumer in step with Pause (src/MqClient.cpp): the flags of the IO thread, the
    requests on their way to the broker, the replies on their way back, and the consumers alive on the broker.

    Replies on a channel arrive in request order. A consumer belongs to its connection and ends with it. */
module MqConsumer {
  import opened Bytes

  type Tag = nat

  datatype Request = Consume | Cancel(tag: Tag)

  datatype Reply = ConsumeOk(tag: Tag) | ConsumeError | CancelOk

  datatype State = State(
    // the client
    prepared: bool, starting: bool, tag: Option<Tag>, consuming: bool, paused: bool, failed: bool,
    // the connection and the broker
    requests: seq<Request>, replies: seq<Reply>, live: set<Tag>, closed: bool, nextTag: Tag)

  datatype Event =
    | Pause(paused: bool)
    | OpenChannel
    | Pass(consume: bool, queueNamed: bool)   // step 3 of Service
    | Serve(ok: bool)                         // the broker takes the next request; `ok` is its answer to a consume
    | Receive                                 // the client's callback for the next reply
    | Fails(flagCleared: bool)                // Fail clears the consuming flag, onClosed does not
    | Teardown

  ghost predicate Init(s: State) {
    s.(paused := false, nextTag := 0) == State(false, false, None, false, false, false, [], [], {}, false, 0)
  }

  predicate Enabled(s: State, e: Event) {
    match e
    case Pause(_) => true
    case OpenChannel => !s.prepared && !s.failed
    case Pass(_, _) => s.prepared && !s.failed
    case Serve(_) => s.requests != []
    case Receive => s.replies != []     // also after a failure, for replies of the same read
    case Fails(_) => true
    case Teardown => true
  }

  function StopConsuming(s: State): State {
    if s.tag.None? then s else s.(requests := s.requests + [Cancel(s.tag.value)])
  }

  function StartConsuming(s: State, queueNamed: bool): State {
    if !queueNamed then s else s.(starting := true, requests := s.requests + [Consume])
  }

  function Reconcile(s: State, queueNamed: bool): State {
    if !s.paused && !s.consuming && !s.starting then StartConsuming(s, queueNamed)
    else if s.paused && s.consuming then StopConsuming(s)
    else s
  }

  function ServeOne(s: State, ok: bool): State
    requires s.requests != []
  {
    var rest := s.(requests := s.requests[1..]);
    if s.closed then rest
    else match s.requests[0]
      case Cancel(tag) => rest.(live := s.live - {tag}, replies := s.replies + [CancelOk])
      case Consume =>
        if ok then rest.(live := s.live + {s.nextTag}, nextTag := s.nextTag + 1, replies := s.replies + [ConsumeOk(s.nextTag)])
        else rest.(live := {}, closed := true, replies := s.replies + [ConsumeError])
  }

  function ReceiveOne(s: State): State
    requires s.replies != []
  {
    var rest := s.(replies := s.replies[1..]);
    match s.replies[0]
    case ConsumeOk(tag) =>
      var up := rest.(tag := Some(tag), starting := false, consuming := true);
      if s.paused then StopConsuming(up) else up
    case ConsumeError => rest.(starting := false, consuming := false, failed := true, prepared := false)
    case CancelOk => rest.(consuming := false, tag := None)
  }

  function Apply(s: State, e: Event): State
    requires Enabled(s, e)
  {
    match e
    case Pause(paused) => s.(paused := paused)
    case OpenChannel => s.(prepared := true)
    case Pass(consume, queueNamed) => if consume then Reconcile(s, queueNamed) else s
    case Serve(ok) => ServeOne(s, ok)
    case Receive => ReceiveOne(s)
    case Fails(flagCleared) => s.(failed := true, prepared := false, consuming := s.consuming && !flagCleared)
    case Teardown => State(false, false, None, false, s.paused, false, [], [], {}, false, s.nextTag)
  }

  ghost predicate StepAt(states: seq<State>, events: seq<Event>, i: int) {
    0 <= i < |events| && i + 1 < |states| ==>
      Enabled(states[i], events[i]) && states[i + 1] == Apply(states[i], events[i])
  }

  ghost predicate IsRun(states: seq<State>, events: seq<Event>) {
    && |states| == |events| + 1 && Init(states[0])
    && forall i :: StepAt(states, events, i)
  }

  // ----- Invariant -----

  predicate AllCancels(requests: seq<Request>) {
    forall i :: 0 <= i < |requests| ==> requests[i].Cancel?
  }

  predicate AllCancelOks(replies: seq<Reply>) {
    forall i :: 0 <= i < |replies| ==> replies[i] == CancelOk
  }

  /** No consumer, and none asked for: only leftovers of repeated cancels are under way. */
  predicate Resting(s: State) {
    && !s.starting && s.tag == None && !s.consuming && !s.closed
    && AllCancels(s.requests) && AllCancelOks(s.replies) && s.live == {}
  }

  /** A consume is under way, behind any leftover cancels: still a request, or already answered. */
  predicate Asking(s: State) {
    && s.starting && s.tag == None && !s.consuming
    && if s.requests != []
       then
         && !s.closed && s.live == {} && AllCancelOks(s.replies)
         && AllCancels(s.requests[..|s.requests| - 1]) && s.requests[|s.requests| - 1] == Consume
       else
         && s.replies != [] && AllCancelOks(s.replies[..|s.replies| - 1])
         && match s.replies[|s.replies| - 1]
            case ConsumeOk(tag) => !s.closed && s.live == {tag}
            case ConsumeError => s.closed && s.live == {}
            case CancelOk => false
  }

  /** The client knows its consumer; cancels for it may be under way, and it ends with the first one served. */
  predicate Running(s: State) {
    && !s.starting && s.tag.Some? && s.consuming && !s.closed
    && (forall i :: 0 <= i < |s.requests| ==> s.requests[i] == Cancel(s.tag.value))
    && AllCancelOks(s.replies)
    && s.live == if s.replies == [] then {s.tag.value} else {}
  }

  function Consumes(requests: seq<Request>): nat {
    if requests == [] then 0 else (if requests[0].Consume? then 1 else 0) + Consumes(requests[1..])
  }

  /** After a failure nothing new is asked for. */
  predicate Failing(s: State) {
    s.failed && !s.prepared && |s.live| + Consumes(s.requests) <= 1
  }

  predicate Inv(s: State) {
    Failing(s) || (!s.failed && (Resting(s) || Asking(s) || Running(s)))
  }

  lemma {:induction false} NoConsumes(requests: seq<Request>)
    requires AllCancels(requests)
    ensures Consumes(requests) == 0
  {
    if requests != [] {
      NoConsumes(requests[1..]);
    }
  }

  lemma {:induction false} ConsumesAppend(requests: seq<Request>, last: Request)
    ensures Consumes(requests + [last]) == Consumes(requests) + if last.Consume? then 1 else 0
  {
    if requests == [] {
      assert requests + [last] == [last];
    } else {
      assert (requests + [last])[1..] == requests[1..] + [last];
      ConsumesAppend(requests[1..], last);
    }
  }

  /** Whatever state a failure finds, at most one consumer is alive or still to be started. */
  lemma FailureKeepsOne(s: State)
    requires Inv(s)
    ensures |s.live| + Consumes(s.requests) <= 1
  {
    if !s.failed {
      if Asking(s) && s.requests != [] {
        var front := s.requests[..|s.requests| - 1];
        NoConsumes(front);
        ConsumesAppend(front, Consume);
        assert s.requests == front + [Consume];
      } else {
        NoConsumes(s.requests);
      }
    }
  }

  lemma ServeKeepsInv(s: State, ok: bool)
    requires Inv(s) && s.requests != []
    ensures Inv(ServeOne(s, ok))
  {
    if !s.failed && Asking(s) && |s.requests| > 1 {
      assert s.requests[..|s.requests| - 1][0].Cancel?;
      assert s.requests[1..][..|s.requests| - 2] == s.requests[..|s.requests| - 1][1..];
    }
  }

  lemma ReceiveFailing(s: State)
    requires Failing(s) && s.replies != []
    ensures Failing(ReceiveOne(s))
  {
    if s.replies[0].ConsumeOk? {
      ConsumesAppend(s.requests, Cancel(s.replies[0].tag));
    }
  }

  lemma ReceiveAsking(s: State)
    requires Asking(s) && !s.failed && s.replies != []
    ensures Inv(ReceiveOne(s))
    ensures s.requests == [] && |s.replies| == 1 && !s.closed ==> Running(ReceiveOne(s))
    ensures s.requests != [] || |s.replies| > 1 ==> Asking(ReceiveOne(s))
  {
    if s.requests == [] {
      if |s.replies| > 1 {
        assert s.replies[..|s.replies| - 1][0] == CancelOk;
        assert s.replies[1..][..|s.replies| - 2] == s.replies[..|s.replies| - 1][1..];
      } else if s.closed {
        assert s.live == {} && Consumes(s.requests) == 0;
      }
    }
  }

  lemma ReceiveKeepsInv(s: State)
    requires Inv(s) && s.replies != []
    ensures Inv(ReceiveOne(s))
  {
    if s.failed {
      ReceiveFailing(s);
    } else if Asking(s) {
      ReceiveAsking(s);
    }
  }

  lemma ReconcileKeepsInv(s: State, queueNamed: bool)
    requires Inv(s) && !s.failed
    ensures Inv(Reconcile(s, queueNamed))
  {
    if Resting(s) && !s.paused {
      assert (s.requests + [Consume])[..|s.requests|] == s.requests;
    }
  }

  lemma StepKeepsInv(s: State, e: Event)
    requires Inv(s) && Enabled(s, e)
    ensures Inv(Apply(s, e))
  {
    match e
    case Pass(_, queueNamed) => ReconcileKeepsInv(s, queueNamed);
    case Serve(ok) => ServeKeepsInv(s, ok);
    case Receive => ReceiveKeepsInv(s);
    case Fails(_) => FailureKeepsOne(s);
    case _ =>
  }

  lemma {:induction false} RunKeepsInv(states: seq<State>, events: seq<Event>, n: nat)
    requires IsRun(states, events) && n < |states|
    ensures Inv(states[n])
    decreases n
  {
    if n > 0 {
      RunKeepsInv(states, events, n - 1);
      assert StepAt(states, events, n - 1);
      StepKeepsInv(states[n - 1], events[n - 1]);
    }
  }

  // ----- What every run keeps -----

  /** However pauses, passes, broker work, replies, failures and teardowns interleave, a connection never has more than
      one consumer alive, and never one alive with another asked for. */
  lemma AtMostOneLive(states: seq<State>, events: seq<Event>, n: nat)
    requires IsRun(states, events) && n < |states|
    ensures |states[n].live| <= 1
    ensures |states[n].live| + Consumes(states[n].requests) <= 1
  {
    RunKeepsInv(states, events, n);
    FailureKeepsOne(states[n]);
  }

  /** With nothing under way on a healthy connection, the client's flags say exactly what the broker has. */
  lemma FlagsTellTheTruth(states: seq<State>, events: seq<Event>, n: nat)
    requires IsRun(states, events) && n < |states|
    requires var s := states[n]; !s.failed && s.requests == [] && s.replies == []
    ensures var s := states[n];
      && !s.starting
      && (s.consuming <==> s.tag.Some?)
      && s.live == (if s.consuming then {s.tag.value} else {})
  {
    RunKeepsInv(states, events, n);
  }

  // ----- Pause takes effect -----

  function Weight(requests: seq<Request>, replies: seq<Reply>): nat {
    if requests != [] then (if requests[0].Consume? then 4 else 2) + Weight(requests[1..], replies)
    else if replies != [] then (if replies[0].ConsumeOk? then 3 else 1) + Weight(requests, replies[1..])
    else 0
  }

  lemma {:induction false} WeightAppendReply(requests: seq<Request>, replies: seq<Reply>, reply: Reply)
    ensures Weight(requests, replies + [reply]) == Weight(requests, replies) + if reply.ConsumeOk? then 3 else 1
    decreases |requests| + |replies|
  {
    if requests != [] {
      WeightAppendReply(requests[1..], replies, reply);
    } else if replies != [] {
      assert (replies + [reply])[1..] == replies[1..] + [reply];
      WeightAppendReply(requests, replies[1..], reply);
    } else {
      assert replies + [reply] == [reply];
      assert (replies + [reply])[1..] == replies;
    }
  }

  lemma {:induction false} WeightAppendRequest(requests: seq<Request>, replies: seq<Reply>, tag: Tag)
    ensures Weight(requests + [Cancel(tag)], replies) == Weight(requests, replies) + 2
    decreases |requests|
  {
    if requests != [] {
      assert (requests + [Cancel(tag)])[1..] == requests[1..] + [Cancel(tag)];
      WeightAppendRequest(requests[1..], replies, tag);
    } else {
      assert (requests + [Cancel(tag)])[1..] == requests;
    }
  }

  lemma {:induction false} WeightFirstReply(requests: seq<Request>, replies: seq<Reply>)
    requires replies != []
    ensures Weight(requests, replies) == Weight(requests, replies[1..]) + if replies[0].ConsumeOk? then 3 else 1
    decreases |requests|
  {
    if requests != [] {
      WeightFirstReply(requests[1..], replies);
    }
  }

  /** Serving and receiving, in that order, until nothing is under way. */
  function Settle(s: State): State
    decreases Weight(s.requests, s.replies)
  {
    if s.requests != [] then
      ServeLighter(s);
      Settle(Apply(s, Serve(true)))
    else if s.replies != [] then
      ReceiveLighter(s);
      Settle(Apply(s, Receive))
    else s
  }

  lemma ServeLighter(s: State)
    requires s.requests != []
    ensures Weight(ServeOne(s, true).requests, ServeOne(s, true).replies) < Weight(s.requests, s.replies)
  {
    WeightAppendReply(s.requests[1..], s.replies, CancelOk);
    WeightAppendReply(s.requests[1..], s.replies, ConsumeOk(s.nextTag));
  }

  lemma ReceiveLighter(s: State)
    requires s.replies != []
    ensures Weight(ReceiveOne(s).requests, ReceiveOne(s).replies) < Weight(s.requests, s.replies)
  {
    WeightFirstReply(s.requests, s.replies);
    if s.replies[0].ConsumeOk? {
      WeightAppendRequest(s.requests, s.replies[1..], s.replies[0].tag);
    }
  }

  /** Nothing is left under way and the client's standing is as before. */
  predicate Quiet(s: State, q: State) {
    && q.requests == [] && q.replies == []
    && q.paused == s.paused && q.prepared == s.prepared && q.failed == s.failed
  }

  lemma {:induction false} SettleResting(s: State)
    requires Resting(s)
    ensures Quiet(s, Settle(s)) && Resting(Settle(s))
    decreases Weight(s.requests, s.replies)
  {
    if s.requests != [] {
      ServeLighter(s);
      SettleResting(Apply(s, Serve(true)));
    } else if s.replies != [] {
      ReceiveLighter(s);
      SettleResting(Apply(s, Receive));
    }
  }

  /** A running consumer with a cancel under way ends; one without goes on. */
  lemma {:induction false} SettleRunning(s: State)
    requires Running(s)
    ensures Quiet(s, Settle(s))
    ensures if s.requests == [] && s.replies == [] then Settle(s) == s else Resting(Settle(s))
    decreases Weight(s.requests, s.replies)
  {
    if s.requests != [] {
      ServeLighter(s);
      SettleRunning(Apply(s, Serve(true)));
    } else if s.replies != [] {
      ReceiveLighter(s);
      SettleResting(Apply(s, Receive));
    }
  }

  lemma {:induction false} SettleAsking(s: State)
    requires Asking(s) && !s.closed && !s.failed
    ensures Quiet(s, Settle(s))
    ensures if s.paused then Resting(Settle(s)) else Running(Settle(s))
    decreases Weight(s.requests, s.replies)
  {
    if s.requests != [] {
      ServeLighter(s);
      ServeKeepsInv(s, true);
      SettleAsking(Apply(s, Serve(true)));
    } else {
      ReceiveLighter(s);
      ReceiveAsking(s);
      if |s.replies| > 1 {
        SettleAsking(Apply(s, Receive));
      } else {
        SettleRunning(Apply(s, Receive));
      }
    }
  }

  lemma Settled(s: State)
    requires Inv(s) && !s.failed && !s.closed
    ensures var q := Settle(s); Inv(q) && Quiet(s, q)
    ensures Resting(s) || (s.paused && Asking(s)) || (s.paused && Running(s) && s.requests != []) ==> Resting(Settle(s))
    ensures !s.paused && Asking(s) ==> Running(Settle(s))
  {
    if Resting(s) {
      SettleResting(s);
    } else if Running(s) {
      SettleRunning(s);
    } else {
      SettleAsking(s);
    }
  }

  /** From every reachable healthy state, once what is under way has been answered, one pass over the reconciliation step
      and its answers bring the broker to what Pause asks for: a consumer if and only if not paused. */
  lemma PauseTakesEffect(states: seq<State>, events: seq<Event>, n: nat)
    requires IsRun(states, events) && n < |states|
    requires states[n].prepared && !states[n].failed && !states[n].closed
    ensures Enabled(Settle(states[n]), Pass(true, true))
    ensures var q := Settle(Apply(Settle(states[n]), Pass(true, true)));
      && q.requests == [] && q.replies == []
      && (states[n].paused ==> q.live == {} && !q.consuming)
      && (!states[n].paused ==> q.tag.Some? && q.live == {q.tag.value} && q.consuming)
  {
    RunKeepsInv(states, events, n);
    var s := Settle(states[n]);
    Settled(states[n]);
    ReconcileKeepsInv(s, true);
    Settled(Reconcile(s, true));
  }

  // ----- Repeated cancels do happen -----

  /** Two passes while a cancel is unanswered send it twice, and the second answer arrives when the client already
      counts no consumer. */
  lemma DuplicateCancels() returns (states: seq<State>, events: seq<Event>)
    ensures IsRun(states, events)
    ensures var s := states[|states| - 1];
      s.requests == [Cancel(0), Cancel(0)] && s.live == {0} && s.consuming
  {
    var start := State(false, false, None, false, false, false, [], [], {}, false, 0);
    var ready := start.(prepared := true);
    var asked := ready.(starting := true, requests := [Consume]);
    var served := ready.(starting := true, replies := [ConsumeOk(0)], live := {0}, nextTag := 1);
    var running := ready.(tag := Some(0), consuming := true, live := {0}, nextTag := 1);
    var paused := running.(paused := true);
    events := [OpenChannel, Pass(true, true), Serve(true), Receive, Pause(true), Pass(true, true), Pass(true, true)];
    states := [start, ready, asked, served, running, paused, paused.(requests := [Cancel(0)]),
               paused.(requests := [Cancel(0), Cancel(0)])];
    assert [Consume][1..] == [] && [ConsumeOk(0)][1..] == [];
    assert [] + [Consume] == [Consume] && [Cancel(0)] + [Cancel(0)] == [Cancel(0), Cancel(0)];
  }
}

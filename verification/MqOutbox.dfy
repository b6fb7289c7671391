/** The outbound queue of the RabbitMQ client (src/MqClient.cpp): any number of publishing threads, one IO thread that
    drains the queue in passes, publish failures and reconnects.

    The queue's lock is held for one append, one pop or one push to the front, so these are the atomic steps. */
module MqOutbox {
  datatype Message = Message(exchange: string, routingKey: string, body: string, contentType: string)

  /** The IO thread: outside DrainOutgoing, at the head of its loop, or between its pop and the end of the publish. */
  datatype Io = Outside | Head(i: nat) | Publishing(i: nat, item: Message)

  datatype State = State(outgoing: seq<Message>, io: Io, ready: bool, failed: bool, published: nat, dropped: nat)

  datatype Event =
    | Publish(item: Message, enabled: bool, configured: int)
    | BeginPass
    | Pop
    | HandOff(broken: bool)   // publish answered true; `broken` when the socket failed under it
    | PublishFails
    | Reconnect
    | Connected
    | Drop                    // the connection fails elsewhere

  const MAX_PER_PASS := 64

  /** A limit of zero or less in the configuration counts as one. */
  function Limit(configured: int): (limit: nat)
    ensures limit >= 1
  {
    if configured > 0 then configured else 1
  }

  ghost predicate Init(s: State) {
    s == State([], Outside, false, false, 0, 0)
  }

  predicate Enabled(s: State, e: Event) {
    match e
    case Publish(_, _, _) => true
    case BeginPass => s.io == Outside && s.ready && !s.failed
    case Pop => s.io.Head?
    case HandOff(_) => s.io.Publishing?
    case PublishFails => s.io.Publishing?
    case Reconnect => s.io == Outside
    case Connected => s.io == Outside && !s.failed
    case Drop => s.io == Outside
  }

  /** What Publish answers. */
  predicate Accepts(s: State, e: Event) {
    e.Publish? && e.enabled && |s.outgoing| < Limit(e.configured)
  }

  function Apply(s: State, e: Event): State
    requires Enabled(s, e)
  {
    match e
    case Publish(item, enabled, configured) =>
      if !enabled then s
      else if |s.outgoing| >= Limit(configured) then s.(dropped := s.dropped + 1)
      else s.(outgoing := s.outgoing + [item])
    case BeginPass => s.(io := Head(0))
    case Pop =>
      if s.io.i == MAX_PER_PASS || s.outgoing == [] then s.(io := Outside)
      else s.(io := Publishing(s.io.i, s.outgoing[0]), outgoing := s.outgoing[1..])
    case HandOff(broken) =>
      if broken then s.(published := s.published + 1, io := Outside, failed := true, ready := false)
      else s.(published := s.published + 1, io := Head(s.io.i + 1))
    case PublishFails =>
      s.(outgoing := [s.io.item] + s.outgoing, io := Outside, failed := true, ready := false)
    case Reconnect => s.(failed := false, ready := false)
    case Connected => s.(ready := true)
    case Drop => s.(failed := true, ready := false)
  }

  // ----- Runs and what can be seen of them from outside -----

  ghost predicate StepAt(states: seq<State>, events: seq<Event>, i: int) {
    0 <= i < |events| && i + 1 < |states| ==>
      Enabled(states[i], events[i]) && states[i + 1] == Apply(states[i], events[i])
  }

  ghost predicate IsRun(states: seq<State>, events: seq<Event>) {
    && |states| == |events| + 1 && Init(states[0])
    && forall i :: StepAt(states, events, i)
  }

  /** What one step accepts and what it hands over. */
  function Taken(s: State, e: Event): seq<Message> {
    if Accepts(s, e) then [e.item] else []
  }

  function Given(s: State, e: Event): seq<Message> {
    if e.HandOff? && s.io.Publishing? then [s.io.item] else []
  }

  /** The messages Publish has answered true for, in order. */
  function Accepted(states: seq<State>, events: seq<Event>, n: nat): seq<Message>
    requires n <= |events| && n < |states|
  {
    if n == 0 then [] else Accepted(states, events, n - 1) + Taken(states[n - 1], events[n - 1])
  }

  /** The messages the channel has taken, in order. */
  function Handed(states: seq<State>, events: seq<Event>, n: nat): seq<Message>
    requires n <= |events| && n < |states|
  {
    if n == 0 then [] else Handed(states, events, n - 1) + Given(states[n - 1], events[n - 1])
  }

  function InFlight(s: State): (flying: seq<Message>)
    ensures |flying| <= 1
  {
    if s.io.Publishing? then [s.io.item] else []
  }

  function Refused(states: seq<State>, events: seq<Event>, n: nat): nat
    requires n <= |events| && n < |states|
  {
    if n == 0 then 0 else
      Refused(states, events, n - 1) +
      if events[n - 1].Publish? && events[n - 1].enabled && !Accepts(states[n - 1], events[n - 1]) then 1 else 0
  }

  // ----- Conservation -----

  /** What is inside: in flight, then queued. */
  function Inside(s: State): seq<Message> {
    if s.io.Publishing? then [s.io.item] + s.outgoing else s.outgoing
  }

  lemma PublishConserves(s: State, e: Event)
    requires e.Publish?
    ensures Inside(s) + Taken(s, e) == Inside(Apply(s, e)) && Given(s, e) == []
  {
    if Accepts(s, e) && s.io.Publishing? {
      Regroup([s.io.item], s.outgoing, [e.item]);
    }
  }

  lemma PopConserves(s: State)
    requires Enabled(s, Pop)
    ensures Inside(s) == Inside(Apply(s, Pop)) && Taken(s, Pop) == [] && Given(s, Pop) == []
  {
    if s.outgoing != [] {
      assert s.outgoing == [s.outgoing[0]] + s.outgoing[1..];
    }
  }

  /** Every other step moves nothing in, and only a hand-over moves the first message out. */
  lemma StepConserves(s: State, e: Event)
    requires Enabled(s, e)
    ensures Inside(s) + Taken(s, e) == Given(s, e) + Inside(Apply(s, e))
  {
    if e.Publish? {
      PublishConserves(s, e);
    } else if e.Pop? {
      PopConserves(s);
    }
    NothingAdded(Inside(s), Inside(Apply(s, e)));
  }

  lemma NothingAdded<T>(a: seq<T>, b: seq<T>)
    ensures a + [] == a && [] + b == b
  {
  }

  lemma Regroup<T>(a: seq<T>, b: seq<T>, c: seq<T>)
    ensures (a + b) + c == a + (b + c)
  {
  }

  lemma Carry<T>(accepted: seq<T>, handed: seq<T>, before: seq<T>, taken: seq<T>, given: seq<T>, after: seq<T>)
    requires accepted == handed + before && before + taken == given + after
    ensures accepted + taken == (handed + given) + after
  {
    Regroup(handed, before, taken);
    Regroup(handed, given, after);
  }

  /** In every interleaving the accepted messages are those handed over, then what is inside: at most one in flight, then
      the queue. In order, none lost, none repeated. */
  lemma {:induction false} NothingLostOrRepeated(states: seq<State>, events: seq<Event>, n: nat)
    requires IsRun(states, events) && n < |states|
    ensures Accepted(states, events, n) == Handed(states, events, n) + Inside(states[n])
    ensures Inside(states[n]) == InFlight(states[n]) + states[n].outgoing
    decreases n
  {
    NothingAdded(states[n].outgoing, states[n].outgoing);
    if n > 0 {
      NothingLostOrRepeated(states, events, n - 1);
      ConservesAt(states, events, n - 1);
      Carry(Accepted(states, events, n - 1), Handed(states, events, n - 1), Inside(states[n - 1]),
            Taken(states[n - 1], events[n - 1]), Given(states[n - 1], events[n - 1]), Inside(states[n]));
    }
  }

  lemma ConservesAt(states: seq<State>, events: seq<Event>, i: nat)
    requires IsRun(states, events) && i < |events|
    ensures Inside(states[i]) + Taken(states[i], events[i]) == Given(states[i], events[i]) + Inside(states[i + 1])
  {
    assert StepAt(states, events, i);
    StepConserves(states[i], events[i]);
  }

  /** The two counters tell the truth. */
  lemma {:induction false} CountersAgree(states: seq<State>, events: seq<Event>, n: nat)
    requires IsRun(states, events) && n < |states|
    ensures states[n].published == |Handed(states, events, n)|
    ensures states[n].dropped == Refused(states, events, n)
    decreases n
  {
    if n > 0 {
      CountersAgree(states, events, n - 1);
      assert StepAt(states, events, n - 1);
    }
  }

  // ----- The bound -----

  ghost predicate LimitAt(events: seq<Event>, i: int, limit: nat) {
    0 <= i < |events| && events[i].Publish? ==> Limit(events[i].configured) <= limit
  }

  /** While no configured limit exceeds `limit`, queue and flight together hold at most one message more than that. */
  lemma {:induction false} Bounded(states: seq<State>, events: seq<Event>, limit: nat, n: nat)
    requires IsRun(states, events) && n < |states| && forall i :: LimitAt(events, i, limit)
    ensures |states[n].outgoing| + |InFlight(states[n])| <= limit + 1
    decreases n
  {
    if n > 0 {
      Bounded(states, events, limit, n - 1);
      assert StepAt(states, events, n - 1) && LimitAt(events, n - 1, limit);
    }
  }

  /** The queue grows past the limit only when a failed publish puts its message back: whenever it is over, the last step
      that changed it was such a failure, and the connection has been failed since. */
  lemma {:induction false} OverLimitOnlyByPushFront(states: seq<State>, events: seq<Event>, limit: nat, n: nat)
      returns (k: nat)
    requires IsRun(states, events) && n < |states| && forall i :: LimitAt(events, i, limit)
    requires |states[n].outgoing| > limit
    ensures k < n && events[k].PublishFails? && |states[k].outgoing| == limit
    ensures forall i :: k < i <= n ==> states[i].outgoing == states[n].outgoing
    decreases n
  {
    assert n > 0;
    k := n - 1;
    assert StepAt(states, events, k) && LimitAt(events, k, limit);
    Bounded(states, events, limit, k);
    Bounded(states, events, limit, n);
    if |states[k].outgoing| > limit {
      assert states[k].outgoing == states[n].outgoing by {
        if events[k].Pop? {
          Bounded(states, events, limit, k);
        }
      }
      k := OverLimitOnlyByPushFront(states, events, limit, n - 1);
    }
  }

  function Copies(item: Message, k: nat): (copies: seq<Message>)
    ensures |copies| == k
  {
    seq(k, _ => item)
  }

  function CrowdedState(item: Message, limit: nat, k: nat): State {
    if k == 0 then State([], Outside, false, false, 0, 0)
    else if k <= limit + 1 then State(Copies(item, k - 1), Outside, true, false, 0, 0)
    else if k == limit + 2 then State(Copies(item, limit), Head(0), true, false, 0, 0)
    else if k == limit + 3 && limit > 0 then State(Copies(item, limit - 1), Publishing(0, item), true, false, 0, 0)
    else if k == limit + 4 then State(Copies(item, limit), Publishing(0, item), true, false, 0, 0)
    else State(Copies(item, limit + 1), Outside, false, true, 0, 0)
  }

  function CrowdedEvent(item: Message, limit: nat, k: nat): Event {
    if k == 0 then Connected
    else if k <= limit || k == limit + 3 then Publish(item, true, limit)
    else if k == limit + 1 then BeginPass
    else if k == limit + 2 then Pop
    else PublishFails
  }

  lemma CrowdedStep(item: Message, limit: nat, k: nat)
    requires 1 <= limit && k < limit + 5
    ensures Enabled(CrowdedState(item, limit, k), CrowdedEvent(item, limit, k))
    ensures CrowdedState(item, limit, k + 1) == Apply(CrowdedState(item, limit, k), CrowdedEvent(item, limit, k))
  {
    if 1 <= k <= limit {
      assert Copies(item, k) == Copies(item, k - 1) + [item];
    } else if k == limit + 2 {
      assert Copies(item, limit)[1..] == Copies(item, limit - 1);
    } else if k == limit + 3 {
      assert Copies(item, limit) == Copies(item, limit - 1) + [item];
    } else if k == limit + 4 {
      assert Copies(item, limit + 1) == [item] + Copies(item, limit);
    }
  }

  /** For every limit some run with that limit throughout does put one message more in the queue. */
  lemma LimitPlusOneIsReached(item: Message, limit: nat) returns (states: seq<State>, events: seq<Event>)
    requires 1 <= limit
    ensures IsRun(states, events) && forall i :: LimitAt(events, i, limit)
    ensures |states[|states| - 1].outgoing| == limit + 1
  {
    states := seq(limit + 6, k requires 0 <= k => CrowdedState(item, limit, k));
    events := seq(limit + 5, k requires 0 <= k => CrowdedEvent(item, limit, k));
    forall k ensures StepAt(states, events, k) {
      if 0 <= k < |events| {
        CrowdedStep(item, limit, k);
      }
    }
    assert states[0] == CrowdedState(item, limit, 0);
  }

  // ----- Flush -----

  /** Flush answers true when it finds the queue empty. Then every accepted message has been handed over if and only if
      no publish is under way. */
  lemma FlushMeans(states: seq<State>, events: seq<Event>, n: nat)
    requires IsRun(states, events) && n < |states| && states[n].outgoing == []
    ensures Handed(states, events, n) == Accepted(states, events, n) <==> !states[n].io.Publishing?
  {
    NothingLostOrRepeated(states, events, n);
    var handed := Handed(states, events, n);
    if states[n].io.Publishing? {
      assert |Accepted(states, events, n)| == |handed| + 1;
    }
  }

  function FlushedState(item: Message, k: nat): State {
    match k
    case 0 => State([], Outside, false, false, 0, 0)
    case 1 => State([], Outside, true, false, 0, 0)
    case 2 => State([item], Outside, true, false, 0, 0)
    case 3 => State([item], Head(0), true, false, 0, 0)
    case 4 => State([], Publishing(0, item), true, false, 0, 0)
    case _ => State([item], Outside, false, true, 0, 0)
  }

  /** A Flush that answers true at state 4 although the one accepted message is back in the queue right after. */
  lemma FlushTooEarly(item: Message) returns (states: seq<State>, events: seq<Event>)
    ensures IsRun(states, events) && |states| == 6
    ensures states[4].outgoing == [] && Handed(states, events, 5) == [] && states[5].outgoing == [item]
  {
    events := [Connected, Publish(item, true, 1), BeginPass, Pop, PublishFails];
    states := seq(6, k requires 0 <= k => FlushedState(item, k));
    assert [item][1..] == [] && [] + [item] == [item];
    assert states[0] == FlushedState(item, 0) && states[1] == FlushedState(item, 1);
    assert states[2] == FlushedState(item, 2) && states[3] == FlushedState(item, 3);
    assert states[4] == FlushedState(item, 4) && states[5] == FlushedState(item, 5);
    CountersAgree(states, events, 5);
  }

  // ----- One pass -----

  /** One pass, from the step that begins it to the first time the IO thread is outside again, hands over at most 64
      messages. */
  lemma {:induction false} PassIsBounded(states: seq<State>, events: seq<Event>, k: nat, n: nat)
    requires IsRun(states, events) && k < n < |states| && events[k].BeginPass?
    requires forall i :: k < i < n ==> states[i].io != Outside
    ensures states[n].published <= states[k].published + 64
    ensures states[n].io != Outside ==>
      states[n].io.i <= MAX_PER_PASS && states[n].published == states[k].published + states[n].io.i
    ensures states[n].io.Publishing? ==> states[n].io.i < MAX_PER_PASS
    decreases n
  {
    assert StepAt(states, events, n - 1);
    if k < n - 1 {
      PassIsBounded(states, events, k, n - 1);
    }
  }

  /** And it stops short of 64 only when the queue is empty or a publish has failed or broken the connection. */
  lemma PassGoesOn(states: seq<State>, events: seq<Event>, k: nat, n: nat)
    requires IsRun(states, events) && k < n < |states| && events[k].BeginPass?
    requires forall i :: k < i < n ==> states[i].io != Outside
    requires states[n].io == Outside
    ensures states[n].published == states[k].published + 64 || states[n].failed || states[n - 1].outgoing == []
  {
    assert StepAt(states, events, n - 1);
    if k < n - 1 {
      PassIsBounded(states, events, k, n - 1);
    }
  }
}

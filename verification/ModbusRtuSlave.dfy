/** The serial slave's receive loop (ModbusRtuSlave in src/ModbusRtu.cpp): bytes arrive in arbitrary pieces, one frame at
    most is taken out per turn. */
module ModbusRtuSlave {
  import opened Bytes
  import opened ModbusRtuFrame
  import opened ModbusRegisterStore
  import opened ModbusProtocol

  predicate KnownFunction(f: byte) {
    1 <= f <= 6 || f == 15 || f == 16
  }

  /** ModbusRtuSlave::ExpectedFrameSize; 0 means not known yet, or never. */
  function RequestSize(bytes: seq<byte>): nat {
    if |bytes| < 2 then 0
    else if 1 <= bytes[1] <= 6 then 8
    else if (bytes[1] == 15 || bytes[1] == 16) && |bytes| >= 7 then 9 + bytes[6] as int
    else 0
  }

  /** A whole frame is at the front of the buffer. */
  predicate Complete(buffer: seq<byte>) {
    0 < RequestSize(buffer) <= |buffer|
  }

  /** What one turn leaves of a buffer that already holds the new bytes. */
  function Keep(buffer: seq<byte>): seq<byte> {
    if Complete(buffer) then buffer[RequestSize(buffer)..] else buffer
  }

  /** What one turn hands on: the request, if its frame is intact and addressed to this unit. */
  function Hand(buffer: seq<byte>, unitId: byte): (handed: seq<seq<byte>>)
    ensures |handed| <= 1
  {
    if !Complete(buffer) then []
    else
      match ParseFrame(buffer[..RequestSize(buffer)])
      case Parsed(unit, pdu) => if unit == unitId then [pdu] else []
      case _ => []
  }

  /** The buffer after any number of reads, one turn each. */
  function Left(buffer: seq<byte>, chunks: seq<seq<byte>>): seq<byte>
    decreases chunks
  {
    if chunks == [] then buffer else Left(Keep(buffer + chunks[0]), chunks[1..])
  }

  /** The requests handed on meanwhile, in order. */
  function Handed(buffer: seq<byte>, chunks: seq<seq<byte>>, unitId: byte): seq<seq<byte>>
    decreases chunks
  {
    if chunks == [] then []
    else Hand(buffer + chunks[0], unitId) + Handed(Keep(buffer + chunks[0]), chunks[1..], unitId)
  }

  class Slave {
    const protocol: ModbusProtocol
    const unitId: byte
    var buffer: seq<byte>

    constructor (protocol: ModbusProtocol, unitId: byte)
      ensures this.protocol == protocol && this.unitId == unitId && buffer == []
    {
      this.protocol := protocol;
      this.unitId := unitId;
      buffer := [];
    }

    /** One turn of Run: read, cut out a frame, check it, handle it, answer it. */
    method Turn(chunk: seq<byte>) returns (sent: Option<seq<byte>>)
      requires protocol.store.Valid()
      modifies this, protocol.store
      ensures protocol.store.Valid()
      ensures buffer == Keep(old(buffer) + chunk)
      ensures var handed := Hand(old(buffer) + chunk, unitId);
        if handed == [] then sent == None && protocol.store.View() == old(protocol.store.View())
        else
          var (after, reply) := Meaning(old(protocol.store.View()), handed[0]);
          && protocol.store.View() == after
          && sent == if reply.Response? then Some(BuildFrame(unitId, reply.pdu)) else None
    {
      buffer := buffer + chunk;
      var expected := RequestSize(buffer);
      if expected == 0 || |buffer| < expected {
        return None;
      }
      var frame := buffer[..expected];
      buffer := buffer[expected..];
      var parsed := ParseFrame(frame);
      if !parsed.Parsed? || parsed.unitId != unitId {
        return None;
      }
      var reply := protocol.Handle(parsed.pdu);
      sent := if reply.Response? then Some(BuildFrame(unitId, reply.pdu)) else None;
    }

    /** Run: a turn for every read. */
    method Run(chunks: seq<seq<byte>>)
      requires protocol.store.Valid()
      modifies this, protocol.store
      ensures protocol.store.Valid()
      ensures buffer == Left(old(buffer), chunks)
      ensures protocol.store.View() == AfterRun(old(protocol.store.View()), Handed(old(buffer), chunks, unitId))
    {
      ghost var start, points := buffer, protocol.store.View();
      var i := 0;
      while i < |chunks|
        invariant 0 <= i <= |chunks| && protocol.store.Valid()
        invariant buffer == Left(start, chunks[..i])
        invariant protocol.store.View() == AfterRun(points, Handed(start, chunks[..i], unitId))
      {
        TurnAppends(start, chunks, i, unitId, points);
        var sent := Turn(chunks[i]);
        i := i + 1;
      }
      assert chunks[..i] == chunks;
    }
  }

  // ----- Streams of well-formed requests -----

  datatype Addressed = Addressed(unitId: byte, pdu: seq<byte>)

  /** A request of functions 1-6, 15 or 16 whose length is the one its layout says. */
  predicate WellFormedRequest(r: Addressed) {
    var pdu := r.pdu;
    if |pdu| < 5 then false
    else if 1 <= pdu[0] <= 6 then |pdu| == 5
    else (pdu[0] == 15 || pdu[0] == 16) && |pdu| >= 6 && |pdu| == 6 + pdu[5] as int
  }

  function Stream(requests: seq<Addressed>): seq<byte> {
    if requests == [] then [] else BuildFrame(requests[0].unitId, requests[0].pdu) + Stream(requests[1..])
  }

  function Flat(chunks: seq<seq<byte>>): seq<byte> {
    if chunks == [] then [] else chunks[0] + Flat(chunks[1..])
  }

  /** The PDUs addressed to one unit, in order. */
  function MailFor(requests: seq<Addressed>, unitId: byte): seq<seq<byte>> {
    if requests == [] then []
    else (if requests[0].unitId == unitId then [requests[0].pdu] else []) + MailFor(requests[1..], unitId)
  }

  ghost predicate AllWellFormed(requests: seq<Addressed>) {
    forall i :: 0 <= i < |requests| ==> WellFormedRequest(requests[i])
  }

  /** The size is right as soon as it is known, and appending never changes it. */
  lemma {:induction false} SizeOfPrefix(buffer: seq<byte>, r: Addressed, rest: seq<byte>)
    requires WellFormedRequest(r) && buffer <= BuildFrame(r.unitId, r.pdu) + rest
    ensures RequestSize(buffer) == 0 || RequestSize(buffer) == |r.pdu| + 3
    ensures |buffer| >= |r.pdu| + 3 ==> RequestSize(buffer) == |r.pdu| + 3
  {
    var frame := BuildFrame(r.unitId, r.pdu);
    var pdu := r.pdu;
    assert frame[1] == pdu[0] by {
      assert frame[1..|pdu| + 1][0] == pdu[0];
    }
    if |pdu| >= 6 {
      assert frame[1..|pdu| + 1][5] == pdu[5];
    }
    assert forall i :: 0 <= i < |buffer| ==> buffer[i] == (frame + rest)[i];
  }

  lemma CutInFirst<T>(a: seq<T>, b: seq<T>, n: nat)
    requires n <= |a|
    ensures (a + b)[..n] == a[..n] && (a + b)[n..] == a[n..] + b
  {
  }

  /** A turn on a prefix of the stream either waits or takes out exactly the first frame. */
  lemma {:induction false} TakeFirst(buffer: seq<byte>, tail: seq<byte>, requests: seq<Addressed>, unitId: byte)
    requires AllWellFormed(requests) && buffer + tail == Stream(requests)
    ensures requests == [] || |buffer| < |requests[0].pdu| + 3 ==> Keep(buffer) == buffer && Hand(buffer, unitId) == []
    ensures requests != [] && |buffer| >= |requests[0].pdu| + 3 ==>
      Keep(buffer) + tail == Stream(requests[1..]) && Hand(buffer, unitId) == MailFor([requests[0]], unitId)
  {
    if requests != [] {
      var r := requests[0];
      var frame := BuildFrame(r.unitId, r.pdu);
      assert buffer <= frame + Stream(requests[1..]);
      SizeOfPrefix(buffer, r, Stream(requests[1..]));
      if |buffer| >= |frame| {
        CutInFirst(buffer, tail, |frame|);
        CutInFirst(frame, Stream(requests[1..]), |frame|);
        assert frame[..|frame|] == frame && frame[|frame|..] + Stream(requests[1..]) == Stream(requests[1..]);
        ParseInvertsBuild(frame, r.unitId, r.pdu);
        assert MailFor([r][1..], unitId) == [];
      }
    }
  }

  lemma {:induction false} MailForFirst(requests: seq<Addressed>, unitId: byte)
    requires requests != []
    ensures MailFor(requests, unitId) == MailFor([requests[0]], unitId) + MailFor(requests[1..], unitId)
  {
    assert MailFor([requests[0]][1..], unitId) == [];
  }

  lemma RegroupFour<T>(a: seq<T>, b: seq<T>, c: seq<T>, d: seq<T>)
    ensures a + ((b + c) + d) == (a + b) + (c + d)
  {
  }

  lemma PrefixSteps<T>(s: seq<T>, k: nat)
    requires k + 1 <= |s|
    ensures s[1..][k..] == s[k + 1..] && s[..k + 1][1..] == s[1..][..k] && s[..k + 1][0] == s[0]
  {
  }

  /** However the stream is split, after any reads the slave has handed on the mail of exactly the frames it has taken,
      and what it still buffers is the beginning of the frames to come. */
  lemma {:induction false} SplitInvariant(buffer: seq<byte>, chunks: seq<seq<byte>>, tail: seq<byte>,
                                          requests: seq<Addressed>, unitId: byte)
    returns (taken: nat)
    requires AllWellFormed(requests)
    requires buffer + (Flat(chunks) + tail) == Stream(requests)
    ensures taken <= |requests|
    ensures Handed(buffer, chunks, unitId) == MailFor(requests[..taken], unitId)
    ensures Left(buffer, chunks) + tail == Stream(requests[taken..])
    decreases chunks
  {
    if chunks == [] {
      taken := 0;
      assert Flat(chunks) + tail == tail;
    } else {
      var now, later := buffer + chunks[0], Flat(chunks[1..]) + tail;
      RegroupFour(buffer, chunks[0], Flat(chunks[1..]), tail);
      TakeFirst(now, later, requests, unitId);
      if requests == [] || |now| < |requests[0].pdu| + 3 {
        taken := SplitInvariant(now, chunks[1..], tail, requests, unitId);
      } else {
        WellFormedSuffix(requests, 1);
        var more := SplitInvariant(Keep(now), chunks[1..], tail, requests[1..], unitId);
        taken := more + 1;
        PrefixSteps(requests, more);
        MailForFirst(requests[..taken], unitId);
      }
    }
  }

  /** Reads that bring nothing. */
  predicate Quiet(chunks: seq<seq<byte>>) {
    forall i :: 0 <= i < |chunks| ==> chunks[i] == []
  }

  /** With everything read, each further turn takes one frame until none is left. */
  lemma {:induction false} QuietTurns(requests: seq<Addressed>, quiet: seq<seq<byte>>, unitId: byte)
    requires AllWellFormed(requests) && Quiet(quiet) && |quiet| >= |requests|
    ensures Left(Stream(requests), quiet) == []
    ensures Handed(Stream(requests), quiet, unitId) == MailFor(requests, unitId)
    decreases quiet
  {
    if quiet != [] {
      var stream := Stream(requests);
      assert stream + quiet[0] == stream;
      assert stream + [] == stream;
      TakeFirst(stream, [], requests, unitId);
      if requests == [] {
        QuietTurns(requests, quiet[1..], unitId);
      } else {
        assert Keep(stream) == Keep(stream) + [];
        QuietTurns(requests[1..], quiet[1..], unitId);
        MailForFirst(requests, unitId);
      }
    }
  }

  lemma {:induction false} TurnsAppend(buffer: seq<byte>, xs: seq<seq<byte>>, ys: seq<seq<byte>>, unitId: byte)
    ensures Left(buffer, xs + ys) == Left(Left(buffer, xs), ys)
    ensures Handed(buffer, xs + ys, unitId) == Handed(buffer, xs, unitId) + Handed(Left(buffer, xs), ys, unitId)
    decreases xs
  {
    if xs == [] {
      assert xs + ys == ys;
    } else {
      var kept := Keep(buffer + xs[0]);
      assert (xs + ys)[1..] == xs[1..] + ys && (xs + ys)[0] == xs[0];
      TurnsAppend(kept, xs[1..], ys, unitId);
      calc {
        Handed(buffer, xs + ys, unitId);
        Hand(buffer + xs[0], unitId) + Handed(kept, xs[1..] + ys, unitId);
        Hand(buffer + xs[0], unitId) + (Handed(kept, xs[1..], unitId) + Handed(Left(kept, xs[1..]), ys, unitId));
        Handed(buffer, xs, unitId) + Handed(Left(buffer, xs), ys, unitId);
      }
    }
  }

  lemma {:induction false} MailForAppend(a: seq<Addressed>, b: seq<Addressed>, unitId: byte)
    ensures MailFor(a + b, unitId) == MailFor(a, unitId) + MailFor(b, unitId)
  {
    if a == [] {
      assert a + b == b;
    } else {
      assert (a + b)[1..] == a[1..] + b;
      MailForAppend(a[1..], b, unitId);
    }
  }

  lemma EmptyEnds<T>(s: seq<T>, none: seq<T>)
    requires none == []
    ensures none + (s + none) == s && s + none == s
  {
  }

  lemma WellFormedSuffix(requests: seq<Addressed>, k: nat)
    requires AllWellFormed(requests) && k <= |requests|
    ensures AllWellFormed(requests[k..])
  {
  }

  /** When everything has been read, the buffer is exactly the frames not yet taken. */
  lemma {:induction false} AllRead(none: seq<byte>, requests: seq<Addressed>, chunks: seq<seq<byte>>, unitId: byte)
    returns (taken: nat)
    requires none == [] && AllWellFormed(requests) && Flat(chunks) == Stream(requests)
    ensures taken <= |requests|
    ensures Handed(none, chunks, unitId) == MailFor(requests[..taken], unitId)
    ensures Left(none, chunks) == Stream(requests[taken..])
  {
    EmptyEnds(Flat(chunks), none);
    taken := SplitInvariant(none, chunks, none, requests, unitId);
    EmptyEnds(Left(none, chunks), none);
  }

  /** Reassembly: any split of a stream of well-formed requests, followed by as many idle turns as there are requests,
      hands on exactly the requests addressed to this unit, in order, with no bytes left over. */
  lemma {:induction false} Reassembly(start: seq<byte>, requests: seq<Addressed>, chunks: seq<seq<byte>>,
                                      quiet: seq<seq<byte>>, unitId: byte)
    requires start == [] && AllWellFormed(requests) && Flat(chunks) == Stream(requests)
    requires Quiet(quiet) && |quiet| >= |requests|
    ensures Left(start, chunks + quiet) == []
    ensures Handed(start, chunks + quiet, unitId) == MailFor(requests, unitId)
  {
    var taken := AllRead(start, requests, chunks, unitId);
    TurnsAppend(start, chunks, quiet, unitId);
    WellFormedSuffix(requests, taken);
    QuietTurns(requests[taken..], quiet, unitId);
    MailForSplit(requests, taken, unitId);
  }

  lemma {:induction false} MailForSplit(requests: seq<Addressed>, k: nat, unitId: byte)
    requires k <= |requests|
    ensures MailFor(requests, unitId) == MailFor(requests[..k], unitId) + MailFor(requests[k..], unitId)
  {
    MailForAppend(requests[..k], requests[k..], unitId);
    assert requests[..k] + requests[k..] == requests;
  }

  /** One more turn, as a change of the buffer and of the store. */
  lemma TurnAppends(start: seq<byte>, chunks: seq<seq<byte>>, i: nat, unitId: byte, points: Points)
    requires i < |chunks|
    ensures var now, handed := Left(start, chunks[..i]) + chunks[i], Handed(start, chunks[..i], unitId);
      var before := AfterRun(points, handed);
      && Left(start, chunks[..i + 1]) == Keep(now)
      && AfterRun(points, Handed(start, chunks[..i + 1], unitId)) ==
         (if Hand(now, unitId) == [] then before else Meaning(before, Hand(now, unitId)[0]).0)
  {
    var left, handed := Left(start, chunks[..i]), Handed(start, chunks[..i], unitId);
    var hand := Hand(left + chunks[i], unitId);
    assert chunks[..i + 1] == chunks[..i] + [chunks[i]];
    TurnsAppend(start, chunks[..i], [chunks[i]], unitId);
    OneTurn(left, chunks[i], unitId);
    if hand == [] {
      assert handed + hand == handed;
    } else {
      AfterRunSnoc(points, handed, hand[0]);
      assert hand == [hand[0]];
    }
  }

  lemma OneTurn(buffer: seq<byte>, chunk: seq<byte>, unitId: byte)
    ensures Left(buffer, [chunk]) == Keep(buffer + chunk) && Handed(buffer, [chunk], unitId) == Hand(buffer + chunk, unitId)
  {
    var none: seq<seq<byte>> := [];
    assert [chunk][1..] == none;
    assert Left(Keep(buffer + chunk), none) == Keep(buffer + chunk) && Handed(Keep(buffer + chunk), none, unitId) == [];
  }

  /** What any split of a stream of well-formed requests does to the store is what handling this unit's requests one after
      the other does. */
  lemma StreamEffect(start: seq<byte>, requests: seq<Addressed>, chunks: seq<seq<byte>>, quiet: seq<seq<byte>>,
                     unitId: byte, points: Points)
    requires start == [] && AllWellFormed(requests) && Flat(chunks) == Stream(requests)
    requires Quiet(quiet) && |quiet| >= |requests|
    ensures AfterRun(points, Handed(start, chunks + quiet, unitId)) == AfterRun(points, MailFor(requests, unitId))
  {
    Reassembly(start, requests, chunks, quiet, unitId);
  }

  // ----- The stall -----

  predicate Stalled(buffer: seq<byte>) {
    |buffer| >= 2 && !KnownFunction(buffer[1])
  }

  lemma StalledTurn(buffer: seq<byte>, chunk: seq<byte>, unitId: byte)
    requires Stalled(buffer)
    ensures Stalled(buffer + chunk) && Keep(buffer + chunk) == buffer + chunk && Hand(buffer + chunk, unitId) == []
  {
    assert (buffer + chunk)[1] == buffer[1];
  }

  lemma Regroup<T>(a: seq<T>, b: seq<T>, c: seq<T>)
    ensures (a + b) + c == a + (b + c)
  {
  }

  /** Once the second byte is no known function code, no input ever gets the loop going again: the buffer only grows and
      nothing is handed on. */
  lemma {:induction false} StallIsForever(buffer: seq<byte>, chunks: seq<seq<byte>>, unitId: byte)
    requires Stalled(buffer)
    ensures Left(buffer, chunks) == buffer + Flat(chunks)
    ensures Handed(buffer, chunks, unitId) == []
    decreases chunks
  {
    if chunks == [] {
      assert buffer + Flat(chunks) == buffer;
    } else {
      StalledTurn(buffer, chunks[0], unitId);
      StallIsForever(buffer + chunks[0], chunks[1..], unitId);
      Regroup(buffer, chunks[0], Flat(chunks[1..]));
    }
  }

  /** Exactly the stalled buffers are stuck: any other buffer gives up bytes once enough more arrive. */
  lemma StuckIffStalled(buffer: seq<byte>)
    ensures Stalled(buffer) <==> forall chunk :: Keep(buffer + chunk) == buffer + chunk
  {
    if !Stalled(buffer) {
      var chunk: seq<byte> := seq(300, _ => 1);
      var all := buffer + chunk;
      assert all[1] == 1 || all[1] == buffer[1];
      assert Complete(all);
      assert |Keep(all)| < |all|;
    }
  }
}

/** The log viewer's stream (src/Logger.cpp and the poller in src/WebServer.cpp): one ring of recent entries per
    category, merged by sequence number.

    The simple picture is the history of all entries ever created, in order, and the length it had at the last Clear. */
module LogStream {

  const CATEGORIES := 8

  type Category = c: nat | c < CATEGORIES

  datatype Level = Debug | Info | Warning | Error

  datatype Entry = Entry(number: nat, timestamp: string, level: Level, category: Category, message: string)

  function Rank(level: Level): nat {
    match level
    case Debug => 0
    case Info => 1
    case Warning => 2
    case Error => 3
  }

  /** Debug below Info below Warning below Error. */
  predicate Below(level: Level, minimum: Level) {
    match minimum
    case Debug => false
    case Info => level == Debug
    case Warning => level == Debug || level == Info
    case Error => level != Error
  }

  // ----- The simple picture -----

  /** Entries are numbered from one in the order of creation. */
  predicate Numbered(history: seq<Entry>) {
    forall i :: 0 <= i < |history| ==> history[i].number == i + 1
  }

  function OfCategory(entries: seq<Entry>, c: Category): seq<Entry> {
    if entries == [] then [] else
      OfCategory(entries[..|entries| - 1], c) +
      if entries[|entries| - 1].category == c then [entries[|entries| - 1]] else []
  }

  /** The last `count` elements. */
  function Newest(entries: seq<Entry>, count: nat): (newest: seq<Entry>)
    ensures |newest| == if |entries| > count then count else |entries|
  {
    if |entries| > count then entries[|entries| - count..] else entries
  }

  /** The i-th entry is neither cleared nor pushed out of its ring by `capacity` later ones of its category. */
  predicate Retained(history: seq<Entry>, cleared: nat, capacity: nat, i: nat)
    requires i < |history|
  {
    cleared <= i && |OfCategory(history[i + 1..], history[i].category)| < capacity
  }

  /** The retained entries numbered above `after`, in order, among the first n. */
  function Visible(history: seq<Entry>, cleared: nat, capacity: nat, after: nat, n: nat): seq<Entry>
    requires n <= |history|
  {
    if n == 0 then [] else
      Visible(history, cleared, capacity, after, n - 1) +
      if history[n - 1].number > after && Retained(history, cleared, capacity, n - 1) then [history[n - 1]] else []
  }

  // ----- Sequences in order -----

  predicate Increasing(entries: seq<Entry>) {
    forall i, j :: 0 <= i < j < |entries| ==> entries[i].number < entries[j].number
  }

  predicate Distinct(entries: seq<Entry>) {
    forall i, j :: 0 <= i < j < |entries| ==> entries[i].number != entries[j].number
  }

  ghost predicate SameElements(a: seq<Entry>, b: seq<Entry>) {
    forall e :: e in a <==> e in b
  }

  /** There is one way to put a set of entries in order. */
  lemma {:induction false} OrderIsUnique(a: seq<Entry>, b: seq<Entry>)
    requires Increasing(a) && Increasing(b) && SameElements(a, b)
    ensures a == b
    decreases |a|
  {
    if b != [] {
      SameNonempty(a, b);
    }
    if a != [] {
      SameLast(a, b);
      var x, y := a[|a| - 1], b[|b| - 1];
      var front, front' := a[..|a| - 1], b[..|b| - 1];
      forall e ensures e in front <==> e in front' {
        FrontHas(a, e);
        FrontHas(b, e);
      }
      OrderIsUnique(front, front');
      assert a == front + [x] && b == front' + [y];
    }
  }

  lemma SameNonempty(a: seq<Entry>, b: seq<Entry>)
    requires SameElements(a, b) && b != []
    ensures a != []
  {
    assert b[0] in a;
  }

  lemma SameLast(a: seq<Entry>, b: seq<Entry>)
    requires Increasing(a) && Increasing(b) && SameElements(a, b) && a != []
    ensures b != [] && a[|a| - 1] == b[|b| - 1]
  {
    var x := a[|a| - 1];
    assert x in b;
    var y := b[|b| - 1];
    assert y in a;
    assert x.number <= y.number && y.number <= x.number;
    var i :| 0 <= i < |a| && a[i] == y;
  }

  lemma FrontHas(a: seq<Entry>, e: Entry)
    requires Increasing(a) && a != []
    ensures e in a[..|a| - 1] <==> e in a && e != a[|a| - 1]
  {
    if e in a && e != a[|a| - 1] {
      var i :| 0 <= i < |a| && a[i] == e;
      assert a[..|a| - 1][i] == e;
    }
  }

  function Inserted(entries: seq<Entry>, e: Entry): (r: seq<Entry>)
    ensures |r| == |entries| + 1
  {
    if entries == [] || entries[|entries| - 1].number < e.number then entries + [e]
    else Inserted(entries[..|entries| - 1], e) + [entries[|entries| - 1]]
  }

  /** std::sort by number. */
  function Sorted(entries: seq<Entry>): (r: seq<Entry>)
    ensures |r| == |entries|
  {
    if entries == [] then [] else Inserted(Sorted(entries[..|entries| - 1]), entries[|entries| - 1])
  }

  lemma {:induction false} InsertedHas(entries: seq<Entry>, e: Entry, x: Entry)
    ensures x in Inserted(entries, e) <==> x == e || x in entries
  {
    if !(entries == [] || entries[|entries| - 1].number < e.number) {
      InsertedHas(entries[..|entries| - 1], e, x);
      assert entries == entries[..|entries| - 1] + [entries[|entries| - 1]];
    }
  }

  predicate Lacks(entries: seq<Entry>, number: nat) {
    forall i :: 0 <= i < |entries| ==> entries[i].number != number
  }

  lemma {:induction false} InsertedInOrder(entries: seq<Entry>, e: Entry)
    requires Increasing(entries) && Lacks(entries, e.number)
    ensures Increasing(Inserted(entries, e))
  {
    if !(entries == [] || entries[|entries| - 1].number < e.number) {
      var front, last := entries[..|entries| - 1], entries[|entries| - 1];
      InsertedInOrder(front, e);
      var inner := Inserted(front, e);
      forall i | 0 <= i < |inner| ensures inner[i].number < last.number {
        assert inner[i] in inner;
        InsertedHas(front, e, inner[i]);
      }
    }
  }

  lemma {:induction false} SortedIsOrder(entries: seq<Entry>)
    requires Distinct(entries)
    ensures Increasing(Sorted(entries)) && SameElements(Sorted(entries), entries)
    decreases |entries|
  {
    if entries != [] {
      var front, last := entries[..|entries| - 1], entries[|entries| - 1];
      SortedIsOrder(front);
      var inner := Sorted(front);
      forall i | 0 <= i < |inner| ensures inner[i].number != last.number {
        assert inner[i] in front;
      }
      InsertedInOrder(inner, last);
      assert entries == front + [last];
      forall x ensures x in Sorted(entries) <==> x in entries {
        InsertedHas(inner, last, x);
      }
    }
  }

  // ----- Rings and history -----

  lemma {:induction false} OfCategoryConcat(a: seq<Entry>, b: seq<Entry>, c: Category)
    ensures OfCategory(a + b, c) == OfCategory(a, c) + OfCategory(b, c)
    decreases |b|
  {
    if b == [] {
      assert a + b == a;
    } else {
      OfCategoryConcat(a, b[..|b| - 1], c);
      assert (a + b)[..|a + b| - 1] == a + b[..|b| - 1];
    }
  }

  lemma {:induction false} OfCategoryHas(entries: seq<Entry>, c: Category, e: Entry)
    ensures e in OfCategory(entries, c) <==> e in entries && e.category == c
  {
    if entries != [] {
      OfCategoryHas(entries[..|entries| - 1], c, e);
      assert entries == entries[..|entries| - 1] + [entries[|entries| - 1]];
    }
  }

  lemma {:induction false} OfCategoryInOrder(entries: seq<Entry>, c: Category)
    requires Increasing(entries)
    ensures Increasing(OfCategory(entries, c))
  {
    if entries != [] {
      var front, last := entries[..|entries| - 1], entries[|entries| - 1];
      OfCategoryInOrder(front, c);
      var inner := OfCategory(front, c);
      forall i | 0 <= i < |inner| ensures inner[i].number < last.number {
        OfCategoryHas(front, c, inner[i]);
      }
    }
  }

  /** What a ring holds: the newest `capacity` entries of its category since the last Clear. */
  function Ring(history: seq<Entry>, cleared: nat, capacity: nat, c: Category): seq<Entry>
    requires cleared <= |history|
  {
    Newest(OfCategory(history[cleared..], c), capacity)
  }

  lemma NewestHas(entries: seq<Entry>, p: nat, count: nat)
    requires Increasing(entries) && p < |entries|
    ensures entries[p] in Newest(entries, count) <==> |entries| - p <= count
  {
    var newest := Newest(entries, count);
    if |entries| > count {
      if |entries| - p <= count {
        assert newest[p - (|entries| - count)] == entries[p];
      }
      if entries[p] in newest {
        var q :| 0 <= q < |newest| && newest[q] == entries[p];
        assert entries[|entries| - count + q] == entries[p];
      }
    }
  }

  /** Where an entry stands among those of its category. */
  lemma PlaceInCategory(history: seq<Entry>, cleared: nat, c: Category, i: nat)
    requires cleared <= i < |history| && history[i].category == c
    ensures var all := OfCategory(history[cleared..], c); var later := |OfCategory(history[i + 1..], c)|;
      later < |all| && all[|all| - 1 - later] == history[i]
  {
    var before, one, later := history[cleared..i], [history[i]], history[i + 1..];
    assert history[cleared..] == (before + one) + later;
    OfCategoryConcat(before + one, later, c);
    OfCategoryConcat(before, one, c);
    assert one[..0] == [] && OfCategory(one, c) == one;
  }

  lemma RingFromHistory(history: seq<Entry>, cleared: nat, capacity: nat, c: Category, e: Entry)
    requires cleared <= |history| && e in Ring(history, cleared, capacity, c)
    ensures e.category == c && e in history[cleared..]
  {
    OfCategoryHas(history[cleared..], c, e);
  }

  lemma FromHistory(history: seq<Entry>, cleared: nat, e: Entry)
    requires Numbered(history) && cleared <= |history| && e in history[cleared..]
    ensures cleared < e.number <= |history| && history[e.number - 1] == e
  {
    var i :| 0 <= i < |history| - cleared && history[cleared..][i] == e;
    assert history[cleared + i] == e;
  }

  /** The entries of a ring are the retained ones of its category. */
  lemma RingHasRetained(history: seq<Entry>, cleared: nat, capacity: nat, c: Category, i: nat)
    requires Numbered(history) && cleared <= |history| && i < |history|
    ensures history[i] in Ring(history, cleared, capacity, c) <==>
            history[i].category == c && Retained(history, cleared, capacity, i)
  {
    var all := OfCategory(history[cleared..], c);
    if history[i] in Ring(history, cleared, capacity, c) {
      RingFromHistory(history, cleared, capacity, c, history[i]);
      FromHistory(history, cleared, history[i]);
    }
    if cleared <= i && history[i].category == c {
      PlaceInCategory(history, cleared, c, i);
      OfCategoryInOrder(history[cleared..], c);
      NewestHas(all, |all| - 1 - |OfCategory(history[i + 1..], c)|, capacity);
    }
  }

  /** Appending to a history and trimming from the front is what Log does to the entry's ring. */
  lemma RingAfterLog(history: seq<Entry>, cleared: nat, capacity: nat, e: Entry, c: Category)
    requires cleared <= |history|
    ensures Ring(history + [e], cleared, capacity, c) ==
            if e.category == c then Newest(Ring(history, cleared, capacity, c) + [e], capacity)
            else Ring(history, cleared, capacity, c)
  {
    var since := history[cleared..];
    assert (history + [e])[cleared..] == since + [e];
    assert (since + [e])[..|since|] == since;
  }

  lemma MirrorsAfterLog(rings: seq<seq<Entry>>, history: seq<Entry>, cleared: nat, capacity: nat, e: Entry)
    requires Mirrors(rings, history, cleared, capacity) && e.number == |history| + 1
    ensures Mirrors(rings[e.category := Newest(rings[e.category] + [e], capacity)], history + [e], cleared, capacity)
  {
    var rings' := rings[e.category := Newest(rings[e.category] + [e], capacity)];
    forall c: Category ensures rings'[c] == Ring(history + [e], cleared, capacity, c) {
      RingAfterLog(history, cleared, capacity, e, c);
    }
  }

  // ----- Collecting -----

  function NewerThan(ring: seq<Entry>, after: nat): seq<Entry> {
    if ring == [] then [] else
      NewerThan(ring[..|ring| - 1], after) + if ring[|ring| - 1].number > after then [ring[|ring| - 1]] else []
  }

  function Collected(rings: seq<seq<Entry>>, after: nat): seq<Entry> {
    if rings == [] then [] else Collected(rings[..|rings| - 1], after) + NewerThan(rings[|rings| - 1], after)
  }

  lemma {:induction false} NewerHas(ring: seq<Entry>, after: nat, e: Entry)
    ensures e in NewerThan(ring, after) <==> e in ring && e.number > after
  {
    if ring != [] {
      NewerHas(ring[..|ring| - 1], after, e);
      assert ring == ring[..|ring| - 1] + [ring[|ring| - 1]];
    }
  }

  lemma {:induction false} NewerInOrder(ring: seq<Entry>, after: nat)
    requires Increasing(ring)
    ensures Increasing(NewerThan(ring, after))
  {
    if ring != [] {
      var front, last := ring[..|ring| - 1], ring[|ring| - 1];
      NewerInOrder(front, after);
      var inner := NewerThan(front, after);
      forall i | 0 <= i < |inner| ensures inner[i].number < last.number {
        NewerHas(front, after, inner[i]);
      }
    }
  }

  /** Each ring holds entries of its own category, in order, all out of one history. */
  ghost predicate RingsOk(rings: seq<seq<Entry>>, history: seq<Entry>) {
    && |rings| <= CATEGORIES && Numbered(history)
    && forall c :: 0 <= c < |rings| ==> RingOk(rings[c], c, history)
  }

  ghost predicate RingOk(ring: seq<Entry>, c: int, history: seq<Entry>) {
    Increasing(ring) && forall i :: 0 <= i < |ring| ==> ring[i] in history && ring[i].category == c
  }

  lemma {:induction false} CollectedHas(rings: seq<seq<Entry>>, history: seq<Entry>, after: nat, e: Entry)
    requires RingsOk(rings, history)
    ensures e in Collected(rings, after) <==> e.category < |rings| && e in rings[e.category] && e.number > after
    decreases |rings|
  {
    if rings != [] {
      var front, last := rings[..|rings| - 1], rings[|rings| - 1];
      CollectedHas(front, history, after, e);
      NewerHas(last, after, e);
      assert RingOk(last, |rings| - 1, history);
    }
  }

  lemma SameNumberSameEntry(history: seq<Entry>, a: Entry, b: Entry)
    requires Numbered(history) && a in history && b in history && a.number == b.number
    ensures a == b
  {
  }

  lemma {:induction false} CollectedDistinct(rings: seq<seq<Entry>>, history: seq<Entry>, after: nat)
    requires RingsOk(rings, history)
    ensures Distinct(Collected(rings, after))
    decreases |rings|
  {
    if rings != [] {
      var front, last := rings[..|rings| - 1], rings[|rings| - 1];
      CollectedDistinct(front, history, after);
      assert RingOk(last, |rings| - 1, history);
      NewerInOrder(last, after);
      var a, b := Collected(front, after), NewerThan(last, after);
      forall i, j | 0 <= i < |a| && 0 <= j < |b| ensures a[i].number != b[j].number {
        CollectedHas(front, history, after, a[i]);
        NewerHas(last, after, b[j]);
        assert RingOk(front[a[i].category], a[i].category, history);
        if a[i].number == b[j].number {
          SameNumberSameEntry(history, a[i], b[j]);
        }
      }
    }
  }

  lemma {:induction false} VisibleHas(history: seq<Entry>, cleared: nat, capacity: nat, after: nat, n: nat, e: Entry)
    requires Numbered(history) && n <= |history|
    ensures e in Visible(history, cleared, capacity, after, n) <==>
            e.number <= n && e.number > after && StillThere(history, cleared, capacity, e)
  {
    if n > 0 {
      VisibleHas(history, cleared, capacity, after, n - 1, e);
      var last := history[n - 1];
      assert StillThere(history, cleared, capacity, last) <==> Retained(history, cleared, capacity, n - 1);
      if e.number == n && StillThere(history, cleared, capacity, e) {
        assert e == last;
      }
    }
  }

  /** The entry is one of the history's and retained. */
  predicate StillThere(history: seq<Entry>, cleared: nat, capacity: nat, e: Entry) {
    1 <= e.number <= |history| && history[e.number - 1] == e && Retained(history, cleared, capacity, e.number - 1)
  }

  lemma RingHasStillThere(history: seq<Entry>, cleared: nat, capacity: nat, e: Entry)
    requires Numbered(history) && cleared <= |history|
    ensures e in Ring(history, cleared, capacity, e.category) <==> StillThere(history, cleared, capacity, e)
  {
    if e in Ring(history, cleared, capacity, e.category) {
      RingFromHistory(history, cleared, capacity, e.category, e);
      FromHistory(history, cleared, e);
    }
    if 1 <= e.number <= |history| && history[e.number - 1] == e {
      RingHasRetained(history, cleared, capacity, e.category, e.number - 1);
    }
  }

  lemma {:induction false} VisibleInOrder(history: seq<Entry>, cleared: nat, capacity: nat, after: nat, n: nat)
    requires Numbered(history) && n <= |history|
    ensures Increasing(Visible(history, cleared, capacity, after, n))
  {
    if n > 0 {
      VisibleInOrder(history, cleared, capacity, after, n - 1);
      var inner := Visible(history, cleared, capacity, after, n - 1);
      forall i | 0 <= i < |inner| ensures inner[i].number < n {
        VisibleHas(history, cleared, capacity, after, n - 1, inner[i]);
      }
    }
  }

  ghost predicate Mirrors(rings: seq<seq<Entry>>, history: seq<Entry>, cleared: nat, capacity: nat) {
    && |rings| == CATEGORIES && Numbered(history) && cleared <= |history|
    && forall c: Category :: rings[c] == Ring(history, cleared, capacity, c)
  }

  lemma MirrorsOk(rings: seq<seq<Entry>>, history: seq<Entry>, cleared: nat, capacity: nat)
    requires Mirrors(rings, history, cleared, capacity)
    ensures RingsOk(rings, history)
  {
    forall c: Category ensures RingOk(rings[c], c, history) {
      var since := history[cleared..];
      var all := OfCategory(since, c);
      OfCategoryInOrder(since, c);
      forall i | 0 <= i < |rings[c]| ensures rings[c][i] in history && rings[c][i].category == c {
        assert rings[c][i] in all;
        OfCategoryHas(since, c, rings[c][i]);
      }
    }
  }

  lemma CollectedFromRing(
      rings: seq<seq<Entry>>, history: seq<Entry>, cleared: nat, capacity: nat, after: nat, e: Entry)
    requires Mirrors(rings, history, cleared, capacity)
    ensures e in Collected(rings, after) <==> e in Ring(history, cleared, capacity, e.category) && e.number > after
  {
    MirrorsOk(rings, history, cleared, capacity);
    CollectedHas(rings, history, after, e);
  }

  lemma CollectedIsVisible(
      rings: seq<seq<Entry>>, history: seq<Entry>, cleared: nat, capacity: nat, after: nat, e: Entry)
    requires Mirrors(rings, history, cleared, capacity)
    ensures e in Collected(rings, after) <==> e in Visible(history, cleared, capacity, after, |history|)
  {
    CollectedFromRing(rings, history, cleared, capacity, after, e);
    VisibleHas(history, cleared, capacity, after, |history|, e);
    RingHasStillThere(history, cleared, capacity, e);
  }

  /** Collecting from the rings and sorting by number gives the retained entries above `after`, straight from history. */
  lemma SortedIsVisible(rings: seq<seq<Entry>>, history: seq<Entry>, cleared: nat, capacity: nat, after: nat)
    requires Mirrors(rings, history, cleared, capacity)
    ensures Sorted(Collected(rings, after)) == Visible(history, cleared, capacity, after, |history|)
  {
    var collected := Collected(rings, after);
    var visible := Visible(history, cleared, capacity, after, |history|);
    MirrorsOk(rings, history, cleared, capacity);
    CollectedDistinct(rings, history, after);
    VisibleInOrder(history, cleared, capacity, after, |history|);
    forall e ensures e in collected <==> e in visible {
      CollectedIsVisible(rings, history, cleared, capacity, after, e);
    }
    SortIsUnique(collected, visible);
  }

  lemma SortIsUnique(entries: seq<Entry>, ordered: seq<Entry>)
    requires Distinct(entries) && Increasing(ordered) && SameElements(entries, ordered)
    ensures Sorted(entries) == ordered
  {
    SortedIsOrder(entries);
    OrderIsUnique(Sorted(entries), ordered);
  }

  /** The collecting loops of Since. */
  method Collect(rings: seq<seq<Entry>>, after: nat) returns (result: seq<Entry>)
    ensures result == Collected(rings, after)
  {
    result := [];
    var c := 0;
    while c < |rings|
      invariant 0 <= c <= |rings| && result == Collected(rings[..c], after)
    {
      var ring := rings[c];
      ghost var before := result;
      var i := 0;
      while i < |ring|
        invariant 0 <= i <= |ring| && result == before + NewerThan(ring[..i], after)
      {
        assert ring[..i + 1][..i] == ring[..i];
        if ring[i].number > after {
          result := result + [ring[i]];
        }
        i := i + 1;
      }
      assert ring[..i] == ring && rings[..c + 1][..c] == rings[..c];
      c := c + 1;
    }
    assert rings[..c] == rings;
  }

  // ----- The logger -----

  class Logger {
    var rings: seq<seq<Entry>>
    const capacity: nat
    var nextNumber: nat
    var minLevel: Level
    ghost var history: seq<Entry>
    ghost var cleared: nat

    ghost predicate Valid()
      reads this
    {
      Mirrors(rings, history, cleared, capacity) && nextNumber == |history| + 1
    }

    constructor (capacity: nat)
      ensures Valid() && history == [] && cleared == 0 && minLevel == Info && this.capacity == capacity
    {
      rings := seq(CATEGORIES, _ => []);
      this.capacity := capacity;
      nextNumber := 1;
      minLevel := Info;
      history := [];
      cleared := 0;
    }

    /** Log: an entry below the minimum level leaves no trace, any other gets the next number. */
    method Log(category: Category, level: Level, message: string, timestamp: string)
      requires Valid()
      modifies this
      ensures Valid() && cleared == old(cleared) && minLevel == old(minLevel)
      ensures history == if Below(level, old(minLevel)) then old(history)
                         else old(history) + [Entry(|old(history)| + 1, timestamp, level, category, message)]
    {
      if Rank(level) < Rank(minLevel) {
        return;
      }
      var entry := Entry(nextNumber, timestamp, level, category, message);
      nextNumber := nextNumber + 1;
      var ring := rings[category] + [entry];
      ghost var full := ring;
      ghost var popped := 0;
      while |ring| > capacity
        invariant popped <= |full| && ring == full[popped..]
        invariant |full| <= capacity ==> popped == 0
        invariant |full| > capacity ==> |ring| >= capacity
      {
        ring := ring[1..];
        popped := popped + 1;
      }
      assert ring == Newest(full, capacity);
      MirrorsAfterLog(rings, history, cleared, capacity, entry);
      rings := rings[category := ring];
      history := history + [entry];
    }

    /** Since: collect from every ring, sort by number, keep the newest. */
    method Since(after: nat, maxCount: nat) returns (result: seq<Entry>)
      requires Valid()
      ensures result == Newest(Visible(history, cleared, capacity, after, |history|), maxCount)
    {
      result := Collect(rings, after);
      SortedIsVisible(rings, history, cleared, capacity, after);
      result := Sorted(result);
      if |result| > maxCount {
        result := result[|result| - maxCount..];
      }
    }

    method LatestSeq() returns (latest: nat)
      requires Valid()
      ensures latest == |history|
    {
      latest := nextNumber - 1;
    }

    /** Clear empties the rings; numbering goes on. */
    method Clear()
      requires Valid()
      modifies this
      ensures Valid() && history == old(history) && cleared == |history| && minLevel == old(minLevel)
    {
      rings := seq(CATEGORIES, _ => []);
      cleared := |history|;
      assert history[cleared..] == [];
    }
  }

  // ----- Following the stream -----

  /** The poller and what it polls: `last` is the last number seen, `sent` everything pushed so far. */
  datatype Stream = Stream(history: seq<Entry>, cleared: nat, last: nat, sent: seq<Entry>)

  datatype Event = Logged(entry: Entry) | Cleared | Polled

  function Fetched(s: Stream, capacity: nat, maxCount: nat): seq<Entry> {
    Newest(Visible(s.history, s.cleared, capacity, s.last, |s.history|), maxCount)
  }

  function Seen(last: nat, fetched: seq<Entry>): nat {
    if fetched == [] then last
    else var before := Seen(last, fetched[..|fetched| - 1]);
      if fetched[|fetched| - 1].number > before then fetched[|fetched| - 1].number else before
  }

  function Apply(s: Stream, e: Event, capacity: nat, maxCount: nat): Stream {
    match e
    case Logged(entry) => s.(history := s.history + [entry.(number := |s.history| + 1)])
    case Cleared => s.(cleared := |s.history|)
    case Polled =>
      var fetched := Fetched(s, capacity, maxCount);
      s.(last := Seen(s.last, fetched), sent := s.sent + fetched)
  }

  ghost predicate StepAt(states: seq<Stream>, events: seq<Event>, capacity: nat, maxCount: nat, i: int) {
    0 <= i < |events| && i + 1 < |states| ==> states[i + 1] == Apply(states[i], events[i], capacity, maxCount)
  }

  /** A run of the poller: it starts from the latest number at that moment, with nothing sent. */
  ghost predicate IsRun(states: seq<Stream>, events: seq<Event>, capacity: nat, maxCount: nat) {
    && |states| == |events| + 1
    && Numbered(states[0].history) && states[0].last == |states[0].history| && states[0].sent == []
    && states[0].cleared <= |states[0].history|
    && forall i :: StepAt(states, events, capacity, maxCount, i)
  }

  /** What has been sent is in order, is what was logged, and ends no later than `last`. */
  ghost predicate StreamOk(s: Stream, start: nat) {
    && Numbered(s.history) && s.cleared <= |s.history| && start <= s.last <= |s.history|
    && Increasing(s.sent)
    && forall i :: 0 <= i < |s.sent| ==> SentOk(s, s.sent[i], start)
  }

  predicate SentOk(s: Stream, e: Entry, start: nat) {
    start < e.number <= s.last && e.number <= |s.history| && s.history[e.number - 1] == e
  }

  lemma NewestInOrder(entries: seq<Entry>, count: nat)
    requires Increasing(entries)
    ensures Increasing(Newest(entries, count))
    ensures forall i :: 0 <= i < |Newest(entries, count)| ==> Newest(entries, count)[i] in entries
  {
  }

  lemma {:induction false} SeenIsLast(last: nat, fetched: seq<Entry>)
    requires Increasing(fetched) && forall i :: 0 <= i < |fetched| ==> fetched[i].number > last
    ensures Seen(last, fetched) == if fetched == [] then last else fetched[|fetched| - 1].number
  {
    if fetched != [] {
      SeenIsLast(last, fetched[..|fetched| - 1]);
    }
  }

  lemma FetchedInOrder(s: Stream, capacity: nat, maxCount: nat)
    requires Numbered(s.history)
    ensures Increasing(Fetched(s, capacity, maxCount))
  {
    VisibleInOrder(s.history, s.cleared, capacity, s.last, |s.history|);
    NewestInOrder(Visible(s.history, s.cleared, capacity, s.last, |s.history|), maxCount);
  }

  lemma FetchedAt(s: Stream, capacity: nat, maxCount: nat, i: nat)
    requires Numbered(s.history) && i < |Fetched(s, capacity, maxCount)|
    ensures FromStream(s, Fetched(s, capacity, maxCount)[i])
  {
    var visible := Visible(s.history, s.cleared, capacity, s.last, |s.history|);
    var e := Newest(visible, maxCount)[i];
    assert e in visible;
    VisibleHas(s.history, s.cleared, capacity, s.last, |s.history|, e);
  }

  /** An entry of the history above the last one seen. */
  predicate FromStream(s: Stream, e: Entry) {
    s.last < e.number <= |s.history| && s.history[e.number - 1] == e
  }

  /** What a poll fetches: in order, above `last`, out of the history, and `last` moves to its end. */
  lemma FetchedOk(s: Stream, capacity: nat, maxCount: nat)
    requires Numbered(s.history)
    ensures var fetched := Fetched(s, capacity, maxCount);
      && Increasing(fetched)
      && (forall i :: 0 <= i < |fetched| ==> FromStream(s, fetched[i]))
      && Seen(s.last, fetched) == if fetched == [] then s.last else fetched[|fetched| - 1].number
  {
    var fetched := Fetched(s, capacity, maxCount);
    FetchedInOrder(s, capacity, maxCount);
    forall i | 0 <= i < |fetched| ensures FromStream(s, fetched[i]) {
      FetchedAt(s, capacity, maxCount, i);
    }
    SeenIsLast(s.last, fetched);
  }

  lemma StreamStep(s: Stream, e: Event, capacity: nat, maxCount: nat, start: nat)
    requires StreamOk(s, start)
    ensures StreamOk(Apply(s, e, capacity, maxCount), start)
  {
    var s' := Apply(s, e, capacity, maxCount);
    if e.Polled? {
      FetchedOk(s, capacity, maxCount);
    }
    forall i | 0 <= i < |s'.sent| ensures SentOk(s', s'.sent[i], start) {
      if i < |s.sent| {
        assert SentOk(s, s.sent[i], start);
      }
    }
  }

  /** In every run of logging, clearing and polling, the numbers sent are strictly increasing, so nothing is sent twice,
      and every line sent is one that was logged after the poller started. */
  lemma {:induction false} SentInOrder(states: seq<Stream>, events: seq<Event>, capacity: nat, maxCount: nat, n: nat)
    requires IsRun(states, events, capacity, maxCount) && n < |states|
    ensures StreamOk(states[n], |states[0].history|)
    decreases n
  {
    if n > 0 {
      SentInOrder(states, events, capacity, maxCount, n - 1);
      assert StepAt(states, events, capacity, maxCount, n - 1);
      StreamStep(states[n - 1], events[n - 1], capacity, maxCount, |states[0].history|);
    }
  }

  // ----- What a poll misses -----

  lemma {:induction false} VisibleNone(history: seq<Entry>, cleared: nat, capacity: nat, after: nat, n: nat)
    requires Numbered(history) && n <= |history| && n <= after
    ensures Visible(history, cleared, capacity, after, n) == []
  {
    if n > 0 {
      VisibleNone(history, cleared, capacity, after, n - 1);
    }
  }

  lemma {:induction false} VisibleSplit(
      history: seq<Entry>, cleared: nat, capacity: nat, after: nat, m: nat, n: nat)
    requires Numbered(history) && after <= m <= n <= |history|
    ensures Visible(history, cleared, capacity, after, n) ==
            Visible(history, cleared, capacity, after, m) + Visible(history, cleared, capacity, m, n)
    decreases n
  {
    if m == n {
      VisibleNone(history, cleared, capacity, m, n);
    } else {
      VisibleSplit(history, cleared, capacity, after, m, n - 1);
    }
  }

  /** An entry is there to be seen when it is retained and fewer than `maxCount` retained ones are newer. */
  predicate WithinReach(s: Stream, capacity: nat, maxCount: nat, i: nat)
    requires i < |s.history|
  {
    && Retained(s.history, s.cleared, capacity, i)
    && |Visible(s.history, s.cleared, capacity, i + 1, |s.history|)| < maxCount
  }

  /** A poll fetches an entry it has not passed yet exactly when the entry is within reach. */
  lemma FetchedIff(s: Stream, capacity: nat, maxCount: nat, i: nat)
    requires Numbered(s.history) && s.last <= i < |s.history|
    ensures s.history[i] in Fetched(s, capacity, maxCount) <==> WithinReach(s, capacity, maxCount, i)
  {
    var h, n := s.history, |s.history|;
    var visible := Visible(h, s.cleared, capacity, s.last, n);
    VisibleHas(h, s.cleared, capacity, s.last, n, h[i]);
    if Retained(h, s.cleared, capacity, i) {
      var p := |Visible(h, s.cleared, capacity, s.last, i)|;
      VisibleSplit(h, s.cleared, capacity, s.last, i + 1, n);
      assert visible[p] == h[i];
      VisibleInOrder(h, s.cleared, capacity, s.last, n);
      NewestHas(visible, p, maxCount);
    }
  }

  /** A poll that leaves out a retained entry, though it may fetch some, moves past it. */
  lemma PassedOver(s: Stream, capacity: nat, maxCount: nat, i: nat)
    requires Numbered(s.history) && s.last <= i < |s.history| && maxCount > 0
    requires Retained(s.history, s.cleared, capacity, i) && s.history[i] !in Fetched(s, capacity, maxCount)
    ensures Seen(s.last, Fetched(s, capacity, maxCount)) > i
  {
    var n := |s.history|;
    var visible := Visible(s.history, s.cleared, capacity, s.last, n);
    var fetched := Fetched(s, capacity, maxCount);
    VisibleHas(s.history, s.cleared, capacity, s.last, n, s.history[i]);
    VisibleInOrder(s.history, s.cleared, capacity, s.last, n);
    FetchedOk(s, capacity, maxCount);
    assert fetched[|fetched| - 1] == visible[|visible| - 1];
  }

  lemma RetainedBefore(history: seq<Entry>, cleared: nat, capacity: nat, e: Entry, i: nat)
    requires i < |history| && Retained(history + [e], cleared, capacity, i)
    ensures Retained(history, cleared, capacity, i)
  {
    assert (history + [e])[i + 1..] == history[i + 1..] + [e];
    OfCategoryConcat(history[i + 1..], [e], history[i].category);
  }

  /** The i-th entry is settled: sent if it is to be, and otherwise out of reach of all later polls. */
  ghost predicate Settled(s: Stream, capacity: nat, maxCount: nat, i: nat, sent: bool) {
    && i < |s.history| && Numbered(s.history) && s.cleared <= |s.history|
    && (s.history[i] in s.sent <==> sent)
    && (sent || maxCount == 0 || s.last > i || !Retained(s.history, s.cleared, capacity, i))
  }

  lemma SettledStays(s: Stream, e: Event, capacity: nat, maxCount: nat, i: nat, sent: bool)
    requires Settled(s, capacity, maxCount, i, sent)
    ensures Settled(Apply(s, e, capacity, maxCount), capacity, maxCount, i, sent)
  {
    match e
    case Logged(entry) =>
      var logged := entry.(number := |s.history| + 1);
      if Retained(s.history + [logged], s.cleared, capacity, i) {
        RetainedBefore(s.history, s.cleared, capacity, logged, i);
      }
    case Cleared =>
    case Polled =>
      var fetched := Fetched(s, capacity, maxCount);
      FetchedOk(s, capacity, maxCount);
      if s.last <= i {
        FetchedIff(s, capacity, maxCount, i);
      } else {
        assert s.history[i].number <= s.last;
        assert forall j :: 0 <= j < |fetched| ==> fetched[j] != s.history[i];
      }
  }

  lemma PollSettles(s: Stream, capacity: nat, maxCount: nat, i: nat, start: nat)
    requires StreamOk(s, start) && s.last <= i < |s.history|
    ensures Settled(Apply(s, Polled, capacity, maxCount), capacity, maxCount, i, WithinReach(s, capacity, maxCount, i))
  {
    FetchedIff(s, capacity, maxCount, i);
    assert s.history[i] !in s.sent by {
      forall j | 0 <= j < |s.sent| ensures s.sent[j] != s.history[i] {
        assert SentOk(s, s.sent[j], start);
      }
    }
    if maxCount > 0 && Retained(s.history, s.cleared, capacity, i) && s.history[i] !in Fetched(s, capacity, maxCount) {
      PassedOver(s, capacity, maxCount, i);
    }
  }

  lemma {:induction false} NotYetPassed(
      states: seq<Stream>, events: seq<Event>, capacity: nat, maxCount: nat, j: nat, k: nat)
    requires IsRun(states, events, capacity, maxCount) && j <= k < |states|
    requires forall i :: j <= i < k ==> !events[i].Polled?
    ensures states[k].last == states[j].last <= |states[j].history| <= |states[k].history|
    ensures StreamOk(states[k], |states[0].history|)
    decreases k
  {
    SentInOrder(states, events, capacity, maxCount, k);
    if j < k {
      NotYetPassed(states, events, capacity, maxCount, j, k - 1);
      assert StepAt(states, events, capacity, maxCount, k - 1);
    }
  }

  lemma {:induction false} SettledSince(
      states: seq<Stream>, events: seq<Event>, capacity: nat, maxCount: nat, k: nat, n: nat, i: nat, sent: bool)
    requires IsRun(states, events, capacity, maxCount) && k <= n < |states|
    requires Settled(states[k], capacity, maxCount, i, sent)
    ensures Settled(states[n], capacity, maxCount, i, sent)
    decreases n
  {
    if k < n {
      SettledSince(states, events, capacity, maxCount, k, n - 1, i, sent);
      assert StepAt(states, events, capacity, maxCount, n - 1);
      SettledStays(states[n - 1], events[n - 1], capacity, maxCount, i, sent);
    }
  }

  /** Let the k-th step be a poll with no other poll since step j. An entry created in between is ever sent, now or at any
      later time, if and only if the k-th step finds it within reach: not cleared, not pushed out of its ring, and among
      the newest `maxCount`. */
  lemma SentIffWithinReach(
      states: seq<Stream>, events: seq<Event>, capacity: nat, maxCount: nat, j: nat, k: nat, n: nat, i: nat)
    requires IsRun(states, events, capacity, maxCount) && j <= k < n < |states| && events[k].Polled?
    requires forall m :: j <= m < k ==> !events[m].Polled?
    requires |states[j].history| <= i < |states[k].history|
    ensures i < |states[n].history|
    ensures states[n].history[i] in states[n].sent <==> WithinReach(states[k], capacity, maxCount, i)
  {
    NotYetPassed(states, events, capacity, maxCount, j, k);
    PollSettles(states[k], capacity, maxCount, i, |states[0].history|);
    assert StepAt(states, events, capacity, maxCount, k);
    SettledSince(states, events, capacity, maxCount, k + 1, n, i, WithinReach(states[k], capacity, maxCount, i));
  }
}

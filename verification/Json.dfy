/** JSON values, with the members of an object in iteration order. */
module Json {
  import opened Bytes

  datatype Json =
    | Null
    | Bool(flag: bool)
    | Number(number: real)
    | Str(text: string)
    | Array(items: seq<Json>)
    | Object(members: seq<Member>)

  datatype Member = Member(key: string, value: Json)

  ghost predicate Unique(members: seq<Member>) {
    forall i, j :: 0 <= i < j < |members| ==> members[i].key != members[j].key
  }

  predicate Lacks(members: seq<Member>, key: string) {
    forall i :: 0 <= i < |members| ==> members[i].key != key
  }

  function Find(members: seq<Member>, key: string): Option<Json> {
    if members == [] then None
    else if members[0].key == key then Some(members[0].value)
    else Find(members[1..], key)
  }

  /** object[key] = value */
  function Put(members: seq<Member>, key: string, value: Json): seq<Member> {
    if members == [] then [Member(key, value)]
    else if members[0].key == key then [Member(key, value)] + members[1..]
    else [members[0]] + Put(members[1..], key, value)
  }

  lemma {:induction false} FindAt(members: seq<Member>, i: nat)
    requires Unique(members) && i < |members|
    ensures Find(members, members[i].key) == Some(members[i].value)
  {
    if i > 0 {
      FindAt(members[1..], i - 1);
    }
  }

  lemma {:induction false} FindNone(members: seq<Member>, key: string)
    ensures Find(members, key).None? <==> Lacks(members, key)
  {
    if members != [] && members[0].key != key {
      FindNone(members[1..], key);
      if Lacks(members[1..], key) {
        assert forall i :: 1 <= i < |members| ==> members[i] == members[1..][i - 1];
      } else {
        var i :| 0 <= i < |members[1..]| && members[1..][i].key == key;
        assert members[i + 1].key == key;
      }
    }
  }

  lemma {:induction false} FindPut(members: seq<Member>, key: string, value: Json, other: string)
    ensures Find(Put(members, key, value), other) == if other == key then Some(value) else Find(members, other)
  {
    if members != [] && members[0].key != key {
      FindPut(members[1..], key, value, other);
      assert Put(members, key, value)[1..] == Put(members[1..], key, value);
    } else {
      assert members != [] ==> ([Member(key, value)] + members[1..])[1..] == members[1..];
    }
  }

  /** Storing what is there already changes nothing. */
  lemma {:induction false} PutSame(members: seq<Member>, key: string, value: Json)
    requires Find(members, key) == Some(value)
    ensures Put(members, key, value) == members
  {
    if members[0].key == key {
      assert members == [members[0]] + members[1..];
    } else {
      PutSame(members[1..], key, value);
      assert members == [members[0]] + members[1..];
    }
  }

  lemma {:induction false} PutNew(members: seq<Member>, key: string, value: Json)
    requires Lacks(members, key)
    ensures Put(members, key, value) == members + [Member(key, value)]
  {
    if members != [] {
      assert Lacks(members[1..], key);
      PutNew(members[1..], key, value);
      assert members == [members[0]] + members[1..];
      assert members + [Member(key, value)] == [members[0]] + (members[1..] + [Member(key, value)]);
    } else {
      assert members + [Member(key, value)] == [Member(key, value)];
    }
  }

  /** Put keeps every other member where it is and adds no key but its own. */
  lemma {:induction false} PutShape(members: seq<Member>, key: string, value: Json)
    ensures |members| <= |Put(members, key, value)| <= |members| + 1
    ensures forall i :: 0 <= i < |members| ==> Put(members, key, value)[i].key == members[i].key
    ensures |Put(members, key, value)| > |members| ==>
      Lacks(members, key) && Put(members, key, value)[|members|].key == key
  {
    if members != [] && members[0].key != key {
      PutShape(members[1..], key, value);
      var rest := Put(members[1..], key, value);
      assert Put(members, key, value) == [members[0]] + rest;
      forall i | 0 <= i < |members| ensures Put(members, key, value)[i].key == members[i].key {
        if i > 0 {
          assert rest[i - 1].key == members[1..][i - 1].key;
        }
      }
      if |rest| > |members[1..]| {
        assert Lacks(members, key);
      }
    }
  }

  lemma PutUnique(members: seq<Member>, key: string, value: Json)
    requires Unique(members)
    ensures Unique(Put(members, key, value))
  {
    PutShape(members, key, value);
  }

  /** Later entries over earlier ones, in order. */
  function PutAll(members: seq<Member>, more: seq<Member>): seq<Member>
    decreases |more|
  {
    if more == [] then members
    else Put(PutAll(members, more[..|more| - 1]), more[|more| - 1].key, more[|more| - 1].value)
  }

  lemma {:induction false} PutTwice(members: seq<Member>, key: string, value: Json, over: Json)
    ensures Put(Put(members, key, value), key, over) == Put(members, key, over)
  {
    if members != [] && members[0].key != key {
      PutTwice(members[1..], key, value, over);
      assert Put(members, key, value)[1..] == Put(members[1..], key, value);
    } else {
      assert Put(members, key, value)[1..] == if members == [] then [] else members[1..];
    }
  }

  /** Replacing under one key and storing under another commute. */
  lemma {:induction false} PutCommutes(members: seq<Member>, a: string, u: Json, b: string, v: Json)
    requires a != b && !Lacks(members, a)
    ensures Put(Put(members, a, u), b, v) == Put(Put(members, b, v), a, u)
  {
    var rest := members[1..];
    if members[0].key == a {
      assert Put(members, a, u)[1..] == rest;
      assert Put(members, b, v)[1..] == Put(rest, b, v);
    } else if members[0].key == b {
      assert Put(members, b, v)[1..] == rest;
      assert Put(members, a, u)[1..] == Put(rest, a, u);
    } else {
      assert !Lacks(rest, a) by {
        var i :| 0 <= i < |members| && members[i].key == a;
        assert rest[i - 1].key == a;
      }
      PutCommutes(rest, a, u, b, v);
      assert Put(members, a, u)[1..] == Put(rest, a, u);
      assert Put(members, b, v)[1..] == Put(rest, b, v);
    }
  }

  lemma PutHas(members: seq<Member>, key: string, value: Json, other: string)
    ensures Lacks(Put(members, key, value), other) <==> other != key && Lacks(members, other)
  {
    FindNone(members, other);
    FindNone(Put(members, key, value), other);
    FindPut(members, key, value, other);
  }

  lemma {:induction false} PutAllHas(members: seq<Member>, more: seq<Member>, key: string)
    ensures Lacks(PutAll(members, more), key) <==> Lacks(members, key) && Lacks(more, key)
    decreases |more|
  {
    if more != [] {
      var front, last := more[..|more| - 1], more[|more| - 1];
      PutAllHas(members, front, key);
      PutHas(PutAll(members, front), last.key, last.value, key);
      assert Lacks(more, key) <==> Lacks(front, key) && last.key != key;
    }
  }

  /** Changing an entry halfway through is storing it again at the end. */
  lemma {:induction false} PutAllChanged(members: seq<Member>, more: seq<Member>, j: nat, value: Json)
    requires Unique(more) && j < |more|
    ensures PutAll(members, more[j := Member(more[j].key, value)]) == Put(PutAll(members, more), more[j].key, value)
    decreases |more|
  {
    var key, front, last := more[j].key, more[..|more| - 1], more[|more| - 1];
    var changed := more[j := Member(key, value)];
    if j == |more| - 1 {
      assert changed[..|more| - 1] == front;
      PutTwice(PutAll(members, front), key, last.value, value);
    } else {
      assert changed[..|more| - 1] == front[j := Member(key, value)];
      PutAllChanged(members, front, j, value);
      PutAllHas(members, front, key);
      assert front[j].key == key;
      PutCommutes(PutAll(members, front), key, value, last.key, last.value);
    }
  }

  lemma PutAllPut(members: seq<Member>, more: seq<Member>, key: string, value: Json)
    requires Unique(more)
    ensures PutAll(members, Put(more, key, value)) == Put(PutAll(members, more), key, value)
  {
    if Lacks(more, key) {
      PutNew(more, key, value);
      assert (more + [Member(key, value)])[..|more|] == more;
    } else {
      var j :| 0 <= j < |more| && more[j].key == key;
      PutAt(more, j, value);
      PutAllChanged(members, more, j, value);
    }
  }

  lemma {:induction false} PutAt(members: seq<Member>, j: nat, value: Json)
    requires Unique(members) && j < |members|
    ensures Put(members, members[j].key, value) == members[j := Member(members[j].key, value)]
  {
    if j > 0 {
      PutAt(members[1..], j - 1, value);
      assert members == [members[0]] + members[1..];
    }
  }

  lemma {:induction false} PutAllUnique(members: seq<Member>, more: seq<Member>)
    requires Unique(members)
    ensures Unique(PutAll(members, more))
    decreases |more|
  {
    if more != [] {
      PutAllUnique(members, more[..|more| - 1]);
      PutUnique(PutAll(members, more[..|more| - 1]), more[|more| - 1].key, more[|more| - 1].value);
    }
  }

  /** Storing the result of a batch is storing the batch. */
  lemma {:induction false} PutAllAgain(members: seq<Member>, none: seq<Member>, more: seq<Member>)
    requires none == []
    ensures PutAll(members, PutAll(none, more)) == PutAll(members, more)
    decreases |more|
  {
    if more != [] {
      var front, last := more[..|more| - 1], more[|more| - 1];
      PutAllAgain(members, none, front);
      PutAllUnique(none, front);
      PutAllPut(members, PutAll(none, front), last.key, last.value);
    }
  }

  lemma {:induction false} PutAllConcat(members: seq<Member>, a: seq<Member>, b: seq<Member>)
    ensures PutAll(members, a + b) == PutAll(PutAll(members, a), b)
    decreases |b|
  {
    if b == [] {
      assert a + b == a;
    } else {
      assert (a + b)[..|a + b| - 1] == a + b[..|b| - 1];
      PutAllConcat(members, a, b[..|b| - 1]);
    }
  }

  /** One batch after another is one longer batch. */
  lemma PutBatches(none: seq<Member>, x: seq<Member>, y: seq<Member>)
    requires none == []
    ensures PutAll(PutAll(none, x), PutAll(none, y)) == PutAll(none, x + y)
  {
    PutAllAgain(PutAll(none, x), none, y);
    PutAllConcat(none, x, y);
  }

  predicate FindsSame(a: seq<Member>, b: seq<Member>, key: string) {
    Find(a, key) == Find(b, key)
  }

  /** Equal as the source's objects, which have no order of their own. */
  ghost predicate SameObject(a: seq<Member>, b: seq<Member>) {
    forall key :: FindsSame(a, b, key)
  }

  lemma LongerFindsMore(a: seq<Member>, b: seq<Member>)
    requires Unique(b) && |a| < |b| && forall i :: 0 <= i < |a| ==> a[i].key == b[i].key
    ensures !FindsSame(a, b, b[|a|].key)
  {
    FindAt(b, |a|);
    FindNone(a, b[|a|].key);
  }

  /** Storing keeps the order of what is there, so a list that grew out of another by storing differs from it as a list
      exactly if it differs as an object. */
  lemma SameObjectSameList(a: seq<Member>, b: seq<Member>)
    requires Unique(a) && Unique(b) && |a| <= |b| && forall i :: 0 <= i < |a| ==> a[i].key == b[i].key
    ensures a == b <==> SameObject(a, b)
  {
    if |a| < |b| {
      LongerFindsMore(a, b);
    } else if SameObject(a, b) {
      forall i | 0 <= i < |a| ensures a[i] == b[i] {
        assert FindsSame(a, b, a[i].key);
        FindAt(a, i);
        FindAt(b, i);
      }
    }
  }
}

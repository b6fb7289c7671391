/** Keyword search in the log store (src/LogStore.cpp): EscapeLike prints a keyword into SQL's LIKE pattern language, and
    the query binds the pattern as a C string.

    `Like` is the operator as SQLite defines it with ESCAPE '\': '%' stands for any text, '_' for any one character, the
    escape character makes the next one literal, and letters compare without regard to ASCII case. */
module LikeEscape {

  const NUL: char := '\0'
  const ESCAPE: char := '\\'

  function Folded(c: char): char {
    if 'A' <= c <= 'Z' then c - 'A' + 'a' else c
  }

  predicate Alike(a: char, b: char) {
    Folded(a) == Folded(b)
  }

  predicate Like(pattern: string, text: string)
    decreases |pattern| + |text|
  {
    if pattern == [] then text == []
    else if pattern[0] == '%' then Like(pattern[1..], text) || (text != [] && Like(pattern, text[1..]))
    else if pattern[0] == '_' then text != [] && Like(pattern[1..], text[1..])
    else if pattern[0] == ESCAPE then
      |pattern| > 1 && text != [] && Alike(pattern[1], text[0]) && Like(pattern[2..], text[1..])
    else text != [] && Alike(pattern[0], text[0]) && Like(pattern[1..], text[1..])
  }

  predicate Special(c: char) {
    c == '%' || c == '_' || c == ESCAPE
  }

  function EscapedChar(c: char): string {
    if Special(c) then [ESCAPE, c] else [c]
  }

  function Escaped(term: string): string {
    if term == [] then [] else
      Escaped(term[..|term| - 1]) + EscapedChar(term[|term| - 1])
  }

  method EscapeLike(term: string) returns (out: string)
    ensures out == Escaped(term)
  {
    out := [];
    var i := 0;
    while i < |term|
      invariant 0 <= i <= |term| && out == Escaped(term[..i])
    {
      assert term[..i + 1][..i] == term[..i];
      if term[i] == '%' || term[i] == '_' || term[i] == ESCAPE {
        out := out + [ESCAPE];
      }
      out := out + [term[i]];
      i := i + 1;
    }
    assert term[..i] == term;
  }

  // ----- What the search should mean -----

  /** Two texts are the same up to ASCII case. */
  predicate SameText(a: string, b: string) {
    |a| == |b| && forall j :: 0 <= j < |a| ==> Alike(a[j], b[j])
  }

  ghost predicate Contains(text: string, keyword: string) {
    exists i :: OccursAt(text, keyword, i)
  }

  predicate OccursAt(text: string, keyword: string, i: int) {
    0 <= i <= |text| - |keyword| && SameText(text[i..i + |keyword|], keyword)
  }

  predicate EndsWith(text: string, keyword: string) {
    OccursAt(text, keyword, |text| - |keyword|)
  }

  // ----- The pattern -----

  lemma {:induction false} EscapedConcat(a: string, b: string)
    ensures Escaped(a + b) == Escaped(a) + Escaped(b)
    decreases |b|
  {
    if b == [] {
      assert a + b == a;
    } else {
      EscapedConcat(a, b[..|b| - 1]);
      assert (a + b)[..|a + b| - 1] == a + b[..|b| - 1];
    }
  }

  lemma EscapedFirst(term: string)
    requires term != []
    ensures Escaped(term) == EscapedChar(term[0]) + Escaped(term[1..])
  {
    var first := [term[0]];
    assert term == first + term[1..];
    EscapedConcat(first, term[1..]);
    assert first[..0] == [] && Escaped(first) == EscapedChar(term[0]);
  }

  /** An escaped keyword matches itself, up to case, and then the rest of the pattern goes on behind it. */
  lemma {:induction false} EscapedMatches(keyword: string, rest: string, text: string)
    ensures Like(Escaped(keyword) + rest, text) <==>
            |keyword| <= |text| && SameText(text[..|keyword|], keyword) && Like(rest, text[|keyword|..])
  {
    if keyword == [] {
      assert Escaped(keyword) + rest == rest && text[0..] == text;
    } else {
      var c, tail := keyword[0], Escaped(keyword[1..]) + rest;
      EscapedFirst(keyword);
      var pattern := Escaped(keyword) + rest;
      if Special(c) {
        assert pattern == [ESCAPE, c] + tail && pattern[2..] == tail;
      } else {
        assert pattern == [c] + tail && pattern[1..] == tail;
      }
      if text != [] {
        EscapedMatches(keyword[1..], rest, text[1..]);
        SameTextFirst(text, keyword);
      }
    }
  }

  lemma SameTextFirst(text: string, keyword: string)
    requires text != [] && keyword != []
    ensures |keyword| <= |text| && SameText(text[..|keyword|], keyword) <==>
            Alike(keyword[0], text[0]) && |keyword[1..]| <= |text[1..]| &&
            SameText(text[1..][..|keyword[1..]|], keyword[1..])
    ensures |keyword| <= |text| ==> text[1..][|keyword[1..]|..] == text[|keyword|..]
  {
    if |keyword| <= |text| {
      var a, b := text[..|keyword|], keyword;
      var a', b' := text[1..][..|keyword[1..]|], keyword[1..];
      assert a[1..] == a';
      if SameText(a', b') && Alike(b[0], a[0]) {
        forall j | 0 <= j < |a| ensures Alike(a[j], b[j]) {
          if j > 0 {
            assert a[j] == a'[j - 1] && b[j] == b'[j - 1];
          }
        }
      }
    }
  }

  /** A leading '%' lets the rest of the pattern match from any position on. */
  lemma {:induction false} AnyPrefix(rest: string, text: string)
    ensures Like(['%'] + rest, text) <==> exists i :: 0 <= i <= |text| && Like(rest, text[i..])
    decreases |text|
  {
    assert (['%'] + rest)[1..] == rest && text[0..] == text;
    if text != [] {
      AnyPrefix(rest, text[1..]);
      if exists i :: 0 <= i <= |text[1..]| && Like(rest, text[1..][i..]) {
        var i :| 0 <= i <= |text[1..]| && Like(rest, text[1..][i..]);
        assert text[1..][i..] == text[i + 1..];
      }
      if exists i :: 1 <= i <= |text| && Like(rest, text[i..]) {
        var i :| 1 <= i <= |text| && Like(rest, text[i..]);
        assert text[1..][i - 1..] == text[i..];
      }
    }
  }

  lemma {:induction false} AnyText(text: string)
    ensures Like(['%'], text)
  {
    if text != [] {
      AnyText(text[1..]);
    } else {
      assert ['%'][1..] == [];
    }
  }

  lemma MatchesFrom(keyword: string, rest: string, text: string, i: int)
    requires 0 <= i <= |text|
    ensures Like(Escaped(keyword) + rest, text[i..]) <==>
            OccursAt(text, keyword, i) && Like(rest, text[i + |keyword|..])
  {
    EscapedMatches(keyword, rest, text[i..]);
    if i + |keyword| <= |text| {
      assert text[i..][..|keyword|] == text[i..i + |keyword|];
      assert text[i..][|keyword|..] == text[i + |keyword|..];
    }
  }

  /** The pattern of a keyword matches exactly the texts that contain the keyword up to ASCII case, whatever wildcards or
      escape characters the keyword holds. */
  lemma LikeIsContains(keyword: string, text: string)
    ensures Like(['%'] + (Escaped(keyword) + ['%']), text) <==> Contains(text, keyword)
  {
    AnyPrefix(Escaped(keyword) + ['%'], text);
    forall i | 0 <= i <= |text|
      ensures Like(Escaped(keyword) + ['%'], text[i..]) <==> OccursAt(text, keyword, i)
    {
      MatchesFrom(keyword, ['%'], text, i);
      if i + |keyword| <= |text| {
        AnyText(text[i + |keyword|..]);
      }
    }
  }

  /** Without the closing '%' the pattern asks for the end of the text. */
  lemma LikeIsEndsWith(keyword: string, text: string)
    ensures Like(['%'] + Escaped(keyword), text) <==> EndsWith(text, keyword)
  {
    AnyPrefix(Escaped(keyword), text);
    var none: string := [];
    assert Escaped(keyword) + none == Escaped(keyword);
    forall i | 0 <= i <= |text|
      ensures Like(Escaped(keyword), text[i..]) <==> OccursAt(text, keyword, i) && i == |text| - |keyword|
    {
      MatchesFrom(keyword, none, text, i);
    }
  }

  // ----- The query -----

  /** What a C string keeps of a text: all before the first NUL. */
  function CString(text: string): (kept: string)
    ensures NUL !in kept && |kept| <= |text| && kept == text[..|kept|]
    ensures NUL !in text ==> kept == text
    ensures NUL in text ==> |kept| < |text| && text[|kept|] == NUL
  {
    if text == [] || text[0] == NUL then [] else [text[0]] + CString(text[1..])
  }

  function Bound(keyword: string): string {
    CString(['%'] + (Escaped(keyword) + ['%']))
  }

  lemma {:induction false} CutAt(front: string, rest: string)
    requires NUL !in front
    ensures CString(front + rest) == front + CString(rest)
  {
    if front == [] {
      assert front + rest == rest;
    } else {
      assert (front + rest)[1..] == front[1..] + rest;
      CutAt(front[1..], rest);
    }
  }

  lemma {:induction false} EscapedNul(term: string)
    ensures NUL in Escaped(term) <==> NUL in term
  {
    if term != [] {
      EscapedNul(term[..|term| - 1]);
      assert term == term[..|term| - 1] + [term[|term| - 1]];
    }
  }

  lemma EscapedNulFirst(nul: string, tail: string)
    requires nul == [NUL]
    ensures Escaped(nul + tail) == nul + Escaped(tail)
  {
    EscapedFirst(nul + tail);
    assert (nul + tail)[1..] == tail;
  }

  lemma EscapedAtNul(keyword: string) returns (rest: string)
    requires NUL in keyword
    ensures Escaped(keyword) == Escaped(CString(keyword)) + ([NUL] + rest)
  {
    var head := CString(keyword);
    var nul, tail := [NUL], keyword[|head| + 1..];
    assert keyword == head + (nul + tail);
    EscapedConcat(head, nul + tail);
    EscapedNulFirst(nul, tail);
    rest := Escaped(tail);
  }

  lemma CutAtNul(front: string, rest: string)
    requires NUL !in front
    ensures CString(front + ([NUL] + rest)) == front
  {
    CutAt(front, [NUL] + rest);
  }

  lemma Regroup(first: string, head: string, nul: string, rest: string, last: string)
    ensures first + (head + (nul + rest) + last) == (first + head) + (nul + (rest + last))
  {
  }

  lemma BoundPlain(keyword: string)
    requires NUL !in keyword
    ensures Bound(keyword) == ['%'] + (Escaped(keyword) + ['%'])
  {
    EscapedNul(keyword);
  }

  /** A NUL in the keyword cuts the bound pattern off right behind what precedes it. */
  lemma BoundCut(keyword: string)
    requires NUL in keyword
    ensures Bound(keyword) == ['%'] + Escaped(CString(keyword))
  {
    var any, nul, head := ['%'], [NUL], Escaped(CString(keyword));
    EscapedNul(CString(keyword));
    var rest := EscapedAtNul(keyword);
    Regroup(any, head, nul, rest, any);
    CutAtNul(any + head, rest + any);
  }

  datatype Entry = Entry(logType: string, scriptName: string, values: seq<string>)

  /** The keyword clause of Query. */
  ghost predicate Selected(entry: Entry, keyword: string) {
    keyword == [] ||
    Like(Bound(keyword), entry.scriptName) || Like(Bound(keyword), entry.logType) ||
    exists i :: 0 <= i < |entry.values| && Like(Bound(keyword), entry.values[i])
  }

  ghost predicate Mentions(entry: Entry, keyword: string) {
    Contains(entry.scriptName, keyword) || Contains(entry.logType, keyword) ||
    exists i :: 0 <= i < |entry.values| && Contains(entry.values[i], keyword)
  }

  /** What one bound LIKE answers, for every keyword and text. */
  lemma BoundLike(keyword: string, text: string)
    ensures NUL !in keyword ==> (Like(Bound(keyword), text) <==> Contains(text, keyword))
    ensures NUL in keyword ==> (Like(Bound(keyword), text) <==> EndsWith(text, CString(keyword)))
  {
    if NUL in keyword {
      BoundCut(keyword);
      LikeIsEndsWith(CString(keyword), text);
    } else {
      BoundPlain(keyword);
      LikeIsContains(keyword, text);
    }
  }

  /** A search without a NUL selects exactly the entries that mention the keyword somewhere; the empty keyword, for which
      the query leaves the clause out, selects them all. */
  lemma SearchSelectsMentions(entry: Entry, keyword: string)
    requires NUL !in keyword
    ensures Selected(entry, keyword) <==> Mentions(entry, keyword)
  {
    BoundLike(keyword, entry.scriptName);
    BoundLike(keyword, entry.logType);
    forall i | 0 <= i < |entry.values|
      ensures Like(Bound(keyword), entry.values[i]) <==> Contains(entry.values[i], keyword)
    {
      BoundLike(keyword, entry.values[i]);
    }
    if keyword == [] {
      assert OccursAt(entry.scriptName, keyword, 0);
    }
  }

  predicate Storable(text: string) {
    NUL !in text
  }

  /** The bound pattern means `contains` on all texts the store can hold exactly when the keyword has no NUL: with one it
      finds texts, such as what precedes the NUL, that do not contain it. */
  lemma ExactIffNoNul(keyword: string)
    ensures (forall text :: Storable(text) ==> (Like(Bound(keyword), text) <==> Contains(text, keyword))) <==>
            NUL !in keyword
  {
    if NUL in keyword {
      var text := CString(keyword);
      assert Storable(text);
      BoundLike(keyword, text);
      assert text[0..|text|] == text;
      assert EndsWith(text, CString(keyword));
      assert forall i :: !OccursAt(text, keyword, i);
      assert !Contains(text, keyword);
    } else {
      forall text ensures Like(Bound(keyword), text) <==> Contains(text, keyword) {
        BoundLike(keyword, text);
      }
    }
  }
}

/** Sequence facts shared by the entity collector and the triple synthesiser:
    duplicate-freedom, first occurrence, and insertion-ordered deduplication, the
    behaviour of a JavaScript `Set` (and of the key list of a `Map`) built in order. */
module Seqs {

  /** No element occurs twice. */
  predicate NoDup<T(==)>(s: seq<T>) {
    forall i, j :: 0 <= i < j < |s| ==> s[i] != s[j]
  }

  /** The position of the first occurrence of `x` in `s`. */
  function FirstIndex<T(==)>(s: seq<T>, x: T): (i: nat)
    requires x in s
    ensures i < |s| && s[i] == x
    ensures forall j :: 0 <= j < i ==> s[j] != x
  {
    if s[0] == x then 0 else 1 + FirstIndex(s[1..], x)
  }

  /** `[...new Set(s)]`: every element once, at the place it was first seen. */
  function Distinct<T(==)>(s: seq<T>): seq<T>
  {
    if |s| == 0 then []
    else
      var d := Distinct(s[..|s| - 1]);
      if s[|s| - 1] in d then d else d + [s[|s| - 1]]
  }

  /** `d` lists the elements of `s`, each once, ordered by where they first occur in `s`.
      This pins `d` down completely (see `FirstSeenOrderIsUnique`). */
  ghost predicate FirstSeenOrder<T>(d: seq<T>, s: seq<T>) {
    && NoDup(d)
    && (forall i :: 0 <= i < |d| ==> d[i] in s)
    && (forall i :: 0 <= i < |s| ==> s[i] in d)
    && (forall i, j :: 0 <= i < j < |d| ==> FirstIndex(s, d[i]) < FirstIndex(s, d[j]))
  }

  /** Appending an element does not move any earlier first occurrence. */
  lemma FirstIndexAppend<T>(s: seq<T>, x: T, y: T)
    requires y in s + [x]
    ensures FirstIndex(s + [x], y) == if y in s then FirstIndex(s, y) else |s|
  {
    if y in s {
      var k := FirstIndex(s, y);
      assert (s + [x])[k] == y;
    }
  }

  /** Behind a prefix that does not contain `y`, the first occurrence is shifted by the prefix. */
  lemma FirstIndexConcat<T>(a: seq<T>, b: seq<T>, y: T)
    requires y !in a && y in b
    ensures FirstIndex(a + b, y) == |a| + FirstIndex(b, y)
  {
    var k := FirstIndex(b, y);
    assert (a + b)[|a| + k] == y;
  }

  /** The JavaScript `Set` construction keeps exactly the first occurrences, in order. */
  lemma {:induction false} DistinctFirstSeen<T>(s: seq<T>)
    ensures FirstSeenOrder(Distinct(s), s)
  {
    if |s| > 0 {
      var p, x := s[..|s| - 1], s[|s| - 1];
      assert s == p + [x];
      DistinctFirstSeen(p);
      DistinctSnocOrder(p, x, Distinct(p));
    }
  }

  /** One step of `Distinct`: appending an element not yet listed keeps first-seen order. */
  lemma DistinctSnocOrder<T>(p: seq<T>, x: T, d: seq<T>)
    requires FirstSeenOrder(d, p)
    ensures FirstSeenOrder(if x in d then d else d + [x], p + [x])
  {
    forall y | y in p
      ensures FirstIndex(p + [x], y) == FirstIndex(p, y)
    {
      FirstIndexAppend(p, x, y);
    }
    if x in d {
      SnocSeenOrder(p, x, d);
    } else {
      FirstIndexAppend(p, x, x);
      SnocNewOrder(p, x, d);
    }
  }

  lemma SnocSeenOrder<T>(p: seq<T>, x: T, d: seq<T>)
    requires FirstSeenOrder(d, p) && x in d
    requires forall y :: y in p ==> FirstIndex(p + [x], y) == FirstIndex(p, y)
    ensures FirstSeenOrder(d, p + [x])
  {
    var s := p + [x];
    forall j | 0 <= j < |s|
      ensures s[j] in d
    {
      if j < |p| {
        assert s[j] == p[j];
      }
    }
  }

  lemma SnocNewOrder<T>(p: seq<T>, x: T, d: seq<T>)
    requires FirstSeenOrder(d, p) && x !in d
    requires forall y :: y in p ==> FirstIndex(p + [x], y) == FirstIndex(p, y)
    requires x !in p ==> FirstIndex(p + [x], x) == |p|
    ensures FirstSeenOrder(d + [x], p + [x])
  {
    SnocNewMembers(p, x, d);
    SnocNewRanks(p, x, d);
  }

  lemma SnocNewMembers<T>(p: seq<T>, x: T, d: seq<T>)
    requires FirstSeenOrder(d, p) && x !in d
    ensures NoDup(d + [x])
    ensures forall i :: 0 <= i < |d + [x]| ==> (d + [x])[i] in p + [x]
    ensures forall j :: 0 <= j < |p + [x]| ==> (p + [x])[j] in d + [x]
  {
    var s, d' := p + [x], d + [x];
    forall j | 0 <= j < |s|
      ensures s[j] in d'
    {
      if j < |p| {
        assert s[j] == p[j];
      }
    }
  }

  lemma SnocNewRanks<T>(p: seq<T>, x: T, d: seq<T>)
    requires FirstSeenOrder(d, p) && x !in d
    requires forall y :: y in p ==> FirstIndex(p + [x], y) == FirstIndex(p, y)
    requires x !in p ==> FirstIndex(p + [x], x) == |p|
    ensures forall i, j :: 0 <= i < j < |d + [x]| ==> FirstIndex(p + [x], (d + [x])[i]) < FirstIndex(p + [x], (d + [x])[j])
  {
    var s, d' := p + [x], d + [x];
    assert x !in p;
    forall i, j | 0 <= i < j < |d'|
      ensures FirstIndex(s, d'[i]) < FirstIndex(s, d'[j])
    {
      assert d'[i] == d[i] && d[i] in p;
      if j < |d| {
        assert d'[j] == d[j];
      }
    }
  }

  /** `d` lists, without repetition, elements of `s` ordered by where they first occur in `s`. */
  ghost predicate OrderedByFirstOccurrence<T>(d: seq<T>, s: seq<T>) {
    && NoDup(d)
    && (forall i :: 0 <= i < |d| ==> d[i] in s)
    && (forall i, j :: 0 <= i < j < |d| ==> FirstIndex(s, d[i]) < FirstIndex(s, d[j]))
  }

  /** The last element of a sequence ordered by first occurrence is the one seen latest. */
  lemma LastIsLatest<T>(d: seq<T>, s: seq<T>, z: T)
    requires OrderedByFirstOccurrence(d, s) && z in d
    ensures FirstIndex(s, z) <= FirstIndex(s, d[|d| - 1])
  {
    var k := FirstIndex(d, z);
  }

  /** The last elements of two such sequences agree: each is the element of the common
      set whose first occurrence in `s` is latest. */
  lemma SameLast<T>(d: seq<T>, e: seq<T>, s: seq<T>)
    requires OrderedByFirstOccurrence(d, s) && OrderedByFirstOccurrence(e, s)
    requires |d| > 0 && |e| > 0
    requires forall x :: x in d <==> x in e
    ensures d[|d| - 1] == e[|e| - 1]
  {
    var x, y := d[|d| - 1], e[|e| - 1];
    LastIsLatest(d, s, y);
    LastIsLatest(e, s, x);
    assert s[FirstIndex(s, x)] == x && s[FirstIndex(s, y)] == y;
  }

  /** Dropping the last element keeps a sequence ordered by first occurrence. */
  lemma DropLastOrdered<T>(d: seq<T>, s: seq<T>)
    requires OrderedByFirstOccurrence(d, s) && |d| > 0
    ensures OrderedByFirstOccurrence(d[..|d| - 1], s)
    ensures forall z :: z in d[..|d| - 1] <==> z in d && z != d[|d| - 1]
  {
    var d' := d[..|d| - 1];
    assert d == d' + [d[|d| - 1]];
  }

  /** Two duplicate-free sequences with the same elements, both ordered by first occurrence
      in `s`, are equal. */
  lemma {:induction false} OrderedByFirstOccurrenceIsUnique<T>(d: seq<T>, e: seq<T>, s: seq<T>)
    requires OrderedByFirstOccurrence(d, s) && OrderedByFirstOccurrence(e, s)
    requires forall x :: x in d <==> x in e
    ensures d == e
    decreases |d|
  {
    if |d| > 0 {
      assert d[0] in e;
      SameLast(d, e, s);
      DropLastOrdered(d, s);
      DropLastOrdered(e, s);
      SameWithoutLast(d, e, d[..|d| - 1], e[..|e| - 1]);
      OrderedByFirstOccurrenceIsUnique(d[..|d| - 1], e[..|e| - 1], s);
      SameInitSameLast(d, e);
    } else {
      NothingInEmpty(d, e);
    }
  }

  lemma SameWithoutLast<T>(d: seq<T>, e: seq<T>, d': seq<T>, e': seq<T>)
    requires |d| > 0 && |e| > 0 && d[|d| - 1] == e[|e| - 1]
    requires forall z :: z in d' <==> z in d && z != d[|d| - 1]
    requires forall z :: z in e' <==> z in e && z != e[|e| - 1]
    requires forall x :: x in d <==> x in e
    ensures forall z :: z in d' <==> z in e'
  {
  }

  lemma SameInitSameLast<T>(d: seq<T>, e: seq<T>)
    requires |d| > 0 && |e| > 0 && d[|d| - 1] == e[|e| - 1] && d[..|d| - 1] == e[..|e| - 1]
    ensures d == e
  {
    assert d == d[..|d| - 1] + [d[|d| - 1]] && e == e[..|e| - 1] + [e[|e| - 1]];
  }

  lemma NothingInEmpty<T>(d: seq<T>, e: seq<T>)
    requires |d| == 0 && forall x :: x in d <==> x in e
    ensures e == d
  {
    forall x
      ensures x !in multiset(e)
    {
      assert x in e ==> x in d;
    }
    assert multiset(e) == multiset{};
  }

  /** First-seen order determines a sequence completely: two sequences that both list the
      elements of `s` in first-seen order are equal. */
  lemma FirstSeenOrderIsUnique<T>(d: seq<T>, e: seq<T>, s: seq<T>)
    requires FirstSeenOrder(d, s) && FirstSeenOrder(e, s)
    ensures d == e
  {
    OrderedByFirstOccurrenceIsUnique(d, e, s);
  }

  /** A sequence is what comes before position `i`, the element there, and the rest. */
  lemma SplitAround<T>(s: seq<T>, i: nat)
    requires i < |s|
    ensures s == s[..i + 1] + s[i + 1..]
    ensures s[..i + 1] == s[..i] + [s[i]]
  {
  }

  /** A non-empty sequence is its front followed by its last element. */
  lemma SplitLast<T>(s: seq<T>)
    requires |s| > 0
    ensures s == s[..|s| - 1] + [s[|s| - 1]]
  {
  }
}

/** The lists of list.c as plain sequences: where items go, and in which order the walker visits them. */
module ListOrder {

  function InsertedAt<T>(s: seq<T>, j: nat, x: T): (r: seq<T>)
    requires j <= |s|
    ensures |r| == |s| + 1
  {
    s[..j] + [x] + s[j..]
  }

  function RemovedAt<T>(s: seq<T>, j: nat): (r: seq<T>)
    requires j < |s|
    ensures |r| == |s| - 1
  {
    s[..j] + s[j + 1..]
  }

  function Without<T(==)>(s: seq<T>, x: T): seq<T> {
    if s == [] then [] else (if s[0] == x then [] else [s[0]]) + Without(s[1..], x)
  }

  ghost predicate Distinct<T>(s: seq<T>) {
    forall i, j :: 0 <= i < j < |s| ==> s[i] != s[j]
  }

  lemma DistinctInserted<T>(s: seq<T>, j: nat, x: T)
    requires j <= |s| && x !in s && Distinct(s)
    ensures Distinct(InsertedAt(s, j, x))
    ensures forall y :: y in InsertedAt(s, j, x) <==> y in s || y == x
  {
    assert s == s[..j] + s[j..];
  }

  lemma DistinctRemoved<T>(s: seq<T>, j: nat)
    requires j < |s| && Distinct(s)
    ensures Distinct(RemovedAt(s, j))
    ensures forall y :: y in RemovedAt(s, j) <==> y in s && y != s[j]
  {
    assert s == s[..j] + [s[j]] + s[j + 1..];
  }

  // ---------------------------------------------------------- the ring through the end marker

  /** One trip round the list: end marker, items, end marker again. */
  function Ring<T>(end: T, s: seq<T>): seq<T> { [end] + s + [end] }

  lemma RingEnds<T>(end: T, s: seq<T>)
    ensures |Ring(end, s)| == |s| + 2 && Ring(end, s)[0] == Ring(end, s)[|s| + 1] == end
    ensures forall k :: 0 <= k < |s| ==> Ring(end, s)[k + 1] == s[k]
    ensures forall k :: 0 <= k < |s| + 2 ==> Ring(end, s)[k] in s || Ring(end, s)[k] == end
  {}

  /** On the ring, the sources of two links differ, and so do their targets. */
  lemma RingApart<T>(end: T, s: seq<T>, i: nat, k: nat)
    requires end !in s && Distinct(s)
    requires i <= |s| && k <= |s| && i != k
    ensures |Ring(end, s)| == |s| + 2
    ensures Ring(end, s)[i] != Ring(end, s)[k] && Ring(end, s)[i + 1] != Ring(end, s)[k + 1]
  {}

  /** The ring, and where the index is on it, after an insertion before item k. */
  lemma RingGrows<T>(end: T, s: seq<T>, k: nat, at: nat, x: T)
    requires k <= |s| && at <= |s|
    ensures |Ring(end, s)| == |s| + 2
    ensures Ring(end, InsertedAt(s, k, x)) == InsertedAt(Ring(end, s), k + 1, x)
    ensures Ring(end, InsertedAt(s, k, x))[if at <= k then at else at + 1] == Ring(end, s)[at]
  {}

  /** Likewise after removing item k; an index on that item moves to the entry before. */
  lemma RingShrinks<T>(end: T, s: seq<T>, k: nat, at: nat)
    requires end !in s && Distinct(s)
    requires k < |s| && at <= |s|
    ensures |Ring(end, s)| == |s| + 2
    ensures Ring(end, RemovedAt(s, k)) == RemovedAt(Ring(end, s), k + 1)
    ensures RemovedIndex(at, k) < |s|
    ensures Ring(end, s)[at] == s[k] <==> at == k + 1
    ensures Ring(end, RemovedAt(s, k))[RemovedIndex(at, k)] == Ring(end, s)[if at == k + 1 then k else at]
  {}

  /** The index is the item just after the place where vListInsertEnd inserts. */
  lemma RingPlace<T>(end: T, s: seq<T>, at: nat)
    requires at <= |s|
    ensures EndPlace(|s|, at) <= |s| && |Ring(end, s)| == |s| + 2
    ensures Ring(end, s)[at] == Ring(end, s)[EndPlace(|s|, at) + 1]
    ensures EndAt(at) == if at <= EndPlace(|s|, at) then at else at + 1
  {}

  /** The order in which the walker returns the items when the index rests on ring position `at`:
      0 is the end marker, k + 1 is item k. */
  function Visits<T>(s: seq<T>, at: nat): (r: seq<T>)
    requires at <= |s|
    ensures |r| == |s|
  {
    s[at..] + s[..at]
  }

  /** One walker step: past the end marker if need be. */
  function NextAt(n: nat, at: nat): (r: nat)
    requires 0 < n && at <= n
    ensures 1 <= r <= n
  {
    if at == n then 1 else at + 1
  }

  /** What k successive walker calls return. */
  function Walk<T>(s: seq<T>, at: nat, k: nat): (r: seq<T>)
    requires at <= |s| && (s == [] ==> k == 0)
    ensures |r| == k
    decreases k
  {
    if k == 0 then [] else [s[NextAt(|s|, at) - 1]] + Walk(s, NextAt(|s|, at), k - 1)
  }

  lemma {:induction false} WalkOn<T>(s: seq<T>, at: nat, k: nat)
    requires at <= |s| && k <= |s|
    ensures Walk(s, at, k) == Visits(s, at)[..k]
    decreases k
  {
    if k > 0 {
      var next := NextAt(|s|, at);
      WalkOn(s, next, k - 1);
      var v, w := Visits(s, at), Visits(s, next);
      assert v[0] == s[next - 1];
      forall i | 0 <= i < k - 1 ensures w[i] == v[i + 1] {}
      assert [v[0]] + w[..k - 1] == v[..k];
    }
  }

  /** As many calls as there are items return each item exactly once. */
  lemma WalkVisitsEachOnce<T>(s: seq<T>, at: nat)
    requires at <= |s|
    ensures Walk(s, at, |s|) == Visits(s, at)
    ensures multiset(Walk(s, at, |s|)) == multiset(s)
  {
    WalkOn(s, at, |s|);
    assert s == s[..at] + s[at..];
  }

  // ------------------------------------------------------------------------- insertion at the end

  /** vListInsertEnd puts the item just before the one the index rests on. */
  function EndPlace(n: nat, at: nat): nat
    requires at <= n
  {
    if at == 0 then n else at - 1
  }

  function EndAt(at: nat): nat { if at == 0 then 0 else at + 1 }

  /** The added item is visited after every other item but the one the index rests on. */
  lemma AddedNearlyLast<T>(s: seq<T>, at: nat, x: T)
    requires at <= |s|
    ensures var v, w := Visits(s, at), Visits(InsertedAt(s, EndPlace(|s|, at), x), EndAt(at));
      w == if at == 0 then v + [x] else v[..|v| - 1] + [x, s[at - 1]]
  {
    var t := InsertedAt(s, EndPlace(|s|, at), x);
    if at == 0 {
      assert Visits(t, 0) == t;
    } else {
      assert t[at + 1..] == s[at..];
      assert t[..at + 1] == s[..at - 1] + [x, s[at - 1]];
      assert Visits(s, at)[..|s| - 1] == s[at..] + s[..at - 1];
    }
  }

  /** list.h says the added item is the last to be returned.  That is so exactly when the index
      rests on the end marker; otherwise the item last returned comes round after it. */
  lemma AddedLastIff<T>(s: seq<T>, at: nat, x: T)
    requires at <= |s| && x !in s
    ensures var w := Visits(InsertedAt(s, EndPlace(|s|, at), x), EndAt(at));
      w[|w| - 1] == x <==> at == 0
  {
    AddedNearlyLast(s, at, x);
  }

  // -------------------------------------------------------------------------------------- removal

  /** uxListRemove leaves the index resting on the previous entry if it rested on the removed one. */
  function RemovedIndex(at: nat, j: nat): nat { if at <= j then at else at - 1 }

  lemma {:induction false} WithoutAbsent<T>(s: seq<T>, x: T)
    requires x !in s
    ensures Without(s, x) == s
  {
    if s != [] { WithoutAbsent(s[1..], x); }
  }

  lemma {:induction false} WithoutConcat<T>(s: seq<T>, t: seq<T>, x: T)
    ensures Without(s + t, x) == Without(s, x) + Without(t, x)
  {
    if s == [] {
      assert s + t == t;
    } else {
      WithoutConcat(s[1..], t, x);
      assert (s + t)[1..] == s[1..] + t;
      var head := if s[0] == x then [] else [s[0]];
      assert head + Without(s[1..] + t, x) == head + Without(s[1..], x) + Without(t, x);
    }
  }

  lemma WithoutItself<T>(x: T)
    ensures Without([x], x) == []
  {
    assert Without<T>([], x) == [];
  }

  lemma WithoutAt<T>(s: seq<T>, j: nat)
    requires j < |s| && Distinct(s)
    ensures RemovedAt(s, j) == Without(s, s[j])
  {
    hide Without;
    var x := s[j];
    assert s == s[..j] + ([x] + s[j + 1..]);
    WithoutConcat(s[..j], [x] + s[j + 1..], x);
    WithoutConcat([x], s[j + 1..], x);
    WithoutAbsent(s[..j], x);
    WithoutAbsent(s[j + 1..], x);
    WithoutItself(x);
  }

  /** Removal keeps the visiting order of all that remains. */
  lemma RemovalKeepsOrder<T>(s: seq<T>, at: nat, j: nat)
    requires at <= |s| && j < |s| && Distinct(s)
    ensures Visits(RemovedAt(s, j), RemovedIndex(at, j)) == Without(Visits(s, at), s[j])
  {
    hide Without;
    WithoutAt(s, j);
    WithoutConcat(s[at..], s[..at], s[j]);
    if j < at {
      WithoutAbsent(s[at..], s[j]);
      WithoutAt(s[..at], j);
      assert RemovedAt(s[..at], j) == s[..j] + s[j + 1..at];
      assert RemovedAt(s, j)[..at - 1] == s[..j] + s[j + 1..at];
      assert RemovedAt(s, j)[at - 1..] == s[at..];
    } else {
      WithoutAbsent(s[..at], s[j]);
      WithoutAt(s[at..], j - at);
      assert RemovedAt(s, j)[at..] == RemovedAt(s[at..], j - at);
      assert RemovedAt(s, j)[..at] == s[..at];
    }
  }
}

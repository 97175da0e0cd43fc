/** The `allocList` side table of heap_4.c: 256 slots, filled from the front, zero meaning unused. */
module AllocTable {

  const SLOTS := 256
  const NOT_FOUND := 0xFF

  function FirstIndex(t: seq<int>, v: int): (i: nat)
    ensures i <= |t|
    ensures i < |t| ==> t[i] == v
    ensures forall k :: 0 <= k < i ==> t[k] != v
  {
    if t == [] || t[0] == v then 0 else 1 + FirstIndex(t[1..], v)
  }

  /** The first null slot takes p; a full table drops it. */
  function Added(t: seq<int>, p: int): seq<int> {
    if FirstIndex(t, 0) < |t| then t[FirstIndex(t, 0) := p] else t
  }

  /** Slot j is cleared and every later slot moves down by one, the last one keeping its value. */
  function Shifted(t: seq<int>, j: nat): seq<int>
    requires j < |t|
  {
    if j == |t| - 1 then t[..j] + [0] else t[..j] + t[j + 1..] + [t[|t| - 1]]
  }

  function Removed(t: seq<int>, p: int): seq<int> {
    if FirstIndex(t, p) < |t| then Shifted(t, FirstIndex(t, p)) else t
  }

  method AddEntry(t: array<int>, p: int)
    requires t.Length == SLOTS
    modifies t
    ensures t[..] == Added(old(t[..]), p)
  {
    var pos := 0;
    while true
      invariant 0 <= pos < SLOTS && pos <= FirstIndex(t[..], 0)
      invariant t[..] == old(t[..])
      decreases SLOTS - pos
    {
      if t[pos] == 0 {
        t[pos] := p;
        break;
      }
      pos := pos + 1;
      if pos >= SLOTS { break; }
    }
  }

  method RemoveEntry(t: array<int>, p: int) returns (code: int)
    requires t.Length == SLOTS
    modifies t
    ensures t[..] == Removed(old(t[..]), p)
    ensures code == if p in old(t[..]) then 0 else NOT_FOUND
  {
    ghost var was := t[..];
    var pos := 0;
    while pos < SLOTS
      invariant 0 <= pos <= FirstIndex(was, p) && t[..] == was
    {
      if t[pos] == p {
        t[pos] := 0;
        break;
      }
      pos := pos + 1;
    }
    if pos == SLOTS { return NOT_FOUND; }
    assert FirstIndex(was, p) == pos && was[pos] == p;
    ShiftDown(t, pos);
    code := 0;
  }

  /** The second loop of vPortRmFromList, from the cleared slot on. */
  method ShiftDown(t: array<int>, j: nat)
    requires t.Length == SLOTS && j < SLOTS
    modifies t
    ensures t[..SLOTS - 1] == old(t[..j]) + old(t[j + 1..]) && t[SLOTS - 1] == old(t[SLOTS - 1])
  {
    var pos := j;
    while pos < SLOTS - 1
      invariant j <= pos <= SLOTS - 1
      invariant t[..pos] == old(t[..j]) + old(t[j + 1..pos + 1]) && t[pos..] == old(t[pos..])
    {
      assert t[pos + 1] == t[pos..][1] == old(t[pos..])[1] == old(t[pos + 1]);
      t[pos] := t[pos + 1];
      assert t[..pos + 1] == t[..pos] + [old(t[pos + 1])];
      assert t[pos + 1..] == old(t[pos..])[1..];
      pos := pos + 1;
    }
    assert t[SLOTS - 1] == t[SLOTS - 1..][0];
  }

  // ------------------------------------------------- what the table is meant to be

  /** The recorded blocks fill the front of the table, in order, and the rest is null. */
  ghost predicate Holds(t: seq<int>, order: seq<int>) {
    && |t| == SLOTS && |order| <= SLOTS
    && t[..|order|] == order
    && forall k :: |order| <= k < SLOTS ==> t[k] == 0
  }

  /** No null entry and no block twice. */
  ghost predicate Entries(order: seq<int>) {
    && 0 !in order
    && (forall j, k :: 0 <= j < k < |order| ==> order[j] != order[k])
  }

  ghost function Without(order: seq<int>, p: int): seq<int> {
    if FirstIndex(order, p) < |order|
    then order[..FirstIndex(order, p)] + order[FirstIndex(order, p) + 1..] else order
  }

  /** Recording a block works exactly while a slot is free; a full table drops it. */
  lemma AdditionExact(t: seq<int>, order: seq<int>, p: int)
    requires Holds(t, order) && Entries(order) && p != 0
    ensures Holds(Added(t, p), order + [p]) <==> |order| < SLOTS
    ensures |order| == SLOTS ==> Added(t, p) == t
  {
    FrontOf(t, order);
    assert forall k :: 0 <= k < |order| ==> order[k] != 0;
    if |order| < SLOTS {
      assert t[|order|] == 0;
      assert FirstIndex(t, 0) == |order|;
      assert Added(t, p)[..|order|] == order;
    }
  }

  lemma FrontOf(t: seq<int>, order: seq<int>)
    requires Holds(t, order)
    ensures forall k :: 0 <= k < |order| ==> t[k] == order[k]
  {
    forall k | 0 <= k < |order| ensures t[k] == order[k] { assert t[..|order|][k] == order[k]; }
  }

  /** Removal leaves a correct table exactly when the last slot was unused, or was itself the one
      being removed: with all 256 slots in use the shift duplicates the last entry. */
  lemma RemovalExact(t: seq<int>, order: seq<int>, p: int)
    requires Holds(t, order) && Entries(order) && p in order
    ensures Holds(Removed(t, p), Without(order, p)) <==> t[SLOTS - 1] == 0 || t[SLOTS - 1] == p
  {
    FrontOf(t, order);
    var j := FirstIndex(order, p);
    assert order[j] == p;
    assert FirstIndex(t, p) == j;
    var s, rest := Shifted(t, j), Without(order, p);
    ShiftedFront(t, order, j);
    if |order| < SLOTS {
      assert t[SLOTS - 1] == 0;
      assert forall k :: |rest| <= k < SLOTS ==> s[k] == 0;
    } else {
      assert t[SLOTS - 1] == order[SLOTS - 1] != 0;
      assert |rest| == SLOTS - 1 && s[SLOTS - 1] == if j == SLOTS - 1 then 0 else t[SLOTS - 1];
    }
  }

  lemma ShiftedFront(t: seq<int>, order: seq<int>, j: nat)
    requires Holds(t, order) && j < |order|
    ensures Shifted(t, j)[..|order| - 1] == order[..j] + order[j + 1..]
  {
    FrontOf(t, order);
    var s, rest := Shifted(t, j), order[..j] + order[j + 1..];
    forall k | 0 <= k < |rest| ensures s[k] == rest[k] {
      assert rest[k] == if k < j then order[k] else order[k + 1];
    }
  }
}

/** The storage area of a queue: `length` slots of `size` bytes each, used as a ring.  Offsets are
    byte offsets from pcHead, as the code keeps them. */
module QueueRing {
  import opened RingStorage
  import opened QueueSpec

  /** Byte offset of slot i. */
  function Off(i: nat, size: nat): nat { i * size }

  lemma OffNext(i: nat, size: nat)
    ensures Off(i + 1, size) == Off(i, size) + size
  {}

  lemma {:induction false} OffLess(i: nat, j: nat, size: nat)
    requires i < j
    ensures Off(i, size) + size <= Off(j, size)
    decreases j
  {
    OffNext(j - 1, size);
    if i < j - 1 { OffLess(i, j - 1, size); }
  }

  lemma OffOrder(i: nat, j: nat, size: nat)
    ensures i < j ==> Off(i, size) + size <= Off(j, size)
    ensures 0 < size ==> (Off(i, size) < Off(j, size) <==> i < j)
  {
    hide Off;
    if i < j { OffLess(i, j, size); } else if j < i { OffLess(j, i, size); }
  }

  /** The slot before slot i. */
  function Before(i: nat, length: nat): nat
    requires 0 < length
  {
    if i == 0 then length - 1 else i - 1
  }

  ghost predicate Storage(bytes: seq<Byte>, size: nat, length: nat) {
    0 < size && 0 < length && |bytes| == Off(length, size)
  }

  function Slot(bytes: seq<Byte>, size: nat, length: nat, i: nat): (d: Data)
    requires Storage(bytes, size, length) && i < length
    ensures |d| == size
  {
    OffOrder(i, length, size);
    bytes[Off(i, size)..Off(i, size) + size]
  }

  /** The items held, oldest first: `count` slots from slot `first` on, around the ring. */
  function Items(bytes: seq<Byte>, size: nat, length: nat, first: nat, count: nat): (s: seq<Data>)
    requires Storage(bytes, size, length) && first < length && count <= length
    ensures |s| == count
  {
    seq(count, k requires 0 <= k < count => Slot(bytes, size, length, Wrap(first + k, length)))
  }

  /** Only slot i differs, and now holds x. */
  ghost predicate Stored(before: seq<Byte>, bytes: seq<Byte>, size: nat, length: nat, i: nat, x: Data)
    requires Storage(before, size, length) && i < length
  {
    && |bytes| == |before|
    && Slot(bytes, size, length, i) == x
    && forall j :: 0 <= j < length && j != i ==> Slot(bytes, size, length, j) == Slot(before, size, length, j)
  }

  /** Writing `size` bytes at the offset of slot i stores there and nowhere else. */
  lemma StoredAt(before: seq<Byte>, bytes: seq<Byte>, size: nat, length: nat, i: nat, x: Data)
    requires Storage(before, size, length) && i < length && |x| == size && |bytes| == |before|
    requires Off(i, size) + size <= |before|
    requires bytes == before[..Off(i, size)] + x + before[Off(i, size) + size..]
    ensures Stored(before, bytes, size, length, i, x)
  {
    var a := Off(i, size);
    assert bytes[a..a + size] == x;
    forall j | 0 <= j < length && j != i ensures Slot(bytes, size, length, j) == Slot(before, size, length, j) {
      OffOrder(i, j, size);
      OffOrder(j, i, size);
      OffOrder(j, length, size);
      SliceOutside(before, bytes, a, x, Off(j, size), size);
    }
  }

  lemma SliceOutside(before: seq<Byte>, bytes: seq<Byte>, a: nat, x: Data, b: nat, n: nat)
    requires a + |x| <= |before| && bytes == before[..a] + x + before[a + |x|..] && b + n <= |before|
    requires b + n <= a || a + |x| <= b
    ensures bytes[b..b + n] == before[b..b + n]
  {
    forall k | b <= k < b + n ensures bytes[k] == before[k] {}
  }

  lemma AppendItem(before: seq<Byte>, bytes: seq<Byte>, size: nat, length: nat, first: nat, count: nat, x: Data)
    requires Storage(before, size, length) && first < length && count < length
    requires Stored(before, bytes, size, length, Wrap(first + count, length), x)
    ensures Items(bytes, size, length, first, count + 1) == Items(before, size, length, first, count) + [x]
  {
    hide Slot;
    var r := Items(bytes, size, length, first, count + 1);
    var s := Items(before, size, length, first, count) + [x];
    forall k | 0 <= k < count + 1 ensures r[k] == s[k] {
      if k < count { assert Wrap(first + k, length) != Wrap(first + count, length); }
    }
  }

  lemma PrependItem(before: seq<Byte>, bytes: seq<Byte>, size: nat, length: nat, first: nat, count: nat, x: Data)
    requires Storage(before, size, length) && first < length && count < length
    requires Stored(before, bytes, size, length, Before(first, length), x)
    ensures Items(bytes, size, length, Before(first, length), count + 1)
         == [x] + Items(before, size, length, first, count)
  {
    hide Slot;
    var r := Items(bytes, size, length, Before(first, length), count + 1);
    var s := [x] + Items(before, size, length, first, count);
    forall k | 0 <= k < count + 1 ensures r[k] == s[k] {
      if k > 0 { assert Wrap(Before(first, length) + k, length) == Wrap(first + (k - 1), length); }
    }
  }

  /** Overwriting the one item of a queue of length one. */
  lemma ReplaceItem(before: seq<Byte>, bytes: seq<Byte>, size: nat, x: Data)
    requires Storage(before, size, 1) && Stored(before, bytes, size, 1, 0, x)
    ensures Items(bytes, size, 1, 0, 1) == [x] + Items(before, size, 1, 0, 1)[1..]
  {
    hide Slot;
    var r := Items(bytes, size, 1, 0, 1);
    assert Wrap(0, 1) == 0 && r[0] == Slot(bytes, size, 1, 0) == x;
    assert r == [x] && Items(before, size, 1, 0, 1)[1..] == [];
  }

  lemma DropItem(bytes: seq<Byte>, size: nat, length: nat, first: nat, count: nat)
    requires Storage(bytes, size, length) && first < length && 0 < count <= length
    ensures Items(bytes, size, length, Wrap(first + 1, length), count - 1)
         == Items(bytes, size, length, first, count)[1..]
    ensures Items(bytes, size, length, first, count)[0] == Slot(bytes, size, length, first)
  {
    hide Slot;
    var r := Items(bytes, size, length, Wrap(first + 1, length), count - 1);
    var s := Items(bytes, size, length, first, count);
    assert Wrap(first + 0, length) == first;
    forall k | 0 <= k < count - 1 ensures r[k] == s[k + 1] {
      assert Wrap(Wrap(first + 1, length) + k, length) == Wrap(first + (k + 1), length);
    }
  }
}

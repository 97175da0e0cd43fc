/** list.c and list.h: the circular doubly linked list with items that carry their own links. */
module IntrusiveList {
  import opened MachineWord
  import opened ListOrder

  const MAX_DELAY: Tick := 0xffff_ffff

  class Item {
    var value: Tick
    var next: Item?
    var previous: Item?
    var owner: nat
    var container: List?

    /** vListInitialiseItem, with the owner and value set by their macros. */
    constructor (value: Tick, owner: nat)
      ensures this.value == value && this.owner == owner && container == null
    {
      this.value := value;
      this.owner := owner;
      container := null;
    }
  }

  // ------------------------------------------------------------------------------ chains of links

  ghost predicate Joined(p: seq<Item>, i: nat)
    requires i + 1 < |p|
    reads p
  {
    p[i].next == p[i + 1] && p[i + 1].previous == p[i]
  }

  /** Consecutive items point at each other, forwards and backwards. */
  ghost predicate Linked(p: seq<Item>)
    reads p
  {
    forall i: nat {:trigger Joined(p, i)} :: i + 1 < |p| ==> Joined(p, i)
  }

  lemma SplicedIn(p: seq<Item>, k: nat, x: Item)
    requires k + 1 < |p|
    requires forall i: nat {:trigger Joined(p, i)} :: i + 1 < |p| && i != k ==> Joined(p, i)
    requires p[k].next == x && x.previous == p[k] && x.next == p[k + 1] && p[k + 1].previous == x
    ensures Linked(InsertedAt(p, k + 1, x))
  {
    var q := InsertedAt(p, k + 1, x);
    forall i: nat | i + 1 < |q| ensures Joined(q, i) {
      if i < k {
        assert Joined(p, i);
      } else if i > k + 1 {
        assert Joined(p, i - 1);
      }
    }
  }

  lemma SplicedOut(p: seq<Item>, k: nat)
    requires 0 < k && k + 1 < |p|
    requires forall i: nat {:trigger Joined(p, i)} :: i + 1 < |p| && i != k && i != k - 1 ==> Joined(p, i)
    requires p[k - 1].next == p[k + 1] && p[k + 1].previous == p[k - 1]
    ensures Linked(RemovedAt(p, k))
  {
    var q := RemovedAt(p, k);
    forall i: nat | i + 1 < |q| ensures Joined(q, i) {
      if i < k - 1 {
        assert Joined(p, i);
      } else if i > k - 1 {
        assert Joined(p, i + 1);
      }
    }
  }

  // ------------------------------------------------------------------------------- sorted placing

  ghost predicate Sorted(s: seq<Item>)
    reads s
  {
    forall i, j :: 0 <= i < j < |s| ==> s[i].value <= s[j].value
  }

  /** Where vListInsert puts a value: before the first item with a greater one. */
  ghost function SortedPlace(s: seq<Item>, v: Tick): (j: nat)
    reads s
    ensures j <= |s|
    ensures forall i :: 0 <= i < j ==> s[i].value <= v
    ensures j < |s| ==> v < s[j].value
  {
    if s == [] || v < s[0].value then 0 else 1 + SortedPlace(s[1..], v)
  }

  lemma {:induction false} SortedPlaceIs(s: seq<Item>, v: Tick, j: nat)
    requires j <= |s|
    requires forall i :: 0 <= i < j ==> s[i].value <= v
    requires j < |s| ==> v < s[j].value
    ensures SortedPlace(s, v) == j
  {
    if j > 0 {
      assert s[0].value <= v;
      forall i | 0 <= i < j - 1 ensures s[1..][i].value <= v { assert s[1..][i] == s[i + 1]; }
      SortedPlaceIs(s[1..], v, j - 1);
    }
  }

  /** Insertion keeps a sorted list sorted, and is stable: every item not greater comes before. */
  lemma InsertionSorts(s: seq<Item>, x: Item)
    requires Sorted(s)
    ensures var j := SortedPlace(s, x.value);
      && Sorted(InsertedAt(s, j, x))
      && (forall i :: 0 <= i < |s| ==> (s[i].value <= x.value <==> i < j))
  {
    hide SortedPlace, InsertedAt;
    var j := SortedPlace(s, x.value);
    forall i | 0 <= i < |s| ensures s[i].value <= x.value <==> i < j {
      if j < i { assert s[j].value <= s[i].value; }
    }
    var t := InsertedAt(s, j, x);
    forall a, b | 0 <= a < b < |t| ensures t[a].value <= t[b].value {
      Ordered(s, j, x, a, b);
    }
  }

  lemma Ordered(s: seq<Item>, j: nat, x: Item, a: nat, b: nat)
    requires Sorted(s) && j <= |s| && a < b <= |s|
    requires forall i :: 0 <= i < |s| ==> (s[i].value <= x.value <==> i < j)
    ensures InsertedAt(s, j, x)[a].value <= InsertedAt(s, j, x)[b].value
  {
    var before := if a < j then s[a] else if a == j then x else s[a - 1];
    assert InsertedAt(s, j, x)[a] == before;
  }

  // -------------------------------------------------------------------------------------- the list

  class List {
    var count: nat
    var index: Item
    const end: Item
    ghost var items: seq<Item>
    ghost var at: nat                      // ring position the index rests on

    /** Links, container pointers, count and index all agree with the one ghost sequence. */
    ghost predicate Valid()
      reads this, items, end
    {
      && end.value == MAX_DELAY && count == |items|
      && end !in items && Distinct(items)
      && (forall x :: x in items ==> x.container == this)
      && Linked(Ring(end, items))
      && at <= |items| && index == Ring(end, items)[at]
    }

    /** The items in the order in which the walker will return them. */
    ghost function Order(): seq<Item>
      requires at <= |items|
      reads this
    {
      Visits(items, at)
    }

    /** vListInitialise */
    constructor ()
      ensures Valid() && items == [] && at == 0 && fresh(end)
    {
      var e := new Item(MAX_DELAY, 0);
      end := e;
      index := e;
      count := 0;
      items := [];
      at := 0;
      new;
      e.next := e;
      e.previous := e;
    }

    /** listSET_LIST_ITEM_VALUE, on an item of the list */
    method SetValue(x: Item, value: Tick)
      requires Valid() && x in items
      modifies x`value
      ensures Valid() && x.value == value
    {
      x.value := value;
      ghost var p := Ring(end, items);
      forall i: nat | i + 1 < |p| ensures Joined(p, i) { assert old(Joined(p, i)); }
    }

    /** vListInsertEnd */
    method InsertEnd(x: Item)
      requires Valid() && x !in items && x != end
      modifies this, items, end, x
      ensures Valid()
      ensures items == InsertedAt(old(items), EndPlace(|old(items)|, old(at)), x)
      ensures at == EndAt(old(at)) && index == old(index)
      ensures forall y :: y in items || y == end ==> y.value == old(y.value) && y.owner == old(y.owner)
    {
      hide Distinct, InsertedAt, EndPlace, EndAt, Ring;
      ghost var k := EndPlace(|items|, at);
      ghost var p := Ring(end, items);
      RingEnds(end, items);
      RingPlace(end, items, at);
      DistinctInserted(items, k, x);
      RingGrows(end, items, k, at, x);
      assert Joined(p, k);
      var here := index;
      x.next := here;
      x.previous := here.previous;
      here.previous.next := x;
      here.previous := x;
      x.container := this;
      count := count + 1;
      forall i: nat | i + 1 < |p| && i != k ensures Joined(p, i) {
        assert old(Joined(p, i));
        RingApart(end, items, i, k);
      }
      SplicedIn(p, k, x);
      items := InsertedAt(items, k, x);
      at := EndAt(at);
    }

    /** vListInsert */
    method Insert(x: Item)
      requires Valid() && x !in items && x != end
      modifies this, items, end, x
      ensures Valid()
      ensures items == InsertedAt(old(items), old(SortedPlace(items, x.value)), x)
      ensures index == old(index)
      ensures forall y :: y in items || y == end ==> y.value == old(y.value) && y.owner == old(y.owner)
    {
      hide Distinct, InsertedAt, SortedPlace;
      ghost var k := 0;
      ghost var p := Ring(end, items);
      var it: Item;
      if x.value == MAX_DELAY {
        k := |items|;
        assert Joined(p, k);
        it := end.previous;
      } else {
        it := end;
        assert Joined(p, 0);
        while it.next.value <= x.value
          invariant k <= |items| && it == p[k] && it.next == p[k + 1]
          invariant forall i :: 0 <= i < k ==> items[i].value <= x.value
          decreases |items| - k
        {
          k := k + 1;
          assert Joined(p, k);
          it := it.next;
        }
      }
      SortedPlaceIs(items, x.value, k);
      LinkAfter(it, x, k);
    }

    /** The linking steps at the end of vListInsert. */
    method LinkAfter(it: Item, x: Item, ghost k: nat)
      requires Valid() && x !in items && x != end
      requires k <= |items| && it == Ring(end, items)[k]
      modifies this, items, end, x
      ensures Valid()
      ensures items == InsertedAt(old(items), k, x)
      ensures index == old(index) && at == if old(at) <= k then old(at) else old(at) + 1
      ensures forall y :: y in items || y == end ==> y.value == old(y.value) && y.owner == old(y.owner)
    {
      hide Distinct, InsertedAt, Ring;
      RingEnds(end, items);
      ghost var p := Ring(end, items);
      assert Joined(p, k);
      DistinctInserted(items, k, x);
      RingGrows(end, items, k, at, x);
      x.next := it.next;
      x.next.previous := x;
      x.previous := it;
      it.next := x;
      x.container := this;
      count := count + 1;
      forall i: nat | i + 1 < |p| && i != k ensures Joined(p, i) {
        assert old(Joined(p, i));
        RingApart(end, items, i, k);
      }
      SplicedIn(p, k, x);
      items := InsertedAt(items, k, x);
      at := if at <= k then at else at + 1;
    }

    /** The first two steps of uxListRemove: the neighbours of the item are joined. */
    method Bypass(x: Item, ghost k: nat)
      requires Valid() && k < |items| && items[k] == x
      modifies items, end
      ensures Linked(RemovedAt(Ring(end, items), k + 1))
      ensures |Ring(end, items)| == |items| + 2 && x.previous == Ring(end, items)[k]
      ensures forall y :: y in items || y == end ==>
        y.value == old(y.value) && y.owner == old(y.owner) && y.container == old(y.container)
    {
      hide Distinct, RemovedAt, Ring;
      RingEnds(end, items);
      ghost var p := Ring(end, items);
      assert Joined(p, k) && Joined(p, k + 1);
      assert p[k] in p && p[k + 2] in p;
      x.next.previous := x.previous;
      x.previous.next := x.next;
      forall i: nat | i + 1 < |p| && i != k && i != k + 1 ensures Joined(p, i) {
        assert old(Joined(p, i));
        RingApart(end, items, i, k);
        RingApart(end, items, i, k + 1);
      }
      RingApart(end, items, k, k + 1);
      SplicedOut(p, k + 1);
    }

    /** The steps of uxListRemove on the list the item is in. */
    method Unlink(x: Item, ghost k: nat) returns (left: nat)
      requires Valid() && k < |items| && items[k] == x
      modifies this, items, end
      ensures Valid() && x.container == null && left == |items|
      ensures items == RemovedAt(old(items), k) && at == RemovedIndex(old(at), k)
      ensures forall y :: y in old(items) || y == end ==> y.value == old(y.value) && y.owner == old(y.owner)
    {
      hide Distinct, RemovedIndex, Ring;
      DistinctRemoved(items, k);
      RingShrinks(end, items, k, at);
      ghost var rest := RemovedAt(items, k);
      assert forall y :: y in rest ==> y in items && y != x;
      Bypass(x, k);
      ghost var q := Ring(end, RemovedAt(items, k));
      label Bypassed:
      if index == x {
        index := x.previous;
      }
      x.container := null;
      count := count - 1;
      left := count;
      items := rest;
      at := RemovedIndex(at, k);
      forall i: nat | i + 1 < |q| ensures Joined(q, i) {
        assert old@Bypassed(Joined(q, i));
      }
    }

    /** listGET_OWNER_OF_NEXT_ENTRY */
    method NextEntry() returns (owner: nat)
      requires Valid() && items != []
      modifies `index, `at
      ensures Valid()
      ensures at == NextAt(|items|, old(at))
      ensures owner == old(Order())[0].owner && index == old(Order())[0]
      ensures Order() == old(Order()[1..] + [Order()[0]])
    {
      assert Joined(Ring(end, items), at);
      index := index.next;
      if index == end {
        assert Joined(Ring(end, items), 0);
        index := index.next;
      }
      at := NextAt(|items|, at);
      owner := index.owner;
    }
  }

  /** uxListRemove: the item knows the list it is in. */
  method Remove(x: Item) returns (left: nat)
    requires x.container != null && x.container.Valid() && x in x.container.items
    modifies x.container, x.container.items, x.container.end
    ensures var list := old(x.container);
      && list.Valid() && x.container == null && left == |list.items|
      && list.items == Without(old(x.container.items), x)
      && list.Order() == Without(old(x.container.Order()), x)
      && (old(x.container.at) == 0 ==> list.at == 0)
    ensures forall y :: y in old(x.container.items) || y == old(x.container).end ==>
      y.value == old(y.value) && y.owner == old(y.owner)
  {
    hide Linked, Visits, Without, RemovedAt;
    var list := x.container;
    ghost var k :| 0 <= k < |list.items| && list.items[k] == x;
    WithoutAt(list.items, k);
    RemovalKeepsOrder(list.items, list.at, k);
    left := list.Unlink(x, k);
  }
}

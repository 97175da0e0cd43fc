/** event_groups.c on its own data: the bits and the intrusive list of waiting tasks. */
module EventObject {
  import opened MachineWord
  import opened ListOrder
  import opened IntrusiveList
  import opened EventSpec

  /** The items with the words their values stand for. */
  ghost function EntriesOf(items: seq<Item>): (r: seq<Entry<Item>>)
    reads items
    ensures |r| == |items|
    ensures forall i :: 0 <= i < |r| ==> r[i] == Entry(items[i], Word(items[i].value))
  {
    seq(|items|, i requires 0 <= i < |items| reads items => Entry(items[i], Word(items[i].value)))
  }

  lemma WhosConcat<T>(s: seq<Entry<T>>, t: seq<Entry<T>>)
    ensures Whos(s + t) == Whos(s) + Whos(t)
  {}

  lemma WhoOne<T>(e: Entry<T>)
    ensures Whos([e]) == [e.who]
  {}

  lemma NothingVisited<T>(s: seq<Entry<T>>, snapshot: Bits)
    ensures Kept(s[..0], snapshot) == [] && Freed(s[..0], snapshot) == [] && ClearMask(s[..0], snapshot) == {}
    ensures s == [] + s[0..] && Whos<T>([]) == []
  {}

  lemma WalkStep<T>(s: seq<Entry<T>>, k: nat, snapshot: Bits)
    requires k < |s|
    ensures var e, was, now := s[k], s[..k], s[..k + 1];
      && Kept(now, snapshot) == Kept(was, snapshot) + (if Satisfied(e.word, snapshot) then [] else [e])
      && Freed(now, snapshot) == Freed(was, snapshot) + (if Satisfied(e.word, snapshot) then [e] else [])
      && ClearMask(now, snapshot)
           == ClearMask(was, snapshot) + (if Satisfied(e.word, snapshot) then ClearedBy(e.word) else {})
  {
    hide Satisfied, ClearedBy;
    assert s[..k + 1][..k] == s[..k];
  }

  /** What one visit does to the entries, the released ones and the mask. */
  lemma TurnEntries<T>(s: seq<Entry<T>>, k: nat, snapshot: Bits)
    requires k < |s|
    ensures var e, kept, now := s[k], Kept(s[..k], snapshot), Kept(s[..k + 1], snapshot);
      && |kept + s[k..]| == |kept| + (|s| - k) && (kept + s[k..])[|kept|] == e
      && |now| == |kept| + (if Satisfied(e.word, snapshot) then 0 else 1)
      && now + s[k + 1..] == (if Satisfied(e.word, snapshot) then RemovedAt(kept + s[k..], |kept|) else kept + s[k..])
      && Whos(Freed(s[..k + 1], snapshot))
           == Whos(Freed(s[..k], snapshot)) + (if Satisfied(e.word, snapshot) then [e.who] else [])
      && ClearMask(s[..k + 1], snapshot)
           == ClearMask(s[..k], snapshot) + (if Satisfied(e.word, snapshot) then ClearedBy(e.word) else {})
  {
    hide Satisfied, Kept, Freed, ClearMask, ClearedBy, Whos;
    WalkStep(s, k, snapshot);
    var e, kept, freed, mask := s[k], Kept(s[..k], snapshot), Freed(s[..k], snapshot), ClearMask(s[..k], snapshot);
    if Satisfied(e.word, snapshot) {
      WhosConcat(freed, [e]);
      WhoOne(e);
      assert kept + [] == kept;
    } else {
      assert freed + [] == freed && Whos(freed) + [] == Whos(freed) && mask + {} == mask;
      assert kept + [e] + s[k + 1..] == kept + s[k..];
    }
  }

  lemma NextAfterRemoval<T>(s: seq<T>, end: T, j: nat)
    requires j < |s|
    ensures (RemovedAt(s, j) + [end])[j] == (s + [end])[j + 1]
  {}

  /** Removing an item leaves the others, and neither it nor what was not there. */
  lemma RemovedApart<T>(s: seq<T>, j: nat, others: seq<T>)
    requires j < |s| && Distinct(s) && forall x :: x in others ==> x !in s
    ensures forall x :: x in RemovedAt(s, j) ==> x in s
    ensures s[j] !in RemovedAt(s, j) && forall x :: x in others ==> x !in RemovedAt(s, j)
  {
    DistinctRemoved(s, j);
  }

  /** Some released entry asked for bit b, to be cleared on exit. */
  ghost predicate AskedToClear<T>(s: seq<Entry<T>>, snapshot: Bits, b: nat) {
    exists k :: 0 <= k < |s| && Satisfied(s[k].word, snapshot) && CLEAR_ON_EXIT in s[k].word
      && b in s[k].word && b !in CONTROL
  }

  lemma MaskAsked<T>(s: seq<Entry<T>>, snapshot: Bits, b: nat)
    ensures b in ClearMask(s, snapshot) <==> AskedToClear(s, snapshot, b)
  {
    hide ClearMask, Satisfied;
    MaskExact(s, snapshot, b);
  }

  class EventGroup {
    var bits: Bits
    const list: List

    ghost predicate Valid()
      reads this, list, list.items, list.end
    {
      list.Valid() && list.at == 0 && Plain(bits)
    }

    /** xEventGroupCreate */
    constructor ()
      ensures Valid() && bits == {} && list.items == []
    {
      bits := {};
      list := new List();
    }

    /** vTaskRemoveFromUnorderedEventList; the task itself becomes ready. */
    method Release(item: Item, word: Bits, ghost at: nat)
      requires list.Valid() && list.at == 0 && Fits(word)
      requires at < |list.items| && item == list.items[at]
      modifies list, list.items, list.end
      ensures list.Valid() && list.at == 0
      ensures list.items == RemovedAt(old(list.items), at) && item.container == null
      ensures Word(item.value) == word + {IN_USE}
      ensures EntriesOf(list.items) == RemovedAt(old(EntriesOf(list.items)), at)
    {
      hide Linked, Without, Word, EntriesOf, Distinct, Fits;
      ghost var s := EntriesOf(list.items);
      FitsMore(word);
      WordsAreNumbers(word + {IN_USE}, 0);
      WithoutAt(list.items, at);
      DistinctRemoved(list.items, at);
      list.SetValue(item, Number(word + {IN_USE}));
      var _ := Remove(item);
      assert EntriesOf(list.items) == RemovedAt(s, at);
    }

    lemma NextOf(item: Item, at: nat)
      requires Valid() && at < |list.items| && item == list.items[at]
      ensures item.next == (list.items + [list.end])[at + 1]
    {
      assert Joined(Ring(list.end, list.items), at + 1);
    }

    lemma FirstOf()
      requires Valid()
      ensures list.end.next == (list.items + [list.end])[0]
    {
      assert Joined(Ring(list.end, list.items), 0);
    }

    /** One visit of the walk in xEventGroupSetBits: the next pointer is saved before the item may
        leave the list. */
    method Visit(item: Item, ghost at: nat) returns (next: Item, found: bool, clear: Bits)
      requires Valid() && at < |list.items| && item == list.items[at]
      modifies list, list.items, list.end
      ensures Valid() && next == (old(list.items) + [list.end])[at + 1]
      ensures var s := old(EntriesOf(list.items));
        && found == Satisfied(s[at].word, bits) && clear == (if found then ClearedBy(s[at].word) else {})
        && EntriesOf(list.items) == if found then RemovedAt(s, at) else s
      ensures list.items == if found then RemovedAt(old(list.items), at) else old(list.items)
      ensures found ==> Word(item.value) == ReleaseWord(bits) && item.container == null
    {
      hide Linked, Word, Fits, RemovedAt;
      NextOf(item, at);
      next := item.next;
      var word := Word(item.value);
      var control, waited := word * CONTROL, word - CONTROL;
      found := false;
      clear := {};
      if WAIT_FOR_ALL !in control {
        if waited * bits != {} { found := true; }
      } else if waited * bits == waited {
        found := true;
      }
      if found {
        if CLEAR_ON_EXIT in control { clear := waited; }
        ReleaseFits(bits);
        Release(item, bits + {UNBLOCKED}, at);
      }
    }

    /** The walk has dealt with the first k of the entries s. */
    ghost predicate Walking(s: seq<Entry<Item>>, k: nat, item: Item?, mask: Bits, released: seq<Item>)
      reads this, list, list.items, list.end, released
    {
      Visited(s, k, item, mask, released) && Handed(released)
    }

    ghost predicate Visited(s: seq<Entry<Item>>, k: nat, item: Item?, mask: Bits, released: seq<Item>)
      reads this, list, list.items, list.end
    {
      && Valid() && k <= |s|
      && EntriesOf(list.items) == Kept(s[..k], bits) + s[k..]
      && item == (list.items + [list.end])[|Kept(s[..k], bits)|]
      && mask == ClearMask(s[..k], bits) && released == Whos(Freed(s[..k], bits))
    }

    /** The released items are off the list, and hold the snapshot. */
    ghost predicate Handed(released: seq<Item>)
      reads this, list, released
    {
      forall x :: x in released ==>
        (x !in list.items && x != list.end && Word(x.value) == ReleaseWord(bits) && x.container == null)
    }

    /** The next entry to visit is that of the next item. */
    lemma VisitedAt(s: seq<Entry<Item>>, k: nat, item: Item, mask: Bits, released: seq<Item>)
      requires Visited(s, k, item, mask, released) && item != list.end
      ensures k < |s| && |Kept(s[..k], bits)| < |list.items| && item == list.items[|Kept(s[..k], bits)|]
      ensures EntriesOf(list.items)[|Kept(s[..k], bits)|] == s[k]
    {
      hide Kept, Freed, ClearMask, Whos, Word, Linked, Distinct;
      assert |list.items| == |EntriesOf(list.items)|;
    }

    /** What one visit makes of the walk. */
    lemma VisitedOn(s: seq<Entry<Item>>, k: nat, items: seq<Item>, mask: Bits, released: seq<Item>,
                    next: Item, found: bool, clear: Bits)
      requires Valid() && k < |s| && |items| == |Kept(s[..k], bits) + s[k..]|
      requires mask == ClearMask(s[..k], bits) && released == Whos(Freed(s[..k], bits))
      requires var j, e := |Kept(s[..k], bits)|, Kept(s[..k], bits) + s[k..];
        && j < |items| && items[j] == s[k].who && next == (items + [list.end])[j + 1]
        && list.items == (if found then RemovedAt(items, j) else items)
        && EntriesOf(list.items) == (if found then RemovedAt(e, j) else e)
      requires found == Satisfied(s[k].word, bits) && clear == if found then ClearedBy(s[k].word) else {}
      ensures Visited(s, k + 1, next, mask + clear, if found then released + [s[k].who] else released)
    {
      hide Kept, Freed, ClearMask, Whos, Word, Satisfied, ClearedBy, Linked, RemovedAt, Distinct, EntriesOf, Plain;
      TurnEntries(s, k, bits);
      NextAfterRemoval(items, list.end, |Kept(s[..k], bits)|);
      assert released + [] == released;
    }

    /** Visiting entry k of the walk: a kept entry stays, a satisfied one leaves. */
    method Turn(item: Item, mask: Bits, released: seq<Item>, ghost s: seq<Entry<Item>>, ghost k: nat,
                ghost frame: set<object>)
      returns (next: Item, newMask: Bits, nowReleased: seq<Item>)
      requires Walking(s, k, item, mask, released) && item != list.end
      requires {list, list.end} <= frame && this !in frame
      requires forall x :: x in list.items ==> x in frame
      modifies frame
      ensures k < |s| && Walking(s, k + 1, next, newMask, nowReleased)
      ensures forall x :: x in list.items ==> x in frame
    {
      hide Kept, Freed, ClearMask, Whos, Word, Satisfied, ClearedBy, Linked, RemovedAt, Distinct, EntriesOf, Plain;
      VisitedAt(s, k, item, mask, released);
      ghost var j, items := |Kept(s[..k], bits)|, list.items;
      var found, clear;
      next, found, clear := Visit(item, j);
      newMask := mask + clear;
      nowReleased := if found then released + [item] else released;
      VisitedOn(s, k, items, mask, released, next, found, clear);
      RemovedApart(items, j, released);
    }

    lemma WalkingStarts()
      requires Valid()
      ensures list.end.next != null && Walking(EntriesOf(list.items), 0, list.end.next, {}, [])
    {
      hide Kept, Freed, ClearMask, Whos, Word, Linked, Distinct;
      FirstOf();
      NothingVisited(EntriesOf(list.items), bits);
    }

    /** The walk stops at the end marker, and only when every entry has been visited. */
    lemma WalkingEnds(s: seq<Entry<Item>>, k: nat, mask: Bits, released: seq<Item>)
      requires Walking(s, k, list.end, mask, released)
      ensures k == |s| && Valid() && EntriesOf(list.items) == Kept(s, bits)
      ensures mask == ClearMask(s, bits) && released == Whos(Freed(s, bits))
      ensures forall x :: x in released ==> Word(x.value) == ReleaseWord(bits) && x.container == null
    {
      hide Kept, Freed, ClearMask, Whos, Word, Linked, Distinct;
      assert |EntriesOf(list.items)| == |Kept(s[..k], bits)| + (|s| - k);
      assert s[..|s|] == s;
    }

    /** xEventGroupSetBits, up to the resumption of the scheduler; what it returns is read only then. */
    method SetBits(toSet: Bits) returns (released: seq<Item>)
      requires Valid() && Plain(toSet)
      modifies this, list, list.items, list.end
      ensures Valid()
      ensures var s, snapshot := old(EntriesOf(list.items)), old(bits) + toSet;
        && EntriesOf(list.items) == Kept(s, snapshot) && released == Whos(Freed(s, snapshot))
        && bits == snapshot - ClearMask(s, snapshot)
        && (forall b :: b in bits <==> b in snapshot && !AskedToClear(s, snapshot, b))
        && (forall x :: x in released ==> Word(x.value) == ReleaseWord(snapshot) && x.container == null)
    {
      hide Kept, Freed, ClearMask, Whos, Word, Satisfied, AskedToClear, ClearedBy, Walking, EntriesOf, Linked, Distinct;
      ghost var s := EntriesOf(list.items);
      ghost var frame: set<object> := {list, list.end} + set x | x in list.items;
      ghost var k := 0;
      bits := bits + toSet;
      WalkingStarts();
      var mask: Bits, item: Item := {}, list.end.next;
      released := [];
      while item != list.end
        invariant Walking(s, k, item, mask, released) && bits == old(bits) + toSet
        invariant forall x :: x in list.items ==> x in frame
        decreases |s| - k
      {
        item, mask, released := Turn(item, mask, released, s, k, frame);
        k := k + 1;
      }
      WalkingEnds(s, k, mask, released);
      forall b: nat ensures b in mask <==> AskedToClear(s, bits, b) { MaskAsked(s, bits, b); }
      bits := bits - mask;
    }

    /** The value that xEventGroupSetBits returns and xEventGroupGetBitsFromISR reads: the bits as they
        are when they are read. */
    method ReadBits() returns (value: Bits)
      requires Valid()
      ensures value == bits && Plain(value)
    {
      value := bits;
    }

    /** xEventGroupClearBits */
    method ClearBits(toClear: Bits) returns (before: Bits)
      requires Valid() && Plain(toClear)
      modifies `bits
      ensures Valid() && before == old(bits)
      ensures bits !! toClear && bits + (toClear * before) == before
    {
      before := bits;
      bits := bits - toClear;
    }

    /** vTaskPlaceOnUnorderedEventList: the calling task queues up behind all the others. */
    method Place(me: Item, word: Bits, ghost frame: set<object>)
      requires Valid() && me !in list.items && me != list.end && Fits(word)
      requires {list, list.end, me} <= frame && this !in frame
      requires forall x :: x in list.items ==> x in frame
      modifies frame
      ensures Valid() && bits == old(bits)
      ensures list.items == old(list.items) + [me]
      ensures EntriesOf(list.items) == old(EntriesOf(list.items)) + [Entry(me, word + {IN_USE})]
    {
      hide Linked, Word, Distinct;
      ghost var s := EntriesOf(list.items);
      WordsAreNumbers(word + {IN_USE}, 0);
      me.value := Number(word + {IN_USE});
      list.InsertEnd(me);
      assert EntriesOf(list.items) == s + [Entry(me, word + {IN_USE})];
    }

    /** xEventGroupWaitBits up to the point where it returns or the task blocks. */
    method WaitBits(me: Item, want: Bits, clear: bool, all: bool, mayBlock: bool)
      returns (blocked: bool, value: Bits)
      requires Valid() && me !in list.items && me != list.end && Plain(want) && want != {}
      modifies `bits, list, list.items, list.end, me
      ensures Valid()
      ensures TestWaitCondition(old(bits), want, all) ==>
        !blocked && value == old(bits) && bits == (if clear then old(bits) - want else old(bits))
      ensures !TestWaitCondition(old(bits), want, all) ==>
        bits == old(bits) && blocked == mayBlock && (mayBlock || value == bits)
      ensures EntriesOf(list.items) ==
        old(EntriesOf(list.items)) + (if blocked then [Entry(me, WaitWord(want, clear, all))] else [])
    {
      hide Word, TestWaitCondition;
      var current := bits;
      var control: Bits := {};
      blocked, value := false, current;
      if TestWaitCondition(current, want, all) {
        if clear { bits := bits - want; }
      } else if mayBlock {
        if clear { control := control + {CLEAR_ON_EXIT}; }
        if all { control := control + {WAIT_FOR_ALL}; }
        blocked := true;
        assert want + control + {IN_USE} == WaitWord(want, clear, all);
        Place(me, want + control, {list, list.end, me} + set x | x in list.items);
        value := {};
      }
    }

    /** xEventGroupSync up to the point where it returns or the task blocks. */
    method Sync(me: Item, toSet: Bits, want: Bits, mayBlock: bool)
      returns (blocked: bool, value: Bits, released: seq<Item>)
      requires Valid() && me !in list.items && me != list.end
      requires Plain(toSet) && Plain(want) && want != {}
      modifies this, list, list.items, list.end, me
      ensures Valid()
      ensures var s, snapshot := old(EntriesOf(list.items)), old(bits) + toSet;
        var left := snapshot - ClearMask(s, snapshot);
        && released == Whos(Freed(s, snapshot))
        && (want <= snapshot ==> !blocked && value == snapshot && bits == left - want)
        && (!(want <= snapshot) ==> bits == left && blocked == mayBlock && (mayBlock || value == left))
        && EntriesOf(list.items) ==
             Kept(s, snapshot) + (if blocked then [Entry(me, WaitWord(want, true, true))] else [])
    {
      hide Kept, Freed, ClearMask, Whos, Word;
      ghost var s := EntriesOf(list.items);
      ghost var before := list.items;
      ghost var frame: set<object> := {list, list.end, me} + set x | x in list.items;
      var original := bits;
      released := SetBits(toSet);
      KeptFrom(s, original + toSet, before);
      blocked := false;
      if (original + toSet) * want == want {
        assert want <= original + toSet;
        value := original + toSet;
        bits := bits - want;
      } else if mayBlock {
        blocked := true;
        assert want + {CLEAR_ON_EXIT} + {WAIT_FOR_ALL} + {IN_USE} == WaitWord(want, true, true);
        Place(me, want + {CLEAR_ON_EXIT} + {WAIT_FOR_ALL}, frame);
        value := {};
      } else {
        value := bits;
      }
    }

    lemma KeptFrom(s: seq<Entry<Item>>, snapshot: Bits, before: seq<Item>)
      requires EntriesOf(list.items) == Kept(s, snapshot)
      requires |s| == |before| && forall i :: 0 <= i < |s| ==> s[i].who == before[i]
      ensures forall x :: x in list.items ==> x in before
    {
      WalkExact(s, snapshot);
      forall x | x in list.items ensures x in before {
        var i :| 0 <= i < |list.items| && list.items[i] == x;
        assert EntriesOf(list.items)[i] in s;
      }
    }

    /** The tail of xEventGroupWaitBits, and with clear and all of xEventGroupSync: the task runs
        again, released or timed out, and gives its item its ordinary value back. */
    method Finish(me: Item, want: Bits, clear: bool, all: bool, ordinary: Tick) returns (value: Bits)
      requires Valid() && me !in list.items && me != list.end && Plain(want)
      modifies `bits, me`value
      ensures Valid() && Plain(value) && me.value == ordinary
      ensures var word := old(Word(me.value));
        && value == (if UNBLOCKED in word then word - CONTROL else old(bits))
        && bits == (if UNBLOCKED !in word && TestWaitCondition(value, want, all) && clear
                    then old(bits) - want else old(bits))
    {
      var word := Word(me.value);
      BitsAbove(me.value, 0);
      me.value := ordinary;
      value := word;
      if UNBLOCKED !in word {
        value := bits;
        if TestWaitCondition(value, want, all) {
          if clear { bits := bits - want; }
        }
      }
      value := value - CONTROL;
    }
  }

  lemma FitsMore(word: Bits)
    requires Fits(word)
    ensures Fits(word + {IN_USE})
  {}

  lemma ReleaseFits(bits: Bits)
    requires Plain(bits)
    ensures Fits(bits + {UNBLOCKED}) && bits + {UNBLOCKED} + {IN_USE} == ReleaseWord(bits)
  {}
}

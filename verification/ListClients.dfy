/** The sequences that timers and queues keep their items in are what the intrusive list keeps:
    their ordered insertion is vListInsert, seen through the values and owners of the items. */
module ListClients {
  import opened ListOrder
  import IntrusiveList
  import TimerState
  import QueueSpec

  ghost function TimerItems(s: seq<IntrusiveList.Item>): (r: seq<TimerState.Item>)
    reads s
    ensures |r| == |s|
  {
    if s == [] then [] else [TimerState.Item(s[0].value, s[0].owner)] + TimerItems(s[1..])
  }

  ghost function Waiters(s: seq<IntrusiveList.Item>): (r: seq<QueueSpec.Waiter>)
    reads s
    ensures |r| == |s|
  {
    if s == [] then [] else [QueueSpec.Waiter(s[0].owner, s[0].value)] + Waiters(s[1..])
  }

  lemma {:induction false} TimerInsertionIsListInsertion(s: seq<IntrusiveList.Item>, x: IntrusiveList.Item)
    ensures TimerItems(InsertedAt(s, IntrusiveList.SortedPlace(s, x.value), x))
      == TimerState.SortedInsert(TimerItems(s), TimerState.Item(x.value, x.owner))
    decreases s
  {
    var j := IntrusiveList.SortedPlace(s, x.value);
    var t := InsertedAt(s, j, x);
    if j == 0 {
      assert t[0] == x && t[1..] == s;
    } else {
      TimerInsertionIsListInsertion(s[1..], x);
      assert t[0] == s[0] && t[1..] == InsertedAt(s[1..], j - 1, x);
    }
  }

  lemma {:induction false} EventInsertionIsListInsertion(s: seq<IntrusiveList.Item>, x: IntrusiveList.Item)
    ensures Waiters(InsertedAt(s, IntrusiveList.SortedPlace(s, x.value), x))
      == QueueSpec.Enlist(Waiters(s), QueueSpec.Waiter(x.owner, x.value))
    decreases s
  {
    var j := IntrusiveList.SortedPlace(s, x.value);
    var t := InsertedAt(s, j, x);
    if j == 0 {
      assert t[0] == x && t[1..] == s;
    } else {
      EventInsertionIsListInsertion(s[1..], x);
      assert t[0] == s[0] && t[1..] == InsertedAt(s[1..], j - 1, x);
    }
  }
}

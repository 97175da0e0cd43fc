/** The co-routine scheduler of croutine.c: ready lists by priority, the two delayed lists behind
    pointers swapped at wrap-around, and the list of co-routines readied by interrupts. */
module CoRoutines {
  import opened MachineWord
  import opened ListOrder
  import opened TimerState
  import opened CoRoutineDelays
  import TimerDaemon

  /** A ready list: its items and the ring position its walker rests on. */
  datatype ReadyList = ReadyList(items: seq<int>, at: nat)

  ghost predicate Lists(ready: seq<ReadyList>) {
    forall p :: 0 <= p < |ready| ==> ready[p].at <= |ready[p].items|
  }

  /** vListInsertEnd on the ready list of the co-routine's priority. */
  function Readied(ready: seq<ReadyList>, p: nat, c: int): (r: seq<ReadyList>)
    requires p < |ready| && Lists(ready)
    ensures |r| == |ready| && Lists(r)
  {
    var l := ready[p];
    ready[p := ReadyList(InsertedAt(l.items, EndPlace(|l.items|, l.at), c), EndAt(l.at))]
  }

  ghost predicate Ranked(priority: map<int, nat>, cs: seq<int>, n: nat) {
    forall c :: c in cs ==> c in priority && priority[c] < n
  }

  /** All of these made ready, one after another. */
  function ReadiedAll(ready: seq<ReadyList>, priority: map<int, nat>, cs: seq<int>): (r: seq<ReadyList>)
    requires Ranked(priority, cs, |ready|) && Lists(ready)
    ensures |r| == |ready| && Lists(r)
    decreases |cs|
  {
    if cs == [] then ready else
      var c, rest := cs[|cs| - 1], cs[..|cs| - 1];
      assert c in cs && forall x :: x in rest ==> x in cs;
      Readied(ReadiedAll(ready, priority, rest), priority[c], c)
  }

  ghost predicate EmptyAbove(ready: seq<ReadyList>, top: nat) {
    forall p :: top < p < |ready| ==> ready[p].items == []
  }

  lemma ReadiedNone(ready: seq<ReadyList>, priority: map<int, nat>)
    requires Lists(ready)
    ensures Ranked(priority, [], |ready|) && ReadiedAll(ready, priority, []) == ready
  {}

  lemma ReadiedAllSnoc(ready: seq<ReadyList>, priority: map<int, nat>, cs: seq<int>, c: int)
    requires Ranked(priority, cs + [c], |ready|) && Lists(ready)
    ensures Ranked(priority, cs, |ready|) && c in priority && priority[c] < |ready|
    ensures ReadiedAll(ready, priority, cs + [c]) == Readied(ReadiedAll(ready, priority, cs), priority[c], c)
  {
    assert c in cs + [c];
    assert forall x :: x in cs ==> x in cs + [c];
    assert (cs + [c])[..|cs|] == cs;
  }

  /** A co-routine that has just been made ready is on the list of its priority, and nobody left. */
  lemma ReadiedHolds(ready: seq<ReadyList>, p: nat, c: int, q: nat)
    requires p < |ready| && q < |ready| && Lists(ready)
    ensures multiset(Readied(ready, p, c)[q].items)
         == multiset(ready[q].items) + (if q == p then multiset{c} else multiset{})
  {
    var l := ready[p];
    var j := EndPlace(|l.items|, l.at);
    assert l.items == l.items[..j] + l.items[j..];
  }

  /** And it takes its turn after every co-routine of its priority, but the one that ran last; the lists of
      the other priorities, and the turns on them, are untouched. */
  lemma ReadiedNearlyLast(ready: seq<ReadyList>, p: nat, c: int, q: nat)
    requires p < |ready| && q < |ready| && Lists(ready)
    ensures var v, l := Visits(ready[p].items, ready[p].at), Readied(ready, p, c)[p];
      Visits(l.items, l.at) ==
        if ready[p].at == 0 then v + [c] else v[..|v| - 1] + [c, ready[p].items[ready[p].at - 1]]
    ensures q != p ==> Readied(ready, p, c)[q] == ready[q]
  {
    AddedNearlyLast(ready[p].items, ready[p].at, c);
  }

  class Scheduler {
    var priority: map<int, nat>
    var ready: seq<ReadyList>
    var uxTopCoRoutineReadyPriority: nat
    var pxDelayed: TimerDaemon.TimerList
    var pxOverflow: TimerDaemon.TimerList
    var xCoRoutineTickCount: Tick
    var xLastTickCount: Tick
    var xPassedTicks: Tick
    var pending: seq<int>
    ghost var woken: seq<int>            // every co-routine woken by the tick count, in order

    ghost predicate Shape()
      reads this, pxDelayed, pxOverflow
    {
      && pxDelayed != pxOverflow
      && uxTopCoRoutineReadyPriority < |ready| && Lists(ready)
      && EmptyAbove(ready, uxTopCoRoutineReadyPriority)
      && RankedItems(priority, pxDelayed.items, |ready|) && RankedItems(priority, pxOverflow.items, |ready|)
      && Ranked(priority, pending, |ready|)
    }

    ghost predicate Valid()
      reads this, pxDelayed, pxOverflow
    {
      Shape() && xLastTickCount == xCoRoutineTickCount
    }

    ghost function Abs(): Delays
      reads this, pxDelayed, pxOverflow
    {
      Delays(pxDelayed.items, pxOverflow.items, xCoRoutineTickCount, woken)
    }

    /** prvInitialiseCoRoutineLists; `priority` is what the co-routines are created with. */
    constructor (priorities: nat, priority: map<int, nat>)
      requires 0 < priorities
      ensures Valid() && Abs() == Delays([], [], 0, []) && pending == []
      ensures ready == seq(priorities, p => ReadyList([], 0))
    {
      var list1 := new TimerDaemon.TimerList();
      var list2 := new TimerDaemon.TimerList();
      pxDelayed, pxOverflow := list1, list2;
      this.priority, ready, uxTopCoRoutineReadyPriority := priority, seq(priorities, p => ReadyList([], 0)), 0;
      xCoRoutineTickCount, xLastTickCount, xPassedTicks, pending, woken := 0, 0, 0, [], [];
    }

    /** prvAddCoRoutineToReadyQueue */
    method AddToReadyQueue(c: int)
      requires c in priority && priority[c] < |ready| && Lists(ready)
      requires uxTopCoRoutineReadyPriority < |ready| && EmptyAbove(ready, uxTopCoRoutineReadyPriority)
      modifies this`ready, this`uxTopCoRoutineReadyPriority
      ensures ready == Readied(old(ready), priority[c], c)
      ensures uxTopCoRoutineReadyPriority < |ready| && EmptyAbove(ready, uxTopCoRoutineReadyPriority)
    {
      if priority[c] > uxTopCoRoutineReadyPriority {
        uxTopCoRoutineReadyPriority := priority[c];
      }
      var l := ready[priority[c]];
      var j := if l.at == 0 then |l.items| else l.at - 1;
      var items := l.items[..j] + [c] + l.items[j..];
      ready := ready[priority[c] := ReadyList(items, if l.at == 0 then 0 else l.at + 1)];
    }

    /** prvCheckPendingReadyList: co-routines readied by interrupts leave the delayed lists.  Interrupts
        may ready more between the turns of the loop: arrivals[i] are those of turn i, and n is how
        many turns there were arrivals for. */
    method CheckPendingReadyList(arrivals: seq<seq<int>>) returns (ghost n: nat)
      requires Shape() && Ranked(priority, Flat(arrivals), |ready|)
      modifies this`ready, this`uxTopCoRoutineReadyPriority, this`pending, pxDelayed, pxOverflow
      ensures Shape() && pending == [] && n <= |arrivals|
      ensures var moved := old(pending) + Flat(arrivals[..n]);
        && Ranked(priority, moved, |old(ready)|) && Lists(old(ready))
        && ready == ReadiedAll(old(ready), priority, moved)
        && Abs() == UnblockAll(old(Abs()), moved)
    {
      hide Readied, ReadiedAll, UnblockAll, RankedItems, Ranked, EmptyAbove, Lists, Unlist, Flat;
      ReadiedNone(ready, priority);
      FlatFacts(arrivals, 0);
      UnblockNone(Abs());
      n := 0;
      var i := 0;
      ghost var all, k := pending, 0;
      while pending != []
        invariant n == i <= |arrivals| && all == old(pending) + Flat(arrivals[..i])
        invariant k <= |all| && pending == all[k..] && Shape() && |ready| == |old(ready)|
        invariant Ranked(priority, all[..k], |ready|) && ready == ReadiedAll(old(ready), priority, all[..k])
        invariant Abs() == UnblockAll(old(Abs()), all[..k])
        decreases |arrivals| - i, |pending|
      {
        var c := pending[0];
        assert all[..k + 1] == all[..k] + [c];
        HeadOfRanked(priority, pending, |ready|);
        RankedMore(priority, all[..k], c, |ready|);
        ReadiedAllSnoc(old(ready), priority, all[..k], c);
        UnblockAllSnoc(old(Abs()), all[..k], c);
        UnlistRanked(priority, pxDelayed.items, c, |ready|);
        UnlistRanked(priority, pxOverflow.items, c, |ready|);
        pending := pending[1..];
        pxDelayed.items := Unlist(pxDelayed.items, c);
        pxOverflow.items := Unlist(pxOverflow.items, c);
        AddToReadyQueue(c);
        k := k + 1;
        if i < |arrivals| {
          FlatFacts(arrivals, i);
          RankedConcat(priority, pending, arrivals[i], Flat(arrivals), |ready|);
          ghost var more := all + arrivals[i];
          assert more[..k] == all[..k] && more[k..] == all[k..] + arrivals[i];
          pending := pending + arrivals[i];
          all, i := more, i + 1;
          n := i;
        }
      }
      assert all[..k] == all;
    }

    /** The inner loop of prvCheckDelayedList. */
    method WakeExpired(ghost was: seq<ReadyList>, ghost before: nat)
      requires Shape() && before <= |woken| && |was| == |ready| && Lists(was)
      requires Ranked(priority, woken[before..], |was|) && ready == ReadiedAll(was, priority, woken[before..])
      modifies this`ready, this`uxTopCoRoutineReadyPriority, this`pending, this`woken, pxDelayed
      ensures Shape() && Abs() == WakeDue(old(Abs()))
      ensures old(woken) <= woken && |was| == |ready|
      ensures Ranked(priority, woken[before..], |was|) && ready == ReadiedAll(was, priority, woken[before..])
    {
      hide Readied, ReadiedAll, Lists, Ranked, RankedItems, EmptyAbove, Without, WakeDue;
      while pxDelayed.items != []
        invariant Shape() && WakeDue(Abs()) == WakeDue(old(Abs()))
        invariant old(woken) <= woken && |was| == |ready|
        invariant Ranked(priority, woken[before..], |was|) && ready == ReadiedAll(was, priority, woken[before..])
        decreases |pxDelayed.items|
      {
        var head := pxDelayed.items[0];
        WakeDueStep(Abs());
        HeadRanked(priority, pxDelayed.items, |ready|);
        if xCoRoutineTickCount < head.value { break; }
        var c := head.owner;
        assert (woken + [c])[before..] == woken[before..] + [c];
        RankedMore(priority, woken[before..], c, |was|);
        ReadiedAllSnoc(was, priority, woken[before..], c);
        WithoutRanked(priority, pending, c, |ready|);
        pxDelayed.items := pxDelayed.items[1..];
        pending := Without(pending, c);
        woken := woken + [c];
        AddToReadyQueue(c);
      }
      WakeDueStep(Abs());
    }

    /** One turn of the outer loop: the count moves on, the lists are swapped at a wrap. */
    method PassTick(ghost was: seq<ReadyList>, ghost before: nat)
      requires Shape() && before <= |woken| && |was| == |ready| && Lists(was)
      requires Ranked(priority, woken[before..], |was|) && ready == ReadiedAll(was, priority, woken[before..])
      modifies this`ready, this`uxTopCoRoutineReadyPriority, this`pending, this`woken, this`pxDelayed, this`pxOverflow,
               this`xCoRoutineTickCount, pxDelayed, pxOverflow
      ensures Shape() && {pxDelayed, pxOverflow} == old({pxDelayed, pxOverflow})
      ensures Abs() == OneTick(old(Abs()))
      ensures old(woken) <= woken && |was| == |ready|
      ensures Ranked(priority, woken[before..], |was|) && ready == ReadiedAll(was, priority, woken[before..])
    {
      hide Readied, ReadiedAll, RankedItems, EmptyAbove, WakeDue, Lists, Ranked, Add32;
      xCoRoutineTickCount := Add32(xCoRoutineTickCount, 1);
      if xCoRoutineTickCount == 0 {
        pxDelayed, pxOverflow := pxOverflow, pxDelayed;
      }
      WakeExpired(was, before);
    }

    /** prvCheckDelayedList; `tick` is what xTaskGetTickCount returns. */
    method CheckDelayedList(tick: Tick)
      requires Valid()
      modifies this`ready, this`uxTopCoRoutineReadyPriority, this`pending, this`woken, this`pxDelayed, this`pxOverflow,
               this`xCoRoutineTickCount, this`xLastTickCount, this`xPassedTicks, pxDelayed, pxOverflow
      ensures Valid() && {pxDelayed, pxOverflow} == old({pxDelayed, pxOverflow})
      ensures Abs() == CheckDelayed(old(Abs()), tick)
      ensures old(woken) <= woken && Lists(old(ready))
      ensures Ranked(priority, woken[|old(woken)|..], |old(ready)|)
      ensures ready == ReadiedAll(old(ready), priority, woken[|old(woken)|..])
    {
      hide Readied, ReadiedAll, RankedItems, EmptyAbove, WakeDue, Lists, Ranked, OneTick, Sub32;
      ReadiedNone(ready, priority);
      xPassedTicks := Sub32(tick, xLastTickCount);
      assert woken[|woken|..] == [];
      while xPassedTicks != 0
        invariant Shape() && {pxDelayed, pxOverflow} == old({pxDelayed, pxOverflow})
        invariant Pass(Abs(), xPassedTicks) == CheckDelayed(old(Abs()), tick)
        invariant old(woken) <= woken && |ready| == |old(ready)|
        invariant Ranked(priority, woken[|old(woken)|..], |old(ready)|)
        invariant ready == ReadiedAll(old(ready), priority, woken[|old(woken)|..])
        decreases xPassedTicks
      {
        xPassedTicks := xPassedTicks - 1;
        PassTick(old(ready), |old(woken)|);
      }
      xLastTickCount := xCoRoutineTickCount;
    }

    /** vCoRoutineAddToDelayedList: the running co-routine, item k of its ready list, leaves that list
        and is filed by wake time. */
    method AddToDelayedList(c: int, k: nat, xTicksToDelay: Tick)
      requires Valid() && c in priority && priority[c] < |ready|
      requires k < |ready[priority[c]].items| && ready[priority[c]].items[k] == c
      modifies this`ready, pxDelayed, pxOverflow
      ensures Valid() && Abs() == AddToDelayed(old(Abs()), c, xTicksToDelay)
      ensures var l := old(ready)[priority[c]];
        && l.at <= |l.items|
        && ready == old(ready)[priority[c] := ReadyList(RemovedAt(l.items, k), RemovedIndex(l.at, k))]
    {
      var l := ready[priority[c]];
      ready := ready[priority[c] := ReadyList(RemovedAt(l.items, k), RemovedIndex(l.at, k))];
      var xTimeToWake := Add32(xCoRoutineTickCount, xTicksToDelay);
      var item := Item(xTimeToWake, c);
      InsertRanked(priority, pxDelayed.items, item, |ready|);
      InsertRanked(priority, pxOverflow.items, item, |ready|);
      if xTimeToWake < xCoRoutineTickCount {
        pxOverflow.items := SortedInsert(pxOverflow.items, item);
      } else {
        pxDelayed.items := SortedInsert(pxDelayed.items, item);
      }
    }

    /** The selection at the end of vCoRoutineSchedule: a co-routine of the highest ready priority,
        the next in turn among its equals; none exactly when none is ready. */
    method Select() returns (ran: bool, c: int)
      requires Valid()
      modifies this`ready, this`uxTopCoRoutineReadyPriority
      ensures Valid() && |ready| == |old(ready)| && Abs() == old(Abs())
      ensures !ran ==> ready == old(ready) && forall p :: 0 <= p < |ready| ==> ready[p].items == []
      ensures ran ==> var top := uxTopCoRoutineReadyPriority;
        var l := old(ready)[top];
        && EmptyAbove(old(ready), top) && l.items != [] && l.at <= |l.items| && c == Visits(l.items, l.at)[0]
        && ready == old(ready)[top := ReadyList(l.items, NextAt(|l.items|, l.at))]
    {
      while ready[uxTopCoRoutineReadyPriority].items == []
        invariant Valid() && ready == old(ready) && Abs() == old(Abs())
        decreases uxTopCoRoutineReadyPriority
      {
        if uxTopCoRoutineReadyPriority == 0 { return false, 0; }
        uxTopCoRoutineReadyPriority := uxTopCoRoutineReadyPriority - 1;
      }
      var l := ready[uxTopCoRoutineReadyPriority];
      var at := NextAt(|l.items|, l.at);
      ready := ready[uxTopCoRoutineReadyPriority := ReadyList(l.items, at)];
      return true, l.items[at - 1];
    }

    /** vCoRoutineSchedule, up to the call of the co-routine chosen. */
    method Schedule(arrivals: seq<seq<int>>, tick: Tick)
      returns (ran: bool, c: int, ghost now: seq<ReadyList>, ghost moved: seq<int>)
      requires Valid() && Ranked(priority, Flat(arrivals), |ready|)
      modifies this`ready, this`uxTopCoRoutineReadyPriority, this`pending, this`woken, this`pxDelayed, this`pxOverflow,
               this`xCoRoutineTickCount, this`xLastTickCount, this`xPassedTicks, pxDelayed, pxOverflow
      ensures exists n :: 0 <= n <= |arrivals| && moved == old(pending) + Flat(arrivals[..n])
      ensures Valid() && Abs() == CheckDelayed(UnblockAll(old(Abs()), moved), tick)
      ensures old(woken) <= woken
      ensures Ranked(priority, moved, |old(ready)|) && Lists(old(ready))
      ensures Ranked(priority, woken[|old(woken)|..], |old(ready)|)
      ensures now == ReadiedAll(ReadiedAll(old(ready), priority, moved), priority, woken[|old(woken)|..])
      ensures ran <==> exists p :: 0 <= p < |now| && now[p].items != []
      ensures ran ==> var top := uxTopCoRoutineReadyPriority;
        && top < |now| && EmptyAbove(now, top) && now[top].items != [] && now[top].at <= |now[top].items|
        && c == Visits(now[top].items, now[top].at)[0]
        && ready == now[top := ReadyList(now[top].items, NextAt(|now[top].items|, now[top].at))]
    {
      hide ReadiedAll, Readied, WakeDue, CheckDelayed, UnblockAll, Ranked, RankedItems, Visits, Flat;
      ghost var before, was := Abs(), pending;
      ghost var n := CheckPendingReadyList(arrivals);
      moved := was + Flat(arrivals[..n]);
      UnblockAllWoken(before, moved);
      CheckDelayedList(tick);
      now := ready;
      ran, c := Select();
    }
  }

  lemma {:induction false} UnblockAllWoken(d: Delays, cs: seq<int>)
    ensures UnblockAll(d, cs).woken == d.woken && UnblockAll(d, cs).count == d.count
  {
    if cs != [] { UnblockAllWoken(d, cs[..|cs| - 1]); }
  }

  function UnblockAll(d: Delays, cs: seq<int>): Delays {
    if cs == [] then d else Unblock(UnblockAll(d, cs[..|cs| - 1]), cs[|cs| - 1])
  }

  /** What arrived, in order. */
  function Flat(arrivals: seq<seq<int>>): seq<int> {
    if arrivals == [] then [] else Flat(arrivals[..|arrivals| - 1]) + arrivals[|arrivals| - 1]
  }

  lemma {:induction false} FlatHolds(arrivals: seq<seq<int>>, i: nat)
    requires i < |arrivals|
    ensures forall x :: x in arrivals[i] ==> x in Flat(arrivals)
  {
    if i < |arrivals| - 1 {
      FlatHolds(arrivals[..|arrivals| - 1], i);
    }
  }

  lemma FlatFacts(arrivals: seq<seq<int>>, i: nat)
    ensures Flat(arrivals[..0]) == []
    ensures i < |arrivals| ==>
      && Flat(arrivals[..i + 1]) == Flat(arrivals[..i]) + arrivals[i]
      && forall x :: x in arrivals[i] ==> x in Flat(arrivals)
  {
    if i < |arrivals| {
      assert arrivals[..i + 1][..i] == arrivals[..i];
      FlatHolds(arrivals, i);
    }
  }

  lemma RankedConcat(priority: map<int, nat>, cs: seq<int>, ds: seq<int>, all: seq<int>, n: nat)
    requires Ranked(priority, cs, n) && Ranked(priority, all, n) && forall x :: x in ds ==> x in all
    ensures Ranked(priority, cs + ds, n)
  {}

  lemma HeadOfRanked(priority: map<int, nat>, cs: seq<int>, n: nat)
    requires cs != [] && Ranked(priority, cs, n)
    ensures cs[0] in priority && priority[cs[0]] < n && Ranked(priority, cs[1..], n)
  {
    var c, rest := cs[0], cs[1..];
    assert c in cs && forall x :: x in rest ==> x in cs;
    assert Ranked(priority, rest, n);
  }

  lemma UnblockNone(d: Delays)
    ensures UnblockAll(d, []) == d
  {}

  lemma UnblockAllSnoc(d: Delays, cs: seq<int>, c: int)
    ensures UnblockAll(d, cs + [c]) == Unblock(UnblockAll(d, cs), c)
  {
    assert (cs + [c])[..|cs|] == cs;
  }

  lemma WakeDueStep(d: Delays)
    ensures WakeDue(d) == if d.delayed == [] || d.count < d.delayed[0].value then d
      else WakeDue(d.(delayed := d.delayed[1..], woken := d.woken + [d.delayed[0].owner]))
  {}

  lemma HeadRanked(priority: map<int, nat>, s: seq<Item>, n: nat)
    requires s != [] && RankedItems(priority, s, n)
    ensures s[0].owner in priority && priority[s[0].owner] < n && RankedItems(priority, s[1..], n)
  {}

  lemma RankedMore(priority: map<int, nat>, cs: seq<int>, c: int, n: nat)
    requires Ranked(priority, cs, n) && c in priority && priority[c] < n
    ensures Ranked(priority, cs + [c], n)
  {}

  lemma WithoutRanked(priority: map<int, nat>, cs: seq<int>, c: int, n: nat)
    requires Ranked(priority, cs, n)
    ensures Ranked(priority, Without(cs, c), n)
  {
    if cs != [] {
      assert forall x :: x in cs[1..] ==> x in cs;
      WithoutRanked(priority, cs[1..], c, n);
      assert cs[0] in cs;
    }
  }

  lemma {:induction false} UnlistRanked(priority: map<int, nat>, s: seq<Item>, c: int, n: nat)
    requires RankedItems(priority, s, n)
    ensures RankedItems(priority, Unlist(s, c), n)
    decreases s
  {
    if s != [] { UnlistRanked(priority, s[1..], c, n); }
  }

  lemma {:induction false} InsertRanked(priority: map<int, nat>, s: seq<Item>, x: Item, n: nat)
    requires RankedItems(priority, s, n) && x.owner in priority && priority[x.owner] < n
    ensures RankedItems(priority, SortedInsert(s, x), n)
    decreases s
  {
    if s != [] { InsertRanked(priority, s[1..], x, n); }
  }

  ghost predicate RankedItems(priority: map<int, nat>, s: seq<Item>, n: nat) {
    forall k :: 0 <= k < |s| ==> s[k].owner in priority && priority[s[k].owner] < n
  }
}

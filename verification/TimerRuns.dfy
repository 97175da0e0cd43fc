/** Invariants of the timer daemon over every run, and the refinement carried through whole runs. */
module TimerRuns {
  import opened MachineWord
  import opened TimerState
  import opened TimerWorld
  import opened TimerRefine

  // ------------------------------------------------------------------ order and ownership

  ghost function Owners(s: seq<Entry>): multiset<int> {
    if s == [] then multiset{} else multiset{s[0].owner} + Owners(s[1..])
  }

  /** No timer is filed twice, in one list or across the two. */
  ghost predicate NoTwice(w: World) {
    forall t :: Owners(w.current)[t] + Owners(w.overflow)[t] <= 1
  }

  lemma {:induction false} OwnersFile(s: seq<Entry>, e: Entry)
    ensures Owners(File(s, e)) == Owners(s) + multiset{e.owner}
    decreases s
  {
    if s == [] || e.expiry < s[0].expiry {
      assert ([e] + s)[1..] == s;
    } else {
      OwnersFile(s[1..], e);
      assert File(s, e)[1..] == File(s[1..], e);
    }
  }

  lemma {:induction false} OwnersUnfile(s: seq<Entry>, t: int)
    ensures Owners(Unfile(s, t)) == Owners(s)[t := 0]
    decreases s
  {
    if s != [] {
      OwnersUnfile(s[1..], t);
      if s[0].owner != t { assert Unfile(s, t)[1..] == Unfile(s[1..], t); }
    }
  }

  lemma {:induction false} FileSorted(s: seq<Entry>, e: Entry)
    requires Sorted(s)
    ensures Sorted(File(s, e))
    decreases s
  {
    if s == [] || e.expiry < s[0].expiry {
      assert ([e] + s)[1..] == s;
    } else {
      FileSorted(s[1..], e);
      assert File(s, e)[1..] == File(s[1..], e);
    }
  }

  lemma {:induction false} UnfileSorted(s: seq<Entry>, t: int)
    requires Sorted(s)
    ensures Sorted(Unfile(s, t))
    ensures Unfile(s, t) != [] ==> s != [] && s[0].expiry <= Unfile(s, t)[0].expiry
    decreases s
  {
    if s != [] {
      UnfileSorted(s[1..], t);
      if s[0].owner != t { assert Unfile(s, t)[1..] == Unfile(s[1..], t); }
    }
  }

  // --------------------------------------------------------------------- the invariant

  /** No callback is early. */
  ghost predicate OnTime(fires: seq<Fire>) {
    forall k :: 0 <= k < |fires| ==> fires[k].expiry <= fires[k].at
  }

  ghost predicate Inv(w: World) {
    && Placed(w)
    && Sorted(w.current) && Sorted(w.overflow)
    && NoTwice(w)
    && OnTime(w.fires)
  }

  ghost predicate Active(w: World, e: Entry) { e in w.current || e in w.overflow }

  lemma InEpochs(w: World, e: Entry)
    requires Inv(w) && Active(w, e)
    ensures e in w.current <==> Epoch(e.expiry) == Epoch(w.last)
    ensures e in w.overflow <==> Epoch(e.expiry) == Epoch(w.last) + 1
  {}

  lemma {:induction false} OwnersMember(s: seq<Entry>, k: nat)
    requires k < |s|
    ensures Owners(s)[s[k].owner] > 0
    decreases s
  {
    if k > 0 { OwnersMember(s[1..], k - 1); }
  }

  lemma NotBoth(w: World, e: Entry, f: Entry)
    requires Inv(w) && e in w.current && f in w.overflow
    ensures e.owner != f.owner
  {
    var j :| 0 <= j < |w.current| && w.current[j] == e;
    var k :| 0 <= k < |w.overflow| && w.overflow[k] == f;
    OwnersMember(w.current, j);
    OwnersMember(w.overflow, k);
    assert Owners(w.current)[e.owner] + Owners(w.overflow)[e.owner] <= 1;
  }

  /** An active timer has one entry, in one list. */
  lemma OneEntry(w: World, e: Entry, f: Entry)
    requires Inv(w) && Active(w, e) && Active(w, f) && e.owner == f.owner
    ensures e == f
  {
    hide Placed, Sorted, Owners;
    if e in w.current && f in w.overflow {
      NotBoth(w, e, f);
    } else if e in w.overflow && f in w.current {
      NotBoth(w, f, e);
    } else {
      assert Owners(w.current)[e.owner] + Owners(w.overflow)[e.owner] <= 1;
      SingleEntry(if e in w.current then w.current else w.overflow, e, f);
    }
  }

  lemma {:induction false} SingleEntry(s: seq<Entry>, e: Entry, f: Entry)
    requires e in s && f in s && e.owner == f.owner && Owners(s)[e.owner] <= 1
    ensures e == f
    decreases s
  {
    if e != f {
      if s[0] == e || s[0] == f {
        var g := if s[0] == e then f else e;
        var k :| 0 <= k < |s[1..]| && s[1..][k] == g;
        OwnersMember(s[1..], k);
        assert false;
      } else {
        SingleEntry(s[1..], e, f);
      }
    }
  }

  // -------------------------------------------------------------- every step keeps it

  lemma FlushOnTime(w: World, now: nat)
    requires w.current != [] && w.current[0].owner in w.timers && w.current[0].expiry <= now && OnTime(w.fires)
    ensures OnTime(Flush(w, now).fires)
    ensures Flush(w, now).fires == w.fires + [Fire(w.current[0].owner, w.current[0].expiry, now)]
  {}

  lemma BeforeEpoch(x: nat, now: nat)
    requires Epoch(x) < Epoch(now)
    ensures x < now
  {
    if now <= x { EpochMonotone(now, x); }
  }

  lemma {:induction false} DrainAllOnTime(w: World, e: nat, now: nat)
    requires Filed(w.current, e, w.timers) && e < Epoch(now) && OnTime(w.fires)
    ensures OnTime(DrainAll(w, e, now).fires)
    decreases Distance(w.current)
  {
    hide Epoch, Flush, Distance, OnTime;
    if w.current != [] {
      BeforeEpoch(w.current[0].expiry, now);
      FlushFacts(w, now);
      FlushOnTime(w, now);
      DrainAllOnTime(Flush(w, now), e, now);
    }
  }

  lemma AdvanceKeeps(w: World, now: nat)
    requires Inv(w) && Timely(w, now)
    ensures Inv(Advance(w, now))
  {
    hide Epoch, Low, Sorted, OnTime, DrainAll, Owners;
    AdvanceRefines(w, now);
    assert Owners([]) == multiset{} && Sorted([]) by { EmptyList(); }
    if Epoch(now) > Epoch(w.last) {
      DrainAllOnTime(w, Epoch(w.last), now);
      forall t ensures Owners(w.overflow)[t] + Owners([])[t] <= 1 {
        assert Owners(w.current)[t] + Owners(w.overflow)[t] <= 1;
      }
    }
  }

  lemma EmptyList()
    ensures Owners([]) == multiset{} && Sorted([])
  {}

  lemma ScheduleKeepsInv(w: World, t: int, c: nat, now: nat)
    requires Inv(w) && w.last == now && t in w.timers && 0 < w.timers[t].period && Unfiled(w, t)
    requires c <= now < c + WORD_LIMIT
    ensures Inv(Schedule(w, t, c + w.timers[t].period, now).0)
  {
    hide Epoch, Low, Sorted, OnTime, Owners, File;
    var x := c + w.timers[t].period;
    ScheduleRefines(w, t, c, now);
    OwnersFile(w.current, Entry(x, t));
    OwnersFile(w.overflow, Entry(x, t));
    FileSorted(w.current, Entry(x, t));
    FileSorted(w.overflow, Entry(x, t));
    UnfiledOwners(w.current, t);
    UnfiledOwners(w.overflow, t);
    forall u ensures Owners(w.current)[u] + Owners(w.overflow)[u] + (if u == t then 1 else 0) <= 1 {
      assert Owners(w.current)[u] + Owners(w.overflow)[u] <= 1;
    }
  }

  lemma {:induction false} UnfiledOwners(s: seq<Entry>, t: int)
    requires forall k :: 0 <= k < |s| ==> s[k].owner != t
    ensures Owners(s)[t] == 0
    decreases s
  {
    if s != [] { UnfiledOwners(s[1..], t); }
  }

  lemma {:induction false} OwnersUnfiled(s: seq<Entry>, t: int)
    requires Owners(s)[t] == 0
    ensures forall k :: 0 <= k < |s| ==> s[k].owner != t
    decreases s
  {
    if s != [] { OwnersUnfiled(s[1..], t); }
  }

  lemma HeadTaken(w: World)
    requires Inv(w) && w.current != []
    ensures var w1 := w.(current := w.current[1..]);
      Inv(w1) && Unfiled(w1, w.current[0].owner)
  {
    hide Epoch, Low, OnTime, Owners;
    var rest := w.current[1..];
    HeadAlone(w);
    assert Filed(rest, Epoch(w.last), w.timers);
    OwnersUnfiled(rest, w.current[0].owner);
    OwnersUnfiled(w.overflow, w.current[0].owner);
  }

  lemma HeadAlone(w: World)
    requires NoTwice(w) && w.current != []
    ensures NoTwice(w.(current := w.current[1..]))
    ensures Owners(w.current[1..])[w.current[0].owner] == Owners(w.overflow)[w.current[0].owner] == 0
  {
    var t, rest := w.current[0].owner, w.current[1..];
    assert Owners(w.current) == multiset{t} + Owners(rest);
    forall u ensures Owners(rest)[u] + Owners(w.overflow)[u] + (if u == t then 1 else 0) <= 1 {
      assert Owners(w.current)[u] + Owners(w.overflow)[u] <= 1;
    }
  }

  lemma ExpireKeeps(w: World, now: nat)
    requires Inv(w) && w.last == now && w.current != [] && w.current[0].expiry <= now
    ensures Inv(Expire(w, now))
  {
    hide Epoch, Low, Sorted, OnTime, NoTwice, Schedule, Notify, Post, Filed, Unfiled;
    var t, x := w.current[0].owner, w.current[0].expiry;
    HeadOwner(w);
    HeadTaken(w);
    var w1 := w.(current := w.current[1..]);
    SameEpochAge(x, now);
    ScheduleKeepsInv(w1, t, x, now);
    ScheduleKeeps(w1, t, x + w.timers[t].period, now);
    var (e, due) := Schedule(w1, t, x + w.timers[t].period, now);
    PostInv(e, Order(Start, t, x));
    NotifyInv(w1, Fire(t, x, now));
    NotifyInv(e, Fire(t, x, now));
    NotifyInv(Post(e, Order(Start, t, x)), Fire(t, x, now));
  }

  lemma HeadOwner(w: World)
    requires Placed(w) && w.current != []
    ensures w.current[0].owner in w.timers && 0 < w.timers[w.current[0].owner].period
    ensures Epoch(w.current[0].expiry) == Epoch(w.last)
  {}

  lemma PostInv(w: World, o: Order)
    requires Inv(w)
    ensures Inv(Post(w, o)) && Post(w, o).last == w.last
  {
    hide Epoch, Low, Sorted, Filed;
  }

  lemma NotifyInv(w: World, f: Fire)
    requires Inv(w) && f.expiry <= f.at
    ensures Inv(Notify(w, f)) && Notify(w, f).last == w.last
  {
    hide Epoch, Low, Sorted, Filed;
  }

  lemma TurnKeeps(w: World, now: nat)
    requires Inv(w) && Timely(w, now)
    ensures Inv(Turn(w, now))
  {
    hide Epoch, Low, Sorted, OnTime, NoTwice, Expire, Advance;
    AdvanceKeeps(w, now);
    if Epoch(now) == Epoch(w.last) && w.current != [] && w.current[0].expiry <= now {
      AdvanceInEpoch(w, now);
      ExpireKeeps(Advance(w, now), now);
    }
  }

  lemma ObeyKeeps(w: World, o: Order, now: nat)
    requires Inv(w) && w.last == now && Acceptable(w, o, now) && Unfiled(w, o.timer)
    ensures Inv(Obey(w, o, now))
  {
    hide Epoch, Low, Sorted, OnTime, Owners, Schedule, Notify, Post;
    var t := o.timer;
    match o.kind
    case Start =>
      var x := o.value + w.timers[t].period;
      ScheduleKeepsInv(w, t, o.value, now);
      ScheduleKeeps(w, t, x, now);
      var (e, due) := Schedule(w, t, x, now);
      DueMeans(w, t, x, now);
      if due {
        NotifyInv(e, Fire(t, x, now));
        PostInv(Notify(e, Fire(t, x, now)), Order(Start, t, x));
      }
    case Stop =>
    case ChangePeriod =>
      LowSmall(o.value);
      var e := w.(timers := w.timers[t := w.timers[t].(period := Low(o.value))]);
      assert Placed(e);
      ScheduleKeepsInv(e, t, now, now);
    case Delete =>
  }

  lemma DueMeans(w: World, t: int, x: nat, now: nat)
    ensures Schedule(w, t, x, now).1 <==> x <= now
  {}

  lemma PickedKeeps(w: World)
    requires Inv(w) && w.queue != []
    ensures Inv(Picked(w)) && Unfiled(Picked(w), w.queue[0].timer)
  {
    hide Epoch, Low, Sorted, OnTime, Owners;
    var t := w.queue[0].timer;
    UnfileFiled(w.current, t, Epoch(w.last), w.timers);
    UnfileFiled(w.overflow, t, Epoch(w.last) + 1, w.timers);
    UnfileSorted(w.current, t);
    UnfileSorted(w.overflow, t);
    OwnersUnfile(w.current, t);
    OwnersUnfile(w.overflow, t);
    forall u ensures Owners(Unfile(w.current, t))[u] + Owners(Unfile(w.overflow, t))[u] <= 1 {
      assert Owners(w.current)[u] + Owners(w.overflow)[u] <= 1;
    }
  }

  lemma AdvanceUnfiled(w: World, t: int, now: nat)
    requires Placed(w) && Unfiled(w, t)
    ensures Unfiled(Advance(w, now), t)
  {}

  lemma AcceptKeeps(w: World, now: nat)
    requires Inv(w) && w.queue != [] && Timely(Picked(w), now) && Acceptable(w, w.queue[0], now)
    ensures Inv(Accept(w, now)) && Accept(w, now).last == now
  {
    hide Epoch, Low, Sorted, OnTime, NoTwice, Obey, Advance, Picked;
    PickedKeeps(w);
    AdvanceKeeps(Picked(w), now);
    AdvanceUnfiled(Picked(w), w.queue[0].timer, now);
    PickedFields(w);
    ObeyKeeps(Advance(Picked(w), now), w.queue[0], now);
    ObeyRefines(Advance(Picked(w), now), w.queue[0], now);
  }

  lemma PickedFields(w: World)
    requires w.queue != []
    ensures Picked(w).timers == w.timers && Picked(w).last == w.last && Picked(w).queue == w.queue[1..]
  {}

  /** One turn of the loop of prvProcessReceivedCommands. */
  lemma AcceptRefines(w: World, now: nat)
    requires Inv(w) && w.queue != [] && Timely(Picked(w), now) && Acceptable(w, w.queue[0], now)
    ensures Known(Wrap(w)) && Wrap(w).queue != [] && Wrap(w).queue[0].timer in Wrap(w).timers
    ensures Receive(Wrap(w), Low(now)) == Wrap(Accept(w, now))
  {
    hide Epoch, Low, Sorted, OnTime, NoTwice, Obey, Advance, Handle, Sample, WrapEntries;
    KnownWrap(w, Epoch(w.last), Epoch(w.last) + 1);
    PickedKeeps(w);
    WrapPicked(w);
    AdvanceRefines(Picked(w), now);
    AdvanceUnfiled(Picked(w), w.queue[0].timer, now);
    ObeyRefines(Advance(Picked(w), now), w.queue[0], now);
  }

  lemma WrapPicked(w: World)
    requires w.queue != []
    ensures Wrap(w).queue != [] && Taken(Wrap(w)) == Wrap(Picked(w))
  {
    hide Low, WrapEntries;
    WrapUnfile(w.current, w.queue[0].timer);
    WrapUnfile(w.overflow, w.queue[0].timer);
    assert WrapOrders(w.queue)[1..] == WrapOrders(w.queue[1..]);
  }

  // ---------------------------------------------------------------------- whole runs

  datatype Event =
    | TurnAt(now: nat)                   // the daemon's loop: next expiry, then process or block
    | AcceptAt(now: nat)                 // the daemon takes one command off its queue
    | Posted(orders: seq<Order>)         // tasks or interrupts post commands

  /** The hypotheses under which the daemon is meant to work. */
  ghost predicate Enabled(w: World, ev: Event) {
    match ev
    case TurnAt(now) => Timely(w, now)
    case AcceptAt(now) => w.queue != [] && Timely(Picked(w), now) && Acceptable(w, w.queue[0], now)
    case Posted(_) => true
  }

  ghost function Next(w: World, ev: Event): World
    requires Inv(w) && Enabled(w, ev)
  {
    match ev
    case TurnAt(now) => Turn(w, now)
    case AcceptAt(now) => Accept(w, now)
    case Posted(os) => w.(queue := Fitting(w.queue, os))
  }

  /** The same event as the wrapped daemon experiences it. */
  ghost function NextWrapped(d: State, ev: Event): State {
    if !Known(d) then d
    else match ev
      case TurnAt(now) => ProcessOrBlock(d, Low(now))
      case AcceptAt(now) => if d.queue != [] && d.queue[0].timer in d.timers then Receive(d, Low(now)) else d
      case Posted(os) => d.(queue := Fitting(d.queue, WrapOrders(os)))
  }

  lemma NextKeeps(w: World, ev: Event)
    requires Inv(w) && Enabled(w, ev)
    ensures Inv(Next(w, ev))
    ensures NextWrapped(Wrap(w), ev) == Wrap(Next(w, ev))
  {
    hide Epoch, Low, Sorted, OnTime, NoTwice, Turn, Accept, ProcessOrBlock, Receive, Fitting,
         WrapEntries, WrapOrders, Known;
    KnownWrap(w, Epoch(w.last), Epoch(w.last) + 1);
    match ev
    case TurnAt(now) =>
      TurnKeeps(w, now);
      TurnRefines(w, now);
    case AcceptAt(now) =>
      AcceptKeeps(w, now);
      AcceptRefines(w, now);
    case Posted(os) =>
      WrapFitting(w.queue, os);
      QueueOnly(w, Fitting(w.queue, os));
  }

  lemma QueueOnly(w: World, q: seq<Order>)
    requires Inv(w)
    ensures Inv(w.(queue := q))
  {}

  ghost predicate EnabledRun(w: World, evs: seq<Event>)
    requires Inv(w)
    decreases |evs|
  {
    evs == [] ||
    (Enabled(w, evs[0]) && (NextKeeps(w, evs[0]); EnabledRun(Next(w, evs[0]), evs[1..])))
  }

  ghost function Run(w: World, evs: seq<Event>): World
    requires Inv(w) && EnabledRun(w, evs)
    decreases |evs|
  {
    if evs == [] then w else NextKeeps(w, evs[0]); Run(Next(w, evs[0]), evs[1..])
  }

  ghost function RunWrapped(d: State, evs: seq<Event>): State
    decreases |evs|
  {
    if evs == [] then d else RunWrapped(NextWrapped(d, evs[0]), evs[1..])
  }

  /** In every reachable state the wrapped daemon is the image of the unbounded-time daemon, and
      the unbounded-time daemon's lists are sorted, disjoint, split by epoch, and never early. */
  lemma {:induction false} RunRefines(w: World, evs: seq<Event>)
    requires Inv(w) && EnabledRun(w, evs)
    ensures Inv(Run(w, evs))
    ensures RunWrapped(Wrap(w), evs) == Wrap(Run(w, evs))
    decreases |evs|
  {
    hide Inv, Enabled, Next, NextWrapped, Wrap;
    if evs != [] {
      NextKeeps(w, evs[0]);
      RunRefines(Next(w, evs[0]), evs[1..]);
    }
  }

  /** A daemon that has just been created. */
  ghost predicate Fresh(w: World) {
    w.current == [] && w.overflow == [] && w.queue == [] && w.last == 0 && w.fires == [] && !w.failed
  }

  lemma FreshInv(w: World)
    requires Fresh(w)
    ensures Inv(w)
  {}

  // --------------------------------------------------------- draining the ended epoch

  /** In every state a daemon can reach, the current list holds exactly the active timers that expire
      in the epoch of the last sample and the overflow list exactly those of the next; both are
      sorted, and a timer has one entry, in one list. */
  lemma ListsExact(w: World, evs: seq<Event>, e: Entry, f: Entry)
    requires Fresh(w)
    ensures Inv(w)
    ensures EnabledRun(w, evs) ==> var r := Run(w, evs);
      && (e in r.current <==> Active(r, e) && Epoch(e.expiry) == Epoch(r.last))
      && (e in r.overflow <==> Active(r, e) && Epoch(e.expiry) == Epoch(r.last) + 1)
      && Sorted(r.current) && Sorted(r.overflow)
      && (Active(r, e) && Active(r, f) && e.owner == f.owner ==> e == f)
  {
    hide Enabled, Next, EnabledRun, Run, Sorted, Owners, OnTime, Epoch;
    FreshInv(w);
    if EnabledRun(w, evs) {
      RunRefines(w, evs);
      var r := Run(w, evs);
      if Active(r, e) {
        InEpochs(r, e);
        if Active(r, f) && e.owner == f.owner { OneEntry(r, e, f); }
      }
    }
  }

  /** In order of expiry, starting no earlier than `from`. */
  ghost predicate InOrder(fs: seq<Fire>, from: nat) {
    fs == [] || (from <= fs[0].expiry && InOrder(fs[1..], fs[0].expiry))
  }

  lemma {:induction false} FileHead(s: seq<Entry>, e: Entry, low: nat)
    requires Sorted(s) && low <= e.expiry && (s != [] ==> low <= s[0].expiry)
    ensures File(s, e) != [] && low <= File(s, e)[0].expiry
  {}

  ghost predicate SomeFire(fs: seq<Fire>, e: Entry) {
    exists k :: 0 <= k < |fs| && fs[k].timer == e.owner && fs[k].expiry == e.expiry
  }

  /** Draining makes the callbacks of the ended epoch in order of expiry, misses no entry that was
      filed, and leaves nothing behind, although auto-reload timers are put back into the very
      list being drained. */
  lemma {:induction false} DrainInOrder(w: World, e: nat, now: nat) returns (made: seq<Fire>)
    requires Filed(w.current, e, w.timers) && Sorted(w.current)
    ensures DrainAll(w, e, now).fires == w.fires + made && DrainAll(w, e, now).current == []
    ensures w.current != [] ==> InOrder(made, w.current[0].expiry)
    ensures w.current == [] ==> made == []
    ensures forall k :: 0 <= k < |made| ==> Epoch(made[k].expiry) == e && made[k].at == now
    ensures forall x :: x in w.current ==> SomeFire(made, x)
    decreases Distance(w.current)
  {
    hide Epoch, Sorted, Distance, DrainAll, Flush;
    if w.current == [] {
      made := [];
      DrainNothing(w, e, now);
    } else {
      var t, x := w.current[0].owner, w.current[0].expiry;
      FlushFacts(w, now);
      var w1 := Flush(w, now);
      FlushSorted(w, now);
      FlushKeepsRest(w, now);
      var rest := DrainInOrder(w1, e, now);
      made := [Fire(t, x, now)] + rest;
      DrainStep(w, e, now);
      FlushFires(w, now);
      assert w1.fires + rest == w.fires + made;
      assert made[1..] == rest;
      forall y | y in w.current ensures SomeFire(made, y) {
        if y == w.current[0] {
          assert made[0].timer == y.owner;
        } else {
          assert y in w1.current;
          var k :| 0 <= k < |rest| && rest[k].timer == y.owner && rest[k].expiry == y.expiry;
          assert made[k + 1] == rest[k];
        }
      }
      OrderFrom(rest, w1, x);
    }
  }

  lemma OrderFrom(rest: seq<Fire>, w: World, x: nat)
    requires w.current != [] ==> x <= w.current[0].expiry && InOrder(rest, w.current[0].expiry)
    requires w.current == [] ==> rest == []
    ensures InOrder(rest, x)
  {}

  lemma DrainNothing(w: World, e: nat, now: nat)
    requires Filed(w.current, e, w.timers) && w.current == []
    ensures DrainAll(w, e, now) == w
  {}

  lemma DrainStep(w: World, e: nat, now: nat)
    requires Filed(w.current, e, w.timers) && w.current != []
    ensures Filed(Flush(w, now).current, e, Flush(w, now).timers)
    ensures DrainAll(w, e, now) == DrainAll(Flush(w, now), e, now)
  {
    FlushFacts(w, now);
  }

  lemma FlushFires(w: World, now: nat)
    requires w.current != [] && w.current[0].owner in w.timers
    ensures Flush(w, now).fires == w.fires + [Fire(w.current[0].owner, w.current[0].expiry, now)]
  {}

  lemma FlushSorted(w: World, now: nat)
    requires w.current != [] && Sorted(w.current) && w.current[0].owner in w.timers
    ensures Sorted(Flush(w, now).current)
    ensures Flush(w, now).current != [] ==> w.current[0].expiry <= Flush(w, now).current[0].expiry
  {
    var t, x := w.current[0].owner, w.current[0].expiry;
    var reload := Entry(x + w.timers[t].period, t);
    FileSorted(w.current[1..], reload);
    FileHead(w.current[1..], reload, x);
  }

  lemma FlushKeepsRest(w: World, now: nat)
    requires w.current != [] && w.current[0].owner in w.timers
    ensures forall y :: y in w.current && y != w.current[0] ==> y in Flush(w, now).current
  {
    var t, x := w.current[0].owner, w.current[0].expiry;
    FileMembers(w.current[1..], Entry(x + w.timers[t].period, t));
  }

  lemma {:induction false} FileMembers(s: seq<Entry>, e: Entry)
    ensures forall x :: x in File(s, e) <==> x == e || x in s
    decreases s
  {
    if s != [] && s[0].expiry <= e.expiry { FileMembers(s[1..], e); }
  }

  // ---------------------------------------------------------------------- blocking

  /** The daemon never sleeps past an active timer: a finite block ends exactly at the earliest
      expiry of the current epoch, or else at or before the roll-over; it waits for ever only with
      nothing active, and never while a command is queued or an expiry is due. */
  lemma BlockTimeExact(w: World, now: nat)
    requires Inv(w) && Timely(w, now)
    ensures Known(Wrap(w))
    ensures match BlockTime(Wrap(w), Low(now))
      case WaitForever => Idle(Advance(w, now)) && Advance(w, now).queue == []
      case WaitTicks(n) =>
        && Advance(w, now) == w.(last := now) && w.queue == [] && !Idle(w)
        && (forall e :: Active(w, e) ==> now + n <= e.expiry)
        && (w.current != [] ==> n > 0 && now + n == w.current[0].expiry)
        && (w.current == [] ==> Low(now + n) == 0)
      case NoWait => true
    ensures w.queue == [] && !Idle(w) && Epoch(now) == Epoch(w.last) && (forall e :: Active(w, e) ==> now < e.expiry)
      ==> BlockTime(Wrap(w), Low(now)).WaitTicks?
    ensures w.queue == [] && Idle(w) && Epoch(now) == Epoch(w.last) ==> BlockTime(Wrap(w), Low(now)).WaitForever?
  {
    hide Epoch, Low, Sorted, OnTime, NoTwice, Sample, Advance, Owners, WrapEntries, Known;
    AdvanceRefines(w, now);
    EpochMonotone(w.last, now);
    WrapOwners(w.current);
    WrapOwners(w.overflow);
    if Idle(w) {
      IdleSample(w, now);
      if Epoch(now) == Epoch(w.last) { IdleWaits(w, now); }
    } else if Epoch(now) == Epoch(w.last) {
      AdvanceInEpoch(w, now);
      if w.current != [] {
        assert Active(w, w.current[0]);
        HeadWait(w, now);
      } else {
        assert Active(w, w.overflow[0]);
        RollWait(w, now);
      }
    }
  }

  lemma IdleSample(w: World, now: nat)
    requires Idle(w)
    ensures Placed(w) ==> Advance(w, now) == w.(last := now)
    ensures Known(Wrap(w)) && Sample(Wrap(w), Low(now)).0 == Wrap(w).(last := Low(now))
  {}

  lemma IdleWaits(w: World, now: nat)
    requires Idle(w) && w.last <= now && Epoch(now) == Epoch(w.last) && Known(Wrap(w))
    ensures !Sample(Wrap(w), Low(now)).1
  {
    hide Epoch, Low, WrapEntries;
    Compare(now, w.last);
  }

  lemma HeadWait(w: World, now: nat)
    requires Inv(w) && Epoch(now) == Epoch(w.last) && w.current != []
    ensures Low(w.current[0].expiry) <= Low(now) <==> w.current[0].expiry <= now
    ensures now < w.current[0].expiry ==>
      && now + Sub32(Low(w.current[0].expiry), Low(now)) == w.current[0].expiry
      && forall e :: Active(w, e) ==> w.current[0].expiry <= e.expiry
  {
    hide Epoch, Low, Sorted, OnTime, NoTwice, Sub32;
    var x := w.current[0].expiry;
    Compare(x, now);
    if now < x {
      SameEpochAge(now, x);
      SubLow(x, now);
      forall e | Active(w, e) ensures x <= e.expiry {
        if e in w.current {
          var k :| 0 <= k < |w.current| && w.current[k] == e;
          SortedHead(w.current, k);
        } else {
          BeforeEpoch(x, e.expiry);
        }
      }
    }
  }

  lemma RollWait(w: World, now: nat)
    requires Inv(w) && Epoch(now) == Epoch(w.last) && w.current == []
    ensures Low(now + Sub32(0, Low(now))) == 0
    ensures forall e :: Active(w, e) ==> now + Sub32(0, Low(now)) <= e.expiry
  {
    hide Sorted, OnTime, NoTwice, Epoch, Low;
    var n := Sub32(0, Low(now));
    Split(now);
    var b := Epoch(now) * WORD_LIMIT + Low(now) + n;
    if Low(now) == 0 { EpochFrom(now + n, Epoch(now), 0); } else { EpochFrom(now + n, Epoch(now) + 1, 0); }
    forall e | Active(w, e) ensures now + n <= e.expiry {
      Split(e.expiry);
    }
  }
}

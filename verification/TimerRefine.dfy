/** The wrapped daemon computes exactly what the unbounded-time daemon computes. */
module TimerRefine {
  import opened MachineWord
  import opened TimerState
  import opened TimerWorld

  // ------------------------------------------------------------------ wrapping a world

  function WrapEntry(e: Entry): Item { Item(Low(e.expiry), e.owner) }

  function WrapEntries(s: seq<Entry>): seq<Item> {
    if s == [] then [] else [WrapEntry(s[0])] + WrapEntries(s[1..])
  }

  function WrapOrders(s: seq<Order>): seq<Command> {
    seq(|s|, k requires 0 <= k < |s| => Command(s[k].kind, s[k].timer, Low(s[k].value)))
  }

  function WrapScript(s: seq<seq<Order>>): seq<seq<Command>> {
    seq(|s|, k requires 0 <= k < |s| => WrapOrders(s[k]))
  }

  function WrapFires(s: seq<Fire>): seq<int> {
    seq(|s|, k requires 0 <= k < |s| => s[k].timer)
  }

  function Wrap(w: World): State {
    State(WrapEntries(w.current), WrapEntries(w.overflow), w.timers, WrapOrders(w.queue), Low(w.last),
          WrapFires(w.fires), w.failed, WrapScript(w.script))
  }

  // ----------------------------------------------------------------- modular arithmetic

  lemma Split(x: nat)
    ensures x == Epoch(x) * WORD_LIMIT + Low(x)
  {}

  lemma EpochFrom(x: nat, e: nat, l: int)
    requires x == e * WORD_LIMIT + l && 0 <= l < WORD_LIMIT
    ensures Epoch(x) == e && Low(x) == l
  {}

  /** Wrapped addition of less than one full wrap either stays in the epoch or enters the next. */
  lemma AddLow(x: nat, p: Tick)
    ensures Low(x + p) == Add32(Low(x), p)
    ensures if Low(x) + p < WORD_LIMIT
      then Epoch(x + p) == Epoch(x) && Low(x + p) == Low(x) + p
      else Epoch(x + p) == Epoch(x) + 1 && Low(x + p) == Low(x) + p - WORD_LIMIT
  {
    Split(x);
    if Low(x) + p < WORD_LIMIT { EpochFrom(x + p, Epoch(x), Low(x) + p); }
    else { EpochFrom(x + p, Epoch(x) + 1, Low(x) + p - WORD_LIMIT); }
  }

  /** Wrapped subtraction recovers any age below one full wrap. */
  lemma SubLow(now: nat, c: nat)
    requires c <= now < c + WORD_LIMIT
    ensures Sub32(Low(now), Low(c)) == now - c
    ensures Epoch(now) == if Low(now) < Low(c) then Epoch(c) + 1 else Epoch(c)
  {
    AddLow(c, now - c);
  }

  lemma Compare(x: nat, y: nat)
    requires Epoch(x) == Epoch(y)
    ensures x < y <==> Low(x) < Low(y)
    ensures x <= y <==> Low(x) <= Low(y)
  {
    Split(x);
    Split(y);
  }

  lemma EpochMonotone(x: nat, y: nat)
    requires x <= y
    ensures Epoch(x) <= Epoch(y)
  {}

  /** The heart of prvInsertTimerInActiveList: for every command time c, period p and current
      time less than one wrap after c, the wrapped comparisons decide exactly whether the
      absolute expiry c + p is already due, lies in the current epoch, or lies in the next. */
  lemma Classify(c: nat, p: Tick, now: nat)
    requires 0 < p && c <= now < c + WORD_LIMIT
    ensures var x, next := c + p, Add32(Low(c), p);
      && next == Low(x)
      && (x <= now <==> if next <= Low(now) then Sub32(Low(now), Low(c)) >= p else Low(now) < Low(c) && next >= Low(c))
      && (x > now ==> (next > Low(now) <==> Epoch(x) == Epoch(now)))
      && (x > now ==> (next <= Low(now) <==> Epoch(x) == Epoch(now) + 1))
  {
    hide Low, Epoch, Add32, Sub32;
    AddLow(c, p);
    SubLow(now, c);
    Split(c);
    Split(now);
    Split(c + p);
  }

  // ------------------------------------------------------------------------- the lists

  ghost predicate InEpoch(s: seq<Entry>, e: nat) {
    forall k :: 0 <= k < |s| ==> Epoch(s[k].expiry) == e
  }

  lemma {:induction false} WrapFile(s: seq<Entry>, x: Entry, e: nat)
    requires InEpoch(s, e) && Epoch(x.expiry) == e
    ensures WrapEntries(File(s, x)) == SortedInsert(WrapEntries(s), WrapEntry(x))
    decreases s
  {
    hide Epoch, Low;
    if s != [] {
      Compare(x.expiry, s[0].expiry);
      assert WrapEntries(s)[1..] == WrapEntries(s[1..]);
      if x.expiry < s[0].expiry {
        assert ([x] + s)[1..] == s;
      } else {
        assert InEpoch(s[1..], e);
        WrapFile(s[1..], x, e);
        assert File(s, x)[1..] == File(s[1..], x);
      }
    } else {
      assert [x][1..] == [];
      assert File(s, x) == [x] && WrapEntries([x]) == [WrapEntry(x)] + WrapEntries([]);
    }
  }

  lemma {:induction false} WrapUnfile(s: seq<Entry>, t: int)
    ensures WrapEntries(Unfile(s, t)) == Unlist(WrapEntries(s), t)
    decreases s
  {
    hide Low;
    if s != [] {
      WrapUnfile(s[1..], t);
      assert WrapEntries(s)[1..] == WrapEntries(s[1..]);
      if s[0].owner != t { assert Unfile(s, t)[1..] == Unfile(s[1..], t); }
    }
  }

  lemma {:induction false} WrapOwners(s: seq<Entry>)
    ensures |WrapEntries(s)| == |s|
    ensures forall k :: 0 <= k < |s| ==> WrapEntries(s)[k] == WrapEntry(s[k])
    decreases s
  {
    if s != [] { WrapOwners(s[1..]); }
  }

  lemma WrapNotify(w: World, f: Fire)
    ensures Wrap(Notify(w, f)) == Callback(Wrap(w), f.timer)
  {
    hide Low, WrapEntries;
    assert WrapFires(w.fires + [f]) == WrapFires(w.fires) + [f.timer];
    if w.script != [] {
      assert WrapScript(w.script)[1..] == WrapScript(w.script[1..]);
      assert WrapScript(w.script)[0] == WrapOrders(w.script[0]);
      WrapFitting(w.queue, w.script[0]);
    }
  }

  lemma WrapFitting(q: seq<Order>, os: seq<Order>)
    ensures WrapOrders(Fitting(q, os)) == Fitting(WrapOrders(q), WrapOrders(os))
  {
    hide Low;
    var room := QUEUE_LENGTH - |q|;
    if |q| + |os| <= QUEUE_LENGTH {
      assert WrapOrders(q + os) == WrapOrders(q) + WrapOrders(os);
    } else if |q| < QUEUE_LENGTH {
      assert WrapOrders(os[..room]) == WrapOrders(os)[..room];
      assert WrapOrders(q + os[..room]) == WrapOrders(q) + WrapOrders(os[..room]);
    }
  }

  lemma WrapPost(w: World, o: Order)
    ensures Wrap(Post(w, o)) == PostInternal(Wrap(w), Command(o.kind, o.timer, Low(o.value)))
  {
    hide Low, WrapEntries;
    assert WrapOrders(w.queue + [o]) == WrapOrders(w.queue) + [Command(o.kind, o.timer, Low(o.value))];
  }

  // ----------------------------------------------------------------------- the routines

  /** prvInsertTimerInActiveList files by absolute expiry. */
  lemma ScheduleRefines(w: World, t: int, c: nat, now: nat)
    requires t in w.timers && 0 < w.timers[t].period
    requires Filed(w.current, Epoch(now), w.timers) && Filed(w.overflow, Epoch(now) + 1, w.timers)
    requires c <= now < c + WORD_LIMIT
    ensures var x := c + w.timers[t].period;
      var (e, due) := Schedule(w, t, x, now);
      && InsertTimer(Wrap(w), t, Low(x), Low(now), Low(c)) == (Wrap(e), due)
      && Filed(e.current, Epoch(now), e.timers) && Filed(e.overflow, Epoch(now) + 1, e.timers)
  {
    hide Low, Epoch, WrapEntries, Add32, Sub32;
    var p := w.timers[t].period;
    var x := c + p;
    Classify(c, p, now);
    if x > now {
      if Epoch(x) == Epoch(now) {
        WrapFile(w.current, Entry(x, t), Epoch(now));
        FileFiled(w.current, Entry(x, t), Epoch(now), w.timers);
      } else {
        WrapFile(w.overflow, Entry(x, t), Epoch(now) + 1);
        FileFiled(w.overflow, Entry(x, t), Epoch(now) + 1, w.timers);
      }
    }
  }

  lemma WrapTail(s: seq<Entry>)
    requires s != []
    ensures WrapEntries(s) != [] && WrapEntries(s)[0] == WrapEntry(s[0]) && WrapEntries(s)[1..] == WrapEntries(s[1..])
  {}

  /** prvProcessExpiredTimer. */
  lemma ExpireRefines(w: World, now: nat)
    requires w.current != [] && w.current[0].expiry <= now
    requires Filed(w.current, Epoch(now), w.timers) && Filed(w.overflow, Epoch(now) + 1, w.timers)
    ensures WrapEntries(w.current) != []
    ensures ProcessExpired(Wrap(w), Low(w.current[0].expiry), Low(now)) == Wrap(Expire(w, now))
    ensures var r := Expire(w, now);
      Filed(r.current, Epoch(now), r.timers) && Filed(r.overflow, Epoch(now) + 1, r.timers) && r.timers == w.timers
  {
    hide Low, Epoch, WrapEntries, InsertTimer, Notify, Post, Callback, PostInternal, Schedule,
         WrapOrders, WrapFires, WrapScript;
    var t, x := w.current[0].owner, w.current[0].expiry;
    WrapTail(w.current);
    var w1 := w.(current := w.current[1..]);
    SameEpochAge(x, now);
    AddLow(x, w.timers[t].period);
    ScheduleRefines(w1, t, x, now);
    var (e, due) := Schedule(w1, t, x + w.timers[t].period, now);
    WrapPost(e, Order(Start, t, x));
    WrapNotify(w1, Fire(t, x, now));
    WrapNotify(e, Fire(t, x, now));
    WrapNotify(Post(e, Order(Start, t, x)), Fire(t, x, now));
    PostKeeps(e, Order(Start, t, x));
    NotifyKeeps(w1, Fire(t, x, now));
    NotifyKeeps(e, Fire(t, x, now));
    NotifyKeeps(Post(e, Order(Start, t, x)), Fire(t, x, now));
    ScheduleKeeps(w1, t, x + w.timers[t].period, now);
  }

  lemma NotifyKeeps(w: World, f: Fire)
    ensures var r := Notify(w, f);
      r.current == w.current && r.overflow == w.overflow && r.timers == w.timers && r.last == w.last
  {}

  lemma PostKeeps(w: World, o: Order)
    ensures var r := Post(w, o);
      r.current == w.current && r.overflow == w.overflow && r.timers == w.timers && r.last == w.last
  {}

  lemma ScheduleKeeps(w: World, t: int, x: nat, now: nat)
    ensures var r := Schedule(w, t, x, now).0;
      r.timers == w.timers && r.last == w.last && r.queue == w.queue && r.fires == w.fires && r.script == w.script
  {}

  lemma SameEpochAge(x: nat, now: nat)
    requires Epoch(x) == Epoch(now)
    ensures now < x + WORD_LIMIT
  {
    Split(x);
    Split(now);
  }

  lemma FlushRefines(w: World, now: nat)
    requires w.current != [] && Filed(w.current, Epoch(w.current[0].expiry), w.timers) && Known(Wrap(w))
    ensures WrapEntries(w.current) != []
    ensures DrainOne(Wrap(w)) == Wrap(Flush(w, now))
  {
    hide Low, Epoch, WrapEntries, Known;
    var t, x := w.current[0].owner, w.current[0].expiry;
    var p := w.timers[t].period;
    WrapTail(w.current);
    var w1 := w.(current := w.current[1..]);
    AddLow(x, p);
    WrapNotify(w1, Fire(t, x, now));
    var n := Notify(w1, Fire(t, x, now));
    WrapPost(n, Order(Start, t, x));
    if Epoch(x + p) == Epoch(x) { WrapFile(w1.current, Entry(x + p, t), Epoch(x)); }
  }

  lemma KnownWrap(w: World, e: nat, f: nat)
    requires Filed(w.current, e, w.timers) && Filed(w.overflow, f, w.timers)
    ensures Known(Wrap(w))
  {
    WrapOwners(w.current);
    WrapOwners(w.overflow);
  }

  /** The loop of prvSwitchTimerLists. */
  lemma {:induction false} DrainRefines(w: World, e: nat, f: nat, now: nat)
    requires Filed(w.current, e, w.timers) && Filed(w.overflow, f, w.timers)
    ensures Known(Wrap(w)) && Drain(Wrap(w)) == Wrap(DrainAll(w, e, now))
    decreases Distance(w.current)
  {
    hide Low, Epoch, DrainOne, Flush;
    KnownWrap(w, e, f);
    if w.current == [] {
      assert WrapEntries(w.current) == [];
    } else {
      FlushFacts(w, now);
      FlushRefines(w, now);
      DrainRefines(Flush(w, now), e, f, now);
    }
  }

  ghost predicate Idle(w: World) { w.current == [] && w.overflow == [] }

  /** While any timer is filed, the daemon samples the time at least once per wrap. */
  ghost predicate Timely(w: World, now: nat) {
    w.last <= now && (Idle(w) || now < w.last + WORD_LIMIT)
  }

  /** prvSampleTimeNow. */
  lemma AdvanceRefines(w: World, now: nat)
    requires Filed(w.current, Epoch(w.last), w.timers) && Filed(w.overflow, Epoch(w.last) + 1, w.timers)
    requires Timely(w, now)
    ensures Known(Wrap(w)) && Sample(Wrap(w), Low(now)).0 == Wrap(Advance(w, now))
    ensures !Idle(w) ==> (Sample(Wrap(w), Low(now)).1 <==> Epoch(now) > Epoch(w.last))
    ensures var r := Advance(w, now);
      Filed(r.current, Epoch(now), r.timers) && Filed(r.overflow, Epoch(now) + 1, r.timers)
  {
    hide Low, Epoch, WrapEntries, Drain, DrainAll;
    EpochMonotone(w.last, now);
    DrainRefines(w, Epoch(w.last), Epoch(w.last) + 1, now);
    if Idle(w) {
      EmptyWrap(w, now);
    } else {
      SubLow(now, w.last);
    }
  }

  lemma EmptyWrap(w: World, now: nat)
    requires Idle(w)
    ensures WrapEntries(w.current) == [] && WrapEntries(w.overflow) == []
    ensures Known(Wrap(w)) && Drain(Wrap(w)) == Wrap(w) && DrainAll(w, Epoch(w.last), now) == w
  {}

  /** Where the daemon's lists stand: entries of the last sample's epoch, and of the next. */
  ghost predicate Placed(w: World) {
    Filed(w.current, Epoch(w.last), w.timers) && Filed(w.overflow, Epoch(w.last) + 1, w.timers)
  }

  /** prvGetNextExpireTime followed by prvProcessTimerOrBlockTask. */
  lemma TurnRefines(w: World, now: nat)
    requires Placed(w) && Timely(w, now)
    ensures Known(Wrap(w)) && ProcessOrBlock(Wrap(w), Low(now)) == Wrap(Turn(w, now))
    ensures Placed(Turn(w, now)) && Turn(w, now).last == now && Turn(w, now).timers == w.timers
  {
    hide Low, Epoch, WrapEntries, Sample, Advance, ProcessExpired, Expire;
    AdvanceRefines(w, now);
    EpochMonotone(w.last, now);
    if w.current == [] {
      EmptyHead(w);
    } else {
      WrapTail(w.current);
      if Epoch(now) == Epoch(w.last) {
        AdvanceInEpoch(w, now);
        Compare(w.current[0].expiry, now);
        if w.current[0].expiry <= now {
          ExpireRefines(Advance(w, now), now);
          ExpireLast(Advance(w, now), now);
        }
      }
    }
  }

  lemma EmptyHead(w: World)
    requires w.current == []
    ensures WrapEntries(w.current) == []
  {}

  lemma AdvanceInEpoch(w: World, now: nat)
    requires Placed(w) && Epoch(now) == Epoch(w.last)
    ensures Advance(w, now) == w.(last := now)
  {}

  lemma ExpireLast(w: World, now: nat)
    requires w.current != [] && w.current[0].owner in w.timers
    ensures Expire(w, now).last == w.last
  {}

  /** What the daemon requires of a command when it carries it out at tick `now`: the timer still
      exists, a start time is not in the future and less than one wrap old, a new period is usable. */
  ghost predicate Acceptable(w: World, o: Order, now: nat) {
    && o.timer in w.timers
    && (o.kind == Start ==> 0 < w.timers[o.timer].period && o.value <= now < o.value + WORD_LIMIT)
    && (o.kind == ChangePeriod ==> 0 < o.value < WORD_LIMIT)
  }

  ghost predicate Unfiled(w: World, t: int) {
    && (forall k :: 0 <= k < |w.current| ==> w.current[k].owner != t)
    && (forall k :: 0 <= k < |w.overflow| ==> w.overflow[k].owner != t)
  }

  lemma StartRefines(w: World, o: Order, now: nat)
    requires Placed(w) && w.last == now && o.kind == Start && Acceptable(w, o, now)
    ensures Handle(Wrap(w), Command(o.kind, o.timer, Low(o.value)), Low(now)) == Wrap(Obey(w, o, now))
    ensures Placed(Obey(w, o, now)) && Obey(w, o, now).last == now
  {
    hide Low, Epoch, WrapEntries, InsertTimer, Notify, Post, Callback, PostInternal, Schedule,
         WrapOrders, WrapFires, WrapScript;
    var t, c := o.timer, o.value;
    var x := c + w.timers[t].period;
    AddLow(c, w.timers[t].period);
    ScheduleRefines(w, t, c, now);
    ScheduleKeeps(w, t, x, now);
    var (e, due) := Schedule(w, t, x, now);
    WrapNotify(e, Fire(t, x, now));
    NotifyKeeps(e, Fire(t, x, now));
    var n := Notify(e, Fire(t, x, now));
    WrapPost(n, Order(Start, t, x));
    PostKeeps(n, Order(Start, t, x));
  }

  /** Changing the period counts from now, so the insertion never reports an expired timer. */
  lemma ChangePeriodRefines(w: World, o: Order, now: nat)
    requires Placed(w) && w.last == now && o.kind == ChangePeriod && Acceptable(w, o, now) && Unfiled(w, o.timer)
    ensures Handle(Wrap(w), Command(o.kind, o.timer, Low(o.value)), Low(now)) == Wrap(Obey(w, o, now))
    ensures var e := w.(timers := w.timers[o.timer := w.timers[o.timer].(period := Low(o.value))]);
      !InsertTimer(Wrap(e), o.timer, Add32(Low(now), Low(o.value)), Low(now), Low(now)).1
    ensures Placed(Obey(w, o, now)) && Obey(w, o, now).last == now
  {
    hide Low, Epoch, WrapEntries, InsertTimer, WrapOrders, WrapFires, WrapScript;
    var t := o.timer;
    LowSmall(o.value);
    var e := w.(timers := w.timers[t := w.timers[t].(period := Low(o.value))]);
    assert Placed(e);
    AddLow(now, o.value);
    ScheduleRefines(e, t, now, now);
    ScheduleKeeps(e, t, now + o.value, now);
  }

  lemma LowSmall(x: nat)
    requires x < WORD_LIMIT
    ensures Low(x) == x
  {}

  lemma ObeyRefines(w: World, o: Order, now: nat)
    requires Placed(w) && w.last == now && Acceptable(w, o, now) && Unfiled(w, o.timer)
    ensures Handle(Wrap(w), Command(o.kind, o.timer, Low(o.value)), Low(now)) == Wrap(Obey(w, o, now))
    ensures Placed(Obey(w, o, now)) && Obey(w, o, now).last == now
  {
    hide Low, Epoch, WrapEntries, InsertTimer, Schedule;
    match o.kind
    case Start => StartRefines(w, o, now);
    case Stop =>
    case ChangePeriod => ChangePeriodRefines(w, o, now);
    case Delete =>
  }
}

/** Where the timers stand when the daemon rests: every callback that is due has been made. */
module TimerRest {
  import opened MachineWord
  import opened TimerState
  import opened TimerWorld
  import opened TimerRefine
  import opened TimerRuns
  import opened TimerSchedule

  // ------------------------------------------------------- no callback lies in the future

  ghost predicate Before(fires: seq<Fire>, now: nat) {
    forall k :: 0 <= k < |fires| ==> fires[k].at <= now
  }

  lemma {:induction false} DrainBefore(w: World, e: nat, now: nat)
    requires Filed(w.current, e, w.timers) && Before(w.fires, now)
    ensures Before(DrainAll(w, e, now).fires, now)
    decreases Distance(w.current)
  {
    hide Flush, Epoch, Distance, DrainAll;
    if w.current == [] {
      DrainNothing(w, e, now);
    } else {
      FlushFacts(w, now);
      FlushFires(w, now);
      DrainStep(w, e, now);
      DrainBefore(Flush(w, now), e, now);
    }
  }

  lemma AdvanceBefore(w: World, now: nat)
    requires Placed(w) && Before(w.fires, w.last) && w.last <= now
    ensures Before(Advance(w, now).fires, now)
  {
    hide DrainAll, Epoch;
    DrainBefore(w, Epoch(w.last), now);
  }

  lemma ExpireBefore(w: World, now: nat)
    requires w.current != [] && w.current[0].owner in w.timers && Before(w.fires, now)
    ensures Before(Expire(w, now).fires, now)
  {
    hide File, Fitting, Epoch;
  }

  lemma ObeyBefore(w: World, o: Order, now: nat)
    requires o.timer in w.timers && Before(w.fires, now)
    ensures Before(Obey(w, o, now).fires, now)
  {
    hide File, Fitting, Epoch, Low;
  }

  lemma NextBefore(w: World, ev: Event)
    requires Inv(w) && Enabled(w, ev) && Before(w.fires, w.last)
    ensures Before(Next(w, ev).fires, Next(w, ev).last)
  {
    hide Before, Sorted, OnTime, NoTwice, Epoch, Low, Advance, Expire, Obey, Picked;
    match ev
    case TurnAt(now) =>
      AdvanceBefore(w, now);
      if Epoch(now) == Epoch(w.last) && w.current != [] && w.current[0].expiry <= now {
        AdvanceInEpoch(w, now);
        ExpireBefore(Advance(w, now), now);
      }
      TurnRefines(w, now);
    case AcceptAt(now) =>
      PickedKeeps(w);
      PickedFields(w);
      PickedFires(w);
      AdvanceBefore(Picked(w), now);
      ObeyBefore(Advance(Picked(w), now), w.queue[0], now);
      AcceptKeeps(w, now);
    case Posted(_) =>
  }

  lemma PickedFires(w: World)
    requires w.queue != []
    ensures Picked(w).fires == w.fires
  {}

  lemma {:induction false} RunBefore(w: World, evs: seq<Event>)
    requires Inv(w) && EnabledRun(w, evs) && Before(w.fires, w.last)
    ensures Before(Run(w, evs).fires, Run(w, evs).last)
    decreases |evs|
  {
    hide Inv, Enabled, Next, Before;
    if evs != [] {
      NextKeeps(w, evs[0]);
      NextBefore(w, evs[0]);
      RunBefore(Next(w, evs[0]), evs[1..]);
    }
  }

  // ------------------------------------------------------------------ the daemon at rest

  ghost predicate Rests(w: World, now: nat) {
    Known(Wrap(w)) && BlockTime(Wrap(w), Low(now)) != NoWait
  }

  /** When the daemon blocks, no command waits and no active timer is due. */
  lemma RestFacts(w: World, now: nat)
    requires Inv(w) && Timely(w, now) && Rests(w, now)
    ensures w.queue == []
    ensures forall e :: Active(w, e) ==> now < e.expiry
  {
    hide Epoch, Low, Sorted, OnTime, NoTwice, Owners, Sample, DrainAll, WrapEntries, Known;
    BlockTimeExact(w, now);
    AdvanceRefines(w, now);
    if Idle(w) {
      IdleSample(w, now);
    } else {
      assert BlockTime(Wrap(w), Low(now)).WaitTicks? by { NotForever(w, now); }
      forall e | Active(w, e) ensures now < e.expiry {
        assert e in w.current || e in w.overflow;
        if e in w.overflow { NextEpochLater(w, e, now); }
      }
    }
  }

  lemma NotForever(w: World, now: nat)
    requires Inv(w) && Timely(w, now) && Rests(w, now) && !Idle(w)
    ensures BlockTime(Wrap(w), Low(now)).WaitTicks? && Epoch(now) == Epoch(w.last)
  {
    hide Epoch, Low, Sorted, OnTime, NoTwice, Owners, Sample, Advance, WrapEntries, Known;
    BlockTimeExact(w, now);
    AdvanceRefines(w, now);
    EpochMonotone(w.last, now);
    AdvanceInEpochIf(w, now);
  }

  lemma AdvanceInEpochIf(w: World, now: nat)
    requires Placed(w)
    ensures Epoch(now) == Epoch(w.last) ==> Advance(w, now) == w.(last := now)
  {}

  lemma NextEpochLater(w: World, e: Entry, now: nat)
    requires Placed(w) && e in w.overflow && Epoch(now) == Epoch(w.last)
    ensures now < e.expiry
  {
    if e.expiry <= now { EpochMonotone(e.expiry, now); }
  }

  lemma {:induction false} EntryOf(s: seq<Entry>, t: int, x: nat)
    requires x in EntriesOf(s, t)
    ensures Entry(x, t) in s
    decreases s
  {
    if s[0] == Entry(x, t) {
    } else {
      EntryOf(s[1..], t, x);
    }
  }

  lemma HeldActive(w: World, t: int, x: nat)
    requires Held(w, t) == [x]
    ensures Active(w, Entry(x, t))
  {
    assert x in EntriesOf(w.current, t) + EntriesOf(w.overflow, t);
    if x in EntriesOf(w.current, t) { EntryOf(w.current, t, x); } else { EntryOf(w.overflow, t, x); }
  }

  lemma {:induction false} FireOf(fires: seq<Fire>, t: int, x: nat)
    requires x in FiresOf(fires, t)
    ensures exists k :: 0 <= k < |fires| && fires[k].timer == t && fires[k].expiry == x
    decreases |fires|
  {
    var n := |fires| - 1;
    if !(fires[n].timer == t && fires[n].expiry == x) {
      FireOf(fires[..n], t, x);
      var k :| 0 <= k < n && fires[..n][k].timer == t && fires[..n][k].expiry == x;
      assert fires[k] == fires[..n][k];
    }
  }

  /** The last callback's expiry is not in the future. */
  lemma LastDue(w: World, t: int, c: nat, now: nat)
    requires OnTime(w.fires) && Before(w.fires, w.last) && w.last <= now && c <= now
    ensures LastTick(c, FiresOf(w.fires, t)) <= now
  {
    var fs := FiresOf(w.fires, t);
    if fs != [] { FireOf(w.fires, t, fs[|fs| - 1]); }
  }

  lemma {:induction false} LastIs(c: nat, p: nat, fs: seq<nat>)
    requires Progression(c, p, fs)
    ensures LastTick(c, fs) == c + |fs| * p
  {
    if fs != [] { ProgressionAt(c, p, fs, |fs| - 1); }
  }

  lemma Quotient(n: nat, p: nat, k: nat)
    requires 0 < p && k * p <= n < k * p + p
    ensures n / p == k
  {
    var q := n / p;
    DivMod(n, p);
    if q < k { Multiples(q + 1, k, p); }
    if k < q { Multiples(k + 1, q, p); }
  }

  lemma DivMod(n: nat, p: nat)
    requires 0 < p
    ensures 0 <= n / p && n / p * p <= n < (n / p + 1) * p && (n / p + 1) * p == n / p * p + p
  {}

  lemma {:induction false} Multiples(a: nat, b: nat, p: nat)
    requires a <= b
    ensures a * p <= b * p && (a + 1) * p == a * p + p
    decreases b - a
  {
    if a < b {
      Multiples(a + 1, b, p);
      assert (a + 1) * p == a * p + p;
    }
  }

  /** Whenever the daemon rests at tick `now`, an auto-reload timer started at c with period p has
      had exactly (now - c) / p callbacks, and a one-shot timer its one exactly if c + p has come. */
  lemma CallbacksAtRest(w: World, evs: seq<Event>, t: int, c: nat, p: Tick, auto: bool, now: nat)
    requires Inv(w) && EnabledRun(w, evs) && OnSchedule(w, t, c, p, auto) && Before(w.fires, w.last)
    requires forall k :: 0 <= k < |evs| ==> Undisturbed(evs[k], t)
    requires var r := Run(w, evs);
      !r.failed && Timely(r, now) && Rests(r, now) && c <= now
    ensures 0 < p && |FiresOf(Run(w, evs).fires, t)| ==
      if auto then (now - c) / p else if c + p <= now then 1 else 0
  {
    hide Enabled, Next, Undisturbed, Progression, Run, EnabledRun, FiresOf, OrdersOf, Held, LastTick, OnTime, Placed,
         Rests, Active, Sorted, NoTwice, QuietScript, Before;
    RunOnSchedule(w, evs, t, c, p, auto);
    RunRefines(w, evs);
    RunBefore(w, evs);
    var r := Run(w, evs);
    var fs := FiresOf(r.fires, t);
    RestFacts(r, now);
    NoOrders(t);
    LastIs(c, p, fs);
    LastDue(r, t, c, now);
    if auto || fs == [] {
      assert Held(r, t) == [LastTick(c, fs) + p];
      HeldActive(r, t, LastTick(c, fs) + p);
      Quotient(now - c, p, |fs|);
    }
  }

  lemma NoOrders(t: int)
    ensures OrdersOf([], t) == []
  {}
}

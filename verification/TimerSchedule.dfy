/** A timer keeps its schedule.  Whatever the daemon's lateness, the tick wraps on the way, and
    whichever of the three re-arm paths is taken, the k-th callback of an auto-reload timer is for
    expiry C + k*P; a one-shot timer has one callback, for C + P. */
module TimerSchedule {
  import opened MachineWord
  import opened TimerState
  import opened TimerWorld
  import opened TimerRefine
  import opened TimerRuns

  // ------------------------------------------------------------ what concerns one timer

  /** The expiries for which timer t has had its callback, in order. */
  ghost function FiresOf(fires: seq<Fire>, t: int): seq<nat> {
    if fires == [] then []
    else
      var n := |fires| - 1;
      FiresOf(fires[..n], t) + (if fires[n].timer == t then [fires[n].expiry] else [])
  }

  ghost function EntriesOf(s: seq<Entry>, t: int): seq<nat> {
    if s == [] then [] else (if s[0].owner == t then [s[0].expiry] else []) + EntriesOf(s[1..], t)
  }

  ghost function OrdersOf(q: seq<Order>, t: int): seq<Order> {
    if q == [] then [] else (if q[0].timer == t then [q[0]] else []) + OrdersOf(q[1..], t)
  }

  ghost predicate Silent(os: seq<Order>, t: int) {
    forall k :: 0 <= k < |os| ==> os[k].timer != t
  }

  /** No callback will post a command about t. */
  ghost predicate QuietScript(w: World, t: int) {
    forall k :: 0 <= k < |w.script| ==> Silent(w.script[k], t)
  }

  ghost function LastTick(c: nat, fs: seq<nat>): nat {
    if fs == [] then c else fs[|fs| - 1]
  }

  /** c + p, c + 2p, c + 3p, ... */
  ghost predicate Progression(c: nat, p: nat, fs: seq<nat>) {
    fs == [] ||
    (var n := |fs| - 1; Progression(c, p, fs[..n]) && fs[n] == LastTick(c, fs[..n]) + p)
  }

  /** The expiries filed for timer t, in either list. */
  ghost function Held(w: World, t: int): seq<nat> {
    EntriesOf(w.current, t) + EntriesOf(w.overflow, t)
  }

  /** The expiry after `last` is held in exactly one place, a list or the queue. */
  ghost predicate Armed(w: World, t: int, last: nat, p: Tick) {
    || (Held(w, t) == [last + p] && OrdersOf(w.queue, t) == [])
    || (Held(w, t) == [] && OrdersOf(w.queue, t) == [Order(Start, t, last)])
  }

  /** Timer t, started at tick c with period p, is exactly on schedule: all callbacks so far were
      the right ones, and the next expiry is pending, unless a one-shot timer has had its only one. */
  ghost predicate OnSchedule(w: World, t: int, c: nat, p: Tick, auto: bool) {
    var fs := FiresOf(w.fires, t);
    && t in w.timers && w.timers[t] == Timer(p, auto) && 0 < p
    && QuietScript(w, t)
    && Progression(c, p, fs)
    && if auto || fs == [] then Armed(w, t, LastTick(c, fs), p)
       else |fs| == 1 && Held(w, t) == [] && OrdersOf(w.queue, t) == []
  }

  // ---------------------------------------------------------- how each primitive shows

  lemma FiresOfSnoc(fires: seq<Fire>, f: Fire, t: int)
    ensures FiresOf(fires + [f], t) == FiresOf(fires, t) + (if f.timer == t then [f.expiry] else [])
  {
    assert (fires + [f])[..|fires|] == fires;
  }

  lemma {:induction false} OrdersOfConcat(q: seq<Order>, os: seq<Order>, t: int)
    ensures OrdersOf(q + os, t) == OrdersOf(q, t) + OrdersOf(os, t)
    decreases q
  {
    if q == [] {
      assert q + os == os;
    } else {
      OrdersOfConcat(q[1..], os, t);
      assert (q + os)[1..] == q[1..] + os;
    }
  }

  lemma {:induction false} OrdersOfSilent(os: seq<Order>, t: int)
    requires Silent(os, t)
    ensures OrdersOf(os, t) == []
    decreases os
  {
    if os != [] { OrdersOfSilent(os[1..], t); }
  }

  lemma FittingQuiet(q: seq<Order>, os: seq<Order>, t: int)
    requires Silent(os, t)
    ensures OrdersOf(Fitting(q, os), t) == OrdersOf(q, t)
  {
    var room := QUEUE_LENGTH - |q|;
    OrdersOfConcat(q, os, t);
    OrdersOfSilent(os, t);
    if 0 < room <= |os| {
      OrdersOfConcat(q, os[..room], t);
      OrdersOfSilent(os[..room], t);
    }
  }

  lemma NotifyShows(w: World, f: Fire, t: int)
    requires QuietScript(w, t)
    ensures var r := Notify(w, f);
      && QuietScript(r, t) && r.failed == w.failed
      && FiresOf(r.fires, t) == FiresOf(w.fires, t) + (if f.timer == t then [f.expiry] else [])
      && OrdersOf(r.queue, t) == OrdersOf(w.queue, t)
  {
    hide OrdersOf, FiresOf, Fitting;
    FiresOfSnoc(w.fires, f, t);
    if w.script != [] { FittingQuiet(w.queue, w.script[0], t); }
  }

  lemma PostShows(w: World, o: Order, t: int)
    ensures var r := Post(w, o);
      && r.fires == w.fires && r.script == w.script && (w.failed ==> r.failed)
      && (r.failed || OrdersOf(r.queue, t) == OrdersOf(w.queue, t) + (if o.timer == t then [o] else []))
      && (o.timer != t ==> OrdersOf(r.queue, t) == OrdersOf(w.queue, t))
  {
    OrdersOfConcat(w.queue, [o], t);
    assert [o][1..] == [];
  }

  lemma {:induction false} FileShows(s: seq<Entry>, e: Entry, t: int)
    requires e.owner == t ==> EntriesOf(s, t) == []
    ensures EntriesOf(File(s, e), t) == if e.owner == t then [e.expiry] else EntriesOf(s, t)
    decreases s
  {
    if s == [] || e.expiry < s[0].expiry {
      assert ([e] + s)[1..] == s;
    } else {
      assert EntriesOf(s, t) == (if s[0].owner == t then [s[0].expiry] else []) + EntriesOf(s[1..], t);
      FileShows(s[1..], e, t);
      assert File(s, e)[1..] == File(s[1..], e);
    }
  }

  lemma {:induction false} UnfileShows(s: seq<Entry>, u: int, t: int)
    ensures EntriesOf(Unfile(s, u), t) == if u == t then [] else EntriesOf(s, t)
    decreases s
  {
    if s != [] {
      UnfileShows(s[1..], u, t);
      if s[0].owner != u { assert Unfile(s, u)[1..] == Unfile(s[1..], u); }
    }
  }

  lemma {:induction false} EntriesOfUnfiled(s: seq<Entry>, t: int)
    requires forall k :: 0 <= k < |s| ==> s[k].owner != t
    ensures EntriesOf(s, t) == []
    decreases s
  {
    if s != [] { EntriesOfUnfiled(s[1..], t); }
  }

  lemma ScheduleShows(w: World, u: int, x: nat, now: nat, t: int)
    requires u == t ==> EntriesOf(w.current, t) == [] && EntriesOf(w.overflow, t) == []
    ensures var (r, due) := Schedule(w, u, x, now);
      && r.fires == w.fires && r.queue == w.queue && r.script == w.script
      && r.failed == w.failed && r.timers == w.timers
      && EntriesOf(r.current, t) + EntriesOf(r.overflow, t)
         == (if u == t && !due then [x] else EntriesOf(w.current, t) + EntriesOf(w.overflow, t))
  {
    hide EntriesOf, File, Epoch;
    FileShows(w.current, Entry(x, u), t);
    FileShows(w.overflow, Entry(x, u), t);
  }

  lemma ProgressionSnoc(c: nat, p: nat, fs: seq<nat>)
    requires Progression(c, p, fs)
    ensures Progression(c, p, fs + [LastTick(c, fs) + p])
    ensures LastTick(c, fs + [LastTick(c, fs) + p]) == LastTick(c, fs) + p
  {
    assert (fs + [LastTick(c, fs) + p])[..|fs|] == fs;
  }

  /** Nothing about t differs between w and v. */
  ghost predicate SameFor(w: World, v: World, t: int) {
    && t in w.timers && t in v.timers && v.timers[t] == w.timers[t]
    && QuietScript(v, t)
    && FiresOf(v.fires, t) == FiresOf(w.fires, t)
    && OrdersOf(v.queue, t) == OrdersOf(w.queue, t)
    && EntriesOf(v.current, t) + EntriesOf(v.overflow, t) == EntriesOf(w.current, t) + EntriesOf(w.overflow, t)
  }

  lemma SameOnSchedule(w: World, v: World, t: int, c: nat, p: Tick, auto: bool)
    requires OnSchedule(w, t, c, p, auto) && SameFor(w, v, t)
    ensures OnSchedule(v, t, c, p, auto)
  {}

  // ------------------------------------------------------------ every step keeps it

  ghost predicate Kept(w: World, t: int, c: nat, p: Tick, auto: bool) {
    w.failed || OnSchedule(w, t, c, p, auto)
  }

  /** Re-arm path 1: prvProcessExpiredTimer. */
  lemma ExpireOnSchedule(w: World, now: nat, t: int, c: nat, p: Tick, auto: bool)
    requires w.current != [] && w.current[0].owner in w.timers && OnSchedule(w, t, c, p, auto)
    ensures Kept(Expire(w, now), t, c, p, auto)
  {
    hide Expire;
    if w.current[0].owner == t {
      ExpireOwn(w, now, t, c, p, auto);
    } else {
      ExpireOther(w, now, t);
      SameOnSchedule(w, Expire(w, now), t, c, p, auto);
    }
  }

  lemma ExpireOwn(w: World, now: nat, t: int, c: nat, p: Tick, auto: bool)
    requires w.current != [] && w.current[0].owner == t && OnSchedule(w, t, c, p, auto)
    ensures Kept(Expire(w, now), t, c, p, auto)
  {
    hide FiresOf, OrdersOf, EntriesOf, Progression, LastTick, QuietScript, Schedule, Notify, Post;
    var x := w.current[0].expiry;
    var f, fs := Fire(t, x, now), FiresOf(w.fires, t);
    var w1 := w.(current := w.current[1..]);
    OnlyHead(w, t);
    assert x == LastTick(c, fs) + p;
    ProgressionSnoc(c, p, fs);
    ScheduleShows(w1, t, x + p, now, t);
    var (e, due) := Schedule(w1, t, x + p, now);
    QuietSame(w, e, t);
    if !auto {
      QuietSame(w, w1, t);
      NotifyKeeps(w1, f);
      NotifyShows(w1, f, t);
    } else if due {
      var o := Order(Start, t, x);
      var e2 := Post(e, o);
      PostKeeps(e, o);
      PostShows(e, o, t);
      QuietSame(w, e2, t);
      NotifyKeeps(e2, f);
      NotifyShows(e2, f, t);
      assert !e2.failed ==> OrdersOf(e2.queue, t) == [o];
    } else {
      NotifyKeeps(e, f);
      NotifyShows(e, f, t);
    }
  }

  lemma ExpireOther(w: World, now: nat, t: int)
    requires w.current != [] && w.current[0].owner != t && w.current[0].owner in w.timers
    requires t in w.timers && QuietScript(w, t)
    ensures SameFor(w, Expire(w, now), t)
  {
    hide FiresOf, OrdersOf, EntriesOf, Progression, LastTick, QuietScript, Schedule, Notify, Post;
    var u, x := w.current[0].owner, w.current[0].expiry;
    var f := Fire(u, x, now);
    var w1 := w.(current := w.current[1..]);
    HeadShows(w.current, t);
    QuietSame(w, w1, t);
    ScheduleShows(w1, u, x + w.timers[u].period, now, t);
    var e := Schedule(w1, u, x + w.timers[u].period, now).0;
    var e2 := Post(e, Order(Start, u, x));
    PostKeeps(e, Order(Start, u, x));
    PostShows(e, Order(Start, u, x), t);
    QuietSame(w, e, t);
    QuietSame(w, e2, t);
    NotifyKeeps(w1, f);
    NotifyShows(w1, f, t);
    NotifyKeeps(e, f);
    NotifyShows(e, f, t);
    NotifyKeeps(e2, f);
    NotifyShows(e2, f, t);
    var fs := FiresOf(w.fires, t);
    assert fs + [] == fs;
    assert [] + EntriesOf(w.current[1..], t) == EntriesOf(w.current[1..], t);
  }

  lemma QuietSame(w: World, v: World, t: int)
    requires QuietScript(w, t) && v.script == w.script
    ensures QuietScript(v, t)
  {}

  lemma HeadShows(s: seq<Entry>, t: int)
    requires s != []
    ensures EntriesOf(s, t) == (if s[0].owner == t then [s[0].expiry] else []) + EntriesOf(s[1..], t)
  {}

  /** When the head entry is t's, it is t's only entry, and no command about t is queued. */
  lemma OnlyHead(w: World, t: int)
    requires w.current != [] && w.current[0].owner == t
    requires |EntriesOf(w.current, t) + EntriesOf(w.overflow, t)| <= 1
    ensures EntriesOf(w.current[1..], t) == [] && EntriesOf(w.overflow, t) == []
    ensures EntriesOf(w.current, t) + EntriesOf(w.overflow, t) == [w.current[0].expiry]
  {}

  /** Re-arm path 2: the loop of prvSwitchTimerLists. */
  lemma FlushOnSchedule(w: World, now: nat, t: int, c: nat, p: Tick, auto: bool)
    requires w.current != [] && w.current[0].owner in w.timers && OnSchedule(w, t, c, p, auto)
    ensures Kept(Flush(w, now), t, c, p, auto)
  {
    hide Flush;
    if w.current[0].owner == t {
      FlushOwn(w, now, t, c, p, auto);
    } else {
      FlushOther(w, now, t);
      SameOnSchedule(w, Flush(w, now), t, c, p, auto);
    }
  }

  lemma FlushOwn(w: World, now: nat, t: int, c: nat, p: Tick, auto: bool)
    requires w.current != [] && w.current[0].owner == t && OnSchedule(w, t, c, p, auto)
    ensures Kept(Flush(w, now), t, c, p, auto)
  {
    hide FiresOf, OrdersOf, EntriesOf, Progression, LastTick, QuietScript, File, Notify, Post, Epoch;
    var x := w.current[0].expiry;
    var f, fs := Fire(t, x, now), FiresOf(w.fires, t);
    OnlyHead(w, t);
    assert x == LastTick(c, fs) + p;
    ProgressionSnoc(c, p, fs);
    var w1 := w.(current := w.current[1..]);
    QuietSame(w, w1, t);
    NotifyKeeps(w1, f);
    NotifyShows(w1, f, t);
    var n := Notify(w1, f);
    FileShows(n.current, Entry(x + p, t), t);
    assert [x + p] + [] == [x + p];
    PostKeeps(n, Order(Start, t, x));
    PostShows(n, Order(Start, t, x), t);
    QuietSame(n, Post(n, Order(Start, t, x)), t);
    QuietSame(n, n.(current := File(n.current, Entry(x + p, t))), t);
  }

  lemma FlushOther(w: World, now: nat, t: int)
    requires w.current != [] && w.current[0].owner != t && w.current[0].owner in w.timers
    requires t in w.timers && QuietScript(w, t)
    ensures SameFor(w, Flush(w, now), t)
  {
    hide FiresOf, OrdersOf, EntriesOf, Progression, LastTick, QuietScript, File, Notify, Post, Epoch;
    var u, x := w.current[0].owner, w.current[0].expiry;
    var f, fs := Fire(u, x, now), FiresOf(w.fires, t);
    HeadShows(w.current, t);
    assert [] + EntriesOf(w.current[1..], t) == EntriesOf(w.current[1..], t);
    var w1 := w.(current := w.current[1..]);
    QuietSame(w, w1, t);
    NotifyKeeps(w1, f);
    NotifyShows(w1, f, t);
    assert fs + [] == fs;
    var n := Notify(w1, f);
    FileShows(n.current, Entry(x + w.timers[u].period, u), t);
    PostKeeps(n, Order(Start, u, x));
    PostShows(n, Order(Start, u, x), t);
    QuietSame(n, Post(n, Order(Start, u, x)), t);
    QuietSame(n, n.(current := File(n.current, Entry(x + w.timers[u].period, u))), t);
  }

  // A failed restart is never forgotten.

  lemma FlushFailed(w: World, now: nat)
    requires w.current != [] && w.current[0].owner in w.timers && w.failed
    ensures Flush(w, now).failed
  {}

  lemma ExpireFailed(w: World, now: nat)
    requires w.current != [] && w.current[0].owner in w.timers && w.failed
    ensures Expire(w, now).failed
  {}

  lemma ObeyFailed(w: World, o: Order, now: nat)
    requires o.timer in w.timers && w.failed
    ensures Obey(w, o, now).failed
  {}

  lemma {:induction false} DrainOnSchedule(w: World, e: nat, now: nat, t: int, c: nat, p: Tick, auto: bool)
    requires Filed(w.current, e, w.timers) && Kept(w, t, c, p, auto)
    ensures Kept(DrainAll(w, e, now), t, c, p, auto)
    decreases Distance(w.current)
  {
    hide OnSchedule, Flush, Epoch, Distance, DrainAll;
    if w.current == [] {
      DrainNothing(w, e, now);
    } else {
      FlushFacts(w, now);
      if w.failed { FlushFailed(w, now); } else { FlushOnSchedule(w, now, t, c, p, auto); }
      DrainStep(w, e, now);
      DrainOnSchedule(Flush(w, now), e, now, t, c, p, auto);
    }
  }

  /** Draining entries of other timers changes nothing about t. */
  lemma {:induction false} DrainSame(w: World, e: nat, now: nat, t: int)
    requires Filed(w.current, e, w.timers) && t in w.timers && QuietScript(w, t) && EntriesOf(w.current, t) == []
    ensures SameFor(w, DrainAll(w, e, now), t)
    decreases Distance(w.current)
  {
    hide FiresOf, OrdersOf, QuietScript, Flush, Epoch, Distance, DrainAll;
    if w.current == [] {
      DrainNothing(w, e, now);
    } else {
      var v := Flush(w, now);
      FlushFacts(w, now);
      FlushOther(w, now, t);
      FlushOverflow(w, now);
      assert EntriesOf(v.current, t) == [];
      DrainStep(w, e, now);
      DrainSame(v, e, now, t);
    }
  }

  lemma FlushOverflow(w: World, now: nat)
    requires w.current != [] && w.current[0].owner in w.timers
    ensures Flush(w, now).overflow == w.overflow
  {}

  lemma AdvanceSame(w: World, now: nat, t: int)
    requires Placed(w) && t in w.timers && QuietScript(w, t) && EntriesOf(w.current, t) == []
    requires EntriesOf(w.overflow, t) == []
    ensures SameFor(w, Advance(w, now), t)
    ensures EntriesOf(Advance(w, now).current, t) == [] && EntriesOf(Advance(w, now).overflow, t) == []
  {
    hide FiresOf, OrdersOf, QuietScript, DrainAll, Epoch;
    if Epoch(now) > Epoch(w.last) {
      DrainSame(w, Epoch(w.last), now, t);
      QuietSame(DrainAll(w, Epoch(w.last), now), Advance(w, now), t);
    } else {
      QuietSame(w, Advance(w, now), t);
    }
  }

  lemma AdvanceOnSchedule(w: World, now: nat, t: int, c: nat, p: Tick, auto: bool)
    requires Placed(w) && Kept(w, t, c, p, auto)
    ensures Kept(Advance(w, now), t, c, p, auto)
  {
    hide FiresOf, OrdersOf, EntriesOf, Progression, LastTick, QuietScript, DrainAll, Epoch;
    if Epoch(now) > Epoch(w.last) {
      DrainOnSchedule(w, Epoch(w.last), now, t, c, p, auto);
      var d := DrainAll(w, Epoch(w.last), now);
      EntriesOfUnfiled([], t);
      if !d.failed {
        assert EntriesOf(d.overflow, t) + [] == [] + EntriesOf(d.overflow, t);
        QuietSame(d, Advance(w, now), t);
      }
    } else if !w.failed {
      QuietSame(w, Advance(w, now), t);
    }
  }

  lemma TurnOnSchedule(w: World, now: nat, t: int, c: nat, p: Tick, auto: bool)
    requires Placed(w) && Timely(w, now) && Kept(w, t, c, p, auto)
    ensures Kept(Turn(w, now), t, c, p, auto)
  {
    hide OnSchedule, Advance, Expire, Epoch;
    AdvanceOnSchedule(w, now, t, c, p, auto);
    if Epoch(now) == Epoch(w.last) && w.current != [] && w.current[0].expiry <= now {
      AdvanceInEpoch(w, now);
      var a := Advance(w, now);
      if a.failed { ExpireFailed(a, now); } else { ExpireOnSchedule(a, now, t, c, p, auto); }
    }
  }

  /** Re-arm path 3: the start command that carries the schedule forward. */
  lemma ObeyOwn(w: World, now: nat, t: int, c: nat, p: Tick, auto: bool, base: nat)
    requires t in w.timers && w.timers[t] == Timer(p, auto) && 0 < p && QuietScript(w, t)
    requires auto || FiresOf(w.fires, t) == []
    requires Progression(c, p, FiresOf(w.fires, t)) && base == LastTick(c, FiresOf(w.fires, t))
    requires EntriesOf(w.current, t) == [] && EntriesOf(w.overflow, t) == [] && OrdersOf(w.queue, t) == []
    ensures Kept(Obey(w, Order(Start, t, base), now), t, c, p, auto)
  {
    hide FiresOf, OrdersOf, EntriesOf, Progression, LastTick, QuietScript, Schedule, Notify, Post;
    var x := base + p;
    var f := Fire(t, x, now);
    ProgressionSnoc(c, p, FiresOf(w.fires, t));
    ScheduleShows(w, t, x, now, t);
    var (e, due) := Schedule(w, t, x, now);
    QuietSame(w, e, t);
    if due {
      NotifyKeeps(e, f);
      NotifyShows(e, f, t);
      var n := Notify(e, f);
      PostKeeps(n, Order(Start, t, x));
      PostShows(n, Order(Start, t, x), t);
      QuietSame(n, Post(n, Order(Start, t, x)), t);
    }
  }

  lemma ObeyOther(w: World, o: Order, now: nat, t: int)
    requires o.timer != t && o.timer in w.timers && t in w.timers && QuietScript(w, t)
    ensures SameFor(w, Obey(w, o, now), t)
  {
    hide FiresOf, OrdersOf, EntriesOf, Progression, LastTick, QuietScript, Schedule, Notify, Post, Low;
    var u := o.timer;
    var fs := FiresOf(w.fires, t);
    assert fs + [] == fs;
    match o.kind
    case Start =>
      var x := o.value + w.timers[u].period;
      ScheduleShows(w, u, x, now, t);
      var e := Schedule(w, u, x, now).0;
      QuietSame(w, e, t);
      NotifyKeeps(e, Fire(u, x, now));
      NotifyShows(e, Fire(u, x, now), t);
      var n := Notify(e, Fire(u, x, now));
      PostKeeps(n, Order(Start, u, x));
      PostShows(n, Order(Start, u, x), t);
      QuietSame(n, Post(n, Order(Start, u, x)), t);
    case Stop =>
    case ChangePeriod =>
      var e := w.(timers := w.timers[u := w.timers[u].(period := Low(o.value))]);
      ScheduleShows(e, u, now + o.value, now, t);
      QuietSame(w, Obey(w, o, now), t);
    case Delete =>
      QuietSame(w, Obey(w, o, now), t);
  }

  lemma AcceptOnSchedule(w: World, now: nat, t: int, c: nat, p: Tick, auto: bool)
    requires Inv(w) && w.queue != [] && Timely(Picked(w), now) && Acceptable(w, w.queue[0], now)
    requires OnSchedule(w, t, c, p, auto)
    ensures Kept(Accept(w, now), t, c, p, auto)
  {
    hide FiresOf, EntriesOf, Progression, LastTick, QuietScript, Obey, Advance, Sorted, OnTime, NoTwice, Filed,
         Epoch, Low;
    var o := w.queue[0];
    PickedKeeps(w);
    PickedFields(w);
    var v := Picked(w);
    UnfileShows(w.current, o.timer, t);
    UnfileShows(w.overflow, o.timer, t);
    QuietSame(w, v, t);
    assert OrdersOf(w.queue, t) == (if o.timer == t then [o] else []) + OrdersOf(w.queue[1..], t);
    if o.timer == t {
      assert OrdersOf(w.queue, t)[0] == o && |OrdersOf(w.queue, t)| == 1 + |OrdersOf(w.queue[1..], t)|;
      assert o == Order(Start, t, LastTick(c, FiresOf(w.fires, t)));
      AdvanceSame(v, now, t);
      ObeyOwn(Advance(v, now), now, t, c, p, auto, o.value);
    } else {
      assert OnSchedule(v, t, c, p, auto);
      AdvanceOnSchedule(v, now, t, c, p, auto);
      AdvanceKeeps(v, now);
      if Advance(v, now).failed { ObeyFailed(Advance(v, now), o, now); }
      else {
        ObeyOther(Advance(v, now), o, now, t);
        SameOnSchedule(Advance(v, now), Accept(w, now), t, c, p, auto);
      }
    }
  }

  // ------------------------------------------------------------------------ whole runs

  /** The event carries no command about t from outside the daemon. */
  ghost predicate Undisturbed(ev: Event, t: int) {
    ev.Posted? ==> Silent(ev.orders, t)
  }

  lemma NextOnSchedule(w: World, ev: Event, t: int, c: nat, p: Tick, auto: bool)
    requires Inv(w) && Enabled(w, ev) && Undisturbed(ev, t) && Kept(w, t, c, p, auto)
    ensures Kept(Next(w, ev), t, c, p, auto)
  {
    hide FiresOf, OrdersOf, EntriesOf, Progression, LastTick, QuietScript, Sorted, OnTime, NoTwice, Filed,
         Epoch, Low, Turn, Fitting, Timely, Silent;
    match ev
    case TurnAt(now) => TurnOnSchedule(w, now, t, c, p, auto);
    case AcceptAt(now) =>
      if w.failed { AcceptFailed(w, now); } else { AcceptOnSchedule(w, now, t, c, p, auto); }
    case Posted(os) =>
      if !w.failed {
        FittingQuiet(w.queue, os, t);
        QuietSame(w, Next(w, ev), t);
      }
  }

  lemma {:induction false} DrainFailed(w: World, e: nat, now: nat)
    requires Filed(w.current, e, w.timers) && w.failed
    ensures DrainAll(w, e, now).failed
    decreases Distance(w.current)
  {
    hide Epoch, Flush, Distance;
    if w.current != [] {
      FlushFacts(w, now);
      FlushFailed(w, now);
      DrainFailed(Flush(w, now), e, now);
    }
  }

  lemma AcceptFailed(w: World, now: nat)
    requires Inv(w) && w.queue != [] && w.queue[0].timer in w.timers && w.failed
    ensures Accept(w, now).failed
  {
    hide Epoch, Low, Sorted, OnTime, NoTwice, Obey, DrainAll;
    PickedKeeps(w);
    DrainFailed(Picked(w), Epoch(w.last), now);
    ObeyFailed(Advance(Picked(w), now), w.queue[0], now);
  }

  lemma {:induction false} RunOnSchedule(w: World, evs: seq<Event>, t: int, c: nat, p: Tick, auto: bool)
    requires Inv(w) && EnabledRun(w, evs) && Kept(w, t, c, p, auto)
    requires forall k :: 0 <= k < |evs| ==> Undisturbed(evs[k], t)
    ensures Kept(Run(w, evs), t, c, p, auto)
    decreases |evs|
  {
    hide Inv, Enabled, Next, Kept, Undisturbed;
    if evs != [] {
      NextKeeps(w, evs[0]);
      NextOnSchedule(w, evs[0], t, c, p, auto);
      RunOnSchedule(Next(w, evs[0]), evs[1..], t, c, p, auto);
    }
  }

  /** The k-th expiry, counting from 1. */
  function Expiry(c: nat, p: nat, k: nat): nat { c + k * p }

  lemma {:induction false} ProgressionAt(c: nat, p: nat, fs: seq<nat>, k: nat)
    requires Progression(c, p, fs) && k < |fs|
    ensures fs[k] == Expiry(c, p, k + 1)
    decreases |fs|
  {
    var n := |fs| - 1;
    if k < n {
      ProgressionAt(c, p, fs[..n], k);
    } else if n > 0 {
      ProgressionAt(c, p, fs[..n], n - 1);
      assert fs[..n][n - 1] == c + n * p;
      assert (n + 1) * p == n * p + p;
    }
  }

  /** Queueing a start command at tick c, for a timer that is neither filed nor queued and has had
      no callback, puts it on schedule. */
  lemma StartOnSchedule(w: World, t: int, c: nat, p: Tick, auto: bool)
    requires t in w.timers && w.timers[t] == Timer(p, auto) && 0 < p && QuietScript(w, t)
    requires FiresOf(w.fires, t) == [] && OrdersOf(w.queue, t) == [] && |w.queue| < QUEUE_LENGTH
    requires EntriesOf(w.current, t) == [] && EntriesOf(w.overflow, t) == []
    ensures OnSchedule(w.(queue := w.queue + [Order(Start, t, c)]), t, c, p, auto)
  {
    OrdersOfConcat(w.queue, [Order(Start, t, c)], t);
    assert [Order(Start, t, c)][1..] == [];
  }

  /** The k-th callback of an auto-reload timer started at c with period p is for expiry c + k*p,
      in every run in which no other command concerns it and no internal restart was refused: none
      is skipped, repeated, early or drifted, and the next one, and only it, is always pending. */
  lemma AutoReloadExact(w: World, evs: seq<Event>, t: int, c: nat, p: Tick)
    requires Inv(w) && EnabledRun(w, evs) && OnSchedule(w, t, c, p, true)
    requires forall k :: 0 <= k < |evs| ==> Undisturbed(evs[k], t)
    requires !Run(w, evs).failed
    ensures var r := Run(w, evs);
      var fs := FiresOf(r.fires, t);
      && (forall k :: 0 <= k < |fs| ==> fs[k] == Expiry(c, p, k + 1))
      && OnTime(r.fires)
      && Armed(r, t, LastTick(c, fs), p)
  {
    hide Enabled, Next, Undisturbed, Expiry, Progression, Run, EnabledRun, FiresOf, Armed, Held, LastTick,
         OnTime, Placed;
    RunOnSchedule(w, evs, t, c, p, true);
    RunRefines(w, evs);
    var fs := FiresOf(Run(w, evs).fires, t);
    forall k | 0 <= k < |fs| ensures fs[k] == Expiry(c, p, k + 1) {
      ProgressionAt(c, p, fs, k);
    }
  }

  /** A one-shot timer: its one expiry is pending until its one callback, and never after. */
  lemma OneShotExact(w: World, evs: seq<Event>, t: int, c: nat, p: Tick)
    requires Inv(w) && EnabledRun(w, evs) && OnSchedule(w, t, c, p, false)
    requires forall k :: 0 <= k < |evs| ==> Undisturbed(evs[k], t)
    requires !Run(w, evs).failed
    ensures var r := Run(w, evs);
      && OnTime(r.fires)
      && (|| (FiresOf(r.fires, t) == [] && Armed(r, t, c, p))
          || (FiresOf(r.fires, t) == [c + p] && Held(r, t) == [] && OrdersOf(r.queue, t) == []))
  {
    hide Enabled, Next, Undisturbed, Run, EnabledRun, FiresOf, OrdersOf, Armed, Held, OnTime, Placed;
    RunOnSchedule(w, evs, t, c, p, false);
    RunRefines(w, evs);
    var fs := FiresOf(Run(w, evs).fires, t);
    if fs != [] {
      assert fs[..0] == [] && fs == [fs[0]];
    }
  }
}

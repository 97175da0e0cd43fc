/** What each timer command comes to.  A stop or a delete silences its timer; a start, a reset or a
    change of period starts its schedule afresh, whatever the timer did before. */
module TimerEffects {
  import opened MachineWord
  import opened TimerState
  import opened TimerWorld
  import opened TimerRefine
  import opened TimerRuns
  import opened TimerSchedule

  // ---------------------------------------------------------- the log of callbacks is only a log

  /** The same world, with the first k callbacks forgotten. */
  function Forget(w: World, k: nat): World
    requires k <= |w.fires|
  {
    w.(fires := w.fires[k..])
  }

  lemma NotifyForget(w: World, f: Fire, k: nat)
    requires k <= |w.fires|
    ensures k <= |Notify(w, f).fires| && Notify(Forget(w, k), f) == Forget(Notify(w, f), k)
  {
    hide Fitting;
    assert (w.fires + [f])[k..] == w.fires[k..] + [f];
  }

  lemma PostForget(w: World, o: Order, k: nat)
    requires k <= |w.fires|
    ensures Post(w, o).fires == w.fires && Post(Forget(w, k), o) == Forget(Post(w, o), k)
  {}

  lemma ScheduleForget(w: World, t: int, x: nat, now: nat, k: nat)
    requires k <= |w.fires|
    ensures Schedule(w, t, x, now).0.fires == w.fires
    ensures Schedule(Forget(w, k), t, x, now) == (Forget(Schedule(w, t, x, now).0, k), Schedule(w, t, x, now).1)
  {
    hide File, Epoch;
  }

  lemma ExpireForget(w: World, now: nat, k: nat)
    requires k <= |w.fires| && w.current != [] && w.current[0].owner in w.timers
    ensures k <= |Expire(w, now).fires| && Expire(Forget(w, k), now) == Forget(Expire(w, now), k)
  {
    hide Schedule, Notify, Post;
    var t, x := w.current[0].owner, w.current[0].expiry;
    var w1 := w.(current := w.current[1..]);
    ScheduleForget(w1, t, x + w.timers[t].period, now, k);
    var e := Schedule(w1, t, x + w.timers[t].period, now).0;
    PostForget(e, Order(Start, t, x), k);
    NotifyForget(w1, Fire(t, x, now), k);
    NotifyForget(e, Fire(t, x, now), k);
    NotifyForget(Post(e, Order(Start, t, x)), Fire(t, x, now), k);
  }

  lemma FlushForget(w: World, now: nat, k: nat)
    requires k <= |w.fires| && w.current != [] && w.current[0].owner in w.timers
    ensures k <= |Flush(w, now).fires| && Flush(Forget(w, k), now) == Forget(Flush(w, now), k)
  {
    hide Notify, Post, File, Epoch;
    var t, x := w.current[0].owner, w.current[0].expiry;
    var w1 := w.(current := w.current[1..]);
    NotifyForget(w1, Fire(t, x, now), k);
    NotifyKeeps(w1, Fire(t, x, now));
    NotifyKeeps(Forget(w1, k), Fire(t, x, now));
    PostForget(Notify(w1, Fire(t, x, now)), Order(Start, t, x), k);
  }

  lemma {:induction false} DrainForget(w: World, e: nat, now: nat, k: nat)
    requires k <= |w.fires| && Filed(w.current, e, w.timers)
    ensures k <= |DrainAll(w, e, now).fires| && DrainAll(Forget(w, k), e, now) == Forget(DrainAll(w, e, now), k)
    decreases Distance(w.current)
  {
    hide Epoch, Flush, Distance, DrainAll;
    if w.current == [] {
      DrainNothing(w, e, now);
      DrainNothing(Forget(w, k), e, now);
    } else {
      FlushFacts(w, now);
      FlushForget(w, now, k);
      DrainStep(w, e, now);
      DrainStep(Forget(w, k), e, now);
      DrainForget(Flush(w, now), e, now, k);
    }
  }

  lemma AdvanceForget(w: World, now: nat, k: nat)
    requires k <= |w.fires| && Placed(w)
    ensures k <= |Advance(w, now).fires| && Advance(Forget(w, k), now) == Forget(Advance(w, now), k)
  {
    hide Epoch, DrainAll;
    DrainForget(w, Epoch(w.last), now, k);
  }

  lemma ObeyForget(w: World, o: Order, now: nat, k: nat)
    requires k <= |w.fires| && o.timer in w.timers
    ensures k <= |Obey(w, o, now).fires| && Obey(Forget(w, k), o, now) == Forget(Obey(w, o, now), k)
  {
    hide Schedule, Notify, Post, Low;
    var t := o.timer;
    match o.kind
    case Start =>
      var x := o.value + w.timers[t].period;
      ScheduleForget(w, t, x, now, k);
      var e := Schedule(w, t, x, now).0;
      NotifyForget(e, Fire(t, x, now), k);
      PostForget(Notify(e, Fire(t, x, now)), Order(Start, t, x), k);
    case Stop =>
    case ChangePeriod =>
      ScheduleForget(w.(timers := w.timers[t := w.timers[t].(period := Low(o.value))]), t, now + o.value, now, k);
    case Delete =>
  }

  lemma InvForget(w: World, k: nat)
    requires Inv(w) && k <= |w.fires|
    ensures Inv(Forget(w, k))
  {
    hide Epoch, Sorted, Filed;
  }

  lemma NextForget(w: World, ev: Event, k: nat)
    requires Inv(w) && Enabled(w, ev) && k <= |w.fires|
    ensures Inv(Forget(w, k)) && Enabled(Forget(w, k), ev)
    ensures k <= |Next(w, ev).fires| && Next(Forget(w, k), ev) == Forget(Next(w, ev), k)
  {
    hide Sorted, OnTime, NoTwice, Epoch, Low, Advance, Expire, Obey, Fitting, Filed;
    InvForget(w, k);
    match ev
    case TurnAt(now) =>
      AdvanceForget(w, now, k);
      if Epoch(now) == Epoch(w.last) && w.current != [] && w.current[0].expiry <= now {
        AdvanceInEpoch(w, now);
        HeadOwner(w);
        ExpireForget(Advance(w, now), now, k);
      }
    case AcceptAt(now) =>
      PickedKeeps(w);
      PickedFields(w);
      AdvanceForget(Picked(w), now, k);
      ObeyForget(Advance(Picked(w), now), w.queue[0], now, k);
    case Posted(_) =>
  }

  lemma {:induction false} RunForget(w: World, evs: seq<Event>, k: nat)
    requires Inv(w) && EnabledRun(w, evs) && k <= |w.fires|
    ensures Inv(Forget(w, k)) && EnabledRun(Forget(w, k), evs)
    ensures k <= |Run(w, evs).fires| && Run(Forget(w, k), evs) == Forget(Run(w, evs), k)
    decreases |evs|
  {
    hide Inv, Enabled, Next, Forget;
    InvForget(w, k);
    if evs != [] {
      NextKeeps(w, evs[0]);
      NextForget(w, evs[0], k);
      RunForget(Next(w, evs[0]), evs[1..], k);
    } else {
      ForgetFires(w, k);
    }
  }

  lemma ForgetFires(w: World, k: nat)
    requires k <= |w.fires|
    ensures Forget(w, k).fires == w.fires[k..]
  {}

  // ------------------------------------------------------------------ what carrying out a command does

  ghost predicate Absent(s: seq<Entry>, t: int) { forall k :: 0 <= k < |s| ==> s[k].owner != t }

  lemma {:induction false} FileAbsent(s: seq<Entry>, e: Entry, t: int)
    requires Absent(s, t) && e.owner != t
    ensures Absent(File(s, e), t)
    decreases s
  {
    FileMembers(s, e);
    forall k | 0 <= k < |File(s, e)| ensures File(s, e)[k].owner != t { assert File(s, e)[k] in File(s, e); }
  }

  lemma FlushAbsent(w: World, now: nat, t: int)
    requires w.current != [] && w.current[0].owner in w.timers && Absent(w.current, t)
    ensures Absent(Flush(w, now).current, t)
    ensures FiresOf(Flush(w, now).fires, t) == FiresOf(w.fires, t)
  {
    hide FiresOf, File, Epoch, Fitting;
    var u, x := w.current[0].owner, w.current[0].expiry;
    FiresOfSnoc(w.fires, Fire(u, x, now), t);
    assert FiresOf(w.fires, t) + [] == FiresOf(w.fires, t);
    FileAbsent(w.current[1..], Entry(x + w.timers[u].period, u), t);
  }

  lemma {:induction false} DrainAbsent(w: World, e: nat, now: nat, t: int)
    requires Filed(w.current, e, w.timers) && Absent(w.current, t)
    ensures FiresOf(DrainAll(w, e, now).fires, t) == FiresOf(w.fires, t)
    decreases Distance(w.current)
  {
    hide Epoch, Flush, Distance, DrainAll, FiresOf;
    if w.current == [] {
      DrainNothing(w, e, now);
    } else {
      FlushFacts(w, now);
      FlushAbsent(w, now, t);
      DrainStep(w, e, now);
      DrainAbsent(Flush(w, now), e, now, t);
    }
  }

  /** Moving the clock makes no callback for a timer that is in neither list. */
  lemma AdvanceAbsent(w: World, now: nat, t: int)
    requires Placed(w) && Unfiled(w, t)
    ensures Unfiled(Advance(w, now), t) && FiresOf(Advance(w, now).fires, t) == FiresOf(w.fires, t)
  {
    hide Epoch, DrainAll, FiresOf;
    DrainAbsent(w, Epoch(w.last), now, t);
    AdvanceUnfiled(w, t, now);
  }

  /** The state in which the handler meets a command about t: t is in no list, and has had no callback. */
  lemma Handled(w: World, now: nat) returns (v: World)
    requires Inv(w) && Enabled(w, AcceptAt(now))
    ensures var o := w.queue[0];
      && v.last == now && o.timer in v.timers && v.timers == w.timers && Accept(w, now) == Obey(v, o, now)
      && Unfiled(v, o.timer) && FiresOf(v.fires, o.timer) == FiresOf(w.fires, o.timer)
  {
    hide Inv, Advance, FiresOf, Picked, Obey, Epoch, Low, Timely;
    PickedKeeps(w);
    PickedFields(w);
    PlacedNow(Picked(w));
    PickedLog(w);
    AdvanceAbsent(Picked(w), now, w.queue[0].timer);
    v := Advance(Picked(w), now);
  }

  lemma PlacedNow(w: World)
    requires Inv(w)
    ensures Placed(w)
  {}

  lemma PickedLog(w: World)
    requires w.queue != []
    ensures Picked(w).fires == w.fires && Picked(w).script == w.script && Picked(w).failed == w.failed
  {}

  /** Stop: the timer is in neither list, and is otherwise as it was.  Delete: it is gone. */
  lemma StopExact(w: World, now: nat)
    requires Inv(w) && Enabled(w, AcceptAt(now)) && w.queue[0].kind in {Stop, Delete}
    ensures var t, r := w.queue[0].timer, Next(w, AcceptAt(now));
      && (forall e :: Active(r, e) ==> e.owner != t)
      && FiresOf(r.fires, t) == FiresOf(w.fires, t)
      && (w.queue[0].kind == Stop ==> r.timers == w.timers)
      && (w.queue[0].kind == Delete ==> r.timers == w.timers - {t})
  {
    hide Inv, Accept, FiresOf, Epoch, Low;
    var v := Handled(w, now);
  }

  /** A new period is counted from the moment at which the command is carried out: the timer's one entry
      expires that long after it, wherever it was filed before. */
  lemma ChangePeriodExact(w: World, now: nat, e: Entry)
    requires Inv(w) && Enabled(w, AcceptAt(now)) && w.queue[0].kind == ChangePeriod
    ensures var o, r := w.queue[0], Next(w, AcceptAt(now));
      && r.timers == w.timers[o.timer := Timer(o.value, w.timers[o.timer].autoReload)]
      && Active(r, Entry(now + o.value, o.timer))
      && (Active(r, e) && e.owner == o.timer ==> e.expiry == now + o.value)
      && FiresOf(r.fires, o.timer) == FiresOf(w.fires, o.timer)
  {
    hide Inv, Accept, FiresOf, Epoch, Low, File;
    var o := w.queue[0];
    var v := Handled(w, now);
    LowSmall(o.value);
    FileMembers(v.current, Entry(now + o.value, o.timer));
    FileMembers(v.overflow, Entry(now + o.value, o.timer));
    NextKeeps(w, AcceptAt(now));
    var r := Next(w, AcceptAt(now));
    if Active(r, e) && e.owner == o.timer { OneEntry(r, e, Entry(now + o.value, o.timer)); }
  }

  lemma ObeyStart(w: World, o: Order, now: nat)
    requires o.kind == Start && o.timer in w.timers
    ensures var t, x, r := o.timer, o.value + w.timers[o.timer].period, Obey(w, o, now);
      && r.timers == w.timers
      && (now < x ==> r.fires == w.fires && forall e :: Active(r, e) <==> Active(w, e) || e == Entry(x, t))
      && (x <= now ==> r.fires == w.fires + [Fire(t, x, now)] && forall e :: Active(r, e) <==> Active(w, e))
      && (x <= now && w.timers[t].autoReload ==>
            r.failed || (r.queue != [] && r.queue[|r.queue| - 1] == Order(Start, t, x)))
  {
    hide Epoch, File, Fitting;
    FileMembers(w.current, Entry(o.value + w.timers[o.timer].period, o.timer));
    FileMembers(w.overflow, Entry(o.value + w.timers[o.timer].period, o.timer));
  }

  lemma UnfiledMeans(w: World, t: int, e: Entry)
    requires Unfiled(w, t) && Active(w, e)
    ensures e.owner != t
  {}

  /** A start or reset carried out before its expiry files the timer for it, and for nothing else; one
      that comes too late makes the callback at once, and an auto-reload timer goes on from there. */
  lemma StartExact(w: World, now: nat, e: Entry)
    requires Inv(w) && Enabled(w, AcceptAt(now)) && w.queue[0].kind == Start
    ensures var o, r := w.queue[0], Next(w, AcceptAt(now));
      var t, x := o.timer, o.value + w.timers[o.timer].period;
      && r.timers == w.timers
      && (now < x ==>
            && Active(r, Entry(x, t)) && (Active(r, e) && e.owner == t ==> e.expiry == x)
            && FiresOf(r.fires, t) == FiresOf(w.fires, t))
      && (x <= now ==>
            && (Active(r, e) ==> e.owner != t)
            && FiresOf(r.fires, t) == FiresOf(w.fires, t) + [x]
            && (w.timers[t].autoReload ==> r.failed || (r.queue != [] && r.queue[|r.queue| - 1] == Order(Start, t, x))))
  {
    hide Inv, Accept, FiresOf, Obey, Active, Unfiled;
    var o := w.queue[0];
    var t, x := o.timer, o.value + w.timers[o.timer].period;
    var v := Handled(w, now);
    ObeyStart(v, o, now);
    FiresOfSnoc(v.fires, Fire(t, x, now), t);
    if Active(v, e) { UnfiledMeans(v, t, e); }
  }

  // --------------------------------------------------------------------------- starting the schedule afresh

  lemma NothingYet(c: nat, p: nat, t: int)
    ensures FiresOf([], t) == [] && Progression(c, p, []) && LastTick(c, []) == c
  {}

  /** A change of period, for a timer in neither list that has had no callback. */
  lemma ObeyChange(w: World, now: nat, t: int, p: Tick)
    requires t in w.timers && 0 < p && QuietScript(w, t) && FiresOf(w.fires, t) == [] && OrdersOf(w.queue, t) == []
    requires EntriesOf(w.current, t) == [] && EntriesOf(w.overflow, t) == []
    ensures OnSchedule(Obey(w, Order(ChangePeriod, t, p), now), t, now, p, w.timers[t].autoReload)
  {
    hide FiresOf, OrdersOf, EntriesOf, QuietScript, Schedule, Low, Progression, LastTick;
    LowSmall(p);
    NothingYet(now, p, t);
    var e := w.(timers := w.timers[t := w.timers[t].(period := p)]);
    DueMeans(e, t, now + p, now);
    ScheduleShows(e, t, now + p, now, t);
    QuietSame(w, Schedule(e, t, now + p, now).0, t);
  }

  /** Both commands put a timer with a clean log on schedule, whatever entry it had. */
  lemma AcceptStarts(w: World, now: nat, t: int, c: nat, p: Tick)
    requires Inv(w) && Enabled(w, AcceptAt(now)) && w.fires == [] && t == w.queue[0].timer && 0 < p
    requires QuietScript(w, t) && OrdersOf(w.queue[1..], t) == []
    requires || (w.queue[0] == Order(Start, t, c) && p == w.timers[t].period)
             || (w.queue[0] == Order(ChangePeriod, t, p) && c == now)
    ensures Kept(Next(w, AcceptAt(now)), t, c, p, w.timers[t].autoReload)
  {
    hide FiresOf, OrdersOf, EntriesOf, Progression, LastTick, QuietScript, Obey, Advance, OnSchedule,
         Sorted, OnTime, NoTwice, Epoch, Low, Filed;
    PickedKeeps(w);
    PickedFields(w);
    PickedLog(w);
    var v := Picked(w);
    UnfileShows(w.current, t, t);
    UnfileShows(w.overflow, t, t);
    QuietSame(w, v, t);
    NothingYet(c, p, t);
    AdvanceSame(v, now, t);
    if w.queue[0].kind == Start {
      ObeyOwn(Advance(v, now), now, t, c, p, w.timers[t].autoReload, c);
    } else {
      ObeyChange(Advance(v, now), now, t, p);
    }
  }

  /** When a start or a reset for tick c, or a change of period at tick c, is carried out, the schedule of
      its timer begins afresh: however it was filed and whatever callbacks it had before, in every run in
      which no other command concerns it and no internal restart is refused, the callbacks it has from
      then on are those for c + p, c + 2p and so on, if it reloads, and otherwise the one for c + p; and
      the next one, and only it, is pending. */
  lemma RestartExact(w: World, now: nat, evs: seq<Event>, t: int, c: nat, p: Tick)
    requires Inv(w) && Enabled(w, AcceptAt(now)) && t == w.queue[0].timer && 0 < p
    requires QuietScript(w, t) && OrdersOf(w.queue[1..], t) == []
    requires || (w.queue[0] == Order(Start, t, c) && p == w.timers[t].period)
             || (w.queue[0] == Order(ChangePeriod, t, p) && c == now)
    requires Inv(Next(w, AcceptAt(now))) && EnabledRun(Next(w, AcceptAt(now)), evs)
    requires !Run(Next(w, AcceptAt(now)), evs).failed
    requires forall k :: 0 <= k < |evs| ==> Undisturbed(evs[k], t)
    ensures var s := Run(Next(w, AcceptAt(now)), evs);
      |w.fires| <= |s.fires|
      && var fs := FiresOf(s.fires[|w.fires|..], t);
        if w.timers[t].autoReload
        then (forall k :: 0 <= k < |fs| ==> fs[k] == Expiry(c, p, k + 1)) && Armed(s, t, LastTick(c, fs), p)
        else || (fs == [] && Armed(s, t, c, p))
             || (fs == [c + p] && Held(s, t) == [] && OrdersOf(s.queue, t) == [])
  {
    hide Inv, Next, Undisturbed, Expiry, Run, EnabledRun, FiresOf, OrdersOf, Armed, Held, LastTick, Timely,
         OnTime, QuietScript, OnSchedule;
    var k, auto := |w.fires|, w.timers[t].autoReload;
    var f, r := Forget(w, k), Next(w, AcceptAt(now));
    NextForget(w, AcceptAt(now), k);
    QuietSame(w, f, t);
    AcceptStarts(f, now, t, c, p);
    RunForget(r, evs, k);
    RunOnSchedule(Forget(r, k), evs, t, c, p, auto);
    ScheduleMeans(Run(r, evs), k, t, c, p, auto);
  }

  /** Being on schedule since the k-th callback, spelled out. */
  lemma ScheduleMeans(w: World, k: nat, t: int, c: nat, p: Tick, auto: bool)
    requires k <= |w.fires| && OnSchedule(Forget(w, k), t, c, p, auto)
    ensures var fs := FiresOf(w.fires[k..], t);
      if auto then (forall j :: 0 <= j < |fs| ==> fs[j] == Expiry(c, p, j + 1)) && Armed(w, t, LastTick(c, fs), p)
      else || (fs == [] && Armed(w, t, c, p))
           || (fs == [c + p] && Held(w, t) == [] && OrdersOf(w.queue, t) == [])
  {
    hide FiresOf, OrdersOf, EntriesOf, QuietScript, Expiry;
    var fs := FiresOf(w.fires[k..], t);
    forall j | 0 <= j < |fs| ensures fs[j] == Expiry(c, p, j + 1) { ProgressionAt(c, p, fs, j); }
    if !auto && fs != [] { assert fs[..0] == [] && fs == [fs[0]]; }
  }

  // ---------------------------------------------------------------------------------------- staying silent

  /** t is in no list, and no command about it is queued or will be posted by a callback. */
  ghost predicate Silenced(w: World, t: int) {
    && t in w.timers && QuietScript(w, t)
    && EntriesOf(w.current, t) == [] && EntriesOf(w.overflow, t) == [] && OrdersOf(w.queue, t) == []
  }

  lemma SameSilenced(w: World, v: World, t: int)
    requires Silenced(w, t) && SameFor(w, v, t)
    ensures Silenced(v, t) && FiresOf(v.fires, t) == FiresOf(w.fires, t)
  {
    hide FiresOf, OrdersOf, EntriesOf, QuietScript;
    assert EntriesOf(v.current, t) + EntriesOf(v.overflow, t) == [];
  }

  lemma TurnSilent(w: World, now: nat, t: int)
    requires Inv(w) && Timely(w, now) && Silenced(w, t)
    ensures Silenced(Turn(w, now), t) && FiresOf(Turn(w, now).fires, t) == FiresOf(w.fires, t)
  {
    hide FiresOf, OrdersOf, EntriesOf, QuietScript, Advance, Expire, Epoch, Sorted, OnTime, NoTwice, Filed;
    AdvanceSame(w, now, t);
    var a := Advance(w, now);
    SameSilenced(w, a, t);
    if Epoch(now) == Epoch(w.last) && w.current != [] && w.current[0].expiry <= now {
      AdvanceInEpoch(w, now);
      HeadOwner(w);
      HeadShows(w.current, t);
      ExpireOther(a, now, t);
      SameSilenced(a, Expire(a, now), t);
    }
  }

  lemma AcceptSilent(w: World, now: nat, t: int)
    requires Inv(w) && Enabled(w, AcceptAt(now)) && Silenced(w, t)
    ensures Silenced(Accept(w, now), t) && FiresOf(Accept(w, now).fires, t) == FiresOf(w.fires, t)
  {
    hide FiresOf, EntriesOf, QuietScript, Advance, Obey, Epoch, Sorted, OnTime, NoTwice, Filed, Low;
    var o := w.queue[0];
    PickedKeeps(w);
    PickedFields(w);
    PickedLog(w);
    var v := Picked(w);
    UnfileShows(w.current, o.timer, t);
    UnfileShows(w.overflow, o.timer, t);
    QuietSame(w, v, t);
    assert OrdersOf(w.queue, t) == (if o.timer == t then [o] else []) + OrdersOf(w.queue[1..], t);
    AdvanceSame(v, now, t);
    SameSilenced(v, Advance(v, now), t);
    ObeyOther(Advance(v, now), o, now, t);
    SameSilenced(Advance(v, now), Accept(w, now), t);
  }

  /** A timer that has been stopped, with no command about it under way, has no callback in any run in
      which none is posted, and stays out of both lists. */
  lemma {:induction false} StoppedStays(w: World, evs: seq<Event>, t: int)
    requires Inv(w) && EnabledRun(w, evs) && Silenced(w, t)
    requires forall k :: 0 <= k < |evs| ==> Undisturbed(evs[k], t)
    ensures Silenced(Run(w, evs), t) && FiresOf(Run(w, evs).fires, t) == FiresOf(w.fires, t)
    decreases |evs|
  {
    hide Inv, FiresOf, Silenced, Turn, Accept, Fitting, Timely, Silent;
    if evs != [] {
      NextKeeps(w, evs[0]);
      match evs[0] {
        case TurnAt(now) => TurnSilent(w, now, t);
        case AcceptAt(now) => AcceptSilent(w, now, t);
        case Posted(os) =>
          assert Undisturbed(evs[0], t);
          PostSilent(w, os, t);
      }
      StoppedStays(Next(w, evs[0]), evs[1..], t);
    }
  }

  lemma PostSilent(w: World, os: seq<Order>, t: int)
    requires Silenced(w, t) && Silent(os, t)
    ensures Silenced(w.(queue := Fitting(w.queue, os)), t)
  {
    FittingQuiet(w.queue, os, t);
    QuietSame(w, w.(queue := Fitting(w.queue, os)), t);
  }

  lemma GoneUnfiled(w: World, t: int)
    requires Inv(w) && t !in w.timers
    ensures Unfiled(w, t)
  {
    hide Epoch;
  }

  lemma DeletedStep(w: World, ev: Event, t: int)
    requires Inv(w) && Enabled(w, ev) && t !in w.timers
    ensures t !in Next(w, ev).timers && FiresOf(Next(w, ev).fires, t) == FiresOf(w.fires, t)
  {
    hide FiresOf, Sorted, OnTime, NoTwice, Epoch, Low, Advance, Expire, Obey, Fitting, Filed, Picked;
    GoneUnfiled(w, t);
    match ev
    case TurnAt(now) =>
      AdvanceAbsent(w, now, t);
      if Epoch(now) == Epoch(w.last) && w.current != [] && w.current[0].expiry <= now {
        AdvanceInEpoch(w, now);
        HeadOwner(w);
        ExpireLog(Advance(w, now), now, t);
      }
    case AcceptAt(now) =>
      PickedKeeps(w);
      PickedFields(w);
      PickedLog(w);
      GoneUnfiled(Picked(w), t);
      AdvanceAbsent(Picked(w), now, t);
      ObeyLog(Advance(Picked(w), now), w.queue[0], now, t);
    case Posted(_) =>
  }

  lemma ExpireLog(w: World, now: nat, t: int)
    requires w.current != [] && w.current[0].owner in w.timers && w.current[0].owner != t
    ensures FiresOf(Expire(w, now).fires, t) == FiresOf(w.fires, t) && Expire(w, now).timers == w.timers
  {
    hide FiresOf, File, Fitting, Epoch;
    FiresOfSnoc(w.fires, Fire(w.current[0].owner, w.current[0].expiry, now), t);
    assert FiresOf(w.fires, t) + [] == FiresOf(w.fires, t);
  }

  lemma ObeyLog(w: World, o: Order, now: nat, t: int)
    requires o.timer in w.timers && o.timer != t
    ensures FiresOf(Obey(w, o, now).fires, t) == FiresOf(w.fires, t)
    ensures t in Obey(w, o, now).timers <==> t in w.timers
  {
    hide FiresOf, File, Fitting, Epoch, Low;
    if o.kind == Start {
      FiresOfSnoc(w.fires, Fire(o.timer, o.value + w.timers[o.timer].period, now), t);
      assert FiresOf(w.fires, t) + [] == FiresOf(w.fires, t);
    }
  }

  /** A timer that has been deleted has no callback ever again. */
  lemma {:induction false} DeletedStays(w: World, evs: seq<Event>, t: int)
    requires Inv(w) && EnabledRun(w, evs) && t !in w.timers
    ensures t !in Run(w, evs).timers && FiresOf(Run(w, evs).fires, t) == FiresOf(w.fires, t)
    decreases |evs|
  {
    hide Inv, FiresOf, Next, Enabled;
    if evs != [] {
      NextKeeps(w, evs[0]);
      DeletedStep(w, evs[0], t);
      DeletedStays(Next(w, evs[0]), evs[1..], t);
    }
  }

  // ---------------------------------------------------------------------------- a turn of the daemon's loop

  /** With an active timer due, a turn in the epoch of the last sample makes exactly one callback, for the
      earliest of all active expiries; with none due, it does nothing but note the time. */
  lemma TurnFires(w: World, now: nat, e: Entry)
    requires Inv(w) && Timely(w, now) && Epoch(now) == Epoch(w.last)
    ensures var r := Turn(w, now);
      if w.current != [] && w.current[0].expiry <= now
      then
        && var t, x := w.current[0].owner, w.current[0].expiry;
          && Active(w, Entry(x, t)) && (Active(w, e) ==> x <= e.expiry)
          && r.fires == w.fires + [Fire(t, x, now)]
      else r == w.(last := now) && (Active(w, e) ==> now < e.expiry)
  {
    hide Epoch, Sorted, OnTime, NoTwice, Advance, Expire, Filed;
    AdvanceInEpoch(w, now);
    if Active(w, e) { HeadEarliest(w, now, e); }
    if w.current != [] {
      HeadOwner(w);
      assert w.current[0] in w.current;
      ExpireCalls(Advance(w, now), now);
    }
  }

  lemma HeadEarliest(w: World, now: nat, e: Entry)
    requires Inv(w) && Active(w, e) && Epoch(now) == Epoch(w.last)
    ensures w.current != [] && (w.current[0].expiry <= now || e in w.current) ==> w.current[0].expiry <= e.expiry
    ensures e in w.current || now < e.expiry
  {
    hide Epoch, OnTime, NoTwice;
    if e in w.current {
      var k :| 0 <= k < |w.current| && w.current[k] == e;
      SortedHead(w.current, k);
    } else {
      InEpochs(w, e);
      if e.expiry <= now { EpochMonotone(e.expiry, now); }
    }
  }

  lemma ExpireCalls(w: World, now: nat)
    requires w.current != [] && w.current[0].owner in w.timers
    ensures Expire(w, now).fires == w.fires + [Fire(w.current[0].owner, w.current[0].expiry, now)]
  {
    hide File, Fitting, Epoch;
  }

  /** A turn in a later epoch makes a callback for every expiry of the one that has ended; those filed for
      the next stay filed. */
  lemma TurnDrains(w: World, now: nat, e: Entry) returns (made: seq<Fire>)
    requires Inv(w) && Timely(w, now) && Epoch(now) > Epoch(w.last)
    ensures var r := Turn(w, now);
      && r.fires == w.fires + made && r.current == w.overflow && r.overflow == []
      && (Active(w, e) && Epoch(e.expiry) == Epoch(w.last) ==> SomeFire(made, e))
  {
    hide Epoch, OnTime, NoTwice, DrainAll, Sorted, SomeFire;
    made := DrainInOrder(w, Epoch(w.last), now);
    if Active(w, e) { InEpochs(w, e); }
  }
}

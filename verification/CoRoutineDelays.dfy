/** Delayed co-routines of croutine.c: two lists sorted by wrapped wake time and a tick count that is
    advanced one tick at a time, against the same in unbounded time. */
module CoRoutineDelays {
  import opened MachineWord
  import opened TimerState
  import opened TimerWorld
  import opened TimerRefine

  // -------------------------------------------------------------------------- as the code has it

  datatype Delays = Delays(delayed: seq<Item>, overflow: seq<Item>, count: Tick, woken: seq<int>)

  /** vCoRoutineAddToDelayedList. */
  function AddToDelayed(d: Delays, owner: int, ticks: Tick): Delays {
    var wake := Add32(d.count, ticks);
    if wake < d.count then d.(overflow := SortedInsert(d.overflow, Item(wake, owner)))
    else d.(delayed := SortedInsert(d.delayed, Item(wake, owner)))
  }

  /** The inner loop of prvCheckDelayedList. */
  function WakeDue(d: Delays): Delays
    decreases |d.delayed|
  {
    if d.delayed == [] || d.count < d.delayed[0].value then d
    else WakeDue(d.(delayed := d.delayed[1..], woken := d.woken + [d.delayed[0].owner]))
  }

  /** The outer loop: one tick, with a swap of the lists when the count wraps. */
  function Advanced(d: Delays): Delays {
    var d1 := d.(count := Add32(d.count, 1));
    if d1.count == 0 then d1.(delayed := d.overflow, overflow := d.delayed) else d1
  }

  function OneTick(d: Delays): Delays { WakeDue(Advanced(d)) }

  function Pass(d: Delays, n: nat): Delays
    decreases n
  {
    if n == 0 then d else Pass(OneTick(d), n - 1)
  }

  /** prvCheckDelayedList, when the last check was at the current count. */
  function CheckDelayed(d: Delays, tick: Tick): Delays { Pass(d, Sub32(tick, d.count)) }

  /** An event takes a co-routine off whichever delayed list it is on. */
  function Unblock(d: Delays, owner: int): Delays {
    d.(delayed := Unlist(d.delayed, owner), overflow := Unlist(d.overflow, owner))
  }

  // -------------------------------------------------------------------------- in unbounded time

  datatype Plan = Plan(current: seq<Entry>, overflow: seq<Entry>, count: nat, woken: seq<Fire>)

  function Wait(p: Plan, owner: int, ticks: nat): Plan {
    var e := Entry(p.count + ticks, owner);
    if Epoch(e.expiry) == Epoch(p.count) then p.(current := File(p.current, e))
    else p.(overflow := File(p.overflow, e))
  }

  function Release(p: Plan): (r: Plan)
    ensures r.count == p.count && r.overflow == p.overflow
    decreases |p.current|
  {
    if p.current == [] || p.count < p.current[0].expiry then p
    else Release(p.(current := p.current[1..],
                    woken := p.woken + [Fire(p.current[0].owner, p.current[0].expiry, p.count)]))
  }

  function Moved(p: Plan): Plan {
    var p1 := p.(count := p.count + 1);
    if Low(p1.count) == 0 then p1.(current := p.overflow, overflow := p.current) else p1
  }

  function Step(p: Plan): Plan { Release(Moved(p)) }

  function Elapse(p: Plan, n: nat): Plan
    decreases n
  {
    if n == 0 then p else Elapse(Step(p), n - 1)
  }

  function Cancel(p: Plan, owner: int): Plan {
    p.(current := Unfile(p.current, owner), overflow := Unfile(p.overflow, owner))
  }

  function WrapPlan(p: Plan): Delays {
    Delays(WrapEntries(p.current), WrapEntries(p.overflow), Low(p.count), WrapFires(p.woken))
  }

  // ------------------------------------------------------------------------------- the invariant

  ghost predicate Ahead(s: seq<Entry>, count: nat) {
    forall k :: 0 <= k < |s| ==> count < s[k].expiry
  }

  /** No co-routine was woken early or late. */
  ghost predicate Punctual(woken: seq<Fire>, count: nat) {
    forall k :: 0 <= k < |woken| ==> woken[k].expiry == woken[k].at <= count
  }

  /** The current list holds wake times of this epoch still to come, the overflow list those of the
      next epoch; both are sorted, and every wake-up so far was at its exact tick. */
  ghost predicate Inv(p: Plan) {
    && Sorted(p.current) && Sorted(p.overflow)
    && InEpoch(p.current, Epoch(p.count)) && InEpoch(p.overflow, Epoch(p.count) + 1)
    && Ahead(p.current, p.count) && Punctual(p.woken, p.count)
  }

  lemma NextTick(x: nat)
    ensures Low(x + 1) == Add32(Low(x), 1)
    ensures Low(x + 1) == 0 <==> Epoch(x + 1) == Epoch(x) + 1
    ensures Low(x + 1) != 0 <==> Epoch(x + 1) == Epoch(x)
  {
    AddLow(x, 1);
  }

  /** The list that is swapped out is always empty. */
  lemma EmptyAtSwap(p: Plan)
    requires Inv(p) && Low(p.count + 1) == 0
    ensures p.current == []
  {
    hide Low, Epoch, Sorted;
    NextTick(p.count);
    if p.current != [] { EpochMonotone(p.count + 1, p.current[0].expiry); }
  }

  /** After moving the count, nothing filed is overdue: what is due is due exactly now. */
  ghost predicate Due(p: Plan) {
    && Sorted(p.current) && Sorted(p.overflow)
    && InEpoch(p.current, Epoch(p.count)) && InEpoch(p.overflow, Epoch(p.count) + 1)
    && (forall k :: 0 <= k < |p.current| ==> p.count <= p.current[k].expiry) && Punctual(p.woken, p.count)
  }

  lemma MovedDue(p: Plan)
    requires Inv(p)
    ensures Due(Moved(p)) && WrapPlan(Moved(p)) == Advanced(WrapPlan(p))
  {
    hide Low, Epoch, Sorted, WrapEntries;
    NextTick(p.count);
    if Low(p.count + 1) == 0 {
      EmptyAtSwap(p);
      EmptySorted();
      forall k | 0 <= k < |p.overflow| ensures p.count + 1 <= p.overflow[k].expiry {
        if p.overflow[k].expiry <= p.count { EpochMonotone(p.overflow[k].expiry, p.count); }
      }
    }
  }

  lemma EmptySorted()
    ensures Sorted([])
  {}

  lemma {:induction false} ReleaseKeeps(p: Plan)
    requires Due(p)
    ensures Inv(Release(p)) && WrapPlan(Release(p)) == WakeDue(WrapPlan(p))
    decreases |p.current|
  {
    hide Low, Epoch, WrapEntries, WrapFires;
    if p.current == [] {
      WrapNone();
    } else {
      WrapTail(p.current);
      Compare(p.current[0].expiry, p.count);
      if p.count < p.current[0].expiry {
        forall k | 0 <= k < |p.current| ensures p.count < p.current[k].expiry { SortedHead(p.current, k); }
      } else {
        var f := Fire(p.current[0].owner, p.current[0].expiry, p.count);
        WrapFireSnoc(p.woken, f);
        ReleaseKeeps(p.(current := p.current[1..], woken := p.woken + [f]));
      }
    }
  }

  lemma WrapNone()
    ensures WrapEntries([]) == []
  {}

  lemma WrapFireSnoc(fs: seq<Fire>, f: Fire)
    ensures WrapFires(fs + [f]) == WrapFires(fs) + [f.timer]
  {}

  lemma {:induction false} ElapseKeeps(p: Plan, n: nat)
    requires Inv(p)
    ensures Inv(Elapse(p, n)) && WrapPlan(Elapse(p, n)) == Pass(WrapPlan(p), n)
    ensures Elapse(p, n).count == p.count + n
    decreases n
  {
    hide Inv, Due, Release, WakeDue, Advanced, WrapPlan;
    if n > 0 {
      MovedDue(p);
      ReleaseKeeps(Moved(p));
      ElapseKeeps(Step(p), n - 1);
    }
  }

  lemma {:induction false} FileKeeps(s: seq<Entry>, x: Entry, e: nat, count: nat)
    requires Sorted(s) && InEpoch(s, e) && Ahead(s, count) && Epoch(x.expiry) == e && count < x.expiry
    ensures Sorted(File(s, x)) && InEpoch(File(s, x), e) && Ahead(File(s, x), count)
    decreases s
  {
    hide Epoch;
    if s == [] || x.expiry < s[0].expiry {
      assert ([x] + s)[1..] == s;
    } else {
      FileKeeps(s[1..], x, e, count);
      assert File(s, x)[1..] == File(s[1..], x);
    }
  }

  lemma LaterEpochAhead(s: seq<Entry>, count: nat)
    requires InEpoch(s, Epoch(count) + 1)
    ensures Ahead(s, count)
  {
    forall k | 0 <= k < |s| ensures count < s[k].expiry {
      if s[k].expiry <= count { EpochMonotone(s[k].expiry, count); }
    }
  }

  /** Filing by wrapped comparison is filing by absolute wake time. */
  lemma WaitRefines(p: Plan, owner: int, ticks: Tick)
    requires Inv(p)
    ensures WrapPlan(Wait(p, owner, ticks)) == AddToDelayed(WrapPlan(p), owner, ticks)
  {
    AddLow(p.count, ticks);
    hide Low, Epoch, Sorted, File, WrapEntries, SortedInsert, Add32, InEpoch, Ahead, Punctual;
    var e := Entry(p.count + ticks, owner);
    if Epoch(e.expiry) == Epoch(p.count) {
      Compare(p.count, e.expiry);
      WrapFile(p.current, e, Epoch(p.count));
    } else {
      WrapFile(p.overflow, e, Epoch(p.count) + 1);
    }
  }

  /** The lists stay exact if and only if the delay is at least one tick. */
  lemma WaitKeeps(p: Plan, owner: int, ticks: Tick)
    requires Inv(p)
    ensures Inv(Wait(p, owner, ticks)) <==> 0 < ticks
  {
    AddLow(p.count, ticks);
    hide Low, Epoch, Sorted, File, InEpoch, Ahead, Punctual;
    var e := Entry(p.count + ticks, owner);
    LaterEpochAhead(p.overflow, p.count);
    if ticks == 0 {
      NotAhead(p.current, e, p.count);
    } else if Epoch(e.expiry) == Epoch(p.count) {
      FileKeeps(p.current, e, Epoch(p.count), p.count);
    } else {
      FileKeeps(p.overflow, e, Epoch(p.count) + 1, p.count);
    }
  }

  lemma NotAhead(s: seq<Entry>, e: Entry, count: nat)
    requires e.expiry <= count
    ensures !Ahead(File(s, e), count)
  {
    FileHolds(s, e);
    assert e in File(s, e);
  }

  lemma {:induction false} UnfileKeeps(s: seq<Entry>, t: int, e: nat, count: nat)
    requires Sorted(s) && InEpoch(s, e) && Ahead(s, count)
    ensures Sorted(Unfile(s, t)) && InEpoch(Unfile(s, t), e) && Ahead(Unfile(s, t), count)
    ensures Unfile(s, t) != [] ==> s != [] && s[0].expiry <= Unfile(s, t)[0].expiry
    decreases s
  {
    hide Epoch;
    if s != [] {
      UnfileKeeps(s[1..], t, e, count);
      if s[0].owner != t { assert Unfile(s, t)[1..] == Unfile(s[1..], t); }
    }
  }

  lemma CancelKeeps(p: Plan, owner: int)
    requires Inv(p)
    ensures Inv(Cancel(p, owner)) && WrapPlan(Cancel(p, owner)) == Unblock(WrapPlan(p), owner)
  {
    hide Low, Epoch, Sorted, InEpoch, Ahead, Punctual, Unfile, Unlist, WrapEntries;
    LaterEpochAhead(p.overflow, p.count);
    UnfileKeeps(p.current, owner, Epoch(p.count), p.count);
    UnfileKeeps(p.overflow, owner, Epoch(p.count) + 1, p.count);
    WrapUnfile(p.current, owner);
    WrapUnfile(p.overflow, owner);
  }

  // ----------------------------------------------------------------------------------- whole runs

  datatype Event =
    | Delay(owner: int, ticks: Tick)     // crDELAY, or waiting on a queue
    | Check(now: nat)                    // the scheduler catches up with the kernel's tick
    | Occur(owner: int)                  // the event waited for happened first

  ghost predicate Enabled(p: Plan, ev: Event) {
    match ev
    case Delay(_, ticks) => 0 < ticks
    case Check(now) => p.count <= now < p.count + WORD_LIMIT
    case Occur(_) => true
  }

  function Next(p: Plan, ev: Event): Plan {
    match ev
    case Delay(owner, ticks) => Wait(p, owner, ticks)
    case Check(now) => if p.count <= now then Elapse(p, now - p.count) else p
    case Occur(owner) => Cancel(p, owner)
  }

  function NextWrapped(d: Delays, ev: Event): Delays {
    match ev
    case Delay(owner, ticks) => AddToDelayed(d, owner, ticks)
    case Check(now) => CheckDelayed(d, Low(now))
    case Occur(owner) => Unblock(d, owner)
  }

  lemma NextKeeps(p: Plan, ev: Event)
    requires Inv(p) && Enabled(p, ev)
    ensures Inv(Next(p, ev)) && NextWrapped(WrapPlan(p), ev) == WrapPlan(Next(p, ev))
  {
    hide Inv, AddToDelayed, Pass, Unblock, Wait, Elapse, Cancel, Low, WrapEntries, Sub32;
    match ev
    case Delay(owner, ticks) =>
      WaitKeeps(p, owner, ticks);
      WaitRefines(p, owner, ticks);
    case Check(now) =>
      SubLow(now, p.count);
      ElapseKeeps(p, now - p.count);
    case Occur(owner) => CancelKeeps(p, owner);
  }

  ghost predicate IsRun(p: Plan, evs: seq<Event>)
    decreases |evs|
  {
    evs == [] || (Enabled(p, evs[0]) && IsRun(Next(p, evs[0]), evs[1..]))
  }

  function Run(p: Plan, evs: seq<Event>): Plan
    decreases |evs|
  {
    if evs == [] then p else Run(Next(p, evs[0]), evs[1..])
  }

  function RunWrapped(d: Delays, evs: seq<Event>): Delays
    decreases |evs|
  {
    if evs == [] then d else RunWrapped(NextWrapped(d, evs[0]), evs[1..])
  }

  /** Over every run the wrapped lists are the image of the unbounded ones, both are exact, and every
      wake-up was at its exact tick. */
  lemma {:induction false} RunRefines(p: Plan, evs: seq<Event>)
    requires Inv(p) && IsRun(p, evs)
    ensures Inv(Run(p, evs)) && RunWrapped(WrapPlan(p), evs) == WrapPlan(Run(p, evs))
    decreases |evs|
  {
    hide Inv, Next, NextWrapped, WrapPlan, Enabled;
    if evs != [] {
      NextKeeps(p, evs[0]);
      RunRefines(Next(p, evs[0]), evs[1..]);
    }
  }

  // ------------------------------------------------------------------------------ exact wake ticks

  ghost predicate Filed(p: Plan, e: Entry) { e in p.current || e in p.overflow }

  ghost predicate Woken(p: Plan, e: Entry) { Fire(e.owner, e.expiry, e.expiry) in p.woken }

  lemma {:induction false} ReleaseFate(p: Plan, e: Entry)
    requires Due(p) && (Filed(p, e) || Woken(p, e))
    ensures Filed(Release(p), e) || Woken(Release(p), e)
    decreases |p.current|
  {
    hide Epoch, Low, Sorted, InEpoch;
    if p.current != [] && p.current[0].expiry <= p.count {
      var f := Fire(p.current[0].owner, p.current[0].expiry, p.count);
      var q := p.(current := p.current[1..], woken := p.woken + [f]);
      TailDue(p);
      assert p.current == [p.current[0]] + q.current;
      ReleaseFate(q, e);
    }
  }

  lemma TailDue(p: Plan)
    requires Due(p) && p.current != [] && p.current[0].expiry <= p.count
    ensures Due(p.(current := p.current[1..],
                   woken := p.woken + [Fire(p.current[0].owner, p.current[0].expiry, p.count)]))
  {
    hide Epoch;
  }

  lemma {:induction false} ElapseFate(p: Plan, n: nat, e: Entry)
    requires Inv(p) && (Filed(p, e) || Woken(p, e))
    ensures Filed(Elapse(p, n), e) || Woken(Elapse(p, n), e)
    decreases n
  {
    hide Inv, Due, Release, Low;
    if n > 0 {
      MovedDue(p);
      ReleaseKeeps(Moved(p));
      ReleaseFate(Moved(p), e);
      ElapseFate(Step(p), n - 1, e);
    }
  }

  lemma {:induction false} FileHolds(s: seq<Entry>, x: Entry)
    ensures forall y :: y in File(s, x) <==> y == x || y in s
    decreases s
  {
    if s != [] && s[0].expiry <= x.expiry {
      FileHolds(s[1..], x);
      assert s == [s[0]] + s[1..];
    }
  }

  lemma {:induction false} UnfileHolds(s: seq<Entry>, t: int)
    ensures forall y :: y in Unfile(s, t) <==> y in s && y.owner != t
    decreases s
  {
    if s != [] {
      UnfileHolds(s[1..], t);
      assert s == [s[0]] + s[1..];
    }
  }

  lemma NextFate(p: Plan, ev: Event, e: Entry)
    requires Inv(p) && Enabled(p, ev) && ev != Occur(e.owner) && (Filed(p, e) || Woken(p, e))
    ensures Filed(Next(p, ev), e) || Woken(Next(p, ev), e)
  {
    hide Inv, Elapse, File, Unfile, Epoch;
    match ev
    case Delay(owner, ticks) =>
      var x := Entry(p.count + ticks, owner);
      FileHolds(p.current, x);
      FileHolds(p.overflow, x);
    case Check(now) => ElapseFate(p, now - p.count, e);
    case Occur(owner) =>
      UnfileHolds(p.current, owner);
      UnfileHolds(p.overflow, owner);
  }

  lemma {:induction false} RunFate(p: Plan, evs: seq<Event>, e: Entry)
    requires Inv(p) && IsRun(p, evs) && (Filed(p, e) || Woken(p, e))
    requires Occur(e.owner) !in evs
    ensures Inv(Run(p, evs)) && (Filed(Run(p, evs), e) || Woken(Run(p, evs), e))
    decreases |evs|
  {
    hide Inv, Next, Enabled, Filed, Woken;
    if evs != [] {
      assert evs[0] in evs;
      NextKeeps(p, evs[0]);
      NextFate(p, evs[0], e);
      RunFate(Next(p, evs[0]), evs[1..], e);
    }
  }

  /** A co-routine that delays itself at count C by D ticks, 0 < D < 2^32, and whose event does not
      occur first, is still delayed while the count is below C + D, and from then on has been woken
      for exactly that tick: across wraps, and however late the scheduler runs. */
  lemma WokenExactly(p: Plan, owner: int, ticks: Tick, evs: seq<Event>)
    requires Inv(p) && 0 < ticks && IsRun(Wait(p, owner, ticks), evs) && Occur(owner) !in evs
    ensures var e := Entry(p.count + ticks, owner);
      var r := Run(Wait(p, owner, ticks), evs);
      && (Filed(r, e) <==> r.count < e.expiry)
      && (Woken(r, e) <==> e.expiry <= r.count)
  {
    var e := Entry(p.count + ticks, owner);
    FileHolds(p.current, e);
    FileHolds(p.overflow, e);
    WaitKeeps(p, owner, ticks);
    hide IsRun, Run, Epoch, Sorted, Wait;
    var q := Wait(p, owner, ticks);
    assert Filed(q, e) by { WaitFiles(p, owner, ticks); }
    RunFate(q, evs, e);
    var r := Run(q, evs);
    LaterEpochAhead(r.overflow, r.count);
  }

  lemma WaitFiles(p: Plan, owner: int, ticks: nat)
    ensures Filed(Wait(p, owner, ticks), Entry(p.count + ticks, owner))
  {
    FileHolds(p.current, Entry(p.count + ticks, owner));
    FileHolds(p.overflow, Entry(p.count + ticks, owner));
  }

  // ---------------------------------------------------------------------------- the event comes first

  ghost predicate NotFiled(p: Plan, owner: int) {
    forall e :: Filed(p, e) ==> e.owner != owner
  }

  /** The wake-ups of one co-routine, in order. */
  ghost function WokenOf(woken: seq<Fire>, owner: int): seq<Fire> {
    if woken == [] then [] else
      WokenOf(woken[..|woken| - 1], owner)
      + (if woken[|woken| - 1].timer == owner then [woken[|woken| - 1]] else [])
  }

  lemma WokenOfSnoc(woken: seq<Fire>, f: Fire, owner: int)
    requires f.timer != owner
    ensures WokenOf(woken + [f], owner) == WokenOf(woken, owner)
  {
    assert (woken + [f])[..|woken|] == woken;
  }

  lemma {:induction false} ReleaseSpares(p: Plan, owner: int)
    requires NotFiled(p, owner)
    ensures NotFiled(Release(p), owner) && WokenOf(Release(p).woken, owner) == WokenOf(p.woken, owner)
    decreases |p.current|
  {
    hide WokenOf;
    if p.current != [] && p.current[0].expiry <= p.count {
      var f := Fire(p.current[0].owner, p.current[0].expiry, p.count);
      assert Filed(p, p.current[0]);
      WokenOfSnoc(p.woken, f, owner);
      var q := p.(current := p.current[1..], woken := p.woken + [f]);
      forall e | Filed(q, e) ensures e.owner != owner { assert Filed(p, e); }
      ReleaseSpares(q, owner);
    }
  }

  lemma MovedSpares(p: Plan, owner: int)
    requires NotFiled(p, owner)
    ensures NotFiled(Moved(p), owner) && Moved(p).woken == p.woken
  {
    forall e | Filed(Moved(p), e) ensures e.owner != owner { assert Filed(p, e); }
  }

  lemma {:induction false} ElapseSpares(p: Plan, n: nat, owner: int)
    requires NotFiled(p, owner)
    ensures NotFiled(Elapse(p, n), owner) && WokenOf(Elapse(p, n).woken, owner) == WokenOf(p.woken, owner)
    decreases n
  {
    hide NotFiled, Release, Moved, WokenOf;
    if n > 0 {
      MovedSpares(p, owner);
      ReleaseSpares(Moved(p), owner);
      ElapseSpares(Step(p), n - 1, owner);
    }
  }

  lemma NextSpares(p: Plan, ev: Event, owner: int)
    requires NotFiled(p, owner) && !(ev.Delay? && ev.owner == owner)
    ensures NotFiled(Next(p, ev), owner) && WokenOf(Next(p, ev).woken, owner) == WokenOf(p.woken, owner)
  {
    hide Elapse, File, Unfile, Epoch, WokenOf;
    match ev
    case Delay(u, ticks) =>
      FileHolds(p.current, Entry(p.count + ticks, u));
      FileHolds(p.overflow, Entry(p.count + ticks, u));
      forall e | Filed(Next(p, ev), e) ensures e.owner != owner { assert Filed(p, e) || e.owner == u; }
    case Check(now) => if p.count <= now { ElapseSpares(p, now - p.count, owner); }
    case Occur(u) =>
      UnfileHolds(p.current, u);
      UnfileHolds(p.overflow, u);
      forall e | Filed(Next(p, ev), e) ensures e.owner != owner { assert Filed(p, e); }
  }

  lemma {:induction false} RunSpares(p: Plan, evs: seq<Event>, owner: int)
    requires NotFiled(p, owner) && forall k :: 0 <= k < |evs| ==> !(evs[k].Delay? && evs[k].owner == owner)
    ensures NotFiled(Run(p, evs), owner) && WokenOf(Run(p, evs).woken, owner) == WokenOf(p.woken, owner)
    decreases |evs|
  {
    hide NotFiled, Next, WokenOf;
    if evs != [] {
      NextSpares(p, evs[0], owner);
      RunSpares(Next(p, evs[0]), evs[1..], owner);
    }
  }

  /** A co-routine whose event has occurred is on neither list, and the tick does not wake it until it
      delays itself again. */
  lemma OccurredNeverWoken(p: Plan, owner: int, evs: seq<Event>)
    requires forall k :: 0 <= k < |evs| ==> !(evs[k].Delay? && evs[k].owner == owner)
    ensures var q := Next(p, Occur(owner));
      && q.woken == p.woken && NotFiled(q, owner)
      && WokenOf(Run(q, evs).woken, owner) == WokenOf(p.woken, owner)
    ensures forall e: Entry :: e.owner != owner ==> (Filed(Next(p, Occur(owner)), e) <==> Filed(p, e))
  {
    hide Run, WokenOf, Unfile;
    UnfileHolds(p.current, owner);
    UnfileHolds(p.overflow, owner);
    RunSpares(Next(p, Occur(owner)), evs, owner);
  }

  lemma {:induction false} ReleaseGrows(p: Plan)
    ensures p.woken <= Release(p).woken
    decreases |p.current|
  {
    if p.current != [] && p.current[0].expiry <= p.count {
      ReleaseGrows(p.(current := p.current[1..],
                      woken := p.woken + [Fire(p.current[0].owner, p.current[0].expiry, p.count)]));
    }
  }

  lemma {:induction false} ReleaseIgnores(p: Plan, overflow: seq<Entry>)
    ensures Release(p.(overflow := overflow)) == Release(p).(overflow := overflow)
    decreases |p.current|
  {
    if p.current != [] && p.current[0].expiry <= p.count {
      ReleaseIgnores(p.(current := p.current[1..],
                        woken := p.woken + [Fire(p.current[0].owner, p.current[0].expiry, p.count)]), overflow);
    }
  }

  lemma FileFirst(s: seq<Entry>, e: Entry)
    requires s == [] || e.expiry < s[0].expiry
    ensures File(s, e) == [e] + s
  {}

  /** Why callers guard against a delay of zero: it is served at the next tick, unless that tick wraps
      the count; then it is swapped out unserved, and waits a whole wrap. */
  lemma ZeroDelayExact(p: Plan, owner: int)
    requires Inv(p)
    ensures var r := Step(Wait(p, owner, 0));
      && (Fire(owner, p.count, p.count + 1) in r.woken <==> Low(p.count + 1) != 0)
      && (Entry(p.count, owner) in r.overflow <==> Low(p.count + 1) == 0)
  {
    hide Low, Epoch, Sorted, File;
    NextTick(p.count);
    var e := Entry(p.count, owner);
    var q := Wait(p, owner, 0);
    FileFirst(p.current, e);
    var m := Moved(q);
    if Low(p.count + 1) == 0 {
      EmptyAtSwap(p);
      assert m == Moved(p).(overflow := [e]);
      MovedDue(p);
      ReleaseKeeps(Moved(p));
      ReleaseIgnores(Moved(p), [e]);
    } else {
      var f := Fire(owner, p.count, p.count + 1);
      var m1 := m.(current := p.current, woken := p.woken + [f]);
      assert m.current == [e] + p.current && ([e] + p.current)[1..] == p.current;
      assert Release(m) == Release(m1);
      ReleaseGrows(m1);
      assert f in m1.woken;
    }
  }
}

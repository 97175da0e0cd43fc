/** What timer commands do.  They are carried out in the order in which they were accepted; a stop or a
    delete silences its timer; a start, a reset or a change of period starts its schedule afresh. */
module TimerCommands {
  import opened MachineWord
  import opened TimerState
  import opened TimerWorld
  import opened TimerRefine
  import opened TimerRuns
  import opened TimerSchedule

  // ------------------------------------------------------------------------- the order of commands

  /** Commands join the queue behind those already there, as many as fit: fewer only when it is full. */
  lemma FittingExact<C>(queue: seq<C>, cs: seq<C>)
    ensures var r := Fitting(queue, cs);
      && queue <= r && r[|queue|..] <= cs
      && (|r| < |queue| + |cs| ==> |r| >= 5) && (|queue| <= 5 ==> |r| <= 5)
  {}

  /** `after` continues `before`, and the queue has not grown beyond its length. */
  ghost predicate Continues(before: seq<Order>, after: seq<Order>) {
    before <= after && (|before| <= 5 ==> |after| <= 5)
  }

  lemma NotifyContinues(w: World, f: Fire)
    ensures Continues(w.queue, Notify(w, f).queue)
  {
    if w.script != [] { FittingExact(w.queue, w.script[0]); }
  }

  lemma PostContinues(w: World, o: Order)
    ensures Continues(w.queue, Post(w, o).queue)
  {}

  lemma FlushContinues(w: World, now: nat)
    requires w.current != [] && w.current[0].owner in w.timers
    ensures Continues(w.queue, Flush(w, now).queue)
  {
    hide Fitting, File, Epoch;
    var t, x := w.current[0].owner, w.current[0].expiry;
    var w1 := w.(current := w.current[1..]);
    NotifyContinues(w1, Fire(t, x, now));
    PostContinues(Notify(w1, Fire(t, x, now)), Order(Start, t, x));
  }

  lemma {:induction false} DrainContinues(w: World, e: nat, now: nat)
    requires Filed(w.current, e, w.timers)
    ensures Continues(w.queue, DrainAll(w, e, now).queue)
    decreases Distance(w.current)
  {
    hide Epoch, Flush, Distance, DrainAll;
    if w.current == [] {
      DrainNothing(w, e, now);
    } else {
      FlushFacts(w, now);
      FlushContinues(w, now);
      DrainStep(w, e, now);
      DrainContinues(Flush(w, now), e, now);
    }
  }

  lemma AdvanceContinues(w: World, now: nat)
    requires Placed(w)
    ensures Continues(w.queue, Advance(w, now).queue)
  {
    hide Epoch, DrainAll;
    DrainContinues(w, Epoch(w.last), now);
  }

  lemma ExpireContinues(w: World, now: nat)
    requires w.current != [] && w.current[0].owner in w.timers
    ensures Continues(w.queue, Expire(w, now).queue)
  {
    hide File, Fitting, Epoch, Notify, Post;
    var t, x := w.current[0].owner, w.current[0].expiry;
    var w1 := w.(current := w.current[1..]);
    var e := Schedule(w1, t, x + w.timers[t].period, now).0;
    var e2 := Post(e, Order(Start, t, x));
    PostContinues(e, Order(Start, t, x));
    NotifyContinues(w1, Fire(t, x, now));
    NotifyContinues(e, Fire(t, x, now));
    NotifyContinues(e2, Fire(t, x, now));
  }

  lemma ObeyContinues(w: World, o: Order, now: nat)
    requires o.timer in w.timers
    ensures Continues(w.queue, Obey(w, o, now).queue)
  {
    hide File, Fitting, Epoch, Low, Notify, Post;
    if o.kind == Start {
      var t := o.timer;
      var x := o.value + w.timers[t].period;
      var e := Schedule(w, t, x, now).0;
      NotifyContinues(e, Fire(t, x, now));
      PostContinues(Notify(e, Fire(t, x, now)), Order(Start, t, x));
    }
  }

  /** The commands that wait across an event: all of them, but the one it carries out. */
  ghost function Waiting(w: World, ev: Event): seq<Order>
    requires Enabled(w, ev)
  {
    if ev.AcceptAt? then w.queue[1..] else w.queue
  }

  lemma NextContinues(w: World, ev: Event)
    requires Inv(w) && Enabled(w, ev)
    ensures Continues(Waiting(w, ev), Next(w, ev).queue)
  {
    hide Sorted, OnTime, NoTwice, Epoch, Low, Advance, Expire, Obey, Picked, Fitting, Filed;
    match ev
    case TurnAt(now) =>
      AdvanceContinues(w, now);
      if Epoch(now) == Epoch(w.last) && w.current != [] && w.current[0].expiry <= now {
        AdvanceInEpoch(w, now);
        HeadOwner(w);
        ExpireContinues(Advance(w, now), now);
      }
    case AcceptAt(now) =>
      PickedKeeps(w);
      PickedFields(w);
      AdvanceContinues(Picked(w), now);
      ObeyContinues(Advance(Picked(w), now), w.queue[0], now);
    case Posted(os) => FittingExact(w.queue, os);
  }

  /** The commands carried out in a run, in order. */
  ghost function CarriedOut(w: World, evs: seq<Event>): seq<Order>
    requires Inv(w) && EnabledRun(w, evs)
    decreases |evs|
  {
    if evs == [] then [] else
      NextKeeps(w, evs[0]);
      (if evs[0].AcceptAt? then [w.queue[0]] else []) + CarriedOut(Next(w, evs[0]), evs[1..])
  }

  /** The commands that have joined the queue in a run, in order. */
  ghost function Accepted(w: World, evs: seq<Event>): seq<Order>
    requires Inv(w) && EnabledRun(w, evs)
    decreases |evs|
  {
    if evs == [] then [] else
      NextKeeps(w, evs[0]);
      NextContinues(w, evs[0]);
      Next(w, evs[0]).queue[|Waiting(w, evs[0])|..] + Accepted(Next(w, evs[0]), evs[1..])
  }

  /** Over every run: the commands carried out, followed by those still queued, are those queued at the
      start and those accepted since, in the same order; and there are never more than five queued. */
  lemma {:induction false} CommandsInOrder(w: World, evs: seq<Event>)
    requires Inv(w) && EnabledRun(w, evs)
    ensures CarriedOut(w, evs) + Run(w, evs).queue == w.queue + Accepted(w, evs)
    ensures |w.queue| <= 5 ==> |Run(w, evs).queue| <= 5
    decreases |evs|
  {
    hide Inv, Next, Enabled, Continues, Waiting;
    if evs != [] {
      var ev, rest := evs[0], evs[1..];
      NextKeeps(w, ev);
      NextContinues(w, ev);
      var v := Next(w, ev);
      CommandsInOrder(v, rest);
      ContinuesMeans(Waiting(w, ev), v.queue);
      WaitingMeans(w, ev);
      Regroup(if ev.AcceptAt? then [w.queue[0]] else [], Waiting(w, ev), v.queue[|Waiting(w, ev)|..],
              CarriedOut(v, rest), Run(v, rest).queue, Accepted(v, rest));
    }
  }

  lemma WaitingMeans(w: World, ev: Event)
    requires Enabled(w, ev)
    ensures ev.AcceptAt? ==> w.queue != []
    ensures w.queue == (if ev.AcceptAt? then [w.queue[0]] else []) + Waiting(w, ev)
    ensures |w.queue| <= 5 ==> |Waiting(w, ev)| <= 5
  {}

  lemma Regroup<T>(head: seq<T>, waiting: seq<T>, joined: seq<T>, done: seq<T>, left: seq<T>, later: seq<T>)
    requires done + left == (waiting + joined) + later
    ensures (head + done) + left == (head + waiting) + (joined + later)
  {
    assert (head + done) + left == head + (done + left);
    assert head + ((waiting + joined) + later) == (head + waiting) + (joined + later);
  }

  lemma ContinuesMeans(a: seq<Order>, b: seq<Order>)
    requires Continues(a, b)
    ensures a <= b && (|a| <= 5 ==> |b| <= 5) && b == a + b[|a|..]
  {}

  /** Commands posted from outside are accepted from the first on; one is refused only when, with those
      before it, five are queued. */
  lemma PostedAccepted(w: World, os: seq<Order>)
    requires Inv(w) && |w.queue| <= 5
    ensures var q := Next(w, Posted(os)).queue;
      && w.queue <= q && q[|w.queue|..] <= os
      && (|q| < |w.queue| + |os| ==> |q| == 5)
  {
    hide Inv;
    FittingExact(w.queue, os);
  }

  /** The commands that a callback posts: those of its script, as many as fit. */
  ghost predicate CallbackPosted(script: seq<seq<Order>>, r: World, queue: seq<Order>) {
    if script == [] then r.queue == queue && r.script == []
    else
      && r.script == script[1..]
      && queue <= r.queue && r.queue[|queue|..] <= script[0]
      && (|r.queue| < |queue| + |script[0]| ==> |r.queue| >= 5)
  }

  lemma NotifyPosts(w: World, f: Fire)
    ensures CallbackPosted(w.script, Notify(w, f), w.queue) && Notify(w, f).failed == w.failed
  {
    if w.script != [] { FittingExact(w.queue, w.script[0]); }
  }

  /** What the expiry of the earliest timer leads to: an auto-reload timer is filed for its next expiry,
      or, when that is due already, told to start from this one, the assertion failing only if five
      commands are queued; a one-shot timer is in no list; and then the callback posts its commands. */
  lemma ExpiryExact(w: World, now: nat)
    requires Inv(w) && w.last == now && w.current != [] && w.current[0].expiry <= now
    ensures var t, x := w.current[0].owner, w.current[0].expiry;
      && t in w.timers
      && var r, late := Expire(w, now), w.timers[t].autoReload && x + w.timers[t].period <= now;
        && (r.failed <==> w.failed || (late && |w.queue| >= 5))
        && CallbackPosted(w.script, r, if late && |w.queue| < 5 then w.queue + [Order(Start, t, x)] else w.queue)
        && (forall e :: Active(r, e) && e.owner == t ==>
              w.timers[t].autoReload && !late && e.expiry == x + w.timers[t].period)
        && (w.timers[t].autoReload && !late ==> Active(r, Entry(x + w.timers[t].period, t)))
  {
    hide Epoch, Low, Sorted, OnTime, NoTwice, File, Notify, Filed, CallbackPosted;
    var t, x := w.current[0].owner, w.current[0].expiry;
    HeadOwner(w);
    HeadTaken(w);
    var w1 := w.(current := w.current[1..]);
    var n := Entry(x + w.timers[t].period, t);
    FileMembers(w1.current, n);
    FileMembers(w1.overflow, n);
    var e := Schedule(w1, t, n.expiry, now).0;
    NotifyPosts(w1, Fire(t, x, now));
    NotifyPosts(e, Fire(t, x, now));
    NotifyPosts(Post(e, Order(Start, t, x)), Fire(t, x, now));
    NotifyKeeps(w1, Fire(t, x, now));
    NotifyKeeps(e, Fire(t, x, now));
    NotifyKeeps(Post(e, Order(Start, t, x)), Fire(t, x, now));
  }

  /** The callback's commands join the queue, and then the restart, unless five are queued already. */
  ghost predicate PostedThenRestarted(w: World, r: World, restart: bool, o: Order) {
    exists q: seq<Order> :: CallbackPosted(w.script, r.(queue := q), w.queue)
      && (if restart && |q| < 5 then r.queue == q + [o] && r.failed == w.failed
          else r.queue == q && (r.failed <==> w.failed || restart))
  }

  lemma NotifyThenPost(w: World, f: Fire, o: Order)
    ensures PostedThenRestarted(w, Notify(w, f), false, o)
    ensures PostedThenRestarted(w, Post(Notify(w, f), o), true, o)
  {
    hide Notify, CallbackPosted;
    NotifyPosts(w, f);
    var n := Notify(w, f);
    var r := Post(n, o);
    SamePosted(w.script, n, r, w.queue);
    assert CallbackPosted(w.script, n.(queue := n.queue), w.queue);
  }

  lemma SamePosted(script: seq<seq<Order>>, n: World, r: World, queue: seq<Order>)
    requires r.script == n.script && CallbackPosted(script, n, queue)
    ensures CallbackPosted(script, r.(queue := n.queue), queue)
  {}

  /** One turn of the roll-over loop: the callback is made and posts its commands, and then an auto-reload
      timer goes back into the list being drained, if its next expiry is in the epoch that has ended, or
      is told to start from this expiry. */
  lemma FlushExact(w: World, now: nat)
    requires w.current != [] && w.current[0].owner in w.timers
    ensures var t, x, r := w.current[0].owner, w.current[0].expiry, Flush(w, now);
      var next := Entry(x + w.timers[t].period, t);
      var stays := w.timers[t].autoReload && Epoch(next.expiry) == Epoch(x);
      && r.fires == w.fires + [Fire(t, x, now)] && r.overflow == w.overflow
      && PostedThenRestarted(w, r, w.timers[t].autoReload && !stays, Order(Start, t, x))
      && (forall e :: e in r.current <==> e in w.current[1..] || (stays && e == next))
  {
    hide File, Epoch, Notify, Post, CallbackPosted;
    var t, x := w.current[0].owner, w.current[0].expiry;
    var w1 := w.(current := w.current[1..]);
    var f, o := Fire(t, x, now), Order(Start, t, x);
    NotifyThenPost(w1, f, o);
    NotifyKeeps(w1, f);
    NotifyLogs(w1, f);
    PostKeeps(Notify(w1, f), o);
    PostLogs(Notify(w1, f), o);
    FileMembers(w1.current, Entry(x + w.timers[t].period, t));
    var n := Notify(w1, f);
    SameRestarted(w1, w, n, n.(current := File(n.current, Entry(x + w.timers[t].period, t))), o);
    SameRestarted(w1, w, n, n, o);
  }

  lemma NotifyLogs(w: World, f: Fire)
    ensures Notify(w, f).fires == w.fires + [f]
  {}

  lemma PostLogs(w: World, o: Order)
    ensures Post(w, o).fires == w.fires
  {}

  lemma SameRestarted(w: World, v: World, r: World, s: World, o: Order)
    requires v.script == w.script && v.queue == w.queue && v.failed == w.failed
    requires s.script == r.script && s.queue == r.queue && s.failed == r.failed
    ensures forall b :: PostedThenRestarted(w, r, b, o) ==> PostedThenRestarted(v, s, b, o)
  {
    forall b | PostedThenRestarted(w, r, b, o) ensures PostedThenRestarted(v, s, b, o) {
      var q :| CallbackPosted(w.script, r.(queue := q), w.queue)
        && (if b && |q| < 5 then r.queue == q + [o] && r.failed == w.failed
            else r.queue == q && (r.failed <==> w.failed || b));
      assert CallbackPosted(v.script, s.(queue := q), v.queue);
    }
  }

  /** A start that comes too late for its expiry: the callback posts its commands, and an auto-reload timer
      is then told to start from the expiry just served. */
  lemma LateStartExact(w: World, o: Order, now: nat)
    requires o.kind == Start && o.timer in w.timers && o.value + w.timers[o.timer].period <= now
    ensures var x := o.value + w.timers[o.timer].period;
      PostedThenRestarted(w, Obey(w, o, now), w.timers[o.timer].autoReload, Order(Start, o.timer, x))
  {
    hide Notify, Post, PostedThenRestarted;
    var x := o.value + w.timers[o.timer].period;
    NotifyThenPost(w, Fire(o.timer, x, now), Order(Start, o.timer, x));
  }
}

/** The same daemon in unbounded time: expiry and command times are absolute tick numbers, and a
    timer is filed by comparing them directly.  This is what the wrapped arithmetic must compute. */
module TimerWorld {
  import opened MachineWord
  import opened TimerState

  /** The roll-over epoch of an absolute tick, and its wrapped value. */
  function Epoch(x: nat): nat { x / WORD_LIMIT }
  function Low(x: nat): Tick { x % WORD_LIMIT }

  datatype Entry = Entry(expiry: nat, owner: int)
  /** For Start, `value` is the absolute command time; for ChangePeriod, the new period. */
  datatype Order = Order(kind: Kind, timer: int, value: nat)
  /** A callback made for the expiry at tick `expiry`, at tick `at`. */
  datatype Fire = Fire(timer: int, expiry: nat, at: nat)

  datatype World = World(
    current: seq<Entry>, overflow: seq<Entry>,
    timers: map<int, Timer>,
    queue: seq<Order>,
    last: nat,
    fires: seq<Fire>,
    failed: bool,
    script: seq<seq<Order>>)

  function File(s: seq<Entry>, e: Entry): seq<Entry> {
    if s == [] || e.expiry < s[0].expiry then [e] + s else [s[0]] + File(s[1..], e)
  }

  function Unfile(s: seq<Entry>, timer: int): seq<Entry> {
    if s == [] then [] else if s[0].owner == timer then Unfile(s[1..], timer) else [s[0]] + Unfile(s[1..], timer)
  }

  function Post(w: World, o: Order): World {
    if |w.queue| < QUEUE_LENGTH then w.(queue := w.queue + [o]) else w.(failed := true)
  }

  function Notify(w: World, f: Fire): World {
    var w1 := w.(fires := w.fires + [f]);
    if w.script == [] then w1
    else w1.(queue := Fitting(w.queue, w.script[0]), script := w.script[1..])
  }

  /** Files a timer under its absolute expiry, or reports that the expiry is already due. */
  function Schedule(w: World, timer: int, expiry: nat, now: nat): (World, bool) {
    if expiry <= now then (w, true)
    else if Epoch(expiry) == Epoch(now) then (w.(current := File(w.current, Entry(expiry, timer))), false)
    else (w.(overflow := File(w.overflow, Entry(expiry, timer))), false)
  }

  function Expire(w: World, now: nat): World
    requires w.current != [] && w.current[0].owner in w.timers
  {
    var t, x := w.current[0].owner, w.current[0].expiry;
    var w1 := w.(current := w.current[1..]);
    var w2 :=
      if w.timers[t].autoReload then
        var (e, due) := Schedule(w1, t, x + w.timers[t].period, now);
        if due then Post(e, Order(Start, t, x)) else e
      else w1;
    Notify(w2, Fire(t, x, now))
  }

  ghost predicate Sorted(s: seq<Entry>) {
    |s| > 1 ==> s[0].expiry <= s[1].expiry && Sorted(s[1..])
  }

  lemma {:induction false} SortedHead(s: seq<Entry>, k: nat)
    requires Sorted(s) && k < |s|
    ensures s[0].expiry <= s[k].expiry
    decreases s
  {
    if k > 0 { SortedHead(s[1..], k - 1); }
  }

  /** Every entry expires in epoch e and belongs to a timer with a usable period. */
  ghost predicate Filed(s: seq<Entry>, e: nat, timers: map<int, Timer>) {
    forall k :: 0 <= k < |s| ==> Epoch(s[k].expiry) == e && s[k].owner in timers && 0 < timers[s[k].owner].period
  }

  /** One expired entry left over from the epoch that has just ended. */
  function Flush(w: World, now: nat): World
    requires w.current != [] && w.current[0].owner in w.timers
  {
    var t, x := w.current[0].owner, w.current[0].expiry;
    var w1 := Notify(w.(current := w.current[1..]), Fire(t, x, now));
    if w.timers[t].autoReload then
      var reload := x + w.timers[t].period;
      if Epoch(reload) == Epoch(x)
      then w1.(current := File(w1.current, Entry(reload, t)))
      else Post(w1, Order(Start, t, x))
    else w1
  }

  /** Ticks left before the epoch of each entry ends. */
  function Distance(s: seq<Entry>): nat {
    if s == [] then 0 else WORD_LIMIT - Low(s[0].expiry) + Distance(s[1..])
  }

  lemma {:induction false} DistanceFile(s: seq<Entry>, e: Entry)
    ensures Distance(File(s, e)) == Distance(s) + WORD_LIMIT - Low(e.expiry)
    decreases s
  {
    if s == [] || e.expiry < s[0].expiry {
      assert ([e] + s)[1..] == s;
    } else {
      DistanceFile(s[1..], e);
      assert File(s, e)[1..] == File(s[1..], e);
    }
  }

  lemma {:induction false} FileFiled(s: seq<Entry>, x: Entry, e: nat, timers: map<int, Timer>)
    requires Filed(s, e, timers) && Epoch(x.expiry) == e && x.owner in timers && 0 < timers[x.owner].period
    ensures Filed(File(s, x), e, timers)
    decreases s
  {
    hide Epoch;
    if s == [] || x.expiry < s[0].expiry {
    } else {
      assert Filed(s[1..], e, timers);
      FileFiled(s[1..], x, e, timers);
    }
  }

  lemma LowGrows(x: nat, y: nat)
    requires x < y && Epoch(x) == Epoch(y)
    ensures Low(x) < Low(y)
  {}

  lemma LowBelow(x: nat)
    ensures Low(x) < WORD_LIMIT
  {}

  lemma FlushFacts(w: World, now: nat)
    requires w.current != [] && Filed(w.current, Epoch(w.current[0].expiry), w.timers)
    ensures var r := Flush(w, now);
      && Filed(r.current, Epoch(w.current[0].expiry), r.timers) && Distance(r.current) < Distance(w.current)
      && r.timers == w.timers && r.overflow == w.overflow && r.last == w.last
  {
    hide Epoch, Low, File, Fitting;
    var t, x := w.current[0].owner, w.current[0].expiry;
    var rest := w.current[1..];
    LowBelow(x);
    assert Filed(rest, Epoch(x), w.timers);
    var reload := x + w.timers[t].period;
    if w.timers[t].autoReload && Epoch(reload) == Epoch(x) {
      DistanceFile(rest, Entry(reload, t));
      FileFiled(rest, Entry(reload, t), Epoch(x), w.timers);
      LowGrows(x, reload);
    }
  }

  /** Fires everything still filed under the ended epoch e, earliest first. */
  function DrainAll(w: World, e: nat, now: nat): (r: World)
    requires Filed(w.current, e, w.timers)
    ensures r.current == [] && r.timers == w.timers && r.overflow == w.overflow && r.last == w.last
    decreases Distance(w.current)
  {
    if w.current == [] then w
    else
      FlushFacts(w, now);
      DrainAll(Flush(w, now), e, now)
  }

  /** Moving the daemon's clock to `now`; at most one epoch ends on the way. */
  function Advance(w: World, now: nat): (r: World)
    requires Filed(w.current, Epoch(w.last), w.timers)
    ensures r.timers == w.timers && r.last == now
  {
    if Epoch(now) > Epoch(w.last) then
      var d := DrainAll(w, Epoch(w.last), now);
      d.(current := d.overflow, overflow := [], last := now)
    else w.(last := now)
  }

  /** One pass through the daemon's main loop up to, but excluding, the command queue. */
  function Turn(w: World, now: nat): World
    requires Filed(w.current, Epoch(w.last), w.timers) && Filed(w.overflow, Epoch(w.last) + 1, w.timers)
  {
    var a := Advance(w, now);
    if Epoch(now) == Epoch(w.last) && w.current != [] && w.current[0].expiry <= now then Expire(a, now) else a
  }

  function Obey(w: World, o: Order, now: nat): World
    requires o.timer in w.timers
  {
    var t := o.timer;
    match o.kind
    case Start =>
      var x := o.value + w.timers[t].period;
      var (e, due) := Schedule(w, t, x, now);
      if due then
        var f := Notify(e, Fire(t, x, now));
        if w.timers[t].autoReload then Post(f, Order(Start, t, x)) else f
      else e
    case Stop => w
    case ChangePeriod =>
      var e := w.(timers := w.timers[t := w.timers[t].(period := Low(o.value))]);
      Schedule(e, t, now + o.value, now).0
    case Delete => w.(timers := w.timers - {t})
  }

  function Picked(w: World): World
    requires w.queue != []
  {
    var t := w.queue[0].timer;
    w.(queue := w.queue[1..], current := Unfile(w.current, t), overflow := Unfile(w.overflow, t))
  }

  lemma {:induction false} UnfileFiled(s: seq<Entry>, t: int, e: nat, timers: map<int, Timer>)
    requires Filed(s, e, timers)
    ensures Filed(Unfile(s, t), e, timers)
    ensures forall k :: 0 <= k < |Unfile(s, t)| ==> Unfile(s, t)[k].owner != t
    decreases s
  {
    hide Epoch;
    if s != [] {
      assert Filed(s[1..], e, timers);
      UnfileFiled(s[1..], t, e, timers);
    }
  }

  /** Taking one command off the queue and carrying it out at tick `now`. */
  function Accept(w: World, now: nat): World
    requires w.queue != [] && w.queue[0].timer in w.timers
    requires Filed(w.current, Epoch(w.last), w.timers) && Filed(w.overflow, Epoch(w.last) + 1, w.timers)
  {
    UnfileFiled(w.current, w.queue[0].timer, Epoch(w.last), w.timers);
    Obey(Advance(Picked(w), now), w.queue[0], now)
  }
}

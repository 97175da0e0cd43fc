/** timers.c as the daemon sees it: tick values that wrap at 2^32, two lists sorted by wrapped
    expiry, and the command queue.  Each function is one routine of the daemon. */
module TimerState {
  import opened MachineWord

  const QUEUE_LENGTH := 5           // configTIMER_QUEUE_LENGTH

  datatype Timer = Timer(period: Tick, autoReload: bool)

  /** Start stands for every command identifier that takes the start branch (start, reset, their
      ISR forms, and the daemon's own restart); likewise Stop and ChangePeriod. */
  datatype Kind = Start | Stop | ChangePeriod | Delete

  datatype Command = Command(kind: Kind, timer: int, value: Tick)
  datatype Item = Item(value: Tick, owner: int)

  datatype State = State(
    current: seq<Item>, overflow: seq<Item>,
    timers: map<int, Timer>,
    queue: seq<Command>,
    last: Tick,                       // xLastTime
    calls: seq<int>,                  // callbacks made, in order
    failed: bool,                     // a configASSERT on an internal restart command failed
    script: seq<seq<Command>>)        // commands that successive callbacks will post

  /** vListInsert: ascending by value, after any equal value. */
  function SortedInsert(s: seq<Item>, it: Item): seq<Item> {
    if s == [] || it.value < s[0].value then [it] + s else [s[0]] + SortedInsert(s[1..], it)
  }

  function Unlist(s: seq<Item>, timer: int): seq<Item> {
    if s == [] then [] else if s[0].owner == timer then Unlist(s[1..], timer) else [s[0]] + Unlist(s[1..], timer)
  }

  /** A command the daemon posts to itself: the queue must have room. */
  function PostInternal(d: State, c: Command): State {
    if |d.queue| < QUEUE_LENGTH then d.(queue := d.queue + [c]) else d.(failed := true)
  }

  /** Commands posted by others are refused once the queue is full. */
  function Fitting<C>(queue: seq<C>, cs: seq<C>): seq<C> {
    if |queue| + |cs| <= QUEUE_LENGTH then queue + cs
    else if |queue| < QUEUE_LENGTH then queue + cs[..QUEUE_LENGTH - |queue|]
    else queue
  }

  /** A callback may touch timers only by posting commands. */
  function Callback(d: State, timer: int): State {
    var d1 := d.(calls := d.calls + [timer]);
    if d.script == [] then d1
    else d1.(queue := Fitting(d.queue, d.script[0]), script := d.script[1..])
  }

  predicate Known(d: State) {
    && (forall k :: 0 <= k < |d.current| ==> d.current[k].owner in d.timers)
    && (forall k :: 0 <= k < |d.overflow| ==> d.overflow[k].owner in d.timers)
  }

  /** prvInsertTimerInActiveList: the flag says the timer has already expired. */
  function InsertTimer(d: State, timer: int, next: Tick, now: Tick, commandTime: Tick): (State, bool)
    requires timer in d.timers
  {
    if next <= now then
      if Sub32(now, commandTime) >= d.timers[timer].period then (d, true)
      else (d.(overflow := SortedInsert(d.overflow, Item(next, timer))), false)
    else
      if now < commandTime && next >= commandTime then (d, true)
      else (d.(current := SortedInsert(d.current, Item(next, timer))), false)
  }

  /** prvProcessExpiredTimer, for the head of the current list. */
  function ProcessExpired(d: State, next: Tick, now: Tick): State
    requires d.current != [] && d.current[0].owner in d.timers
  {
    var t := d.current[0].owner;
    var d1 := d.(current := d.current[1..]);
    var d2 :=
      if d.timers[t].autoReload then
        var (e, due) := InsertTimer(d1, t, Add32(next, d.timers[t].period), now, next);
        if due then PostInternal(e, Command(Start, t, next)) else e
      else d1;
    Callback(d2, t)
  }

  function Remaining(s: seq<Item>): nat {
    if s == [] then 0 else WORD_LIMIT - s[0].value + Remaining(s[1..])
  }

  lemma {:induction false} RemainingInsert(s: seq<Item>, it: Item)
    ensures Remaining(SortedInsert(s, it)) == Remaining(s) + WORD_LIMIT - it.value
    decreases s
  {
    if s == [] || it.value < s[0].value {
      assert ([it] + s)[1..] == s;
    } else {
      RemainingInsert(s[1..], it);
      assert SortedInsert(s, it)[1..] == SortedInsert(s[1..], it);
    }
  }

  lemma {:induction false} SortedInsertOwners(s: seq<Item>, it: Item, owners: set<int>)
    requires it.owner in owners && forall k :: 0 <= k < |s| ==> s[k].owner in owners
    ensures forall k :: 0 <= k < |SortedInsert(s, it)| ==> SortedInsert(s, it)[k].owner in owners
    decreases s
  {
    if s == [] || it.value < s[0].value {
    } else {
      SortedInsertOwners(s[1..], it, owners);
    }
  }

  /** One turn of the loop of prvSwitchTimerLists. */
  function DrainOne(d: State): (r: State)
    requires d.current != [] && Known(d)
    ensures Known(r) && Remaining(r.current) < Remaining(d.current)
    ensures r.timers == d.timers && r.overflow == d.overflow && r.last == d.last
  {
    var v, t := d.current[0].value, d.current[0].owner;
    var d1 := Callback(d.(current := d.current[1..]), t);
    if d.timers[t].autoReload then
      var reload := Add32(v, d.timers[t].period);
      if reload > v then
        RemainingInsert(d1.current, Item(reload, t));
        SortedInsertOwners(d1.current, Item(reload, t), d.timers.Keys);
        d1.(current := SortedInsert(d1.current, Item(reload, t)))
      else PostInternal(d1, Command(Start, t, v))
    else d1
  }

  function Drain(d: State): (r: State)
    requires Known(d)
    ensures Known(r) && r.current == [] && r.timers == d.timers && r.overflow == d.overflow && r.last == d.last
    decreases Remaining(d.current)
  {
    if d.current == [] then d else Drain(DrainOne(d))
  }

  /** prvSwitchTimerLists. */
  function Switch(d: State): (r: State)
    requires Known(d)
    ensures Known(r)
  {
    var e := Drain(d);
    e.(current := e.overflow, overflow := e.current)
  }

  /** prvSampleTimeNow: the flag says the lists were switched. */
  function Sample(d: State, now: Tick): (r: (State, bool))
    requires Known(d)
    ensures Known(r.0)
  {
    if now < d.last then (Switch(d).(last := now), true) else (d.(last := now), false)
  }

  /** prvGetNextExpireTime. */
  function NextExpire(d: State): (Tick, bool) {
    if d.current == [] then (0, true) else (d.current[0].value, false)
  }

  /** prvProcessTimerOrBlockTask, given what prvGetNextExpireTime returned. */
  function ProcessOrBlock(d: State, now: Tick): State
    requires Known(d)
  {
    var (next, empty) := NextExpire(d);
    var (e, switched) := Sample(d, now);
    if !switched && !empty && next <= now then ProcessExpired(e, next, now) else e
  }

  datatype Wait = NoWait | WaitTicks(n: Tick) | WaitForever

  /** How long the daemon blocks in that call: only with an empty command queue. */
  function BlockTime(d: State, now: Tick): Wait
    requires Known(d)
  {
    var (next, empty) := NextExpire(d);
    var (e, switched) := Sample(d, now);
    if switched || (!empty && next <= now) || e.queue != [] then NoWait
    else if empty && e.overflow == [] then WaitForever
    else WaitTicks(Sub32(next, now))
  }

  lemma {:induction false} UnlistOwners(s: seq<Item>, timer: int, owners: set<int>)
    requires forall k :: 0 <= k < |s| ==> s[k].owner in owners
    ensures forall k :: 0 <= k < |Unlist(s, timer)| ==>
      Unlist(s, timer)[k].owner in owners && Unlist(s, timer)[k].owner != timer
    decreases s
  {
    if s != [] { UnlistOwners(s[1..], timer, owners); }
  }

  /** The command handler proper, once the timer is unlisted and the time sampled. */
  function Handle(d: State, c: Command, now: Tick): State
    requires c.timer in d.timers
  {
    var t := c.timer;
    match c.kind
    case Start =>
      var (e, due) := InsertTimer(d, t, Add32(c.value, d.timers[t].period), now, c.value);
      if due then
        var f := Callback(e, t);
        if d.timers[t].autoReload then PostInternal(f, Command(Start, t, Add32(c.value, d.timers[t].period))) else f
      else e
    case Stop => d
    case ChangePeriod =>
      var e := d.(timers := d.timers[t := d.timers[t].(period := c.value)]);
      InsertTimer(e, t, Add32(now, c.value), now, now).0
    case Delete => d.(timers := d.timers - {t})
  }

  function Taken(d: State): State
    requires d.queue != []
  {
    var t := d.queue[0].timer;
    d.(queue := d.queue[1..], current := Unlist(d.current, t), overflow := Unlist(d.overflow, t))
  }

  lemma TakenKnown(d: State)
    requires d.queue != [] && Known(d)
    ensures Known(Taken(d))
  {
    UnlistOwners(d.current, d.queue[0].timer, d.timers.Keys);
    UnlistOwners(d.overflow, d.queue[0].timer, d.timers.Keys);
  }

  lemma SampleTimers(d: State, now: Tick)
    requires Known(d)
    ensures Sample(d, now).0.timers == d.timers
  {}

  /** One turn of the loop of prvProcessReceivedCommands. */
  function Receive(d: State, now: Tick): State
    requires Known(d) && d.queue != [] && d.queue[0].timer in d.timers
  {
    TakenKnown(d);
    SampleTimers(Taken(d), now);
    Handle(Sample(Taken(d), now).0, d.queue[0], now)
  }
}

/** Why the lock counters bound a lock window: they are int8_t, and what they lose when they wrap. */
module QueueCrowding {
  import opened QueueSpec
  import opened QueueProtocol
  import opened QueueWakeups

  // ------------------------------------------------------------ one counter and its event list

  /** A lock counter with the event list it stands for: cTxLock with the readers, cRxLock with the
      writers. */
  datatype Counter = Counter(lock: int, waiting: seq<Waiter>)

  /** One interrupt operation: it wakes a task directly, or only counts. */
  function Note(s: Counter): Counter {
    if s.lock == UNLOCKED then s.(waiting := WakeOne(s.waiting)) else s.(lock := Int8(s.lock + 1))
  }

  function NoteMany(s: Counter, n: nat): Counter {
    if n == 0 then s else Note(NoteMany(s, n - 1))
  }

  /** The wake-ups that n operations in one lock window lead to, at the unlock or directly. */
  function Replayed(n: nat): nat {
    if n < 128 then n else if n <= 255 then 0 else n - 255
  }

  function LockAfter(n: nat): int {
    if n < 255 then Int8(n) else UNLOCKED
  }

  lemma LockNext(n: nat)
    ensures if n < 255 then LockAfter(n) != UNLOCKED && Int8(LockAfter(n) + 1) == LockAfter(n + 1)
      else LockAfter(n) == UNLOCKED == LockAfter(n + 1)
  {}

  lemma LockSign(n: nat)
    ensures n < 128 ==> LockAfter(n) == n
    ensures 128 <= n ==> LockAfter(n) < 0
  {}

  lemma {:induction false} WakeManyMore(ws: seq<Waiter>, n: nat)
    ensures WakeMany(ws, n + 1) == WakeOne(WakeMany(ws, n))
    decreases n
  {
    if ws != [] && n > 0 { WakeManyMore(ws[1..], n - 1); }
  }

  lemma {:induction false} NoteManyFacts(s: Counter, n: nat)
    requires s.lock == LOCKED_UNMODIFIED
    ensures NoteMany(s, n) == Counter(LockAfter(n), WakeMany(s.waiting, if n <= 255 then 0 else n - 255))
    decreases n
  {
    hide Int8, LockAfter, WakeMany, WakeOne;
    if n == 0 {
      LockSign(0);
      NoneWoken(s.waiting);
    } else {
      NoteManyFacts(s, n - 1);
      LockNext(n - 1);
      if n > 255 { WakeManyMore(s.waiting, n - 256); }
    }
  }

  lemma {:induction false} WakeManyLength(ws: seq<Waiter>, n: int)
    ensures |ws| - |WakeMany(ws, n)| == if n <= 0 then 0 else if n < |ws| then n else |ws|
    decreases ws
  {
    if n > 0 && ws != [] { WakeManyLength(ws[1..], n - 1); }
  }

  lemma NonPositive(ws: seq<Waiter>, n: int)
    ensures n <= 0 ==> WakeMany(ws, n) == ws
  {}

  /** What is left waiting once the unlock has replayed the counter. */
  function Unlocked(s: Counter): seq<Waiter> { WakeMany(s.waiting, s.lock) }

  /** n operations with these tasks blocked have woken min(n, w) of them. */
  ghost predicate WakesEnough(before: seq<Waiter>, after: seq<Waiter>, n: nat) {
    |before| - |after| == if n < |before| then n else |before|
  }

  /** With w tasks blocked, n operations in one lock window wake as many tasks as they should,
      min(n, w), exactly when n is below 128, or nobody waits, or n is so large that the wrapped
      counter reads "unlocked" and the later operations wake everyone directly. */
  lemma CounterExact(s: Counter, n: nat)
    requires s.lock == LOCKED_UNMODIFIED
    ensures var r := Unlocked(NoteMany(s, n));
      && r == WakeMany(s.waiting, Replayed(n))
      && (WakesEnough(s.waiting, r, n) <==> n < 128 || s.waiting == [] || n >= 255 + |s.waiting|)
  {
    hide NoteMany, WakeMany, LockAfter;
    NoteManyFacts(s, n);
    LockSign(n);
    var p := NoteMany(s, n);
    NoneWoken(s.waiting);
    NonPositive(p.waiting, p.lock);
    WakeManyLength(s.waiting, Replayed(n));
  }

  // ------------------------------------------------------------------- posts and readers

  /** n interrupts post one item each, one after another. */
  function PostMany(q: Queue, x: Data, n: nat): Queue {
    if n == 0 then q else SendFromISR(PostMany(q, x, n - 1), x, Back)
  }

  lemma {:induction false} PostManyFacts(q: Queue, x: Data, n: nat)
    ensures var r := PostMany(q, x, n);
      && Counter(r.txLock, r.waitRecv) == NoteMany(Counter(q.txLock, q.waitRecv), n)
      && |r.items| == |q.items| + n && r.length == q.length && r.rxLock == q.rxLock && r.waitSend == q.waitSend
    decreases n
  {
    hide Int8, WakeOne;
    if n > 0 { PostManyFacts(q, x, n - 1); }
  }

  /** The readers woken for the posts of one window are enough exactly in those cases. */
  lemma WindowExact(q: Queue, x: Data, n: nat)
    requires q.txLock == LOCKED_UNMODIFIED
    ensures var r := UnlockTx(PostMany(q, x, n));
      && r.waitRecv == WakeMany(q.waitRecv, Replayed(n))
      && (WakesEnough(q.waitRecv, r.waitRecv, n) <==> n < 128 || q.waitRecv == [] || n >= 255 + |q.waitRecv|)
  {
    hide PostMany, WakeMany, NoteMany, WakesEnough;
    PostManyFacts(q, x, n);
    CounterExact(Counter(q.txLock, q.waitRecv), n);
  }

  // ---------------------------------------------------------------- receives and writers

  /** n interrupts receive one item each. */
  function TakeMany(q: Queue, n: nat): (r: Queue)
    requires n <= |q.items|
    ensures |r.items| == |q.items| - n
  {
    if n == 0 then q else ReceiveFromISR(TakeMany(q, n - 1))
  }

  lemma {:induction false} TakeManyFacts(q: Queue, n: nat)
    requires n <= |q.items|
    ensures var r := TakeMany(q, n);
      && Counter(r.rxLock, r.waitSend) == NoteMany(Counter(q.rxLock, q.waitSend), n)
      && r.length == q.length && r.txLock == q.txLock && r.waitRecv == q.waitRecv
    decreases n
  {
    hide Int8, WakeOne;
    if n > 0 { TakeManyFacts(q, n - 1); }
  }

  /** The same for the writers woken for the receives of one window. */
  lemma ReceiveWindowExact(q: Queue, n: nat)
    requires q.rxLock == LOCKED_UNMODIFIED && n <= |q.items|
    ensures var r := UnlockRx(TakeMany(q, n));
      && r.waitSend == WakeMany(q.waitSend, Replayed(n))
      && (WakesEnough(q.waitSend, r.waitSend, n) <==> n < 128 || q.waitSend == [] || n >= 255 + |q.waitSend|)
  {
    hide TakeMany, WakeMany, NoteMany, WakesEnough;
    TakeManyFacts(q, n);
    CounterExact(Counter(q.rxLock, q.waitSend), n);
  }

  // ------------------------------------------------------ a run in which a reader is stranded

  ghost predicate Steps(s: System, steps: seq<Step>, r: System)
    decreases |steps|
  {
    if steps == [] then r == s
    else Enabled(s, steps[0]) && Steps(Apply(s, steps[0]), steps[1..], r)
  }

  lemma {:induction false} StepsConcat(s: System, a: seq<Step>, m: System, b: seq<Step>, r: System)
    requires Steps(s, a, m) && Steps(m, b, r)
    ensures Steps(s, a + b, r)
    decreases |a|
  {
    if a == [] {
      assert a + b == b;
    } else {
      StepsConcat(Apply(s, a[0]), a[1..], m, b, r);
      assert (a + b)[1..] == a[1..] + b;
    }
  }

  function Posts(n: nat): seq<Step> {
    if n == 0 then [] else Posts(n - 1) + [IsrSend([], Back)]
  }

  /** Reader 1 has joined the empty queue's list and still holds the lock. */
  ghost function Placed(): System {
    System(Queue([], 128, 0, 0, 0, [Waiter(1, 0)], []), map[1 := Unlocking(Receiving, false)], true, 1, {}, {})
  }

  /** A post while the queue is locked wakes nobody. */
  lemma LockedPost(s: System)
    requires s.q.txLock != UNLOCKED && |s.q.items| < s.q.length
    ensures Enabled(s, IsrSend([], Back))
    ensures Apply(s, IsrSend([], Back)) == s.(q := SendFromISR(s.q, [], Back))
  {
    hide Tasks;
    var r := Apply(s, IsrSend([], Back));
    assert r.wokenR == s.wokenR && r.wokenS == s.wokenS;
  }

  lemma OneStep(s: System, step: Step)
    requires Enabled(s, step)
    ensures Steps(s, [step], Apply(s, step))
  {
    assert [step][1..] == [];
    assert Steps(Apply(s, step), [], Apply(s, step));
  }

  ghost function Posted(n: nat): System { Placed().(q := PostMany(Placed().q, [], n)) }

  lemma {:induction false} PostsRun(n: nat)
    requires n <= 128
    ensures Steps(Placed(), Posts(n), Posted(n))
    decreases n
  {
    hide Apply, Enabled, SendFromISR, NoteMany, LockAfter;
    if n > 0 {
      PostsRun(n - 1);
      PostManyFacts(Placed().q, [], n - 1);
      NoteManyFacts(Counter(0, [Waiter(1, 0)]), n - 1);
      LockNext(n - 1);
      LockedPost(Posted(n - 1));
      OneStep(Posted(n - 1), IsrSend([], Back));
      StepsConcat(Placed(), Posts(n - 1), Posted(n - 1), [IsrSend([], Back)], Posted(n));
    }
  }

  /** 128 posts in one window: the queue holds 128 items, the scheduler runs, nobody has been woken,
      and the reader stays blocked. */
  lemma CrowdedWindowStrands() returns (steps: seq<Step>, r: System)
    ensures Steps(Placed(), steps, r)
    ensures !r.window && r.wokenR == {} && r.q.waitRecv == [Waiter(1, 0)] && |r.q.items| == 128
    ensures !ReadersServed(r)
  {
    hide PostMany, Steps, NoteMany, LockAfter;
    PostsRun(128);
    PostManyFacts(Placed().q, [], 128);
    NoteManyFacts(Counter(0, [Waiter(1, 0)]), 128);
    LockSign(128);
    NoneWoken(Placed().q.waitRecv);
    var m := Posted(128);
    NonPositive(m.q.waitRecv, m.q.txLock);
    NonPositive(m.q.waitSend, m.q.rxLock);
    OneStep(m, Unlock1(1));
    var m1 := Apply(m, Unlock1(1));
    assert m1.wokenR == {} && m1.wokenS == {};
    assert m1.q.waitRecv == [Waiter(1, 0)];
    OneStep(m1, Unlock2(1));
    r := Apply(m1, Unlock2(1));
    StepsConcat(Placed(), Posts(128), m, [Unlock1(1)], m1);
    StepsConcat(Placed(), Posts(128) + [Unlock1(1)], m1, [Unlock2(1)], r);
    steps := Posts(128) + [Unlock1(1)] + [Unlock2(1)];
  }

  /** That window is reachable: reader 1 calls receive on an empty queue and blocks. */
  lemma PlacedReachable(s: System) returns (steps: seq<Step>)
    requires Initial(s) && s.q.items == [] && s.q.length == 128 && s.q.itemSize == 0 && s.holder == 1
    ensures Steps(s, steps, Placed())
  {
    steps := [Begin(1, Receiving), Try(1, true), Suspend(1), Check(1, false), Place(1, 0)];
    var s1 := Apply(s, steps[0]);
    var s2 := Apply(s1, steps[1]);
    assert s2.wokenR == {} && s2.wokenS == {};
    var s3 := Apply(s2, steps[2]);
    var s4 := Apply(s3, steps[3]);
    var s5 := Apply(s4, steps[4]);
    assert s5 == Placed();
    assert Steps(s5, steps[5..], s5);
    assert Steps(s4, steps[4..], s5) by { assert steps[4..][1..] == steps[5..]; }
    assert Steps(s3, steps[3..], s5) by { assert steps[3..][1..] == steps[4..]; }
    assert Steps(s2, steps[2..], s5) by { assert steps[2..][1..] == steps[3..]; }
    assert Steps(s1, steps[1..], s5) by { assert steps[1..][1..] == steps[2..]; }
  }

  // ------------------------------------------------------ a run in which a writer is stranded

  function Takes(n: nat): seq<Step> {
    if n == 0 then [] else Takes(n - 1) + [IsrReceive]
  }

  /** Writer 1 has joined the list of a full queue of 128 empty items and still holds the lock. */
  ghost function PlacedFull(): System {
    System(Queue(seq(128, k => []), 128, 0, 0, 0, [], [Waiter(1, 0)]),
           map[1 := Unlocking(Sending([], Back), false)], true, 1, {}, {})
  }

  ghost function Taken(n: nat): System
    requires n <= 128
  {
    PlacedFull().(q := TakeMany(PlacedFull().q, n))
  }

  /** A receive while the queue is locked wakes nobody. */
  lemma LockedTake(s: System)
    requires s.q.rxLock != UNLOCKED && s.q.items != []
    ensures Enabled(s, IsrReceive) && Apply(s, IsrReceive) == s.(q := ReceiveFromISR(s.q))
  {
    hide Tasks;
    var r := Apply(s, IsrReceive);
    assert r.wokenR == s.wokenR && r.wokenS == s.wokenS;
  }

  lemma {:induction false} TakesRun(n: nat)
    requires n <= 128
    ensures Steps(PlacedFull(), Takes(n), Taken(n))
    decreases n
  {
    hide Apply, Enabled, ReceiveFromISR, NoteMany, LockAfter;
    if n > 0 {
      TakesRun(n - 1);
      TakeManyFacts(PlacedFull().q, n - 1);
      NoteManyFacts(Counter(0, [Waiter(1, 0)]), n - 1);
      LockNext(n - 1);
      LockedTake(Taken(n - 1));
      OneStep(Taken(n - 1), IsrReceive);
      StepsConcat(PlacedFull(), Takes(n - 1), Taken(n - 1), [IsrReceive], Taken(n));
    }
  }

  /** 128 receives in one window: the queue is empty, the scheduler runs, nobody has been woken, and
      the writer stays blocked. */
  lemma CrowdedReceivesStrand() returns (steps: seq<Step>, r: System)
    ensures Steps(PlacedFull(), steps, r)
    ensures !r.window && r.wokenS == {} && r.q.waitSend == [Waiter(1, 0)] && r.q.items == []
    ensures !WritersServed(r)
  {
    hide TakeMany, Steps, NoteMany, LockAfter;
    TakesRun(128);
    TakeManyFacts(PlacedFull().q, 128);
    NoteManyFacts(Counter(0, [Waiter(1, 0)]), 128);
    LockSign(128);
    NoneWoken(PlacedFull().q.waitSend);
    var m := Taken(128);
    NonPositive(m.q.waitRecv, m.q.txLock);
    NonPositive(m.q.waitSend, m.q.rxLock);
    OneStep(m, Unlock1(1));
    var m1 := Apply(m, Unlock1(1));
    assert m1.wokenR == {} && m1.wokenS == {};
    OneStep(m1, Unlock2(1));
    r := Apply(m1, Unlock2(1));
    StepsConcat(PlacedFull(), Takes(128), m, [Unlock1(1)], m1);
    StepsConcat(PlacedFull(), Takes(128) + [Unlock1(1)], m1, [Unlock2(1)], r);
    steps := Takes(128) + [Unlock1(1)] + [Unlock2(1)];
  }

  /** That window is reachable: writer 1 sends to a full queue and blocks. */
  lemma PlacedFullReachable(s: System) returns (steps: seq<Step>)
    requires Initial(s) && s.q.items == seq(128, k => []) && s.q.length == 128 && s.q.itemSize == 0 && s.holder == 1
    ensures Steps(s, steps, PlacedFull())
  {
    var call := Sending([], Back);
    steps := [Begin(1, call), Try(1, true), Suspend(1), Check(1, false), Place(1, 0)];
    var s1 := Apply(s, steps[0]);
    var s2 := Apply(s1, steps[1]);
    assert s2.wokenR == {} && s2.wokenS == {};
    var s3 := Apply(s2, steps[2]);
    var s4 := Apply(s3, steps[3]);
    var s5 := Apply(s4, steps[4]);
    assert s5 == PlacedFull();
    assert Steps(s5, steps[5..], s5);
    assert Steps(s4, steps[4..], s5) by { assert steps[4..][1..] == steps[5..]; }
    assert Steps(s3, steps[3..], s5) by { assert steps[3..][1..] == steps[4..]; }
    assert Steps(s2, steps[2..], s5) by { assert steps[2..][1..] == steps[3..]; }
    assert Steps(s1, steps[1..], s5) by { assert steps[1..][1..] == steps[2..]; }
  }
}

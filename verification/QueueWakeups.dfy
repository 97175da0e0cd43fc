/** No wake-up is lost, in any interleaving of the steps of QueueProtocol. */
module QueueWakeups {
  import opened QueueSpec
  import opened QueueProtocol

  // -------------------------------------------------------------------- waiter lists

  ghost predicate NoDup(ws: seq<Waiter>) {
    ws == [] || (ws[0].task !in Tasks(ws[1..]) && NoDup(ws[1..]))
  }

  lemma HeadWoken(t: int, all: set<int>, rest: set<int>, left: set<int>)
    requires all == {t} + rest && t !in rest && left <= rest
    ensures left <= all && |all - left| == 1 + |rest - left|
  {
    assert all - left == {t} + (rest - left);
  }

  lemma {:induction false} WakeManyFacts(ws: seq<Waiter>, n: int)
    requires NoDup(ws)
    ensures var r := WakeMany(ws, n);
      && NoDup(r) && Tasks(r) <= Tasks(ws)
      && |Tasks(ws) - Tasks(r)| == |ws| - |r|
      && (r != [] ==> |ws| - |r| == if n > 0 then n else 0)
    decreases ws
  {
    if n <= 0 || ws == [] {
      assert Tasks(ws) - Tasks(ws) == {};
    } else {
      WakeManyFacts(ws[1..], n - 1);
      var r := WakeMany(ws[1..], n - 1);
      HeadWoken(ws[0].task, Tasks(ws), Tasks(ws[1..]), Tasks(r));
    }
  }

  lemma WakeOneIsMany(ws: seq<Waiter>)
    ensures WakeOne(ws) == WakeMany(ws, 1)
  {
    if ws != [] { assert WakeMany(ws[1..], 0) == ws[1..]; }
  }

  lemma {:induction false} EnlistFacts(ws: seq<Waiter>, w: Waiter)
    requires NoDup(ws) && w.task !in Tasks(ws)
    ensures NoDup(Enlist(ws, w)) && Tasks(Enlist(ws, w)) == Tasks(ws) + {w.task}
    decreases ws
  {
    if ws == [] || w.value < ws[0].value {
      assert ([w] + ws)[1..] == ws;
    } else {
      EnlistFacts(ws[1..], w);
      assert Enlist(ws, w)[1..] == Enlist(ws[1..], w);
    }
  }

  lemma {:induction false} DelistFacts(ws: seq<Waiter>, t: int)
    requires NoDup(ws)
    ensures NoDup(Delist(ws, t)) && Tasks(Delist(ws, t)) == Tasks(ws) - {t}
    ensures Delist(ws, t) != [] ==> ws != []
    decreases ws
  {
    if ws != [] {
      DelistFacts(ws[1..], t);
      if ws[0].task != t { assert Delist(ws, t)[1..] == Delist(ws[1..], t); }
    }
  }

  // --------------------------------------------------------------------- the invariant

  ghost predicate MayBeListed(pc: Pc) { pc.Unlocking? || pc.HalfUnlocked? || pc.Waiting? }
  ghost predicate InWindow(pc: Pc) { pc.Locked? || pc.MustBlock? || pc.Unlocking? || pc.HalfUnlocked? }

  /** One event list and the tasks woken from it: distinct tasks, all inside a call of that kind. */
  ghost predicate Side(ws: seq<Waiter>, woken: set<int>, s: System, writes: bool) {
    && NoDup(ws) && Tasks(ws) !! woken
    && forall t :: t in Tasks(ws) + woken ==> MayBeListed(PcOf(s, t)) && PcOf(s, t).call.Writes() == writes
  }

  ghost predicate Shape(s: System) {
    && 0 < s.q.length
    && Side(s.q.waitRecv, s.wokenR, s, false)
    && Side(s.q.waitSend, s.wokenS, s, true)
    && (forall t :: InWindow(PcOf(s, t)) ==> s.window && s.holder == t)
    && (s.window ==> InWindow(PcOf(s, s.holder)))
    && (!s.window ==> s.q.txLock == UNLOCKED && s.q.rxLock == UNLOCKED)
    && (s.window ==> s.q.rxLock >= 0)
    && (s.window ==> if PcOf(s, s.holder).HalfUnlocked? then s.q.txLock == UNLOCKED else s.q.txLock >= 0)
    && (forall t :: !PcOf(s, t).Idle? && PcOf(s, t).call.Sending? && PcOf(s, t).call.pos == Overwrite ==>
          s.q.length == 1)
  }

  /** The items (or free slots) that interrupts recorded while the queue was locked. */
  ghost function Pending(lock: int): int { if lock > 0 then lock else 0 }

  /** While a reader is blocked, every item is spoken for: by a reader already woken that has yet
      to retry, or by a wake-up that the unlock will replay. */
  ghost predicate ReadersServed(s: System) {
    s.q.waitRecv != [] ==> |s.q.items| <= |s.wokenR| + Pending(s.q.txLock)
  }

  ghost predicate WritersServed(s: System) {
    s.q.waitSend != [] ==> s.q.length - |s.q.items| <= |s.wokenS| + Pending(s.q.rxLock)
  }

  /** A task that has seen the queue empty (or full) and is about to join the list: whatever came
      since is recorded in the lock counter. */
  ghost predicate PlacingSafe(s: System) {
    s.window && PcOf(s, s.holder).MustBlock? ==>
      if PcOf(s, s.holder).call.Sending? then s.q.length - |s.q.items| <= Pending(s.q.rxLock)
      else |s.q.items| <= Pending(s.q.txLock)
  }

  ghost predicate Inv(s: System) {
    Shape(s) && ReadersServed(s) && WritersServed(s) && PlacingSafe(s)
  }

  /** The lock counters are int8_t: the protocol needs fewer than 128 interrupt operations of
      either kind in one lock window. */
  ghost predicate Uncrowded(s: System, step: Step) {
    && (step.IsrSend? ==> s.q.txLock < 127)
    && (step.IsrReceive? ==> s.q.rxLock < 127)
  }

  // ----------------------------------------------------------------- waking keeps a side

  lemma SideWake(ws: seq<Waiter>, woken: set<int>, s: System, s2: System, writes: bool, n: int)
    requires Side(ws, woken, s, writes) && s2.pc == s.pc
    ensures var r := WakeMany(ws, n);
      var woken2 := woken + (Tasks(ws) - Tasks(r));
      && Side(r, woken2, s2, writes)
      && |woken2| == |woken| + |ws| - |r|
      && (r != [] ==> |woken2| == |woken| + (if n > 0 then n else 0))
      && Tasks(r) <= Tasks(ws)
  {
    hide Tasks, NoDup, WakeMany;
    WakeManyFacts(ws, n);
    var r := WakeMany(ws, n);
    assert woken !! Tasks(ws) - Tasks(r);
    assert forall t :: PcOf(s2, t) == PcOf(s, t);
  }

  lemma SideMove(ws: seq<Waiter>, woken: set<int>, s: System, t: int, pc: Pc, writes: bool)
    requires Side(ws, woken, s, writes)
    requires t in Tasks(ws) + woken ==> MayBeListed(pc) && pc.call.Writes() == writes
    ensures Side(ws, woken, Move(s, t, pc), writes)
  {
    hide Tasks, NoDup;
  }

  lemma SideUnaffected(ws: seq<Waiter>, woken: set<int>, s: System, s2: System, writes: bool)
    requires Side(ws, woken, s, writes) && s2.pc == s.pc
    ensures Side(ws, woken, s2, writes)
  {
    hide Tasks, NoDup;
    assert forall t :: PcOf(s2, t) == PcOf(s, t);
  }

  lemma SideRetried(ws: seq<Waiter>, woken: set<int>, s: System, s2: System, writes: bool, t: int)
    requires Side(ws, woken, s, writes) && s2.pc == s.pc
    ensures Side(ws, woken - {t}, s2, writes)
    ensures |woken - {t}| >= |woken| - 1 && (t !in woken ==> woken - {t} == woken)
  {
    hide Tasks, NoDup;
    assert forall u :: PcOf(s2, u) == PcOf(s, u);
    if t in woken { assert woken == woken - {t} + {t}; }
  }

  ghost predicate Sides(s: System) {
    Side(s.q.waitRecv, s.wokenR, s, false) && Side(s.q.waitSend, s.wokenS, s, true)
  }

  /** Waking nR readers and nS writers moves exactly that many, or empties the list. */
  lemma WokenSides(s: System, q2: Queue, nR: int, nS: int)
    requires Sides(s)
    requires q2.waitRecv == WakeMany(s.q.waitRecv, nR) && q2.waitSend == WakeMany(s.q.waitSend, nS)
    ensures Sides(Woken(s, q2))
    ensures Tasks(q2.waitRecv) <= Tasks(s.q.waitRecv) && Tasks(q2.waitSend) <= Tasks(s.q.waitSend)
    ensures q2.waitRecv != [] ==> s.q.waitRecv != [] && |Woken(s, q2).wokenR| == |s.wokenR| + (if nR > 0 then nR else 0)
    ensures q2.waitSend != [] ==> s.q.waitSend != [] && |Woken(s, q2).wokenS| == |s.wokenS| + (if nS > 0 then nS else 0)
  {
    hide Tasks, Side, WakeMany;
    SideWake(s.q.waitRecv, s.wokenR, s, Woken(s, q2), false, nR);
    SideWake(s.q.waitSend, s.wokenS, s, Woken(s, q2), true, nS);
    EmptyStays(s.q.waitRecv, nR);
    EmptyStays(s.q.waitSend, nS);
  }

  lemma EmptyStays(ws: seq<Waiter>, n: int)
    ensures WakeMany(ws, n) != [] ==> ws != []
  {}

  lemma NoneWoken(ws: seq<Waiter>)
    ensures WakeMany(ws, 0) == ws
  {}

  lemma MoveSides(s: System, t: int, pc: Pc)
    requires Sides(s)
    requires t in Tasks(s.q.waitRecv) + s.wokenR ==> MayBeListed(pc) && !pc.call.Writes()
    requires t in Tasks(s.q.waitSend) + s.wokenS ==> MayBeListed(pc) && pc.call.Writes()
    ensures Sides(Move(s, t, pc))
  {
    hide Tasks, Side;
    SideMove(s.q.waitRecv, s.wokenR, s, t, pc, false);
    SideMove(s.q.waitSend, s.wokenS, s, t, pc, true);
  }

  /** A task outside every list and every woken set. */
  ghost predicate Free(s: System, t: int) {
    !Listed(s, t) && t !in s.wokenR && t !in s.wokenS
  }

  lemma FreeByPc(s: System, t: int)
    requires Sides(s) && !MayBeListed(PcOf(s, t))
    ensures Free(s, t)
  {}

  lemma RetriedFacts(s: System, t: int)
    requires Sides(s) && !Listed(s, t)
    ensures Sides(Retried(s, t)) && Free(Retried(s, t), t)
    ensures |Retried(s, t).wokenR| >= |s.wokenR| - 1 && |Retried(s, t).wokenS| >= |s.wokenS| - 1
    ensures !PcOf(s, t).Idle? && PcOf(s, t).call.Writes() ==> Retried(s, t).wokenR == s.wokenR
    ensures !PcOf(s, t).Idle? && !PcOf(s, t).call.Writes() ==> Retried(s, t).wokenS == s.wokenS
  {
    hide Tasks;
    SideRetried(s.q.waitRecv, s.wokenR, s, Retried(s, t), false, t);
    SideRetried(s.q.waitSend, s.wokenS, s, Retried(s, t), true, t);
    assert t in s.wokenR ==> !PcOf(s, t).call.Writes();
    assert t in s.wokenS ==> PcOf(s, t).call.Writes();
  }

  // ---------------------------------------------------------------- everything but the sides

  ghost predicate Frame(s: System) {
    && 0 < s.q.length
    && (forall t :: InWindow(PcOf(s, t)) ==> s.window && s.holder == t)
    && (s.window ==> InWindow(PcOf(s, s.holder)))
    && (!s.window ==> s.q.txLock == UNLOCKED && s.q.rxLock == UNLOCKED)
    && (s.window ==> s.q.rxLock >= 0)
    && (s.window ==> if PcOf(s, s.holder).HalfUnlocked? then s.q.txLock == UNLOCKED else s.q.txLock >= 0)
    && (forall t :: !PcOf(s, t).Idle? && PcOf(s, t).call.Sending? && PcOf(s, t).call.pos == Overwrite ==>
          s.q.length == 1)
  }

  lemma ShapeIs(s: System)
    ensures Shape(s) <==> Sides(s) && Frame(s)
  {}

  /** A step of one task that leaves window, locks and length alone. */
  lemma FrameMove(s: System, s2: System, t: int, pc: Pc)
    requires Frame(s) && s2.pc == s.pc[t := pc] && s2.window == s.window && s2.holder == s.holder
    requires s2.q.txLock == s.q.txLock && s2.q.rxLock == s.q.rxLock && s2.q.length == s.q.length
    requires InWindow(pc) <==> s.window && s.holder == t
    requires s.window && s.holder == t ==> !pc.HalfUnlocked? && !PcOf(s, t).HalfUnlocked?
    requires !pc.Idle? && pc.call.Sending? && pc.call.pos == Overwrite ==> s.q.length == 1
    ensures Frame(s2)
  {
    assert forall u :: PcOf(s2, u) == if u == t then pc else PcOf(s, u);
  }

  lemma FrameSame(s: System, s2: System)
    requires Frame(s) && s2.pc == s.pc && s2.window == s.window && s2.holder == s.holder && s2.q.length == s.q.length
    requires s2.q.rxLock == s.q.rxLock || (s.window && s2.q.rxLock >= 0)
    requires s2.q.txLock == s.q.txLock || (s.window && s.q.txLock >= 0 && s2.q.txLock >= 0)
    ensures Frame(s2)
  {
    assert forall u :: PcOf(s2, u) == PcOf(s, u);
  }

  // ----------------------------------------------------------------------------- the steps

  lemma TryReceive(s: System, t: int, mayBlock: bool)
    requires Inv(s) && Enabled(s, Try(t, mayBlock)) && PcOf(s, t).call == Receiving
    ensures Inv(Apply(s, Try(t, mayBlock)))
  {
    hide Tasks, Side, Sides, Frame, Free, Shape, WakeOne, WakeMany, PcOf, InWindow;
    ShapeIs(s);
    RetriedFacts(s, t);
    var s1 := Retried(s, t);
    var pc := if s.q.items == [] && mayBlock then Refused(Receiving) else Idle;
    if s.q.items != [] {
      var q2 := Receive(s1.q);
      WakeOneIsMany(s1.q.waitSend);
      NoneWoken(s1.q.waitRecv);
      WokenSides(s1, q2, 0, 1);
      FreeStays(s1, q2, t);
      FreeMove(Woken(s1, q2), t, pc);
    } else {
      FreeMove(s1, t, pc);
    }
    var s2 := Apply(s, Try(t, mayBlock));
    NotInWindow(s);
    OutsidePc(pc);
    FrameMove(s, s2, t, pc);
    ShapeIs(s2);
  }

  lemma OutsidePc(pc: Pc)
    requires pc.Idle? || pc.Refused?
    ensures !InWindow(pc) && !pc.HalfUnlocked?
  {}

  lemma NotInWindow(s: System)
    requires Frame(s) && !s.window
    ensures forall t :: !InWindow(PcOf(s, t))
    ensures s.q.txLock == UNLOCKED && s.q.rxLock == UNLOCKED
  {}

  lemma FreeMove(s: System, t: int, pc: Pc)
    requires Sides(s) && Free(s, t)
    ensures Sides(Move(s, t, pc))
  {
    MoveSides(s, t, pc);
  }

  lemma FreeStays(s: System, q2: Queue, t: int)
    requires Free(s, t)
    requires Tasks(q2.waitRecv) <= Tasks(s.q.waitRecv) && Tasks(q2.waitSend) <= Tasks(s.q.waitSend)
    ensures Free(Woken(s, q2), t)
  {}

  lemma TryPeek(s: System, t: int, mayBlock: bool)
    requires Inv(s) && Enabled(s, Try(t, mayBlock)) && PcOf(s, t).call == Peeking
    ensures Inv(Apply(s, Try(t, mayBlock)))
  {
    hide Tasks, Side, Sides, Frame, Free, Shape, WakeOne, WakeMany, PcOf, InWindow;
    ShapeIs(s);
    RetriedFacts(s, t);
    var s1 := Retried(s, t);
    var pc := if s.q.items == [] && mayBlock then Refused(Peeking) else Idle;
    if s.q.items != [] {
      var q2 := Peek(s1.q);
      WakeOneIsMany(s1.q.waitRecv);
      NoneWoken(s1.q.waitSend);
      WokenSides(s1, q2, 1, 0);
      FreeStays(s1, q2, t);
      FreeMove(Woken(s1, q2), t, pc);
    } else {
      FreeMove(s1, t, pc);
    }
    var s2 := Apply(s, Try(t, mayBlock));
    NotInWindow(s);
    OutsidePc(pc);
    FrameMove(s, s2, t, pc);
    ShapeIs(s2);
  }

  /** Putting an item adds at most one, and uses up a free slot unless there was none. */
  lemma PutCounts(q: Queue, x: Data, pos: Position)
    requires HasRoom(q, pos) && (pos == Overwrite ==> q.length == 1) && 0 < q.length
    ensures |Put(q, x, pos).items| <= |q.items| + 1
    ensures q.length - |Put(q, x, pos).items| <= q.length - |q.items| - 1 || q.length - |Put(q, x, pos).items| <= 0
  {}

  lemma TrySend(s: System, t: int, mayBlock: bool)
    requires Inv(s) && Enabled(s, Try(t, mayBlock)) && PcOf(s, t).call.Sending?
    ensures Inv(Apply(s, Try(t, mayBlock)))
  {
    hide Tasks, Side, Sides, Frame, Free, Shape, Put, WakeOne, WakeMany, PcOf, InWindow;
    ShapeIs(s);
    RetriedFacts(s, t);
    var s1 := Retried(s, t);
    var call := PcOf(s, t).call;
    SendingLength(s, t);
    var pc := if !HasRoom(s.q, call.pos) && mayBlock then Refused(call) else Idle;
    if HasRoom(s.q, call.pos) {
      var q2 := Send(s1.q, call.x, call.pos);
      PutCounts(s1.q, call.x, call.pos);
      PutKeeps(s1.q, call.x, call.pos);
      WakeOneIsMany(s1.q.waitRecv);
      NoneWoken(s1.q.waitSend);
      WokenSides(s1, q2, 1, 0);
      FreeStays(s1, q2, t);
      FreeMove(Woken(s1, q2), t, pc);
    } else {
      FreeMove(s1, t, pc);
    }
    var s2 := Apply(s, Try(t, mayBlock));
    NotInWindow(s);
    OutsidePc(pc);
    FrameMove(s, s2, t, pc);
    ShapeIs(s2);
  }

  lemma PutKeeps(q: Queue, x: Data, pos: Position)
    ensures var r := Put(q, x, pos);
      && r.length == q.length && r.waitRecv == q.waitRecv && r.waitSend == q.waitSend
      && r.txLock == q.txLock && r.rxLock == q.rxLock
  {}

  lemma SendingLength(s: System, t: int)
    requires Frame(s)
    ensures 0 < s.q.length
    ensures !PcOf(s, t).Idle? && PcOf(s, t).call.Sending? && PcOf(s, t).call.pos == Overwrite ==> s.q.length == 1
  {}

  lemma BeginSuspendCheck(s: System, step: Step)
    requires Inv(s) && Enabled(s, step) && (step.Begin? || step.Suspend? || step.Check? || step.Conclude?)
    ensures Inv(Apply(s, step))
  {
    hide Tasks, Side, Sides, Frame, Free, Shape;
    ShapeIs(s);
    var t := step.t;
    var s2 := Apply(s, step);
    FreeOrWindow(s, t);
    SendingLength(s, t);
    match step {
      case Begin(_, call) =>
        FreeMove(s, t, Retrying(call));
        NotInWindow(s);
        FrameMove(s, s2, t, Retrying(call));
      case Suspend(_) =>
        NotInWindow(s);
        var pc := Locked(PcOf(s, t).call);
        FreeMove(s, t, pc);
        SidesQ(Move(s, t, pc), s2);
        FrameSuspend(s, s2, t);
      case Conclude(_) =>
        NotInWindow(s);
        FreeMove(s, t, PcOf(s2, t));
        FrameMove(s, s2, t, PcOf(s2, t));
      case Check(_, timedOut) =>
        FreeMove(s, t, PcOf(s2, t));
        FrameMove(s, s2, t, PcOf(s2, t));
    }
    ShapeIs(s2);
  }

  lemma FreeOrWindow(s: System, t: int)
    requires Sides(s)
    ensures !MayBeListed(PcOf(s, t)) ==> Free(s, t)
  {
    if !MayBeListed(PcOf(s, t)) { FreeByPc(s, t); }
  }

  lemma SidesQ(s: System, s2: System)
    requires Sides(s) && s2.pc == s.pc && s2.wokenR == s.wokenR && s2.wokenS == s.wokenS
    requires s2.q.waitRecv == s.q.waitRecv && s2.q.waitSend == s.q.waitSend
    ensures Sides(s2)
  {
    hide Tasks, Side;
    SideUnaffected(s.q.waitRecv, s.wokenR, s, s2, false);
    SideUnaffected(s.q.waitSend, s.wokenS, s, s2, true);
  }

  lemma FrameSuspend(s: System, s2: System, t: int)
    requires Frame(s) && Enabled(s, Suspend(t)) && s2 == Apply(s, Suspend(t))
    ensures Frame(s2)
  {
    assert forall u :: PcOf(s2, u) == if u == t then PcOf(s2, t) else PcOf(s, u);
  }

  lemma PlaceStep(s: System, t: int, value: int)
    requires Inv(s) && Enabled(s, Place(t, value))
    ensures Inv(Apply(s, Place(t, value)))
  {
    hide Tasks, Side, Frame, Shape, Enlist;
    ShapeIs(s);
    FreeByPc(s, t);
    SendingLength(s, t);
    var call := PcOf(s, t).call;
    var w := Waiter(t, value);
    var s2 := Apply(s, Place(t, value));
    var pc := Unlocking(call, false);
    if call.Sending? {
      SidePlace(s.q.waitSend, s.wokenS, s, w, pc, true, s2);
      SideMove(s.q.waitRecv, s.wokenR, s, t, pc, false);
      SideUnaffected(s.q.waitRecv, s.wokenR, Move(s, t, pc), s2, false);
    } else {
      SidePlace(s.q.waitRecv, s.wokenR, s, w, pc, false, s2);
      SideMove(s.q.waitSend, s.wokenS, s, t, pc, true);
      SideUnaffected(s.q.waitSend, s.wokenS, Move(s, t, pc), s2, true);
    }
    FrameMove(s, s2, t, pc);
    ShapeIs(s2);
  }

  lemma SidePlace(ws: seq<Waiter>, woken: set<int>, s: System, w: Waiter, pc: Pc, writes: bool, s2: System)
    requires Side(ws, woken, s, writes) && w.task !in Tasks(ws) && w.task !in woken
    requires MayBeListed(pc) && pc.call.Writes() == writes && s2.pc == s.pc[w.task := pc]
    ensures Side(Enlist(ws, w), woken, s2, writes)
  {
    hide Tasks, NoDup, Enlist;
    EnlistFacts(ws, w);
    assert forall u :: PcOf(s2, u) == if u == w.task then pc else PcOf(s, u);
  }

  lemma TimeOutStep(s: System, t: int)
    requires Inv(s) && Enabled(s, TimeOut(t))
    ensures Inv(Apply(s, TimeOut(t)))
  {
    hide Tasks, Side, Frame, Shape, Delist;
    ShapeIs(s);
    var s2 := Apply(s, TimeOut(t));
    SideDelist(s.q.waitRecv, s.wokenR, s, t, false, s2);
    SideDelist(s.q.waitSend, s.wokenS, s, t, true, s2);
    FrameSame(s, s2);
    ShapeIs(s2);
  }

  lemma SideDelist(ws: seq<Waiter>, woken: set<int>, s: System, t: int, writes: bool, s2: System)
    requires Side(ws, woken, s, writes) && s2.pc == s.pc
    ensures Side(Delist(ws, t), woken, s2, writes)
    ensures Delist(ws, t) != [] ==> ws != []
  {
    hide Tasks, NoDup, Delist;
    DelistFacts(ws, t);
    assert forall u :: PcOf(s2, u) == PcOf(s, u);
  }

  lemma Unlock1Step(s: System, t: int)
    requires Inv(s) && Enabled(s, Unlock1(t))
    ensures Inv(Apply(s, Unlock1(t)))
  {
    hide Tasks, Side, Sides, Frame, Shape, WakeMany;
    ShapeIs(s);
    SendingLength(s, t);
    NoneWoken(s.q.waitSend);
    WokenSides(s, UnlockTx(s.q), s.q.txLock, 0);
    var s1 := Woken(s, UnlockTx(s.q));
    var pc := HalfUnlocked(PcOf(s, t).call, PcOf(s, t).expired);
    WindowMove(s1, t, pc);
    FrameUnlock1(s, t);
    ShapeIs(Apply(s, Unlock1(t)));
  }

  /** Moving on inside a call keeps the sides: the kind of call does not change. */
  lemma WindowMove(s: System, t: int, pc: Pc)
    requires Sides(s) && MayBeListed(PcOf(s, t)) && MayBeListed(pc) && pc.call == PcOf(s, t).call
    ensures Sides(Move(s, t, pc))
  {
    hide Tasks;
    MoveSides(s, t, pc);
  }

  lemma FrameUnlock1(s: System, t: int)
    requires Frame(s) && Enabled(s, Unlock1(t))
    ensures Frame(Apply(s, Unlock1(t)))
  {
    hide WakeMany, Tasks;
    var s2 := Apply(s, Unlock1(t));
    assert forall u :: PcOf(s2, u) == if u == t then PcOf(s2, t) else PcOf(s, u);
  }

  /** The system once the second half of the unlock has woken its writers. */
  ghost function Reopened(s: System): System { Woken(s, UnlockRx(s.q)).(window := false) }

  lemma ReopenedServes(s: System)
    requires Inv(s) && s.window && PcOf(s, s.holder).HalfUnlocked?
    ensures Sides(Reopened(s)) && ReadersServed(Reopened(s)) && WritersServed(Reopened(s))
    ensures Reopened(s).pc == s.pc && !Reopened(s).window
  {
    hide Tasks, Side, Sides, Frame, Shape, WakeMany;
    ShapeIs(s);
    NoneWoken(s.q.waitRecv);
    WokenSides(s, UnlockRx(s.q), 0, s.q.rxLock);
    LocksHalf(s);
    SidesQ(Woken(s, UnlockRx(s.q)), Reopened(s));
  }

  lemma MoveServes(s: System, t: int, pc: Pc)
    ensures ReadersServed(Move(s, t, pc)) == ReadersServed(s) && WritersServed(Move(s, t, pc)) == WritersServed(s)
  {}

  lemma Unlock2Step(s: System, t: int)
    requires Inv(s) && Enabled(s, Unlock2(t))
    ensures Inv(Apply(s, Unlock2(t)))
  {
    hide Tasks, Side, Sides, Frame, Shape, UnlockRx, Woken, ReadersServed, WritersServed;
    ShapeIs(s);
    ReopenedServes(s);
    var s1 := Reopened(s);
    var call := PcOf(s, t).call;
    if Listed(s1, t) || t in s1.wokenR || t in s1.wokenS {
      WindowMove(s1, t, Waiting(call));
      MoveServes(s1, t, Waiting(call));
    } else {
      FreeMove(s1, t, AfterWindow(call, PcOf(s, t).expired));
      MoveServes(s1, t, AfterWindow(call, PcOf(s, t).expired));
    }
    FrameUnlock2(s, t);
    ShapeIs(Apply(s, Unlock2(t)));
  }

  lemma LocksHalf(s: System)
    requires Frame(s) && s.window && PcOf(s, s.holder).HalfUnlocked?
    ensures s.q.txLock == UNLOCKED && s.q.rxLock >= 0
  {}

  lemma FrameUnlock2(s: System, t: int)
    requires Frame(s) && Enabled(s, Unlock2(t))
    ensures Frame(Apply(s, Unlock2(t)))
  {
    hide WakeMany, Tasks, Listed;
    var s2 := Apply(s, Unlock2(t));
    assert forall u :: PcOf(s2, u) == if u == t then PcOf(s2, t) else PcOf(s, u);
  }

  lemma LocksRange(s: System)
    requires Frame(s)
    ensures s.q.txLock == UNLOCKED || (s.window && s.q.txLock >= 0)
    ensures s.window && s.q.txLock == UNLOCKED ==> PcOf(s, s.holder).HalfUnlocked?
    ensures s.q.rxLock == UNLOCKED || (s.window && s.q.rxLock >= 0)
    ensures 0 < s.q.length
  {}

  lemma Int8Next(l: int)
    requires 0 <= l < 127
    ensures Int8(l + 1) == l + 1
  {}

  lemma SendCounts(s: System, x: Data, pos: Position)
    requires Inv(s) && Enabled(s, IsrSend(x, pos)) && Uncrowded(s, IsrSend(x, pos))
    ensures var s2 := Woken(s, SendFromISR(s.q, x, pos));
      Sides(s2) && ReadersServed(s2) && WritersServed(s2)
  {
    hide Tasks, Side, Sides, Frame, Shape, WakeMany, WakeOne, Put, Int8, HasRoom, PcOf;
    ShapeIs(s);
    LocksRange(s);
    PutCounts(s.q, x, pos);
    PutKeeps(s.q, x, pos);
    NoneWoken(s.q.waitSend);
    NoneWoken(s.q.waitRecv);
    WakeOneIsMany(s.q.waitRecv);
    var q2 := SendFromISR(s.q, x, pos);
    if s.q.txLock == UNLOCKED {
      WokenSides(s, q2, 1, 0);
    } else {
      Int8Next(s.q.txLock);
      WokenSides(s, q2, 0, 0);
    }
  }

  lemma IsrSendStep(s: System, x: Data, pos: Position)
    requires Inv(s) && Enabled(s, IsrSend(x, pos)) && Uncrowded(s, IsrSend(x, pos))
    ensures Inv(Apply(s, IsrSend(x, pos)))
  {
    hide Tasks, Side, Sides, Frame, Shape, WakeMany, WakeOne, Put, Int8, HasRoom, PcOf, ReadersServed, WritersServed;
    SendCounts(s, x, pos);
    ShapeIs(s);
    LocksRange(s);
    PutCounts(s.q, x, pos);
    PutKeeps(s.q, x, pos);
    if s.q.txLock != UNLOCKED { Int8Next(s.q.txLock); }
    var s2 := Woken(s, SendFromISR(s.q, x, pos));
    FrameSame(s, s2);
    SamePc(s, s2);
    ShapeIs(s2);
    PlacingHolds(s, s2);
  }

  lemma PlacingHolds(s: System, s2: System)
    requires PlacingSafe(s) && s2.pc == s.pc && s2.window == s.window && s2.holder == s.holder
    requires s2.q.length - |s2.q.items| - Pending(s2.q.rxLock) <= s.q.length - |s.q.items| - Pending(s.q.rxLock)
      || s2.q.length - |s2.q.items| <= 0
    requires |s2.q.items| - Pending(s2.q.txLock) <= |s.q.items| - Pending(s.q.txLock)
      || !s.window || PcOf(s, s.holder).HalfUnlocked?
    ensures PlacingSafe(s2)
  {
    SamePc(s, s2);
  }

  lemma SamePc(s: System, s2: System)
    requires s2.pc == s.pc
    ensures forall t :: PcOf(s2, t) == PcOf(s, t)
  {}

  lemma IsrReceiveStep(s: System)
    requires Inv(s) && Enabled(s, IsrReceive) && Uncrowded(s, IsrReceive)
    ensures Inv(Apply(s, IsrReceive))
  {
    hide Tasks, Side, Sides, Frame, Shape, WakeMany, Int8;
    ShapeIs(s);
    LocksRange(s);
    NoneWoken(s.q.waitSend);
    NoneWoken(s.q.waitRecv);
    WakeOneIsMany(s.q.waitSend);
    var q2 := ReceiveFromISR(s.q);
    if s.q.rxLock == UNLOCKED {
      WokenSides(s, q2, 0, 1);
    } else {
      Int8Next(s.q.rxLock);
      WokenSides(s, q2, 0, 0);
    }
    var s2 := Apply(s, IsrReceive);
    FrameSame(s, s2);
    SamePc(s, s2);
    ShapeIs(s2);
  }

  lemma StepKeeps(s: System, step: Step)
    requires Inv(s) && Enabled(s, step) && Uncrowded(s, step)
    ensures Inv(Apply(s, step))
  {
    hide Inv, Apply;
    match step
    case Begin(_, _) => BeginSuspendCheck(s, step);
    case Suspend(_) => BeginSuspendCheck(s, step);
    case Check(_, _) => BeginSuspendCheck(s, step);
    case Conclude(_) => BeginSuspendCheck(s, step);
    case Try(t, mayBlock) =>
      match PcOf(s, t).call {
        case Sending(_, _) => TrySend(s, t, mayBlock);
        case Receiving => TryReceive(s, t, mayBlock);
        case Peeking => TryPeek(s, t, mayBlock);
      }
    case Place(t, value) => PlaceStep(s, t, value);
    case Unlock1(t) => Unlock1Step(s, t);
    case Unlock2(t) => Unlock2Step(s, t);
    case TimeOut(t) => TimeOutStep(s, t);
    case IsrSend(x, pos) => IsrSendStep(s, x, pos);
    case IsrReceive => IsrReceiveStep(s);
  }

  // ------------------------------------------------------------------------- whole runs

  ghost predicate Initial(s: System) {
    && 0 < s.q.length && !s.window && s.pc == map[]
    && s.q.waitRecv == [] && s.q.waitSend == [] && s.wokenR == {} && s.wokenS == {}
    && s.q.txLock == UNLOCKED && s.q.rxLock == UNLOCKED
  }

  lemma InitialInv(s: System)
    requires Initial(s)
    ensures Inv(s)
  {
    assert forall t :: PcOf(s, t) == Idle;
  }

  ghost predicate IsRun(s: System, steps: seq<Step>)
    decreases |steps|
  {
    steps == [] ||
    (Enabled(s, steps[0]) && Uncrowded(s, steps[0]) && IsRun(Apply(s, steps[0]), steps[1..]))
  }

  ghost function Run(s: System, steps: seq<Step>): System
    requires IsRun(s, steps)
    decreases |steps|
  {
    if steps == [] then s else Run(Apply(s, steps[0]), steps[1..])
  }

  lemma {:induction false} RunInv(s: System, steps: seq<Step>)
    requires Inv(s) && IsRun(s, steps)
    ensures Inv(Run(s, steps))
    decreases |steps|
  {
    hide Inv, Apply, Enabled, Uncrowded;
    if steps != [] {
      StepKeeps(s, steps[0]);
      RunInv(Apply(s, steps[0]), steps[1..]);
    }
  }

  /** In every reachable state: the items are covered by woken readers and recorded interrupts while
      a reader is blocked, and dually for writers.  So once every woken task has retried and the
      queue is unlocked, a blocked reader means an empty queue and a blocked writer a full one. */
  lemma NoLostWakeup(s: System, steps: seq<Step>)
    requires Initial(s) && IsRun(s, steps)
    ensures var r := Run(s, steps);
      && ReadersServed(r) && WritersServed(r)
      && (!r.window && r.wokenR == {} && r.q.waitRecv != [] ==> r.q.items == [])
      && (!r.window && r.wokenS == {} && r.q.waitSend != [] ==> |r.q.items| >= r.q.length)
  {
    hide Apply, Enabled, Uncrowded, Side;
    InitialInv(s);
    RunInv(s, steps);
  }

  /** A woken reader can always retry once the scheduler runs again. */
  lemma WokenCanRetry(s: System, t: int, mayBlock: bool)
    requires Inv(s) && !s.window && (t in s.wokenR || t in s.wokenS)
    ensures Enabled(s, Try(t, mayBlock))
  {
    hide Tasks;
  }
}

/** Blocking on a queue and being woken from it: a call that finds nothing joins its event list, the
    task of highest priority is woken first, and what woke it is there for it to take. */
module QueueBlocking {
  import opened QueueSpec
  import opened QueueProtocol
  import opened QueueWakeups
  import opened QueueCalls

  // -------------------------------------------------------------------------- the highest priority first

  ghost predicate Ranked(q: Queue) { ByPriority(q.waitRecv) && ByPriority(q.waitSend) }

  lemma {:induction false} WakesPrefix(ws: seq<Waiter>, n: int) returns (gone: seq<Waiter>)
    ensures ws == gone + WakeMany(ws, n)
    decreases ws
  {
    if n <= 0 || ws == [] {
      gone := [];
    } else {
      var rest := WakesPrefix(ws[1..], n - 1);
      gone := [ws[0]] + rest;
    }
  }

  /** What leaves a list in priority order is not ranked below what stays. */
  ghost predicate LeftFirst(before: seq<Waiter>, after: seq<Waiter>) {
    exists n: nat :: n <= |before| && after == before[n..]
      && forall j, k :: 0 <= j < n <= k < |before| ==> before[j].value <= before[k].value
  }

  lemma WakesFirst(ws: seq<Waiter>, n: int)
    requires ByPriority(ws)
    ensures ByPriority(WakeMany(ws, n)) && LeftFirst(ws, WakeMany(ws, n))
  {
    hide WakeMany;
    var gone := WakesPrefix(ws, n);
    assert WakeMany(ws, n) == ws[|gone|..];
  }

  lemma {:induction false} DelistRanked(ws: seq<Waiter>, t: int)
    requires ByPriority(ws)
    ensures ByPriority(Delist(ws, t)) && forall w :: w in Delist(ws, t) ==> w in ws
    decreases ws
  {
    if ws != [] && ws[0].task != t {
      DelistRanked(ws[1..], t);
      var r := Delist(ws[1..], t);
      forall k | 0 <= k < |r| ensures ws[0].value <= r[k].value { assert r[k] in ws[1..]; }
    }
  }

  lemma ListsRanked(s: System, step: Step)
    requires Ranked(s.q) && Enabled(s, step)
    ensures Ranked(Apply(s, step).q)
    ensures !step.Place? && !step.TimeOut? ==>
      LeftFirst(s.q.waitRecv, Apply(s, step).q.waitRecv) && LeftFirst(s.q.waitSend, Apply(s, step).q.waitSend)
  {
    hide WakeOne, WakeMany, Enlist, Delist, Int8, Put, Tasks, HasRoom, StillBlocked, PcOf, ByPriority, LeftFirst;
    WakesFirst(s.q.waitRecv, 0);
    WakesFirst(s.q.waitSend, 0);
    WakesFirst(s.q.waitRecv, 1);
    WakesFirst(s.q.waitSend, 1);
    NoneWoken(s.q.waitRecv);
    NoneWoken(s.q.waitSend);
    WakeOneIsMany(s.q.waitRecv);
    WakeOneIsMany(s.q.waitSend);
    WakesFirst(s.q.waitRecv, s.q.txLock);
    WakesFirst(s.q.waitSend, s.q.rxLock);
    match step
    case Try(u, _) => if PcOf(s, u).call.Sending? { PutKeeps(s.q, PcOf(s, u).call.x, PcOf(s, u).call.pos); }
    case IsrSend(x, pos) => PutKeeps(s.q, x, pos);
    case Place(u, value) =>
      EnlistByPriority(s.q.waitRecv, Waiter(u, value));
      EnlistByPriority(s.q.waitSend, Waiter(u, value));
    case TimeOut(u) =>
      DelistRanked(s.q.waitRecv, u);
      DelistRanked(s.q.waitSend, u);
    case _ =>
  }

  lemma {:induction false} RunRanked(s: System, steps: seq<Step>)
    requires Ranked(s.q) && IsRun(s, steps)
    ensures Ranked(Run(s, steps).q)
    decreases |steps|
  {
    hide Apply, Enabled, Uncrowded, Ranked;
    if steps != [] {
      ListsRanked(s, steps[0]);
      RunRanked(Apply(s, steps[0]), steps[1..]);
    }
  }

  /** In every reachable state, whatever step comes next: the tasks it wakes are the first of their list,
      and none that stays behind has a higher priority. */
  lemma HighestFirst(s: System, steps: seq<Step>, step: Step)
    requires Initial(s) && IsRun(s, steps) && Enabled(Run(s, steps), step)
    ensures var r := Run(s, steps);
      && ByPriority(r.q.waitRecv) && ByPriority(r.q.waitSend)
      && (!step.Place? && !step.TimeOut? ==>
            && LeftFirst(r.q.waitRecv, Apply(r, step).q.waitRecv)
            && LeftFirst(r.q.waitSend, Apply(r, step).q.waitSend))
  {
    hide Apply, Enabled, Run, IsRun, LeftFirst;
    RunRanked(s, steps);
    ListsRanked(Run(s, steps), step);
  }

  // ------------------------------------------------------------------------------------------ blocking

  ghost function Joined(q: Queue, call: Call, w: Waiter): Queue {
    if call.Sending? then q.(waitSend := Enlist(q.waitSend, w)) else q.(waitRecv := Enlist(q.waitRecv, w))
  }

  /** From the refused attempt to the place on the event list. */
  lemma JoinsList(s: System, t: int, value: int) returns (s1: System, s2: System, s3: System, s4: System)
    requires Inv(s) && !s.window && PcOf(s, t).Retrying? && StillBlocked(s.q, PcOf(s, t).call)
    requires PcOf(s, t).call.Sending? ==> PcOf(s, t).call.pos != Overwrite
    ensures Enabled(s, Try(t, true)) && s1 == Apply(s, Try(t, true))
    ensures Enabled(s1, Suspend(t)) && s2 == Apply(s1, Suspend(t))
    ensures Enabled(s2, Check(t, false)) && s3 == Apply(s2, Check(t, false))
    ensures Enabled(s3, Place(t, value)) && s4 == Apply(s3, Place(t, value))
    ensures var call := PcOf(s, t).call;
      && PcOf(s4, t) == Unlocking(call, false) && s4.window && s4.holder == t
      && s4.wokenR == s.wokenR && s4.wokenS == s.wokenS
      && s4.q == Lock(Joined(s.q, call, Waiter(t, value)))
  {
    hide Enlist, Tasks, WakeMany, Int8, Put, Inv;
    InvFrame(s);
    FreeNow(s, t);
    s1 := Apply(s, Try(t, true));
    assert s1.wokenR == s.wokenR && s1.wokenS == s.wokenS;
    s2 := Apply(s1, Suspend(t));
    s3 := Apply(s2, Check(t, false));
    s4 := Apply(s3, Place(t, value));
  }

  /** From there to the end of the lock window, when nothing was posted or received in it. */
  lemma Unlocks(s: System, t: int) returns (s1: System, s2: System)
    requires s.window && s.holder == t && PcOf(s, t).Unlocking? && Listed(s, t)
    requires s.q.txLock == LOCKED_UNMODIFIED && s.q.rxLock == LOCKED_UNMODIFIED
    ensures Enabled(s, Unlock1(t)) && s1 == Apply(s, Unlock1(t))
    ensures Enabled(s1, Unlock2(t)) && s2 == Apply(s1, Unlock2(t))
    ensures PcOf(s2, t) == Waiting(PcOf(s, t).call) && Listed(s2, t) && !s2.window
    ensures s2.wokenR == s.wokenR && s2.wokenS == s.wokenS
    ensures s2.q == s.q.(txLock := UNLOCKED, rxLock := UNLOCKED)
  {
    hide Tasks, WakeMany;
    NoneWoken(s.q.waitRecv);
    NoneWoken(s.q.waitSend);
    s1 := Apply(s, Unlock1(t));
    assert s1.wokenR == s.wokenR && s1.wokenS == s.wokenS;
    s2 := Apply(s1, Unlock2(t));
    assert s2.wokenR == s.wokenR && s2.wokenS == s.wokenS;
  }

  /** A call that finds nothing and has time left, when no one interferes: the task ends up waiting on
      the list its call belongs to, in its place by priority; the queue is as it was, and unlocked. */
  lemma Blocks(s: System, t: int, value: int)
    requires Inv(s) && !s.window && PcOf(s, t).Retrying? && StillBlocked(s.q, PcOf(s, t).call)
    requires PcOf(s, t).call.Sending? ==> PcOf(s, t).call.pos != Overwrite
    ensures var call := PcOf(s, t).call;
      var steps := [Try(t, true), Suspend(t), Check(t, false), Place(t, value), Unlock1(t), Unlock2(t)];
      && IsRun(s, steps)
      && var r := Run(s, steps);
        && PcOf(r, t) == Waiting(call) && Listed(r, t) && !r.window
        && r.wokenR == s.wokenR && r.wokenS == s.wokenS
        && r.q == if call.Sending? then s.q.(waitSend := Enlist(s.q.waitSend, Waiter(t, value)))
                  else s.q.(waitRecv := Enlist(s.q.waitRecv, Waiter(t, value)))
  {
    hide Enlist, Tasks, Apply, Enabled, Inv, IsRun, Run, PcOf, StillBlocked;
    InvFrame(s);
    var s1, s2, s3, s4 := JoinsList(s, t, value);
    EnlistTasks(s.q.waitRecv, Waiter(t, value));
    EnlistTasks(s.q.waitSend, Waiter(t, value));
    var s5, s6 := Unlocks(s4, t);
    SixSteps(s, s1, s2, s3, s4, s5, s6, t, value);
  }

  lemma InvFrame(s: System)
    requires Inv(s) && !s.window
    ensures s.q.txLock == UNLOCKED && s.q.rxLock == UNLOCKED
  {}

  lemma FreeNow(s: System, t: int)
    requires Inv(s) && !MayBeListed(PcOf(s, t))
    ensures Free(s, t)
  {
    hide Side;
    ShapeIs(s);
    FreeByPc(s, t);
  }

  lemma SixSteps(s: System, s1: System, s2: System, s3: System, s4: System, s5: System, s6: System, t: int, value: int)
    requires Enabled(s, Try(t, true)) && s1 == Apply(s, Try(t, true))
    requires Enabled(s1, Suspend(t)) && s2 == Apply(s1, Suspend(t))
    requires Enabled(s2, Check(t, false)) && s3 == Apply(s2, Check(t, false))
    requires Enabled(s3, Place(t, value)) && s4 == Apply(s3, Place(t, value))
    requires Enabled(s4, Unlock1(t)) && s5 == Apply(s4, Unlock1(t))
    requires Enabled(s5, Unlock2(t)) && s6 == Apply(s5, Unlock2(t))
    ensures var steps := [Try(t, true), Suspend(t), Check(t, false), Place(t, value), Unlock1(t), Unlock2(t)];
      IsRun(s, steps) && Run(s, steps) == s6
  {
    hide Apply, Enabled;
    var steps := [Try(t, true), Suspend(t), Check(t, false), Place(t, value), Unlock1(t), Unlock2(t)];
    assert steps[5..][1..] == [];
    assert IsRun(s5, steps[5..]) && Run(s5, steps[5..]) == s6;
    assert steps[4..][1..] == steps[5..];
    assert IsRun(s4, steps[4..]) && Run(s4, steps[4..]) == s6;
    assert steps[3..][1..] == steps[4..];
    assert IsRun(s3, steps[3..]) && Run(s3, steps[3..]) == s6;
    assert steps[2..][1..] == steps[3..];
    assert IsRun(s2, steps[2..]) && Run(s2, steps[2..]) == s6;
    assert steps[1..][1..] == steps[2..];
    assert IsRun(s1, steps[1..]) && Run(s1, steps[1..]) == s6;
  }

  // -------------------------------------------------------------------------------- being woken and served

  /** Outside a lock window a listed task is waiting, in a call of its list's kind. */
  lemma ListedWaits(s: System, t: int)
    requires Inv(s) && !s.window
    ensures t in Tasks(s.q.waitRecv) ==> PcOf(s, t).Waiting? && !PcOf(s, t).call.Sending?
    ensures t in Tasks(s.q.waitSend) ==> PcOf(s, t).Waiting? && PcOf(s, t).call.Sending?
  {
    hide Tasks;
  }

  lemma HeadLeaves(ws: seq<Waiter>, woken: set<int>, s: System, writes: bool)
    requires Side(ws, woken, s, writes) && ws != []
    ensures ws[0].task in Tasks(ws) && ws[0].task !in Tasks(ws[1..]) && WakeOne(ws) == ws[1..]
  {}

  /** An item posted to an empty queue wakes the first blocked reader, and is there when that reader
      retries, if nobody takes it first: the retry ends the call, and a receive has the item. */
  lemma PostReachesReader(s: System, x: Data, pos: Position, b: bool)
    requires Inv(s) && !s.window && s.q.items == [] && s.q.waitRecv != []
    requires pos == Overwrite ==> s.q.length == 1
    ensures Enabled(s, IsrSend(x, pos))
    ensures var t, r := s.q.waitRecv[0].task, Apply(s, IsrSend(x, pos));
      && r.q.items == [x] && t in r.wokenR && r.q.waitRecv == s.q.waitRecv[1..]
      && Enabled(r, Try(t, b))
      && PcOf(Apply(r, Try(t, b)), t) == Idle
      && (PcOf(s, t).call == Receiving ==> Delivered(r, Try(t, b)) == [x] && Apply(r, Try(t, b)).q.items == [])
  {
    hide Int8, Tasks, WakeMany, WakeOne, Inv, Side;
    assert Inv(s);
    var t := s.q.waitRecv[0].task;
    InvFrame(s);
    LengthPositive(s);
    SidesOf(s);
    HeadLeaves(s.q.waitRecv, s.wokenR, s, false);
    ListedWaits(s, t);
    var r := Apply(s, IsrSend(x, pos));
    StepKeeps(s, IsrSend(x, pos));
    WokenCanRetry(r, t, b);
  }

  lemma LengthPositive(s: System)
    requires Inv(s)
    ensures 0 < s.q.length
  {}

  lemma SidesOf(s: System)
    requires Inv(s)
    ensures Side(s.q.waitRecv, s.wokenR, s, false) && Side(s.q.waitSend, s.wokenS, s, true)
  {}

  /** And the other way round: a receive from a full queue wakes the first blocked writer, whose retry
      stores its item in the slot set free. */
  lemma ReceiveReachesWriter(s: System, b: bool)
    requires Inv(s) && !s.window && |s.q.items| == s.q.length && s.q.waitSend != []
    ensures Enabled(s, IsrReceive)
    ensures var t, r := s.q.waitSend[0].task, Apply(s, IsrReceive);
      && r.q.items == s.q.items[1..] && t in r.wokenS && r.q.waitSend == s.q.waitSend[1..]
      && Enabled(r, Try(t, b)) && PcOf(Apply(r, Try(t, b)), t) == Idle
      && PcOf(s, t).call.Sending?
      && (PcOf(s, t).call.pos == Back ==> Apply(r, Try(t, b)).q.items == s.q.items[1..] + [PcOf(s, t).call.x])
  {
    hide Int8, Tasks, WakeMany, WakeOne, Inv, Side;
    assert Inv(s);
    var t := s.q.waitSend[0].task;
    InvFrame(s);
    LengthPositive(s);
    SidesOf(s);
    HeadLeaves(s.q.waitSend, s.wokenS, s, true);
    ListedWaits(s, t);
    var r := Apply(s, IsrReceive);
    StepKeeps(s, IsrReceive);
    WokenCanRetry(r, t, b);
  }

  /** A block time that runs out takes the task off its list, and nobody else; it can run on at once, and
      finds the queue as it is. */
  lemma TimeOutFrees(s: System, t: int, b: bool, u: int)
    requires Inv(s) && Enabled(s, TimeOut(t))
    ensures var r := Apply(s, TimeOut(t));
      && !Listed(r, t) && Enabled(r, Try(t, b)) && r.q.items == s.q.items
      && (u != t ==> (Listed(r, u) <==> Listed(s, u)))
      && r.wokenR == s.wokenR && r.wokenS == s.wokenS
  {
    hide Tasks, Delist, Inv, Side;
    SidesOf(s);
    DelistSide(s.q.waitRecv, s.wokenR, s, false, t);
    DelistSide(s.q.waitSend, s.wokenS, s, true, t);
    assert PcOf(Apply(s, TimeOut(t)), t) == PcOf(s, t);
  }

  lemma DelistSide(ws: seq<Waiter>, woken: set<int>, s: System, writes: bool, t: int)
    requires Side(ws, woken, s, writes)
    ensures Tasks(Delist(ws, t)) == Tasks(ws) - {t}
  {
    hide Tasks, NoDup, Delist;
    DelistFacts(ws, t);
  }
}

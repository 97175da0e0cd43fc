/** What callers see of a queue in any interleaving: items come out in the order they went in, a call
    ends only when it was served or gave up, and the task woken is one of highest priority. */
module QueueCalls {
  import opened QueueSpec
  import opened QueueProtocol
  import opened QueueWakeups
  import QueueCounts

  // ------------------------------------------------------------------ what a step stores and hands out

  /** The queue has what the call needs. */
  ghost predicate Ready(q: Queue, call: Call) {
    if call.Sending? then |q.items| < q.length || call.pos == Overwrite else q.items != []
  }

  /** The step in which task t's call gets what it needs. */
  ghost predicate Serves(s: System, step: Step, t: int) {
    step.Try? && step.t == t && PcOf(s, t) != Idle && Ready(s.q, PcOf(s, t).call)
  }

  ghost function Accepted(s: System, step: Step): seq<Data> {
    match step
    case Try(t, _) => if Serves(s, step, t) && PcOf(s, t).call.Sending? then [PcOf(s, t).call.x] else []
    case IsrSend(x, _) => [x]
    case _ => []
  }

  ghost function Delivered(s: System, step: Step): seq<Data>
    requires Enabled(s, step)
  {
    match step
    case Try(t, _) => if Serves(s, step, t) && PcOf(s, t).call.Receiving? then [s.q.items[0]] else []
    case IsrReceive => [s.q.items[0]]
    case _ => []
  }

  /** Where a storing step puts its item. */
  ghost function PositionOf(s: System, step: Step): Position {
    match step
    case Try(t, _) =>
      if PcOf(s, t) != Idle && PcOf(s, t).call.Sending? then PcOf(s, t).call.pos else Back
    case IsrSend(_, pos) => pos
    case _ => Back
  }

  /** Every step does to the items what it hands over, and nothing else: the oldest item leaves, and an
      item joins as the newest, or sent to the front as the oldest, or alone by overwriting. */
  lemma ItemsExact(s: System, step: Step)
    requires Enabled(s, step)
    ensures var r, out, x := Apply(s, step), Delivered(s, step), Accepted(s, step);
      match PositionOf(s, step)
      case Back => s.q.items + x == out + r.q.items
      case Front => s.q.itemSize != 0 ==> x + s.q.items == out + r.q.items
      case Overwrite => s.q.itemSize != 0 && x != [] && |s.q.items| <= 1 ==> r.q.items == x
  {
    hide WakeOne, WakeMany, Tasks, Enlist, Delist, Int8;
  }

  // ------------------------------------------------------------------------------ first in, first out

  ghost predicate SendsBack(s: System) {
    forall t :: PcOf(s, t) != Idle && PcOf(s, t).call.Sending? ==> PcOf(s, t).call.pos == Back
  }

  ghost predicate ToBack(step: Step) {
    && (step.Begin? && step.call.Sending? ==> step.call.pos == Back)
    && (step.IsrSend? ==> step.pos == Back)
  }

  lemma StaysBack(s: System, step: Step)
    requires Enabled(s, step) && SendsBack(s) && ToBack(step)
    ensures SendsBack(Apply(s, step))
  {
    var r := Apply(s, step);
    forall t | PcOf(r, t) != Idle && PcOf(r, t).call.Sending? ensures PcOf(r, t).call.pos == Back {
      QueueCounts.CallKept(s, step, t);
      if step.Begin? { assert PcOf(r, t) == if t == step.t then Retrying(step.call) else PcOf(s, t); }
    }
  }

  ghost function AllAccepted(s: System, steps: seq<Step>): seq<Data>
    requires IsRun(s, steps)
    decreases |steps|
  {
    if steps == [] then [] else Accepted(s, steps[0]) + AllAccepted(Apply(s, steps[0]), steps[1..])
  }

  ghost function AllDelivered(s: System, steps: seq<Step>): seq<Data>
    requires IsRun(s, steps)
    decreases |steps|
  {
    if steps == [] then [] else Delivered(s, steps[0]) + AllDelivered(Apply(s, steps[0]), steps[1..])
  }

  /** Over every run in which items are sent to the back: what was held at the start and accepted since
      is what was received, followed by what is held now, in the same order. */
  lemma {:induction false} FirstInFirstOut(s: System, steps: seq<Step>)
    requires IsRun(s, steps) && SendsBack(s) && forall k :: 0 <= k < |steps| ==> ToBack(steps[k])
    ensures s.q.items + AllAccepted(s, steps) == AllDelivered(s, steps) + Run(s, steps).q.items
    decreases |steps|
  {
    hide Apply, Enabled, Accepted, Delivered, SendsBack, Uncrowded;
    if steps != [] {
      var r, rest := Apply(s, steps[0]), steps[1..];
      StaysBack(s, steps[0]);
      BackPosition(s, steps[0]);
      ItemsExact(s, steps[0]);
      FirstInFirstOut(r, rest);
      var x, xs := Accepted(s, steps[0]), AllAccepted(r, rest);
      var d, ds := Delivered(s, steps[0]), AllDelivered(r, rest);
      assert s.q.items + (x + xs) == (s.q.items + x) + xs;
      assert (d + r.q.items) + xs == d + (r.q.items + xs);
      assert (d + ds) + Run(s, steps).q.items == d + (ds + Run(s, steps).q.items);
    }
  }

  lemma BackPosition(s: System, step: Step)
    requires SendsBack(s) && ToBack(step)
    ensures PositionOf(s, step) == Back
  {}

  // -------------------------------------------------------------------------------- how a call ends

  /** A call fails without waiting; or, after its block time, a reader finds the queue still empty and a
      writer does not look again. */
  ghost predicate GivesUp(s: System, step: Step, t: int) {
    && PcOf(s, t) != Idle
    && var call := PcOf(s, t).call;
      || (step == Try(t, false) && !Ready(s.q, call))
      || (step == Conclude(t) && (if call.Sending? then |s.q.items| == s.q.length else s.q.items == []))
      || (step == Unlock2(t) && call.Sending? && PcOf(s, t).HalfUnlocked? && PcOf(s, t).expired)
  }

  /** The step is one of task t's own. */
  ghost predicate Own(step: Step, t: int) { !step.IsrSend? && !step.IsrReceive? && step.t == t }

  lemma OthersKeepPc(s: System, step: Step, t: int)
    requires Enabled(s, step) && !Own(step, t)
    ensures PcOf(Apply(s, step), t) == PcOf(s, t)
  {
    hide WakeOne, WakeMany, Tasks, Enlist, Delist, Int8, Put, StillBlocked, HasRoom, Listed;
  }

  lemma UnlockKeepsFree(s: System, t: int)
    requires Free(s, t)
    ensures Free(Woken(s, UnlockRx(s.q)).(window := false), t)
  {
    hide Tasks, WakeMany;
    StillIn(s.q.waitSend, s.q.rxLock);
  }

  lemma {:induction false} StillIn(ws: seq<Waiter>, n: int)
    ensures Tasks(WakeMany(ws, n)) <= Tasks(ws)
    decreases ws
  {
    if n > 0 && ws != [] { StillIn(ws[1..], n - 1); }
  }

  /** A step of a task inside a call ends the call exactly when it serves the call or the call gives up;
      a task that has timed out is on no event list. */
  lemma EndsExact(s: System, step: Step, t: int)
    requires Enabled(s, step) && PcOf(s, t) != Idle && !(step.Begin? && step.t == t)
    requires PcOf(s, t).HalfUnlocked? && PcOf(s, t).expired ==> Free(s, t)
    ensures PcOf(Apply(s, step), t) == Idle <==> Serves(s, step, t) || GivesUp(s, step, t)
    ensures PcOf(Apply(s, step), t) != Idle ==> PcOf(Apply(s, step), t).call == PcOf(s, t).call
  {
    hide WakeOne, WakeMany, Enlist, Delist, Int8, Put, Tasks, UnlockRx, UnlockTx, Lock, Listed;
    if Own(step, t) {
      if step == Unlock2(t) && PcOf(s, t).expired { UnlockKeepsFree(s, t); }
    } else {
      OthersKeepPc(s, step, t);
    }
  }

  /** A task whose block time is over is on no event list and has been woken from none. */
  ghost predicate Tidy(s: System) {
    forall t :: (PcOf(s, t).Unlocking? || PcOf(s, t).HalfUnlocked?) && PcOf(s, t).expired ==> Free(s, t)
  }

  lemma {:induction false} EnlistTasks(ws: seq<Waiter>, w: Waiter)
    ensures Tasks(Enlist(ws, w)) == Tasks(ws) + {w.task}
    decreases ws
  {
    if ws == [] || w.value < ws[0].value {
      assert ([w] + ws)[1..] == ws;
    } else {
      EnlistTasks(ws[1..], w);
      assert Enlist(ws, w)[1..] == Enlist(ws[1..], w);
    }
  }

  lemma {:induction false} DelistTasks(ws: seq<Waiter>, t: int)
    ensures Tasks(Delist(ws, t)) <= Tasks(ws)
    decreases ws
  {
    if ws != [] && ws[0].task != t {
      DelistTasks(ws[1..], t);
      assert Delist(ws, t)[1..] == Delist(ws[1..], t);
    }
  }

  /** Lists gain only the task that places itself; the tasks woken were on a list or woken before. */
  lemma StaysFree(s: System, step: Step, t: int)
    requires Enabled(s, step) && Free(s, t) && !(step.Place? && step.t == t)
    ensures Free(Apply(s, step), t)
  {
    hide WakeOne, WakeMany, Enlist, Delist, Int8, Put, Tasks, HasRoom, StillBlocked, PcOf;
    StillIn(s.q.waitRecv, s.q.txLock);
    StillIn(s.q.waitSend, s.q.rxLock);
    StillIn(s.q.waitRecv, 1);
    StillIn(s.q.waitSend, 1);
    WakeOneIsMany(s.q.waitRecv);
    WakeOneIsMany(s.q.waitSend);
    match step
    case Try(u, _) => if PcOf(s, u).call.Sending? { PutKeeps(s.q, PcOf(s, u).call.x, PcOf(s, u).call.pos); }
    case IsrSend(x, pos) => PutKeeps(s.q, x, pos);
    case Place(u, value) =>
      EnlistTasks(s.q.waitRecv, Waiter(u, value));
      EnlistTasks(s.q.waitSend, Waiter(u, value));
    case TimeOut(u) =>
      DelistTasks(s.q.waitRecv, u);
      DelistTasks(s.q.waitSend, u);
    case _ =>
  }

  lemma StaysTidy(s: System, step: Step)
    requires Inv(s) && Tidy(s) && Enabled(s, step)
    ensures Tidy(Apply(s, step))
  {
    hide WakeOne, WakeMany, Enlist, Delist, Int8, Put, Tasks, HasRoom, StillBlocked, Side, Listed;
    var r := Apply(s, step);
    forall t | (PcOf(r, t).Unlocking? || PcOf(r, t).HalfUnlocked?) && PcOf(r, t).expired ensures Free(r, t) {
      if Own(step, t) {
        if step.Check? { ShapeIs(s); FreeByPc(s, t); }
      } else {
        OthersKeepPc(s, step, t);
      }
      StaysFree(s, step, t);
    }
  }

  /** How many steps of a run end task t's call by serving it, or without. */
  ghost function Endings(s: System, steps: seq<Step>, t: int, served: bool): nat
    requires IsRun(s, steps)
    decreases |steps|
  {
    if steps == [] then 0 else
      (if (if served then Serves(s, steps[0], t) else GivesUp(s, steps[0], t)) then 1 else 0)
      + Endings(Apply(s, steps[0]), steps[1..], t, served)
  }

  ghost predicate StartsNone(steps: seq<Step>, t: int) {
    forall k :: 0 <= k < |steps| ==> !(steps[k].Begin? && steps[k].t == t)
  }

  /** The call neither declines to wait nor times out. */
  ghost predicate WaitsOn(steps: seq<Step>, t: int) {
    forall k :: 0 <= k < |steps| ==> steps[k] != Try(t, false) && steps[k] != Check(t, true)
  }

  ghost predicate HasTime(pc: Pc) {
    !pc.Expired? && (pc.Unlocking? || pc.HalfUnlocked? ==> !pc.expired)
  }

  lemma HasTimeKept(s: System, step: Step, t: int)
    requires Enabled(s, step) && HasTime(PcOf(s, t)) && step != Check(t, true)
    ensures HasTime(PcOf(Apply(s, step), t))
  {
    hide WakeOne, WakeMany, Enlist, Delist, Int8, Put, Tasks, HasRoom, StillBlocked, Listed;
    if !Own(step, t) { OthersKeepPc(s, step, t); }
  }

  lemma {:induction false} IdleStays(s: System, steps: seq<Step>, t: int)
    requires IsRun(s, steps) && PcOf(s, t) == Idle && StartsNone(steps, t)
    ensures PcOf(Run(s, steps), t) == Idle
    ensures Endings(s, steps, t, true) == Endings(s, steps, t, false) == 0
    decreases |steps|
  {
    hide Apply, Enabled, Uncrowded;
    if steps != [] {
      IdleKept(s, steps[0], t);
      IdleStays(Apply(s, steps[0]), steps[1..], t);
    }
  }

  lemma IdleKept(s: System, step: Step, t: int)
    requires Enabled(s, step) && PcOf(s, t) == Idle && !(step.Begin? && step.t == t)
    ensures PcOf(Apply(s, step), t) == Idle
  {
    if !Own(step, t) { OthersKeepPc(s, step, t); }
  }

  /** A call in progress, whatever the others do meanwhile, is over exactly when one step has served it or
      it has given up once, never both; and one that waits and has time left is over only when served. */
  lemma {:induction false} CallEndsOnce(s: System, steps: seq<Step>, t: int)
    requires Inv(s) && Tidy(s) && IsRun(s, steps) && PcOf(s, t) != Idle && StartsNone(steps, t)
    ensures Endings(s, steps, t, true) + Endings(s, steps, t, false) == if PcOf(Run(s, steps), t) == Idle then 1 else 0
    ensures HasTime(PcOf(s, t)) && WaitsOn(steps, t) ==> Endings(s, steps, t, false) == 0
    ensures PcOf(Run(s, steps), t) != Idle ==> PcOf(Run(s, steps), t).call == PcOf(s, t).call
    decreases |steps|
  {
    hide Apply, Enabled, Uncrowded, Inv, Tidy, Serves, GivesUp, HasTime;
    if steps != [] {
      var step, rest := steps[0], steps[1..];
      assert PcOf(s, t).HalfUnlocked? && PcOf(s, t).expired ==> Free(s, t) by { TidyAt(s, t); }
      EndsExact(s, step, t);
      NotBoth(s, step, t);
      StepKeeps(s, step);
      StaysTidy(s, step);
      if PcOf(Apply(s, step), t) == Idle {
        IdleStays(Apply(s, step), rest, t);
      } else {
        if HasTime(PcOf(s, t)) && WaitsOn(steps, t) { HasTimeKept(s, step, t); }
        CallEndsOnce(Apply(s, step), rest, t);
      }
    }
  }

  lemma TidyAt(s: System, t: int)
    requires Tidy(s)
    ensures PcOf(s, t).HalfUnlocked? && PcOf(s, t).expired ==> Free(s, t)
  {}

  lemma NotBoth(s: System, step: Step, t: int)
    requires Enabled(s, step)
    ensures !(Serves(s, step, t) && GivesUp(s, step, t))
    ensures HasTime(PcOf(s, t)) && step != Try(t, false) ==> !GivesUp(s, step, t)
  {}
}

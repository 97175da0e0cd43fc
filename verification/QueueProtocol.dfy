/** Tasks and interrupts sharing one queue: every interleaving of the critical sections of
    QueueSpec with locking, blocking, waking and timing out. */
module QueueProtocol {
  import opened QueueSpec

  /** A blocking call in progress. */
  datatype Call = Sending(x: Data, pos: Position) | Receiving | Peeking {
    predicate Writes() { Sending? }
  }

  /** Where a task is inside the retry loop of its call. */
  datatype Pc =
    | Idle
    | Retrying(call: Call)       // about to enter the critical section at the top of the loop
    | Refused(call: Call)        // found no item or no room; about to suspend the scheduler and lock
    | Locked(call: Call)         // scheduler suspended, queue locked
    | MustBlock(call: Call)      // not timed out, and the queue was still empty (or full)
    | Unlocking(call: Call, expired: bool)      // about to run the first half of prvUnlockQueue
    | HalfUnlocked(call: Call, expired: bool)   // about to run the second half
    | Expired(call: Call)        // timed out and unlocked; a reader looks at the queue once more
    | Waiting(call: Call)        // has yielded after joining an event list

  datatype System = System(
    q: Queue,
    pc: map<int, Pc>,
    window: bool,                // some task has the scheduler suspended and the queue locked
    holder: int,                 // which task, when window
    wokenR: set<int>,            // readers woken by an event that have not yet retried
    wokenS: set<int>)            // writers likewise

  datatype Step =
    | Begin(t: int, call: Call)
    | Try(t: int, mayBlock: bool)        // the critical section at the top of the loop
    | Suspend(t: int)                    // vTaskSuspendAll and prvLockQueue
    | Check(t: int, timedOut: bool)      // xTaskCheckForTimeOut, then prvIsQueueEmpty or prvIsQueueFull
    | Place(t: int, value: int)          // vTaskPlaceOnEventList
    | Unlock1(t: int)
    | Unlock2(t: int)                    // second half, then xTaskResumeAll
    | Conclude(t: int)                   // a timed-out reader's last prvIsQueueEmpty
    | TimeOut(t: int)                    // the tick interrupt unblocks a waiting task
    | IsrSend(x: Data, pos: Position)
    | IsrReceive

  function PcOf(s: System, t: int): Pc { if t in s.pc then s.pc[t] else Idle }

  ghost function Tasks(ws: seq<Waiter>): set<int> {
    if ws == [] then {} else {ws[0].task} + Tasks(ws[1..])
  }

  ghost predicate Listed(s: System, t: int) {
    t in Tasks(s.q.waitRecv) || t in Tasks(s.q.waitSend)
  }

  /** After the queue has gone from s.q to q2, the readers and writers that left their lists have
      been woken. */
  ghost function Woken(s: System, q2: Queue): System {
    s.(q := q2,
       wokenR := s.wokenR + (Tasks(s.q.waitRecv) - Tasks(q2.waitRecv)),
       wokenS := s.wokenS + (Tasks(s.q.waitSend) - Tasks(q2.waitSend)))
  }

  ghost function Move(s: System, t: int, pc: Pc): System { s.(pc := s.pc[t := pc]) }

  /** A task that runs again is no longer "woken but not yet retried". */
  ghost function Retried(s: System, t: int): System {
    s.(wokenR := s.wokenR - {t}, wokenS := s.wokenS - {t})
  }

  ghost predicate Enabled(s: System, step: Step) {
    match step
    case Begin(t, call) =>
      !s.window && PcOf(s, t) == Idle && (call.Sending? && call.pos == Overwrite ==> s.q.length == 1)
    case Try(t, _) => !s.window && (PcOf(s, t).Retrying? || PcOf(s, t).Waiting?) && !Listed(s, t)
    case Suspend(t) => !s.window && PcOf(s, t).Refused?
    case Check(t, _) => s.window && s.holder == t && PcOf(s, t).Locked?
    case Place(t, _) => s.window && s.holder == t && PcOf(s, t).MustBlock?
    case Unlock1(t) => s.window && s.holder == t && PcOf(s, t).Unlocking?
    case Unlock2(t) => s.window && s.holder == t && PcOf(s, t).HalfUnlocked?
    case Conclude(t) => !s.window && PcOf(s, t).Expired?
    case TimeOut(t) => !s.window && PcOf(s, t).Waiting? && Listed(s, t)
    case IsrSend(x, pos) => HasRoom(s.q, pos) && (pos == Overwrite ==> s.q.length == 1)
    case IsrReceive => s.q.items != []
  }

  /** The critical section at the top of the loop of a call. */
  ghost function TrySection(s: System, t: int, call: Call, mayBlock: bool): System {
    match call
    case Sending(x, pos) =>
      if HasRoom(s.q, pos) then Move(Woken(s, Send(s.q, x, pos)), t, Idle)
      else Move(s, t, if mayBlock then Refused(call) else Idle)
    case Receiving =>
      if s.q.items != [] then Move(Woken(s, Receive(s.q)), t, Idle)
      else Move(s, t, if mayBlock then Refused(call) else Idle)
    case Peeking =>
      if s.q.items != [] then Move(Woken(s, Peek(s.q)), t, Idle)
      else Move(s, t, if mayBlock then Refused(call) else Idle)
  }

  ghost predicate StillBlocked(q: Queue, call: Call) {
    if call.Sending? then |q.items| == q.length else q.items == []
  }

  function AfterWindow(call: Call, expired: bool): Pc {
    if !expired then Retrying(call) else if call.Sending? then Idle else Expired(call)
  }

  ghost function Apply(s: System, step: Step): System
    requires Enabled(s, step)
  {
    match step
    case Begin(t, call) => Move(s, t, Retrying(call))
    case Try(t, mayBlock) => TrySection(Retried(s, t), t, PcOf(s, t).call, mayBlock)
    case Suspend(t) => Move(s.(q := Lock(s.q), window := true, holder := t), t, Locked(PcOf(s, t).call))
    case Check(t, timedOut) =>
      var call := PcOf(s, t).call;
      if !timedOut && StillBlocked(s.q, call) then Move(s, t, MustBlock(call))
      else Move(s, t, Unlocking(call, timedOut))
    case Place(t, value) =>
      var call := PcOf(s, t).call;
      var w := Waiter(t, value);
      var q2 :=
        if call.Sending? then s.q.(waitSend := Enlist(s.q.waitSend, w))
        else s.q.(waitRecv := Enlist(s.q.waitRecv, w));
      Move(s.(q := q2), t, Unlocking(call, false))
    case Unlock1(t) => Move(Woken(s, UnlockTx(s.q)), t, HalfUnlocked(PcOf(s, t).call, PcOf(s, t).expired))
    case Unlock2(t) =>
      var call := PcOf(s, t).call;
      var s2 := Woken(s, UnlockRx(s.q)).(window := false);
      // A task that joined a list, or was woken from one meanwhile, waits; otherwise the call loops,
      // unless its time is over: then a writer returns and a reader looks once more.
      if Listed(s2, t) || t in s2.wokenR || t in s2.wokenS then Move(s2, t, Waiting(call))
      else Move(s2, t, AfterWindow(call, PcOf(s, t).expired))
    case Conclude(t) =>
      var call := PcOf(s, t).call;
      Move(s, t, if StillBlocked(s.q, call) then Idle else Retrying(call))
    case TimeOut(t) =>
      s.(q := s.q.(waitRecv := Delist(s.q.waitRecv, t), waitSend := Delist(s.q.waitSend, t)))
    case IsrSend(x, pos) => Woken(s, SendFromISR(s.q, x, pos))
    case IsrReceive => Woken(s, ReceiveFromISR(s.q))
  }
}

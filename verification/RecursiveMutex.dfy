/** Recursive mutexes of queue.c: xQueueTakeMutexRecursive and xQueueGiveMutexRecursive run by any
    number of tasks, interleaved at every access to the holder, the call count and the queue. */
module RecursiveMutex {
  import opened MachineWord

  datatype Holder = NoTask | Task(t: int)

  datatype Pc =
    | Idle
    | TakeCheck          // compare pxMutexHolder with the caller, outside any critical section
    | TakeAcquire        // the critical section of xQueueSemaphoreTake
    | IncRead            // uxRecursiveCallCount++, read half
    | IncWrite(r: int)   // and write half
    | GiveCheck
    | DecRead
    | DecWrite(r: int)
    | GiveTest           // has the count unwound to zero?
    | GiveSend           // xQueueGenericSend with no block time

  datatype Mutex = Mutex(
    available: int,              // uxMessagesWaiting of a queue of length one
    holder: Holder,
    count: int,                  // uxRecursiveCallCount
    pc: map<int, Pc>,
    depth: map<int, int>)        // completed takes minus gives, per task

  datatype Step =
    | BeginTake(t: int)
    | BeginGive(t: int)
    | Go(t: int, patient: bool)  // the task's next access; an impatient acquire gives up when it fails

  function PcOf(m: Mutex, t: int): Pc { if t in m.pc then m.pc[t] else Idle }
  function DepthOf(m: Mutex, t: int): int { if t in m.depth then m.depth[t] else 0 }

  function At(m: Mutex, t: int, pc: Pc): Mutex { m.(pc := m.pc[t := pc]) }

  ghost predicate Enabled(m: Mutex, step: Step) {
    match step
    case BeginTake(t) => PcOf(m, t) == Idle && DepthOf(m, t) < WORD_LIMIT - 1
    case BeginGive(t) => PcOf(m, t) == Idle
    case Go(t, _) => PcOf(m, t) != Idle
  }

  function Apply(m: Mutex, step: Step): Mutex {
    match step
    case BeginTake(t) => At(m, t, TakeCheck)
    case BeginGive(t) => At(m, t, GiveCheck)
    case Go(t, patient) =>
      match PcOf(m, t)
      case Idle => m
      case TakeCheck => At(m, t, if m.holder == Task(t) then IncRead else TakeAcquire)
      case TakeAcquire =>
        if m.available > 0 then At(m.(available := m.available - 1, holder := Task(t)), t, IncRead)
        else At(m, t, if patient then TakeAcquire else Idle)
      case IncRead => At(m, t, IncWrite(m.count))
      case IncWrite(r) =>
        At(m.(count := (r + 1) % WORD_LIMIT, depth := m.depth[t := DepthOf(m, t) + 1]), t, Idle)
      case GiveCheck => At(m, t, if m.holder == Task(t) then DecRead else Idle)
      case DecRead => At(m, t, DecWrite(m.count))
      case DecWrite(r) =>
        At(m.(count := (r - 1) % WORD_LIMIT, depth := m.depth[t := DepthOf(m, t) - 1]), t, GiveTest)
      case GiveTest => At(m, t, if m.count == 0 then GiveSend else Idle)
      case GiveSend =>
        if m.available < 1 then At(m.(available := m.available + 1, holder := NoTask), t, Idle)
        else At(m, t, Idle)
  }

  /** Program points only the holder can be at. */
  predicate Inside(pc: Pc) {
    pc.IncRead? || pc.IncWrite? || pc.DecRead? || pc.DecWrite? || pc.GiveTest? || pc.GiveSend?
  }

  ghost predicate TaskOK(m: Mutex, t: int) {
    var pc, d := PcOf(m, t), DepthOf(m, t);
    && 0 <= d < WORD_LIMIT
    && (Inside(pc) || d > 0 ==> m.holder == Task(t))
    && (m.holder == Task(t) ==>
        && m.count == d
        && pc != TakeAcquire
        // The count is zero while the mutex is held only between the acquisition and the
        // increment, or between the last decrement and the release.
        && (d == 0 ==> pc.IncRead? || pc.IncWrite? || pc.GiveTest? || pc.GiveSend?)
        && (pc.DecRead? || pc.DecWrite? ==> d > 0)
        && (pc.GiveSend? ==> d == 0)
        && (pc.IncWrite? || pc.DecWrite? ==> pc.r == d)
        && (pc.TakeCheck? || pc.IncRead? || pc.IncWrite? ==> d < WORD_LIMIT - 1))
    && (pc.TakeCheck? || pc.TakeAcquire? ==> d < WORD_LIMIT - 1)
  }

  ghost predicate Inv(m: Mutex) {
    && m.available == (if m.holder == NoTask then 1 else 0)
    && (m.holder == NoTask ==> m.count == 0)
    && forall t :: TaskOK(m, t)
  }

  lemma StepKeeps(m: Mutex, step: Step)
    requires Inv(m) && Enabled(m, step)
    ensures Inv(Apply(m, step))
  {
    var t := step.t;
    var r := Apply(m, step);
    assert TaskOK(m, t);
    assert TaskOK(r, t);
    forall u | u != t ensures TaskOK(r, u) {
      assert TaskOK(m, u);
      assert PcOf(r, u) == PcOf(m, u) && DepthOf(r, u) == DepthOf(m, u);
    }
  }

  /** After prvInitialiseMutex. */
  ghost predicate Initial(m: Mutex) {
    m == Mutex(1, NoTask, 0, map[], map[])
  }

  ghost predicate IsRun(m: Mutex, steps: seq<Step>)
    decreases |steps|
  {
    steps == [] || (Enabled(m, steps[0]) && IsRun(Apply(m, steps[0]), steps[1..]))
  }

  function Run(m: Mutex, steps: seq<Step>): Mutex
    decreases |steps|
  {
    if steps == [] then m else Run(Apply(m, steps[0]), steps[1..])
  }

  lemma {:induction false} RunKeeps(m: Mutex, steps: seq<Step>)
    requires Inv(m) && IsRun(m, steps)
    ensures Inv(Run(m, steps))
    decreases |steps|
  {
    hide Inv, Apply, Enabled;
    if steps != [] {
      StepKeeps(m, steps[0]);
      RunKeeps(Apply(m, steps[0]), steps[1..]);
    }
  }

  /** In every interleaving: two tasks never both hold the mutex; it is available exactly when it has
      no holder; and a task that is between calls is the holder exactly when its completed takes
      outnumber its gives. */
  lemma MutualExclusion(m: Mutex, steps: seq<Step>, t: int, u: int)
    requires Initial(m) && IsRun(m, steps)
    ensures var r := Run(m, steps);
      && (DepthOf(r, t) > 0 && DepthOf(r, u) > 0 ==> t == u)
      && (Inside(PcOf(r, t)) && DepthOf(r, u) > 0 ==> t == u)
      && (r.available == 1 <==> r.holder == NoTask) && 0 <= r.available <= 1
      && (PcOf(r, t) == Idle ==> (r.holder == Task(t) <==> DepthOf(r, t) > 0))
  {
    hide Apply, Enabled;
    assert Inv(m);
    RunKeeps(m, steps);
    var r := Run(m, steps);
    assert TaskOK(r, t) && TaskOK(r, u);
  }

  /** The release happens exactly at the give that matches the outermost take, and it always
      succeeds: the queue is never found full. */
  lemma ReleaseExact(m: Mutex, t: int, patient: bool)
    requires Inv(m) && PcOf(m, t) == GiveTest
    ensures PcOf(Apply(m, Go(t, patient)), t) == GiveSend <==> DepthOf(m, t) == 0
    ensures DepthOf(m, t) == 0 ==>
      var r := Apply(Apply(m, Go(t, patient)), Go(t, patient));
      r.holder == NoTask && r.available == 1 && PcOf(r, t) == Idle
  {
    assert TaskOK(m, t);
  }

  /** A task that does not hold the mutex cannot give it: nothing but its own progress changes. */
  lemma StrangerGives(m: Mutex, t: int, patient: bool)
    requires Inv(m) && PcOf(m, t) == GiveCheck && DepthOf(m, t) == 0
    ensures var r := Apply(m, Go(t, patient));
      PcOf(r, t) == Idle && r.(pc := m.pc) == m
  {
    assert TaskOK(m, t);
  }
}

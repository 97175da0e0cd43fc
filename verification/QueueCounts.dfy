/** The count of a queue over whole runs: it never exceeds the length. */
module QueueCounts {
  import opened QueueSpec
  import opened QueueProtocol
  import opened QueueWakeups

  /** Every item that a call in progress is about to send has the item size. */
  ghost predicate Fits(s: System, t: int) {
    PcOf(s, t) != Idle && PcOf(s, t).call.Sending? ==>
      |PcOf(s, t).call.x| == s.q.itemSize && (PcOf(s, t).call.pos == Overwrite ==> s.q.length == 1 && s.q.itemSize != 0)
  }

  /** What callers owe the queue: items of its size, and no overwriting of items of size zero. */
  ghost predicate Proper(q: Queue, step: Step) {
    match step
    case Begin(_, Sending(x, pos)) => |x| == q.itemSize && (pos == Overwrite ==> q.itemSize != 0)
    case IsrSend(x, pos) => |x| == q.itemSize && (pos == Overwrite ==> q.itemSize != 0)
    case _ => true
  }

  ghost predicate Counted(s: System) {
    Sized(s.q) && forall t :: Fits(s, t)
  }

  lemma SameShape(q: Queue, r: Queue)
    requires Sized(q) && r.items == q.items && r.length == q.length && r.itemSize == q.itemSize
    ensures Sized(r)
  {}

  lemma PutCounted(q: Queue, x: Data, pos: Position)
    requires Sized(q) && HasRoom(q, pos) && |x| == q.itemSize && (pos == Overwrite ==> q.length == 1 && q.itemSize != 0)
    ensures Sized(Put(q, x, pos)) && Put(q, x, pos).length == q.length && Put(q, x, pos).itemSize == q.itemSize
  {
    SendSized(q, x, pos);
  }

  lemma DropCounted(q: Queue)
    requires Sized(q) && q.items != []
    ensures Sized(q.(items := q.items[1..]))
  {}

  /** The queue after one step. */
  lemma QueueCounted(s: System, step: Step)
    requires Counted(s) && Enabled(s, step) && Proper(s.q, step)
    ensures var r := Apply(s, step);
      Sized(r.q) && r.q.length == s.q.length && r.q.itemSize == s.q.itemSize
  {
    hide Sized, WakeMany, WakeOne, Put, Tasks, Enlist, Delist, Int8;
    var r := Apply(s, step);
    match step
    case Try(t, mayBlock) =>
      assert Fits(s, t);
      match PcOf(s, t).call {
        case Sending(x, pos) =>
          if HasRoom(s.q, pos) { PutCounted(s.q, x, pos); SameShape(Put(s.q, x, pos), r.q); }
        case Receiving =>
          if s.q.items != [] { DropCounted(s.q); SameShape(s.q.(items := s.q.items[1..]), r.q); }
        case Peeking => SameShape(s.q, r.q);
      }
    case IsrSend(x, pos) =>
      PutCounted(s.q, x, pos);
      SameShape(Put(s.q, x, pos), r.q);
    case IsrReceive =>
      DropCounted(s.q);
      SameShape(s.q.(items := s.q.items[1..]), r.q);
    case _ => SameShape(s.q, r.q);
  }

  lemma CallKept(s: System, step: Step, t: int)
    requires Enabled(s, step)
    ensures var r := Apply(s, step);
      PcOf(r, t) == Idle || step.Begin? || (PcOf(s, t) != Idle && PcOf(r, t).call == PcOf(s, t).call)
  {
    hide WakeMany, WakeOne, Put, Tasks, Enlist, Delist, Int8, HasRoom;
  }

  lemma StepCounted(s: System, step: Step)
    requires Counted(s) && Enabled(s, step) && Proper(s.q, step)
    ensures Counted(Apply(s, step))
  {
    hide Sized;
    QueueCounted(s, step);
    var r := Apply(s, step);
    hide Apply;
    forall t ensures Fits(r, t) {
      assert Fits(s, t);
      CallKept(s, step, t);
    }
  }

  /** Over every run: the items never outnumber the length, and each has the item size. */
  lemma {:induction false} RunCounted(s: System, steps: seq<Step>)
    requires Counted(s) && IsRun(s, steps) && forall k :: 0 <= k < |steps| ==> Proper(s.q, steps[k])
    ensures Counted(Run(s, steps)) && |Run(s, steps).q.items| <= s.q.length
    decreases |steps|
  {
    hide Apply, Enabled, Fits, Uncrowded;
    if steps != [] {
      StepCounted(s, steps[0]);
      QueueCounted(s, steps[0]);
      var r := Apply(s, steps[0]);
      forall k | 0 <= k < |steps| - 1 ensures Proper(r.q, steps[1..][k]) { assert Proper(s.q, steps[k + 1]); }
      RunCounted(r, steps[1..]);
    }
  }
}

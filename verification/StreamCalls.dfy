/** Whole calls on a stream buffer: how many bytes a send or a receive moves, whatever the other side does
    between its accesses. */
module StreamCalls {
  import opened RingStorage
  import opened StreamRing
  import opened StreamProtocol

  predicate WriterStep(step: Step) {
    step.WStart? || step.WReadHead? || step.WAgain? || step.WBegin? || step.WByte? || step.WPublish?
  }

  /** The writer begins no other call, and does not wait and look again. */
  ghost predicate OneSend(steps: seq<Step>) {
    forall k :: 0 <= k < |steps| ==> !steps[k].WStart? && !steps[k].WAgain?
  }

  ghost predicate OneReceive(steps: seq<Step>) {
    forall k :: 0 <= k < |steps| ==> !steps[k].RStart? && !steps[k].RAgain?
  }

  function Writes(steps: seq<Step>): nat {
    if steps == [] then 0 else (if WriterStep(steps[0]) then 1 else 0) + Writes(steps[1..])
  }

  function Reads(steps: seq<Step>): nat {
    if steps == [] then 0 else (if WriterStep(steps[0]) then 0 else 1) + Reads(steps[1..])
  }

  // --------------------------------------------------------------------------------------------- sending

  /** A send that has read the tail: the indices it goes by, and the free space when it read the tail. */
  datatype SendCall = SendCall(data: Bytes, tail: nat, seen: nat, head: nat, length: nat, space: nat, base: Bytes) {
    function Count(): nat { Min(|data|, space) }

    /** The head is read, the copy begun, each byte copied, and the head moved. */
    function Accesses(): nat { if Count() == 0 then 2 else Count() + 3 }
  }

  /** Where the send stands after k of its accesses. */
  ghost predicate SendAt(c: SendCall, s: Stream, k: nat) {
    && |s.buf| == c.length && k <= c.Accesses()
    && if k == c.Accesses() then s.writer == WIdle && s.accepted == c.base + c.data[..c.Count()]
       else
         && s.accepted == c.base && s.head == c.head
         && if k == 0 then s.writer == WTailRead(c.data, c.tail, c.seen)
            else if k == 1 then s.writer == WSpace(c.data, c.space)
            else s.writer == WCopy(c.data[..c.Count()], k - 2)
  }

  lemma SendGoesOn(c: SendCall, s: Stream, step: Step, k: nat)
    requires Inv(s) && Enabled(s, step) && SendAt(c, s, k) && !step.WStart? && !step.WAgain?
    requires c.head < c.length && c.space == Spaces(c.length, c.tail, c.head)
    ensures SendAt(c, Apply(s, step), if WriterStep(step) then k + 1 else k)
  {
    hide Inv, Spaces;
    StepKeeps(s, step);
    if step.WBegin? && c.Count() == 0 { assert c.base + c.data[..0] == c.base; }
  }

  lemma {:induction false} SendRun(c: SendCall, s: Stream, steps: seq<Step>, k: nat)
    requires Inv(s) && IsRun(s, steps) && OneSend(steps) && SendAt(c, s, k)
    requires c.head < c.length && c.space == Spaces(c.length, c.tail, c.head)
    ensures SendAt(c, Run(s, steps), k + Writes(steps))
    decreases |steps|
  {
    hide Inv, Apply, Enabled, SendAt, Spaces;
    if steps != [] {
      StepKeeps(s, steps[0]);
      SendGoesOn(c, s, steps[0], k);
      SendRun(c, Apply(s, steps[0]), steps[1..], if WriterStep(steps[0]) then k + 1 else k);
    }
  }

  /** A send accepts as many of its bytes, the first ones, as there was room for when it last read the
      tail, at its start or after waiting, whatever the reader does meanwhile: it is over after its
      accesses to the head and those bytes, and has accepted nothing before. */
  lemma SendMoves(s: Stream, start: Step, steps: seq<Step>)
    requires Inv(s) && Enabled(s, start) && (start.WStart? || start.WAgain?)
    requires Inv(Apply(s, start)) && IsRun(Apply(s, start), steps) && OneSend(steps)
    ensures |s.delivered| <= |s.accepted| && |Pending(s)| < |s.buf|
    ensures var r, data := Run(Apply(s, start), steps), if start.WStart? then start.data else s.writer.data;
      var n := Min(|data|, |s.buf| - 1 - |Pending(s)|);
      var total := if n == 0 then 2 else n + 3;
      && Writes(steps) <= total
      && (r.writer == WIdle <==> Writes(steps) == total)
      && r.accepted == s.accepted + (if r.writer == WIdle then data[..n] else [])
  {
    hide Run, IsRun, Ring;
    SpacesExact(|s.buf|, s.tail, |Pending(s)|);
    var data := if start.WStart? then start.data else s.writer.data;
    var c := SendCall(data, s.tail, |s.delivered|, s.head, |s.buf|, |s.buf| - 1 - |Pending(s)|, s.accepted);
    SendRun(c, Apply(s, start), steps, 0);
    assert s.accepted + [] == s.accepted;
  }

  // ------------------------------------------------------------------------------------------- receiving

  /** A receive that has read the head, and the bytes that were pending when it read it. */
  datatype ReceiveCall = ReceiveCall(
    max: nat, head: nat, seen: nat, tail: nat, length: nat, pending: Bytes, base: Bytes)
  {
    function Count(): nat { Min(|pending|, max) }
    function Accesses(): nat { if Count() == 0 then 2 else Count() + 3 }
  }

  ghost predicate ReceiveAt(c: ReceiveCall, s: Stream, k: nat) {
    && |s.buf| == c.length && k <= c.Accesses()
    && if k == c.Accesses() then s.reader == RIdle && s.delivered == c.base + c.pending[..c.Count()]
       else
         && s.delivered == c.base && s.tail == c.tail && c.base + c.pending <= s.accepted
         && if k == 0 then s.reader == RHeadRead(c.max, c.head, c.seen)
            else if k == 1 then s.reader == RCount(c.max, |c.pending|)
            else s.reader == RCopy(c.Count(), c.pending[..k - 2])
  }

  lemma ReceiveGoesOn(c: ReceiveCall, s: Stream, step: Step, k: nat)
    requires Inv(s) && Enabled(s, step) && ReceiveAt(c, s, k) && !step.RStart? && !step.RAgain?
    requires c.tail < c.length && |c.pending| == Count(c.length, c.head, c.tail)
    ensures ReceiveAt(c, Apply(s, step), if WriterStep(step) then k else k + 1)
  {
    hide Count, Ring;
    StepKeeps(s, step);
    match step
    case RBegin => if c.Count() == 0 { assert c.base + c.pending[..0] == c.base; }
    case RByte => NextByte(c, s, k);
    case _ =>
  }

  /** The byte that the receive copies next is the next of those that were pending. */
  lemma NextByte(c: ReceiveCall, s: Stream, k: nat)
    requires Inv(s) && Enabled(s, RByte) && ReceiveAt(c, s, k)
    ensures 2 <= k && k - 2 < |c.pending| && Apply(s, RByte).reader == RCopy(c.Count(), c.pending[..k - 1])
  {
    hide Ring;
    var g := |s.reader.got|;
    HoldsAt(s.buf, s.tail, s.head, Pending(s), Staged(s), g);
    assert s.accepted[|c.base| + g] == (c.base + c.pending)[|c.base| + g];
    assert c.pending[..g] + [c.pending[g]] == c.pending[..g + 1];
  }

  lemma {:induction false} ReceiveRun(c: ReceiveCall, s: Stream, steps: seq<Step>, k: nat)
    requires Inv(s) && IsRun(s, steps) && OneReceive(steps) && ReceiveAt(c, s, k)
    requires c.tail < c.length && |c.pending| == Count(c.length, c.head, c.tail)
    ensures ReceiveAt(c, Run(s, steps), k + Reads(steps))
    decreases |steps|
  {
    hide Inv, Apply, Enabled, ReceiveAt, Count;
    if steps != [] {
      StepKeeps(s, steps[0]);
      ReceiveGoesOn(c, s, steps[0], k);
      ReceiveRun(c, Apply(s, steps[0]), steps[1..], if WriterStep(steps[0]) then k else k + 1);
    }
  }

  /** A receive delivers as many bytes as it may of those pending when it last read the head, the oldest
      first, and none before it is over, whatever the writer does meanwhile. */
  lemma ReceiveMoves(s: Stream, start: Step, steps: seq<Step>)
    requires Inv(s) && Enabled(s, start) && (start.RStart? || start.RAgain?)
    requires Inv(Apply(s, start)) && IsRun(Apply(s, start), steps) && OneReceive(steps)
    ensures |s.delivered| <= |s.accepted|
    ensures var r, max := Run(Apply(s, start), steps), if start.RStart? then start.max else s.reader.max;
      var n := Min(|Pending(s)|, max);
      var total := if n == 0 then 2 else n + 3;
      && Reads(steps) <= total
      && (r.reader == RIdle <==> Reads(steps) == total)
      && r.delivered == s.delivered + (if r.reader == RIdle then Pending(s)[..n] else [])
  {
    hide Run, IsRun, Ring;
    SpacesExact(|s.buf|, s.tail, |Pending(s)|);
    var max := if start.RStart? then start.max else s.reader.max;
    var c := ReceiveCall(max, s.head, |s.accepted|, s.tail, |s.buf|, Pending(s), s.delivered);
    assert c.base + c.pending == s.accepted;
    ReceiveRun(c, Apply(s, start), steps, 0);
    assert s.delivered + [] == s.delivered;
  }
}

/** One writer and one reader of a stream buffer, interleaved at every read and write of the head
    and tail indices and at every byte copied. */
module StreamProtocol {
  import opened RingStorage
  import opened StreamRing

  /** The writer inside xStreamBufferSend.  `seen` is how many bytes had been delivered when the
      writer read the tail: the ghost age of that reading. */
  datatype Writer =
    | WIdle
    | WTailRead(data: Bytes, tail: nat, seen: nat)
    | WSpace(data: Bytes, space: nat)             // xSpace computed; may grow stale from here on
    | WCopy(data: Bytes, done: nat)               // the bytes that will be written, and how many are

  /** The reader inside xStreamBufferReceive. */
  datatype Reader =
    | RIdle
    | RHeadRead(max: nat, head: nat, seen: nat)   // `seen`: bytes accepted when the head was read
    | RCount(max: nat, count: nat)
    | RCopy(n: nat, got: Bytes)

  datatype Stream = Stream(
    buf: Bytes, head: nat, tail: nat,
    writer: Writer, reader: Reader,
    accepted: Bytes,                              // everything published by the writer
    delivered: Bytes)                             // everything returned to the reader

  /** WAgain and RAgain: the call waited, was woken or timed out, and reads the indices afresh. */
  datatype Step =
    | WStart(data: Bytes)
    | WReadHead
    | WAgain
    | WBegin
    | WByte
    | WPublish
    | RStart(max: nat)
    | RReadTail
    | RAgain
    | RBegin
    | RByte
    | RPublish

  function Min(a: nat, b: nat): nat { if a < b then a else b }

  ghost predicate Enabled(s: Stream, step: Step) {
    match step
    case WStart(_) => s.writer == WIdle
    case WReadHead => s.writer.WTailRead?
    case WAgain => s.writer.WSpace?
    case WBegin => s.writer.WSpace?
    case WByte => s.writer.WCopy? && s.writer.done < |s.writer.data|
    case WPublish => s.writer.WCopy? && s.writer.done == |s.writer.data|
    case RStart(_) => s.reader == RIdle
    case RReadTail => s.reader.RHeadRead?
    case RAgain => s.reader.RCount?
    case RBegin => s.reader.RCount?
    case RByte => s.reader.RCopy? && |s.reader.got| < s.reader.n
    case RPublish => s.reader.RCopy? && |s.reader.got| == s.reader.n
  }

  /** xStreamBufferSpacesAvailable and prvBytesInBuffer, from the index values actually read. */
  function Spaces(length: nat, tail: nat, head: nat): nat
    requires head < length
  {
    var x := length + tail - head - 1;
    if x >= length then x - length else x
  }

  function Count(length: nat, head: nat, tail: nat): nat
    requires tail < length
  {
    var x := length + head - tail;
    if x >= length then x - length else x
  }

  /** Indices and copy lengths stay inside the storage area. */
  ghost predicate InRange(s: Stream) {
    && s.head < |s.buf| && s.tail < |s.buf|
    && (s.writer.WTailRead? ==> s.writer.tail < |s.buf|)
    && (s.writer.WCopy? ==> s.writer.done <= |s.writer.data| < |s.buf|)
    && (s.reader.RHeadRead? ==> s.reader.head < |s.buf|)
    && (s.reader.RCopy? ==> |s.reader.got| <= s.reader.n < |s.buf|)
  }

  ghost function Apply(s: Stream, step: Step): Stream
    requires InRange(s) && Enabled(s, step)
  {
    var length := |s.buf|;
    match step
    case WStart(data) => s.(writer := WTailRead(data, s.tail, |s.delivered|))
    case WReadHead => s.(writer := WSpace(s.writer.data, Spaces(length, s.writer.tail, s.head)))
    case WAgain => s.(writer := WTailRead(s.writer.data, s.tail, |s.delivered|))
    case WBegin =>
      var n := Min(|s.writer.data|, s.writer.space);
      s.(writer := if n == 0 then WIdle else WCopy(s.writer.data[..n], 0))
    case WByte =>
      s.(buf := s.buf[Wrap(s.head + s.writer.done, length) := s.writer.data[s.writer.done]],
         writer := s.writer.(done := s.writer.done + 1))
    case WPublish =>
      s.(head := Wrap(s.head + |s.writer.data|, length), accepted := s.accepted + s.writer.data, writer := WIdle)
    case RStart(max) => s.(reader := RHeadRead(max, s.head, |s.accepted|))
    case RReadTail => s.(reader := RCount(s.reader.max, Count(length, s.reader.head, s.tail)))
    case RAgain => s.(reader := RHeadRead(s.reader.max, s.head, |s.accepted|))
    case RBegin =>
      var n := Min(s.reader.count, s.reader.max);
      s.(reader := if n == 0 then RIdle else RCopy(n, []))
    case RByte =>
      s.(reader := s.reader.(got := s.reader.got + [s.buf[Wrap(s.tail + |s.reader.got|, length)]]))
    case RPublish =>
      s.(tail := Wrap(s.tail + s.reader.n, length), delivered := s.delivered + s.reader.got, reader := RIdle)
  }

  // ------------------------------------------------------------------- the invariant

  /** The bytes accepted and not yet delivered. */
  ghost function Pending(s: Stream): (p: Bytes)
    requires |s.delivered| <= |s.accepted|
    ensures |p| == |s.accepted| - |s.delivered|
  {
    s.accepted[|s.delivered|..]
  }

  /** The bytes the writer has copied beyond the head and not yet published. */
  ghost function Staged(s: Stream): Bytes
    requires InRange(s)
  {
    if s.writer.WCopy? then s.writer.data[..s.writer.done] else []
  }

  /** The storage from the tail on holds the pending bytes and then the staged ones. */
  ghost predicate Stored(buf: Bytes, tail: nat, head: nat, pending: Bytes, staged: Bytes)
  {
    && tail < |buf| && |pending| + |staged| < |buf|
    && head == Wrap(tail + |pending|, |buf|)
    && Ring(buf, tail, |pending| + |staged|) == pending + staged
  }

  ghost predicate Faithful(s: Stream)
    requires InRange(s)
  {
    s.delivered <= s.accepted && Stored(s.buf, s.tail, s.head, Pending(s), Staged(s))
  }

  /** A stale tail or a stale space count is safe: the reader can only have freed more since. */
  ghost predicate WriterSafe(s: Stream)
    requires |s.delivered| <= |s.accepted|
  {
    match s.writer
    case WIdle => true
    case WTailRead(_, tail, seen) =>
      && seen <= |s.delivered| && |s.accepted| - seen < |s.buf|
      && s.tail == Wrap(tail + (|s.delivered| - seen), |s.buf|)
    case WSpace(_, space) => space + |Pending(s)| < |s.buf|
    case WCopy(data, done) => 0 < |data| && |Pending(s)| + |data| < |s.buf|
  }

  /** Likewise a stale head or a stale byte count: the writer can only have added more since. */
  ghost predicate ReaderSafe(s: Stream)
    requires |s.delivered| <= |s.accepted|
  {
    match s.reader
    case RIdle => true
    case RHeadRead(_, head, seen) =>
      |s.delivered| <= seen <= |s.accepted| && head == Wrap(s.tail + (seen - |s.delivered|), |s.buf|)
    case RCount(_, count) => count <= |Pending(s)|
    case RCopy(n, got) => 0 < n <= |Pending(s)| && got <= Pending(s)
  }

  ghost predicate Inv(s: Stream) {
    InRange(s) && Faithful(s) && WriterSafe(s) && ReaderSafe(s)
  }

  lemma SpacesExact(length: nat, tail: nat, n: nat)
    requires tail < length && n < length
    ensures Wrap(tail + n, length) < length
    ensures Spaces(length, tail, Wrap(tail + n, length)) == length - 1 - n
    ensures Count(length, Wrap(tail + n, length), tail) == n
  {}

  /** Read in one state, occupied plus free is always the length minus one. */
  lemma Conservation(s: Stream)
    requires Inv(s)
    ensures Spaces(|s.buf|, s.tail, s.head) + Count(|s.buf|, s.head, s.tail) == |s.buf| - 1
    ensures Count(|s.buf|, s.head, s.tail) == |Pending(s)|
  {
    SpacesExact(|s.buf|, s.tail, |Pending(s)|);
  }

  // ------------------------------------------------------------- what each step does to the ring

  lemma StoreByte(buf: Bytes, tail: nat, count: nat, b: Byte)
    requires tail < |buf| && count < |buf|
    ensures var at := Wrap(tail + count, |buf|);
      at < |buf| && Ring(buf[at := b], tail, count + 1) == Ring(buf, tail, count) + [b]
  {
    var at := Wrap(tail + count, |buf|);
    var r, s := Ring(buf[at := b], tail, count + 1), Ring(buf, tail, count) + [b];
    assert r[count] == s[count];
    forall k | 0 <= k < count ensures r[k] == s[k] {
      assert Wrap(tail + k, |buf|) != at;
    }
  }

  lemma StagesByte(buf: Bytes, tail: nat, head: nat, pending: Bytes, staged: Bytes, b: Byte)
    requires Stored(buf, tail, head, pending, staged) && |pending| + |staged| + 1 < |buf|
    ensures Wrap(head + |staged|, |buf|) < |buf|
    ensures Stored(buf[Wrap(head + |staged|, |buf|) := b], tail, head, pending, staged + [b])
  {
    hide Ring;
    WrapWrap(|buf|, tail, |pending|, |staged|);
    StoreByte(buf, tail, |pending| + |staged|, b);
    assert pending + (staged + [b]) == (pending + staged) + [b];
  }

  lemma PublishesStaged(buf: Bytes, tail: nat, head: nat, pending: Bytes, staged: Bytes)
    requires Stored(buf, tail, head, pending, staged)
    ensures Stored(buf, tail, Wrap(head + |staged|, |buf|), pending + staged, [])
  {
    hide Ring;
    WrapWrap(|buf|, tail, |pending|, |staged|);
    assert pending + staged + [] == pending + staged;
  }

  lemma DeliversFirst(buf: Bytes, tail: nat, head: nat, pending: Bytes, staged: Bytes, n: nat)
    requires Stored(buf, tail, head, pending, staged) && n <= |pending|
    ensures Stored(buf, Wrap(tail + n, |buf|), head, pending[n..], staged)
  {
    hide Ring;
    WrapWrap(|buf|, tail, n, |pending| - n);
    ReadTakes(buf, tail, |pending| + |staged|, n);
    assert (pending + staged)[n..] == pending[n..] + staged;
  }

  lemma HoldsAt(buf: Bytes, tail: nat, head: nat, pending: Bytes, staged: Bytes, k: nat)
    requires Stored(buf, tail, head, pending, staged) && k < |pending|
    ensures Wrap(tail + k, |buf|) < |buf| && buf[Wrap(tail + k, |buf|)] == pending[k]
  {
    assert Ring(buf, tail, |pending| + |staged|)[k] == pending[k];
  }

  // ----------------------------------------------------------------- each step keeps the invariant

  lemma WriterReads(s: Stream, step: Step)
    requires Inv(s) && Enabled(s, step) && (step.WStart? || step.WReadHead? || step.WAgain? || step.WBegin?)
    ensures Inv(Apply(s, step))
  {
    hide Ring;
    if step.WReadHead? {
      var tail, d := s.writer.tail, |s.delivered| - s.writer.seen;
      WrapWrap(|s.buf|, tail, d, |Pending(s)|);
      SpacesExact(|s.buf|, tail, d + |Pending(s)|);
    }
  }

  lemma WriteByte(s: Stream)
    requires Inv(s) && Enabled(s, WByte)
    ensures Inv(Apply(s, WByte)) && |Apply(s, WByte).buf| == |s.buf|
  {
    hide Stored;
    var b := s.writer.data[s.writer.done];
    StagesByte(s.buf, s.tail, s.head, Pending(s), Staged(s), b);
    var r := Apply(s, WByte);
    assert Staged(r) == Staged(s) + [b];
  }

  lemma Publish(s: Stream)
    requires Inv(s) && Enabled(s, WPublish)
    ensures Inv(Apply(s, WPublish))
  {
    hide Ring;
    PublishesStaged(s.buf, s.tail, s.head, Pending(s), Staged(s));
    var r := Apply(s, WPublish);
    assert Staged(s) == s.writer.data;
    assert Pending(r) == Pending(s) + s.writer.data;
  }

  lemma ReaderReads(s: Stream, step: Step)
    requires Inv(s) && Enabled(s, step) && (step.RStart? || step.RReadTail? || step.RAgain? || step.RBegin?)
    ensures Inv(Apply(s, step))
  {
    hide Ring;
    if step.RReadTail? { SpacesExact(|s.buf|, s.tail, s.reader.seen - |s.delivered|); }
  }

  lemma ReadByte(s: Stream)
    requires Inv(s) && Enabled(s, RByte)
    ensures Inv(Apply(s, RByte))
  {
    hide Ring;
    var g := |s.reader.got|;
    HoldsAt(s.buf, s.tail, s.head, Pending(s), Staged(s), g);
    assert s.reader.got + [Pending(s)[g]] == Pending(s)[..g + 1];
  }

  lemma Deliver(s: Stream)
    requires Inv(s) && Enabled(s, RPublish)
    ensures Inv(Apply(s, RPublish))
  {
    hide Ring, Stored;
    var n, length := s.reader.n, |s.buf|;
    DeliversFirst(s.buf, s.tail, s.head, Pending(s), Staged(s), n);
    var r := Apply(s, RPublish);
    assert s.reader.got == Pending(s)[..n];
    assert r.delivered <= r.accepted && Pending(r) == Pending(s)[n..];
    if s.writer.WTailRead? {
      WrapWrap(length, s.writer.tail, |s.delivered| - s.writer.seen, n);
    }
  }

  lemma StepKeeps(s: Stream, step: Step)
    requires Inv(s) && Enabled(s, step)
    ensures InRange(s) && Inv(Apply(s, step)) && |Apply(s, step).buf| == |s.buf|
  {
    hide Stored, WriterSafe, ReaderSafe;
    match step
    case WStart(_) => WriterReads(s, step);
    case WReadHead => WriterReads(s, step);
    case WAgain => WriterReads(s, step);
    case WBegin => WriterReads(s, step);
    case WByte => WriteByte(s);
    case WPublish => Publish(s);
    case RStart(_) => ReaderReads(s, step);
    case RReadTail => ReaderReads(s, step);
    case RAgain => ReaderReads(s, step);
    case RBegin => ReaderReads(s, step);
    case RByte => ReadByte(s);
    case RPublish => Deliver(s);
  }

  // ----------------------------------------------------------------------- whole runs

  ghost predicate Initial(s: Stream) {
    && 0 < |s.buf| && s.head == 0 && s.tail == 0
    && s.writer == WIdle && s.reader == RIdle && s.accepted == [] && s.delivered == []
  }

  lemma InitialInv(s: Stream)
    requires Initial(s)
    ensures Inv(s)
  {}

  ghost predicate IsRun(s: Stream, steps: seq<Step>)
    requires Inv(s)
    decreases |steps|
  {
    steps == [] || (Enabled(s, steps[0]) && (StepKeeps(s, steps[0]); IsRun(Apply(s, steps[0]), steps[1..])))
  }

  ghost function Run(s: Stream, steps: seq<Step>): Stream
    requires Inv(s) && IsRun(s, steps)
    decreases |steps|
  {
    if steps == [] then s else StepKeeps(s, steps[0]); Run(Apply(s, steps[0]), steps[1..])
  }

  lemma {:induction false} RunKeeps(s: Stream, steps: seq<Step>)
    requires Inv(s) && IsRun(s, steps)
    ensures Inv(Run(s, steps)) && |Run(s, steps).buf| == |s.buf|
    decreases |steps|
  {
    hide Inv, Apply, Enabled;
    if steps != [] {
      StepKeeps(s, steps[0]);
      RunKeeps(Apply(s, steps[0]), steps[1..]);
    }
  }

  /** Whatever the interleaving and however stale the counts: the indices stay in range, the bytes
      delivered are always a prefix of the bytes accepted, and the storage holds exactly the rest. */
  lemma DeliveredIsPrefix(s: Stream, steps: seq<Step>)
    requires Initial(s)
    ensures Inv(s)
    ensures IsRun(s, steps) ==> var r := Run(s, steps);
      && r.delivered <= r.accepted && r.head < |r.buf| && r.tail < |r.buf|
      && Count(|r.buf|, r.head, r.tail) < |s.buf|
      && Ring(r.buf, r.tail, Count(|r.buf|, r.head, r.tail)) == r.accepted[|r.delivered|..]
  {
    hide Apply, Enabled, Run, IsRun, Ring, Count;
    InitialInv(s);
    if IsRun(s, steps) {
      RunKeeps(s, steps);
      var r := Run(s, steps);
      Conservation(r);
      ReadTakesAll(r);
    }
  }

  lemma ReadTakesAll(s: Stream)
    requires Inv(s)
    ensures |Pending(s)| < |s.buf| && Ring(s.buf, s.tail, |Pending(s)|) == Pending(s)
  {
    var m := |Pending(s)|;
    assert Ring(s.buf, s.tail, m) == Ring(s.buf, s.tail, m + |Staged(s)|)[..m];
  }
}

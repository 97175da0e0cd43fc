/** Message framing: each message is preceded by its length, stored as the bytes of a size_t. */
module StreamFraming {
  import opened MachineWord
  import opened StreamRing

  const LENGTH_BYTES := 4            // sbBYTES_TO_STORE_MESSAGE_LENGTH

  function EncodeLength(n: nat): Bytes
    requires n < WORD_LIMIT
  {
    [n % 0x100, n / 0x100 % 0x100, n / 0x100 / 0x100 % 0x100, n / 0x100 / 0x100 / 0x100]
  }

  function DecodeLength(b: Bytes): nat
    requires |b| == LENGTH_BYTES
  {
    var b0: int, b1: int, b2: int, b3: int := b[0], b[1], b[2], b[3];
    b0 + 0x100 * (b1 + 0x100 * (b2 + 0x100 * b3))
  }

  lemma Digit(n: nat)
    ensures n == n % 0x100 + 0x100 * (n / 0x100)
  {}

  lemma LengthRoundTrip(n: nat)
    requires n < WORD_LIMIT
    ensures |EncodeLength(n)| == LENGTH_BYTES && DecodeLength(EncodeLength(n)) == n
  {
    Digit(n);
    Digit(n / 0x100);
    Digit(n / 0x100 / 0x100);
  }

  function Frame(m: Bytes): Bytes
    requires |m| < WORD_LIMIT
  {
    EncodeLength(|m|) + m
  }

  ghost predicate Sendable(ms: seq<Bytes>) {
    forall k :: 0 <= k < |ms| ==> 0 < |ms[k]| < WORD_LIMIT
  }

  function Frames(ms: seq<Bytes>): Bytes
    requires forall k :: 0 <= k < |ms| ==> |ms[k]| < WORD_LIMIT
  {
    if ms == [] then [] else Frame(ms[0]) + Frames(ms[1..])
  }

  lemma {:induction false} FramesSnoc(ms: seq<Bytes>, m: Bytes)
    requires Sendable(ms) && 0 < |m| < WORD_LIMIT
    ensures Sendable(ms + [m]) && Frames(ms + [m]) == Frames(ms) + Frame(m)
    decreases ms
  {
    hide Frame;
    if ms == [] {
      assert Frames([m]) == Frame(m) + Frames([]) by { assert [m][1..] == []; }
      assert ms + [m] == [m];
    } else {
      FramesSnoc(ms[1..], m);
      assert (ms + [m])[1..] == ms[1..] + [m];
    }
  }

  /** xRequiredSpace: message and length bytes, added in a size_t. */
  function RequiredSpace(n: nat): nat { Add32(n, LENGTH_BYTES) }

  /** What a send comes to: the bytes held afterwards and the count returned, or a failed assertion
      in prvWriteBytesToBuffer, after which nothing is promised. */
  datatype Outcome = Sent(held: Bytes, count: nat) | Asserted

  /** A send to a message buffer that can hold `capacity` bytes.  The guard compares the free space
      with the wrapped sum; the copy asserts that there is something to copy and that it fits. */
  function SendMessage(held: Bytes, capacity: nat, m: Bytes): Outcome
    requires |m| < WORD_LIMIT
  {
    var space := capacity - |held|;
    if space <= 0 || space < RequiredSpace(|m|) then Sent(held, 0)
    else if m == [] || |m| + LENGTH_BYTES >= WORD_LIMIT then Asserted
    else Sent(held + Frame(m), |m|)
  }

  /** What a send is for: the whole frame when it fits, otherwise nothing. */
  function AllOrNothing(held: Bytes, capacity: nat, m: Bytes): Outcome
    requires |m| < WORD_LIMIT
  {
    if |held| + |m| + LENGTH_BYTES <= capacity then Sent(held + Frame(m), |m|) else Sent(held, 0)
  }

  /** The guard decides "the frame fits" exactly when the sum of the lengths does not wrap, or when
      the wrapped sum is refused anyway. */
  lemma GuardExact(held: Bytes, capacity: nat, m: Bytes)
    requires |held| <= capacity < WORD_LIMIT && |m| < WORD_LIMIT
    ensures var space := capacity - |held|;
      ((0 < space && RequiredSpace(|m|) <= space) <==> |Frame(m)| <= space)
      <==> |m| + LENGTH_BYTES < WORD_LIMIT || space < RequiredSpace(|m|) || space == 0
  {
    RequiredSpaceIs(|m|);
    LengthRoundTrip(|m|);
  }

  lemma RequiredSpaceIs(n: nat)
    requires n < WORD_LIMIT
    ensures RequiredSpace(n) ==
      if n + LENGTH_BYTES < WORD_LIMIT then n + LENGTH_BYTES else n + LENGTH_BYTES - WORD_LIMIT
  {}

  /** A send is all or nothing if and only if the message is not empty and its frame length does not
      wrap, or the guard refuses it. */
  lemma SendExact(held: Bytes, capacity: nat, m: Bytes)
    requires |held| <= capacity < WORD_LIMIT && |m| < WORD_LIMIT
    ensures (SendMessage(held, capacity, m) == AllOrNothing(held, capacity, m)) <==>
      ((0 < |m| && |m| + LENGTH_BYTES < WORD_LIMIT) || capacity - |held| < RequiredSpace(|m|) || |held| == capacity)
  {
    hide Frame, RequiredSpace;
    RequiredSpaceIs(|m|);
  }

  /** The failing length: 2^32 - 3 bytes pass the guard with a single byte free. */
  lemma WrappedLengthPasses(held: Bytes, capacity: nat, m: Bytes)
    requires |held| + 1 == capacity < WORD_LIMIT && |m| == WORD_LIMIT - 3
    ensures RequiredSpace(|m|) == 1 && SendMessage(held, capacity, m) == Asserted
    ensures AllOrNothing(held, capacity, m) == Sent(held, 0)
  {}

  /** A receive into a buffer of `room` bytes.  A stored length beyond what is held is cut short. */
  function ReceiveMessage(held: Bytes, room: nat): (Bytes, Bytes) {
    if |held| <= LENGTH_BYTES then (held, [])
    else
      var n := DecodeLength(held[..LENGTH_BYTES]);
      if n > room then (held, [])
      else
        var rest := held[LENGTH_BYTES..];
        var k := if n < |rest| then n else |rest|;
        (rest[k..], rest[..k])
  }

  lemma FirstFrame(ms: seq<Bytes>)
    requires ms != [] && Sendable(ms)
    ensures var held := Frames(ms);
      && LENGTH_BYTES < |held| && DecodeLength(held[..LENGTH_BYTES]) == |ms[0]|
      && held[LENGTH_BYTES..] == ms[0] + Frames(ms[1..])
  {
    hide EncodeLength, DecodeLength;
    LengthRoundTrip(|ms[0]|);
    Peel(EncodeLength(|ms[0]|), ms[0], Frames(ms[1..]));
  }

  lemma Peel(a: Bytes, b: Bytes, c: Bytes)
    requires |a| == LENGTH_BYTES
    ensures (a + b + c)[..LENGTH_BYTES] == a && (a + b + c)[LENGTH_BYTES..] == b + c
  {}

  /** Receiving from a buffer that holds whole messages yields the oldest, whole; or, when the
      caller's buffer is too small for it, nothing, leaving the buffer as it was. */
  lemma ReceiveFirst(ms: seq<Bytes>, room: nat)
    requires Sendable(ms)
    ensures ReceiveMessage(Frames(ms), room) ==
      if ms == [] || |ms[0]| > room then (Frames(ms), []) else (Frames(ms[1..]), ms[0])
  {
    hide DecodeLength, Frame;
    if ms != [] {
      FirstFrame(ms);
      var rest := Frames(ms)[LENGTH_BYTES..];
      assert rest[..|ms[0]|] == ms[0] && rest[|ms[0]|..] == Frames(ms[1..]);
    }
  }

  // ---------------------------------------------------------------------- whole runs

  datatype Op = Send(m: Bytes) | Receive(room: nat)

  datatype Channel = Channel(held: Bytes, accepted: seq<Bytes>, received: seq<Bytes>)

  /** Not empty, and the length of the frame fits a size_t. */
  ghost predicate Allowed(op: Op) { op.Send? ==> 0 < |op.m| < WORD_LIMIT - LENGTH_BYTES }

  /** A send is accepted, and a receive delivers, when it returns a non-zero count. */
  ghost function Step(c: Channel, capacity: nat, op: Op): Channel
    requires Allowed(op)
  {
    match op
    case Send(m) =>
      match SendMessage(c.held, capacity, m) {
        case Sent(held, n) => Channel(held, if n > 0 then c.accepted + [m] else c.accepted, c.received)
        case Asserted => c
      }
    case Receive(room) =>
      var (held, m) := ReceiveMessage(c.held, room);
      Channel(held, c.accepted, if m != [] then c.received + [m] else c.received)
  }

  ghost function Run(c: Channel, capacity: nat, ops: seq<Op>): Channel
    requires forall k :: 0 <= k < |ops| ==> Allowed(ops[k])
    decreases |ops|
  {
    if ops == [] then c else Run(Step(c, capacity, ops[0]), capacity, ops[1..])
  }

  /** The buffer holds exactly the accepted messages not yet received. */
  ghost predicate InStep(c: Channel) {
    && |c.received| <= |c.accepted| && c.received == c.accepted[..|c.received|]
    && Sendable(c.accepted)
    && c.held == Frames(c.accepted[|c.received|..])
  }

  lemma SendInStep(c: Channel, capacity: nat, m: Bytes)
    requires InStep(c) && Allowed(Send(m))
    ensures var r := Step(c, capacity, Send(m));
      && InStep(r) && r.received == c.received
      && r.accepted == if |c.held| + 4 + |m| <= capacity then c.accepted + [m] else c.accepted
  {
    hide Frame, DecodeLength, Frames;
    RequiredSpaceIs(|m|);
    var pending := c.accepted[|c.received|..];
    FramesSnoc(pending, m);
    assert (c.accepted + [m])[|c.received|..] == pending + [m];
  }

  lemma ReceiveInStep(c: Channel, capacity: nat, room: nat)
    requires InStep(c)
    ensures var r, pending := Step(c, capacity, Receive(room)), c.accepted[|c.received|..];
      && InStep(r) && r.accepted == c.accepted
      && r.received == if pending != [] && |pending[0]| <= room then c.received + [pending[0]] else c.received
  {
    hide Frames, ReceiveMessage;
    var pending := c.accepted[|c.received|..];
    ReceiveFirst(pending, room);
    if pending != [] {
      assert pending[1..] == c.accepted[|c.received| + 1..];
      assert c.accepted[..|c.received| + 1] == c.received + [pending[0]];
    }
  }

  /** A message is accepted exactly when its frame fits, and the oldest one held is received exactly when
      the caller's buffer can hold it; otherwise nothing happens. */
  lemma StepInStep(c: Channel, capacity: nat, op: Op)
    requires InStep(c) && Allowed(op)
    ensures var r, pending := Step(c, capacity, op), c.accepted[|c.received|..];
      && InStep(r)
      && (op.Send? ==>
            && r.received == c.received
            && r.accepted == if |c.held| + 4 + |op.m| <= capacity then c.accepted + [op.m] else c.accepted)
      && (op.Receive? ==>
            && r.accepted == c.accepted
            && r.received == if pending != [] && |pending[0]| <= op.room then c.received + [pending[0]] else c.received)
  {
    hide Frame, Step, InStep;
    match op
    case Send(m) => SendInStep(c, capacity, m);
    case Receive(room) => ReceiveInStep(c, capacity, room);
  }

  /** Round trip: over every run of sends and receives, the received messages are the accepted
      ones, whole and in order. */
  lemma {:induction false} RunInStep(c: Channel, capacity: nat, ops: seq<Op>)
    requires InStep(c) && forall k :: 0 <= k < |ops| ==> Allowed(ops[k])
    ensures InStep(Run(c, capacity, ops))
    decreases |ops|
  {
    hide InStep, Step;
    if ops != [] {
      StepInStep(c, capacity, ops[0]);
      RunInStep(Step(c, capacity, ops[0]), capacity, ops[1..]);
    }
  }

  /** An empty message passes the guard and fails the assertion on an empty copy; its header is then
      already stored, and a receive finds nothing to read behind it. */
  lemma EmptyMessageAsserts(held: Bytes, capacity: nat, room: nat)
    requires |held| <= capacity
    ensures SendMessage(held, capacity, []) == Asserted <==> |held| + LENGTH_BYTES <= capacity
    ensures |EncodeLength(0)| == LENGTH_BYTES && ReceiveMessage(EncodeLength(0), room) == (EncodeLength(0), [])
  {}
}

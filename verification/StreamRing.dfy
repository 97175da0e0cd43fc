/** The byte ring of stream_buffer.c as values: what the buffer holds between tail and head. */
module StreamRing {
  import opened MachineWord
  import opened RingStorage

  type Byte = x: int | 0 <= x < 256
  type Bytes = seq<Byte>

  /** Bytes held when the indices are tail and head; one position always stays unused. */
  function Held(length: nat, tail: nat, head: nat): nat
    requires tail < length && head < length
  {
    if head >= tail then head - tail else length + head - tail
  }

  function Ring(buf: Bytes, tail: nat, count: nat): (r: Bytes)
    requires tail < |buf| && count <= |buf|
    ensures |r| == count
  {
    seq(count, k requires 0 <= k < count => buf[Wrap(tail + k, |buf|)])
  }

  /** The head index is where the held bytes end. */
  lemma HeadAfter(length: nat, tail: nat, head: nat)
    requires tail < length && head < length
    ensures Held(length, tail, head) < length
    ensures head == Wrap(tail + Held(length, tail, head), length)
  {}

  lemma HeldAt(length: nat, tail: nat, count: nat)
    requires tail < length && count < length
    ensures Wrap(tail + count, length) < length
    ensures Held(length, tail, Wrap(tail + count, length)) == count
  {}

  lemma WrapWrap(length: nat, tail: nat, n: nat, k: nat)
    requires tail < length && n + k < length
    ensures Wrap(Wrap(tail + n, length) + k, length) == Wrap(tail + (n + k), length)
  {}

  /** The two copies of prvWriteBytesToBuffer: up to the end of the storage, then from its start. */
  function Written(buf: Bytes, head: nat, data: Bytes): (r: Bytes)
    requires head < |buf| && |data| < |buf|
    ensures |r| == |buf|
  {
    if head + |data| <= |buf| then buf[..head] + data + buf[head + |data|..]
    else data[|buf| - head..] + buf[head + |data| - |buf|..head] + data[..|buf| - head]
  }

  lemma WrittenAt(buf: Bytes, head: nat, data: Bytes, i: nat)
    requires head < |buf| && |data| < |buf| && i < |buf|
    ensures Written(buf, head, data)[i] ==
      if head <= i < head + |data| then data[i - head]
      else if i + |buf| < head + |data| then data[i + |buf| - head]
      else buf[i]
  {}

  /** Writing within the free space appends. */
  lemma WriteAppends(buf: Bytes, tail: nat, count: nat, data: Bytes)
    requires tail < |buf| && count + |data| < |buf|
    ensures var head := Wrap(tail + count, |buf|);
      Ring(Written(buf, head, data), tail, count + |data|) == Ring(buf, tail, count) + data
  {
    hide Written;
    var head := Wrap(tail + count, |buf|);
    var r := Ring(Written(buf, head, data), tail, count + |data|);
    var s := Ring(buf, tail, count) + data;
    forall k | 0 <= k < count + |data| ensures r[k] == s[k] {
      WrittenAt(buf, head, data, Wrap(tail + k, |buf|));
    }
  }

  /** The two copies of prvReadBytesFromBuffer. */
  function ReadOut(buf: Bytes, tail: nat, n: nat): Bytes
    requires tail < |buf| && n <= |buf|
  {
    if tail + n <= |buf| then buf[tail..tail + n] else buf[tail..] + buf[..tail + n - |buf|]
  }

  lemma ReadOutAt(buf: Bytes, tail: nat, n: nat, k: nat)
    requires tail < |buf| && n <= |buf| && k < n
    ensures |ReadOut(buf, tail, n)| == n && ReadOut(buf, tail, n)[k] == buf[Wrap(tail + k, |buf|)]
  {}

  /** Reading takes the oldest bytes and leaves the rest. */
  lemma ReadTakes(buf: Bytes, tail: nat, count: nat, n: nat)
    requires tail < |buf| && n <= count < |buf|
    ensures ReadOut(buf, tail, n) == Ring(buf, tail, count)[..n]
    ensures Ring(buf, Wrap(tail + n, |buf|), count - n) == Ring(buf, tail, count)[n..]
  {
    var r := ReadOut(buf, tail, n);
    var all := Ring(buf, tail, count);
    forall k | 0 <= k < n ensures r[k] == all[k] {
      ReadOutAt(buf, tail, n, k);
    }
    var rest := Ring(buf, Wrap(tail + n, |buf|), count - n);
    forall k | 0 <= k < count - n ensures rest[k] == all[n..][k] {
      WrapWrap(|buf|, tail, n, k);
    }
  }

  // ------------------------------------------------------- index arithmetic in a size_t

  /** xStreamBufferSpacesAvailable on 32-bit words. */
  function Spaces32(length: nat, tail: nat, head: nat): int {
    var x := Sub32(Sub32(Add32(length, tail), head), 1);
    if x >= length then x - length else x
  }

  ghost predicate SpacesRight(length: nat, tail: nat, head: nat)
    requires tail < length && head < length
  {
    Spaces32(length, tail, head) == length - 1 - Held(length, tail, head)
  }

  lemma SpacesRightIs(length: nat, tail: nat, head: nat)
    requires tail < length && head < length && SpacesRight(length, tail, head)
    ensures Spaces32(length, tail, head) + Held(length, tail, head) == length - 1
  {}

  /** The free space is computed correctly for all indices exactly when the length is at most 2^31. */
  lemma SpacesExactIff(length: nat)
    requires 0 < length < WORD_LIMIT
    ensures (forall tail: nat, head: nat :: tail < length && head < length ==> SpacesRight(length, tail, head))
      <==> length <= WORD_LIMIT / 2
  {
    if length <= WORD_LIMIT / 2 {
      forall tail: nat, head: nat | tail < length && head < length ensures SpacesRight(length, tail, head) {
        SpacesInWord(length, tail, head);
      }
    } else {
      var tail: nat, head: nat := length - 1, 0;
      SpacesWrapped(length);
      assert !SpacesRight(length, tail, head);
    }
  }

  lemma SpacesInWord(length: nat, tail: nat, head: nat)
    requires tail < length <= WORD_LIMIT / 2 && head < length
    ensures SpacesRight(length, tail, head)
  {}

  lemma SpacesWrapped(length: nat)
    requires WORD_LIMIT / 2 < length < WORD_LIMIT
    ensures Spaces32(length, length - 1, 0) != length - 1 - Held(length, length - 1, 0)
  {}
}

/** The StreamBuffer_t structure of stream_buffer.c: one byte ring used as a stream or, with length
    prefixes, as a message buffer. */
module StreamBuffer {
  import opened MachineWord
  import opened RingStorage
  import opened StreamRing
  import opened StreamFraming

  const STRUCT_BYTES := 32           // sizeof( StreamBuffer_t ), allocated together with the storage

  class Buffer {
    const pucBuffer: array<Byte>
    const xLength: nat
    const isMessageBuffer: bool
    var xTail: nat
    var xHead: nat

    ghost predicate Valid()
      reads this
    {
      && pucBuffer.Length == xLength && LENGTH_BYTES + 1 < xLength
      && xLength + STRUCT_BYTES < WORD_LIMIT / 2
      && xTail < xLength && xHead < xLength
    }

    /** The bytes held, oldest first. */
    ghost function Contents(): Bytes
      requires Valid()
      reads this, pucBuffer
    {
      Ring(pucBuffer[..], xTail, Held(xLength, xTail, xHead))
    }

    ghost function Capacity(): int { xLength - 1 }

    /** `size` is the user's size; one more byte is allocated than can be held.  pvPortMalloc grants
        no request of 2^31 bytes or more. */
    constructor (size: nat, isMessageBuffer: bool)
      requires LENGTH_BYTES < size && size + 1 + STRUCT_BYTES < WORD_LIMIT / 2
      ensures Valid() && Contents() == [] && Capacity() == size
    {
      xLength := size + 1;
      pucBuffer := new Byte[size + 1](i => 0);
      this.isMessageBuffer := isMessageBuffer;
      xTail, xHead := 0, 0;
    }

    /** xStreamBufferSpacesAvailable. */
    method SpacesAvailable() returns (xSpace: nat)
      requires Valid()
      ensures xSpace + |Contents()| == Capacity()
    {
      hide Ring, Add32, Sub32, SpacesRight;
      SpacesInWord(xLength, xTail, xHead);
      SpacesRightIs(xLength, xTail, xHead);
      xSpace := Add32(xLength, xTail);
      xSpace := Sub32(xSpace, xHead);
      xSpace := Sub32(xSpace, 1);
      if xSpace >= xLength { xSpace := xSpace - xLength; }
    }

    /** prvBytesInBuffer. */
    method BytesInBuffer() returns (xCount: nat)
      requires Valid()
      ensures xCount == |Contents()|
    {
      hide Ring;
      xCount := Add32(xLength, xHead);
      xCount := Sub32(xCount, xTail);
      if xCount >= xLength { xCount := xCount - xLength; }
    }

    /** prvWriteBytesToBuffer.  Its callers pass the four length bytes, at most the free space, or,
        after a wrapped guard, nearly 2^32 bytes.  `ok` is whether its assertions hold. */
    method WriteBytes(data: Bytes) returns (ok: bool, xCount: nat)
      requires Valid() && (|data| < xLength || WORD_LIMIT - LENGTH_BYTES <= |data|)
      modifies this`xHead, pucBuffer
      ensures Valid() && (ok <==> 0 < |data| < xLength) && xCount == (if ok then |data| else 0)
      ensures ok ==>
        && pucBuffer[..] == Written(old(pucBuffer[..]), old(xHead), data)
        && xHead == Wrap(old(xHead) + |data|, xLength)
      ensures ok && old(|Contents()|) + |data| <= Capacity() ==> Contents() == old(Contents()) + data
      ensures data == [] ==> Contents() == old(Contents())
    {
      hide Ring, Written;
      ghost var was, held := pucBuffer[..], Held(xLength, xTail, xHead);
      if data == [] { return false, 0; }
      xCount := |data|;
      var xNextHead := xHead;
      var xFirstLength := if xLength - xNextHead < xCount then xLength - xNextHead else xCount;
      CopyIn(pucBuffer, xNextHead, data[..xFirstLength]);
      ghost var mid := pucBuffer[..];
      if xCount > xFirstLength {
        if xCount - xFirstLength > xLength { return false, 0; }
        CopyIn(pucBuffer, 0, data[xFirstLength..]);
      }
      BothCopies(was, mid, pucBuffer[..], xHead, data, xFirstLength);
      xNextHead := xNextHead + xCount;
      if xNextHead >= xLength {
        xNextHead := xNextHead - xLength;
      }
      HeadAfter(xLength, xTail, xHead);
      if held + |data| < xLength {
        HeldAt(xLength, xTail, held + |data|);
        WriteAppends(was, xTail, held, data);
      }
      xHead := xNextHead;
      ok := true;
    }

    /** The two copies together are the wrapped write. */
    static lemma BothCopies(was: Bytes, mid: Bytes, now: Bytes, head: nat, data: Bytes, first: nat)
      requires head < |was| && |data| < |was| && first <= |data|
      requires first == if |was| - head < |data| then |was| - head else |data|
      requires mid == was[..head] + data[..first] + was[head + first..]
      requires now == if |data| > first then data[first..] + mid[|data| - first..] else mid
      ensures now == Written(was, head, data)
    {
      if |data| > first {
        assert mid[|data| - first..] == was[|data| - first..head] + data[..first];
      } else {
        assert data[..first] == data;
      }
    }

    /** prvReadBytesFromBuffer: xBytesAvailable may be stale, but never more than is held. */
    method ReadBytes(xMaxCount: nat, xBytesAvailable: nat) returns (data: Bytes)
      requires Valid() && xBytesAvailable <= |Contents()|
      modifies this`xTail
      ensures Valid()
      ensures var n := if xBytesAvailable < xMaxCount then xBytesAvailable else xMaxCount;
        data == old(Contents())[..n] && Contents() == old(Contents())[n..]
    {
      hide Ring;
      ghost var held := Held(xLength, xTail, xHead);
      HeadAfter(xLength, xTail, xHead);
      var xCount := if xBytesAvailable < xMaxCount then xBytesAvailable else xMaxCount;
      data := [];
      if xCount > 0 {
        var xNextTail := xTail;
        var xFirstLength := if xLength - xNextTail < xCount then xLength - xNextTail else xCount;
        data := pucBuffer[xNextTail..xNextTail + xFirstLength];
        if xCount > xFirstLength {
          data := data + pucBuffer[..xCount - xFirstLength];
        }
        ReadTakes(pucBuffer[..], xTail, held, xCount);
        SameRead(pucBuffer[..], xTail, xCount, xFirstLength, data);
        xNextTail := xNextTail + xCount;
        if xNextTail >= xLength {
          xNextTail := xNextTail - xLength;
        }
        HeldAfterRead(xLength, xTail, xHead, xCount);
        xTail := xNextTail;
      }
    }

    static lemma SameRead(buf: Bytes, tail: nat, n: nat, first: nat, data: Bytes)
      requires tail < |buf| && 0 < n < |buf| && first == if |buf| - tail < n then |buf| - tail else n
      requires data == if n > first then buf[tail..tail + first] + buf[..n - first] else buf[tail..tail + first]
      ensures data == ReadOut(buf, tail, n)
    {}

    static lemma HeldAfterRead(length: nat, tail: nat, head: nat, n: nat)
      requires tail < length && head < length && n <= Held(length, tail, head)
      ensures Wrap(tail + n, length) < length
      ensures Held(length, Wrap(tail + n, length), head) == Held(length, tail, head) - n
    {}

    /** prvWriteMessageToBuffer: the space reported may be stale, but never more than is free. */
    method WriteMessage(data: Bytes, xSpace: nat, xRequiredSpace: nat) returns (ok: bool, xReturn: nat)
      requires Valid() && |data| < WORD_LIMIT && xSpace + |Contents()| <= Capacity()
      requires xRequiredSpace == if isMessageBuffer then RequiredSpace(|data|) else |data|
      modifies this`xHead, pucBuffer
      ensures Valid() && (!ok ==> xReturn == 0)
      ensures !isMessageBuffer ==>
        && ok == (xSpace == 0 || data != [])
        && (ok ==> xReturn == if |data| < xSpace then |data| else xSpace)
        && Contents() == old(Contents()) + data[..xReturn]
      ensures isMessageBuffer ==>
        if xSpace == 0 || xSpace < xRequiredSpace then ok && xReturn == 0 && Contents() == old(Contents())
        else
          && ok == (data != [] && |data| + LENGTH_BYTES < WORD_LIMIT)
          && (ok ==> xReturn == |data| && Contents() == old(Contents()) + Frame(data))
          && (data == [] ==> Contents() == old(Contents()) + EncodeLength(0))
    {
      hide Ring, EncodeLength, Written, RequiredSpace;
      RequiredSpaceIs(|data|);
      var xShouldWrite: bool;
      var toWrite := data;
      ok := true;
      if xSpace == 0 {
        xShouldWrite := false;
      } else if !isMessageBuffer {
        xShouldWrite := true;
        toWrite := data[..if |data| < xSpace then |data| else xSpace];
      } else if xSpace >= xRequiredSpace {
        xShouldWrite := true;
        LengthRoundTrip(|data|);
        var written;
        ok, written := WriteBytes(EncodeLength(|data|));
      } else {
        xShouldWrite := false;
      }
      if xShouldWrite {
        ok, xReturn := WriteBytes(toWrite);
      } else {
        xReturn := 0;
      }
    }

    /** prvReadMessageFromBuffer: the tail is put back when the caller's buffer is too small. */
    method ReadMessage(xBufferLengthBytes: nat, xBytesAvailable: nat) returns (data: Bytes)
      requires Valid() && xBytesAvailable == |Contents()|
      requires isMessageBuffer ==> LENGTH_BYTES < xBytesAvailable
      modifies this`xTail
      ensures Valid()
      ensures !isMessageBuffer ==>
        var n := if xBytesAvailable < xBufferLengthBytes then xBytesAvailable else xBufferLengthBytes;
        data == old(Contents())[..n] && Contents() == old(Contents())[n..]
      ensures isMessageBuffer ==> (Contents(), data) == ReceiveMessage(old(Contents()), xBufferLengthBytes)
    {
      hide Ring, DecodeLength;
      var available := xBytesAvailable;
      var xNextMessageLength: nat;
      if isMessageBuffer {
        var xOriginalTail := xTail;
        var header := ReadBytes(LENGTH_BYTES, available);
        xNextMessageLength := DecodeLength(header);
        available := available - LENGTH_BYTES;
        if xNextMessageLength > xBufferLengthBytes {
          xTail := xOriginalTail;
          xNextMessageLength := 0;
        }
      } else {
        xNextMessageLength := xBufferLengthBytes;
      }
      data := ReadBytes(xNextMessageLength, available);
    }

    /** xStreamBufferSend without a block time, and xStreamBufferSendFromISR.  `ok` is whether the
        assertions of the copies hold. */
    method Send(data: Bytes) returns (ok: bool, xReturn: nat)
      requires Valid() && |data| < WORD_LIMIT
      modifies this`xHead, pucBuffer
      ensures Valid()
      ensures isMessageBuffer ==>
        match SendMessage(old(Contents()), Capacity(), data)
        case Sent(held, n) => ok && Contents() == held && xReturn == n
        case Asserted => !ok && (data == [] ==> Contents() == old(Contents()) + EncodeLength(0))
      ensures !isMessageBuffer ==>
        var space := Capacity() - |old(Contents())|;
        && ok == (space == 0 || data != [])
        && xReturn == (if |data| < space then |data| else space)
        && Contents() == old(Contents()) + data[..xReturn]
    {
      hide RequiredSpace, EncodeLength, Written, Ring;
      var xRequiredSpace := |data|;
      if isMessageBuffer { xRequiredSpace := RequiredSpace(|data|); }
      var xSpace := SpacesAvailable();
      ok, xReturn := WriteMessage(data, xSpace, xRequiredSpace);
    }

    /** xStreamBufferReceive without a block time, and xStreamBufferReceiveFromISR. */
    method Receive(xBufferLengthBytes: nat) returns (data: Bytes)
      requires Valid()
      modifies this`xTail
      ensures Valid()
      ensures isMessageBuffer ==> (Contents(), data) == ReceiveMessage(old(Contents()), xBufferLengthBytes)
      ensures !isMessageBuffer ==>
        var n := if |old(Contents())| < xBufferLengthBytes then |old(Contents())| else xBufferLengthBytes;
        data == old(Contents())[..n] && Contents() == old(Contents())[n..]
    {
      hide DecodeLength;
      data := [];
      var xBytesToStoreMessageLength := if isMessageBuffer then LENGTH_BYTES else 0;
      var xBytesAvailable := BytesInBuffer();
      if xBytesAvailable > xBytesToStoreMessageLength {
        data := ReadMessage(xBufferLengthBytes, xBytesAvailable);
      }
    }
  }
}

/** The Queue_t structure of queue.c and its critical sections.  Each method is one critical
    section and is proved to compute the function of QueueSpec with the same role, for every
    position of the read and write pointers in the ring. */
module QueueObject {
  import opened RingStorage
  import opened QueueSpec
  import opened QueueRing

  class QueueObj {
    const uxLength: nat
    const uxItemSize: nat
    const pcHead: array<Byte>                // the storage area; pointers into it are offsets
    var pcWriteTo: nat
    var pcReadFrom: nat
    var uxMessagesWaiting: nat
    var cRxLock: int
    var cTxLock: int
    var xTasksWaitingToSend: seq<Waiter>
    var xTasksWaitingToReceive: seq<Waiter>

    ghost var first: nat                     // slot of the oldest item

    /** A queue that stores data: the pointers are where the ring says they are. */
    ghost predicate Pointers()
      reads this, pcHead
    {
      && Storage(pcHead[..], uxItemSize, uxLength)
      && first < uxLength && uxMessagesWaiting <= uxLength
      && pcReadFrom == Off(Before(first, uxLength), uxItemSize)
      && pcWriteTo == Off(Wrap(first + uxMessagesWaiting, uxLength), uxItemSize)
    }

    ghost predicate Valid()
      reads this, pcHead
    {
      0 < uxLength && (uxItemSize != 0 ==> Pointers())
    }

    ghost function Contents(): seq<Data>
      requires Valid()
      reads this, pcHead
    {
      if uxItemSize == 0 then seq(uxMessagesWaiting, k => [])
      else Items(pcHead[..], uxItemSize, uxLength, first, uxMessagesWaiting)
    }

    ghost function Abs(): Queue
      requires Valid()
      reads this, pcHead
    {
      Queue(Contents(), uxLength, uxItemSize, cTxLock, cRxLock, xTasksWaitingToReceive, xTasksWaitingToSend)
    }

    /** Sent to the back, an item is the newest; to the front, the oldest; an overwriting send leaves it
        alone in the queue.  Items of size zero are only counted. */
    ghost predicate Added(before: seq<Data>, after: seq<Data>, x: Data, position: Position) {
      && (position == Back ==> after == before + [x])
      && (position == Front ==> after == [x] + before)
      && (position == Overwrite && uxItemSize != 0 ==> after == [x])
      && (position == Overwrite && uxItemSize == 0 ==> after == before + [x])
    }

    /** xQueueGenericReset of a new queue. */
    constructor (length: nat, itemSize: nat)
      requires 0 < length
      ensures Valid() && Abs() == Queue([], length, itemSize, UNLOCKED, UNLOCKED, [], [])
    {
      OffOrder(length - 1, length, itemSize);
      uxLength, uxItemSize := length, itemSize;
      pcHead := new Byte[length * itemSize](i => 0);
      pcWriteTo := 0;
      pcReadFrom := (length - 1) * itemSize;
      uxMessagesWaiting := 0;
      cRxLock, cTxLock := UNLOCKED, UNLOCKED;
      xTasksWaitingToSend, xTasksWaitingToReceive := [], [];
      first := 0;
      new;
      assert Off(0, itemSize) == 0;
    }

    /** prvCopyDataToQueue, apart from the mutex holder. */
    method CopyDataToQueue(x: Data, position: Position)
      requires Valid() && |x| == uxItemSize && HasRoom(Abs(), position)
      requires position == Overwrite ==> uxLength == 1
      modifies this`pcWriteTo, this`pcReadFrom, this`uxMessagesWaiting, this`first, pcHead
      ensures Valid() && Abs() == Put(old(Abs()), x, position)
      ensures Added(old(Contents()), Contents(), x, position)
    {
      hide Items;
      var waiting := uxMessagesWaiting;
      if uxItemSize == 0 {
        uxMessagesWaiting := waiting + 1;
      } else if position == Back {
        PutBack(x);
      } else {
        PutFront(x, position);
      }
    }

    /** The branch for queueSEND_TO_BACK. */
    method PutBack(x: Data)
      requires Valid() && 0 < uxItemSize == |x| && uxMessagesWaiting < uxLength
      modifies this`pcWriteTo, this`uxMessagesWaiting, pcHead
      ensures Valid() && Abs() == Put(old(Abs()), x, Back)
    {
      hide Slot, Items, Stored, Off;
      ghost var was, w := pcHead[..], Wrap(first + uxMessagesWaiting, uxLength);
      OffOrder(w, uxLength, uxItemSize);
      CopyIn(pcHead, pcWriteTo, x);
      StoredAt(was, pcHead[..], uxItemSize, uxLength, w, x);
      AppendItem(was, pcHead[..], uxItemSize, uxLength, first, uxMessagesWaiting, x);
      pcWriteTo := pcWriteTo + uxItemSize;
      OffNext(w, uxItemSize);
      OffOrder(w + 1, uxLength, uxItemSize);
      ZeroOff(uxItemSize);
      if pcWriteTo >= pcHead.Length {
        pcWriteTo := 0;
      }
      uxMessagesWaiting := uxMessagesWaiting + 1;
    }

    /** The branch for queueSEND_TO_FRONT and queueOVERWRITE. */
    method PutFront(x: Data, position: Position)
      requires Valid() && 0 < uxItemSize == |x| && position != Back && HasRoom(Abs(), position)
      requires position == Overwrite ==> uxLength == 1
      modifies this`pcReadFrom, this`uxMessagesWaiting, this`first, pcHead
      ensures Valid() && Abs() == Put(old(Abs()), x, position)
    {
      hide Slot, Items, Stored, Off;
      ghost var was, r := pcHead[..], Before(first, uxLength);
      var waiting := uxMessagesWaiting;
      OffOrder(r, uxLength, uxItemSize);
      ZeroOff(uxItemSize);
      CopyIn(pcHead, pcReadFrom, x);
      StoredAt(was, pcHead[..], uxItemSize, uxLength, r, x);
      if waiting < uxLength {
        PrependItem(was, pcHead[..], uxItemSize, uxLength, first, waiting, x);
      } else {
        ReplaceItem(was, pcHead[..], uxItemSize, x);
      }
      StepBack(r, uxItemSize);
      // A byte offset below pcHead would be negative.
      if pcReadFrom < uxItemSize {
        pcReadFrom := pcHead.Length - uxItemSize;
      } else {
        pcReadFrom := pcReadFrom - uxItemSize;
      }
      OffNext(uxLength - 1, uxItemSize);
      first := r;
      if position == Overwrite {
        if waiting > 0 {
          waiting := waiting - 1;
        }
      }
      uxMessagesWaiting := waiting + 1;
    }

    lemma StepBack(r: nat, size: nat)
      requires 0 < size
      ensures Off(r, size) < size <==> r == 0
      ensures r > 0 ==> Off(r, size) - size == Off(r - 1, size)
    {
      if r > 0 { OffNext(r - 1, size); OffOrder(0, r, size); }
    }

    lemma ZeroOff(size: nat)
      ensures Off(0, size) == 0
    {}

    /** prvCopyDataFromQueue. */
    method CopyDataFromQueue() returns (x: Data)
      requires Valid() && 0 < uxMessagesWaiting
      modifies this`pcReadFrom
      ensures x == old(Contents())[0]
      ensures uxItemSize != 0 ==> pcReadFrom == Off(first, uxItemSize)
      ensures uxItemSize == 0 ==> pcReadFrom == old(pcReadFrom)
    {
      x := [];
      if uxItemSize != 0 {
        ghost var r := Before(first, uxLength);
        DropItem(pcHead[..], uxItemSize, uxLength, first, uxMessagesWaiting);
        pcReadFrom := pcReadFrom + uxItemSize;
        OffNext(r, uxItemSize);
        OffOrder(r + 1, uxLength, uxItemSize);
        OffOrder(first, uxLength, uxItemSize);
        ZeroOff(uxItemSize);
        if pcReadFrom >= pcHead.Length {
          pcReadFrom := 0;
        }
        x := pcHead[pcReadFrom..pcReadFrom + uxItemSize];
      }
    }

    // ------------------------------------------------------------------ critical sections

    /** xQueueGenericSend: copies the item and wakes one reader if the queue has room. */
    method SendSection(x: Data, position: Position) returns (sent: bool)
      requires Valid() && |x| == uxItemSize && (position == Overwrite ==> uxLength == 1)
      modifies this, pcHead
      ensures Valid() && sent == HasRoom(old(Abs()), position)
      ensures Abs() == if sent then Send(old(Abs()), x, position) else old(Abs())
      ensures sent ==> Added(old(Contents()), Contents(), x, position)
    {
      hide Items, Added;
      sent := uxMessagesWaiting < uxLength || position == Overwrite;
      if sent {
        CopyDataToQueue(x, position);
        if xTasksWaitingToReceive != [] {
          xTasksWaitingToReceive := xTasksWaitingToReceive[1..];
        }
      }
    }

    /** xQueueGenericSendFromISR; with an empty item also xQueueGiveFromISR. */
    method SendFromISRSection(x: Data, position: Position) returns (sent: bool)
      requires Valid() && |x| == uxItemSize && (position == Overwrite ==> uxLength == 1)
      modifies this, pcHead
      ensures Valid() && sent == HasRoom(old(Abs()), position)
      ensures Abs() == if sent then SendFromISR(old(Abs()), x, position) else old(Abs())
      ensures sent ==> Added(old(Contents()), Contents(), x, position)
    {
      hide Items, Added;
      sent := uxMessagesWaiting < uxLength || position == Overwrite;
      if sent {
        var txLock := cTxLock;
        CopyDataToQueue(x, position);
        if txLock == UNLOCKED {
          if xTasksWaitingToReceive != [] {
            xTasksWaitingToReceive := xTasksWaitingToReceive[1..];
          }
        } else {
          cTxLock := Int8(txLock + 1);
        }
      }
    }

    /** xQueueReceive and xQueueSemaphoreTake: removes the oldest item and wakes one writer. */
    method ReceiveSection() returns (received: bool, x: Data)
      requires Valid()
      modifies this
      ensures Valid() && received == (old(Abs()).items != [])
      ensures received ==> [x] + Contents() == old(Contents()) && Abs() == Receive(old(Abs()))
      ensures !received ==> Abs() == old(Abs())
    {
      hide Items;
      received, x := uxMessagesWaiting > 0, [];
      if received {
        ghost var before := Contents();
        x := CopyDataFromQueue();
        PointerPassed();
        if uxItemSize != 0 { first := Wrap(first + 1, uxLength); }
        uxMessagesWaiting := uxMessagesWaiting - 1;
        assert Contents() == before[1..];
        if xTasksWaitingToSend != [] {
          xTasksWaitingToSend := xTasksWaitingToSend[1..];
        }
      }
    }

    /** What moving the read pointer over the oldest item leaves. */
    lemma PointerPassed()
      requires 0 < uxLength && 0 < uxMessagesWaiting
      requires uxItemSize != 0 ==>
        && Storage(pcHead[..], uxItemSize, uxLength) && first < uxLength && uxMessagesWaiting <= uxLength
      ensures uxItemSize != 0 ==>
        && Before(Wrap(first + 1, uxLength), uxLength) == first
        && Wrap(Wrap(first + 1, uxLength) + (uxMessagesWaiting - 1), uxLength)
             == Wrap(first + uxMessagesWaiting, uxLength)
        && Items(pcHead[..], uxItemSize, uxLength, Wrap(first + 1, uxLength), uxMessagesWaiting - 1)
           == Items(pcHead[..], uxItemSize, uxLength, first, uxMessagesWaiting)[1..]
    {
      if uxItemSize != 0 { DropItem(pcHead[..], uxItemSize, uxLength, first, uxMessagesWaiting); }
    }

    /** xQueueReceiveFromISR. */
    method ReceiveFromISRSection() returns (received: bool, x: Data)
      requires Valid()
      modifies this
      ensures Valid() && received == (old(Abs()).items != [])
      ensures received ==> [x] + Contents() == old(Contents()) && Abs() == ReceiveFromISR(old(Abs()))
      ensures !received ==> Abs() == old(Abs())
    {
      hide Items;
      received, x := uxMessagesWaiting > 0, [];
      if received {
        var rxLock := cRxLock;
        ghost var before := Contents();
        x := CopyDataFromQueue();
        PointerPassed();
        if uxItemSize != 0 { first := Wrap(first + 1, uxLength); }
        uxMessagesWaiting := uxMessagesWaiting - 1;
        assert Contents() == before[1..];
        if rxLock == UNLOCKED {
          if xTasksWaitingToSend != [] {
            xTasksWaitingToSend := xTasksWaitingToSend[1..];
          }
        } else {
          cRxLock := Int8(rxLock + 1);
        }
      }
    }

    /** xQueuePeek: reads the oldest item, restores the read pointer, and passes the wake-up on. */
    method PeekSection() returns (peeked: bool, x: Data)
      requires Valid()
      modifies this
      ensures Valid() && peeked == (old(Abs()).items != [])
      ensures peeked ==> x == old(Contents())[0] && Contents() == old(Contents()) && Abs() == Peek(old(Abs()))
      ensures !peeked ==> Abs() == old(Abs())
    {
      hide Items;
      peeked, x := uxMessagesWaiting > 0, [];
      if peeked {
        var pcOriginalReadPosition := pcReadFrom;
        x := CopyDataFromQueue();
        pcReadFrom := pcOriginalReadPosition;
        if xTasksWaitingToReceive != [] {
          xTasksWaitingToReceive := xTasksWaitingToReceive[1..];
        }
      }
    }

    /** prvLockQueue. */
    method LockQueue()
      requires Valid()
      modifies this`cRxLock, this`cTxLock
      ensures Valid() && Abs() == Lock(old(Abs()))
    {
      if cRxLock == UNLOCKED { cRxLock := LOCKED_UNMODIFIED; }
      if cTxLock == UNLOCKED { cTxLock := LOCKED_UNMODIFIED; }
    }

    /** First critical section of prvUnlockQueue: one reader woken for each item posted meanwhile. */
    method UnlockTxSection()
      requires Valid()
      modifies this`cTxLock, this`xTasksWaitingToReceive
      ensures Valid() && Abs() == UnlockTx(old(Abs()))
    {
      var txLock := cTxLock;
      while txLock > LOCKED_UNMODIFIED
        invariant Valid() && Contents() == old(Contents())
        invariant WakeMany(xTasksWaitingToReceive, txLock) == WakeMany(old(xTasksWaitingToReceive), old(cTxLock))
        decreases txLock
      {
        if xTasksWaitingToReceive != [] {
          xTasksWaitingToReceive := xTasksWaitingToReceive[1..];
        } else {
          break;
        }
        txLock := txLock - 1;
      }
      cTxLock := UNLOCKED;
    }

    /** Second critical section of prvUnlockQueue. */
    method UnlockRxSection()
      requires Valid()
      modifies this`cRxLock, this`xTasksWaitingToSend
      ensures Valid() && Abs() == UnlockRx(old(Abs()))
    {
      var rxLock := cRxLock;
      while rxLock > LOCKED_UNMODIFIED
        invariant Valid() && Contents() == old(Contents())
        invariant WakeMany(xTasksWaitingToSend, rxLock) == WakeMany(old(xTasksWaitingToSend), old(cRxLock))
        decreases rxLock
      {
        if xTasksWaitingToSend != [] {
          xTasksWaitingToSend := xTasksWaitingToSend[1..];
          rxLock := rxLock - 1;
        } else {
          break;
        }
      }
      cRxLock := UNLOCKED;
    }
  }
}

/** queue.c, one critical section at a time.  A queue is its items, oldest first, together with the
    two lock counters and the two lists of waiting tasks. */
module QueueSpec {

  type Byte = x: int | 0 <= x < 256
  type Data = seq<Byte>

  const UNLOCKED := -1
  const LOCKED_UNMODIFIED := 0

  /** A waiting task; a lower value means a higher priority (configMAX_PRIORITIES minus priority). */
  datatype Waiter = Waiter(task: int, value: int)

  datatype Position = Back | Front | Overwrite

  datatype Queue = Queue(
    items: seq<Data>, length: nat, itemSize: nat,
    txLock: int, rxLock: int,                          // cTxLock, cRxLock
    waitRecv: seq<Waiter>, waitSend: seq<Waiter>)

  /** Truncation to int8_t, in which the lock counters are kept. */
  function Int8(x: int): int { (x + 128) % 256 - 128 }

  /** vListInsert on an event list: by value, after equals. */
  function Enlist(s: seq<Waiter>, w: Waiter): seq<Waiter> {
    if s == [] || w.value < s[0].value then [w] + s else [s[0]] + Enlist(s[1..], w)
  }

  function Delist(s: seq<Waiter>, task: int): seq<Waiter> {
    if s == [] then [] else if s[0].task == task then s[1..] else [s[0]] + Delist(s[1..], task)
  }

  function WakeOne(s: seq<Waiter>): seq<Waiter> { if s == [] then s else s[1..] }

  function HasRoom(q: Queue, pos: Position): bool {
    |q.items| < q.length || pos == Overwrite
  }

  /** prvCopyDataToQueue.  A zero-size item is only counted, whatever the position. */
  function Put(q: Queue, x: Data, pos: Position): Queue {
    q.(items :=
      if q.itemSize == 0 || pos == Back then q.items + [x]
      else if pos == Front || q.items == [] then [x] + q.items
      else [x] + q.items[1..])
  }

  /** xQueueGenericSend, the critical section that finds room. */
  function Send(q: Queue, x: Data, pos: Position): Queue {
    Put(q, x, pos).(waitRecv := WakeOne(q.waitRecv))
  }

  /** xQueueGenericSendFromISR and xQueueGiveFromISR, when there is room. */
  function SendFromISR(q: Queue, x: Data, pos: Position): Queue {
    if q.txLock == UNLOCKED then Send(q, x, pos)
    else Put(q, x, pos).(txLock := Int8(q.txLock + 1))
  }

  /** xQueueReceive and xQueueSemaphoreTake, the critical section that finds an item. */
  function Receive(q: Queue): Queue
    requires q.items != []
  {
    q.(items := q.items[1..], waitSend := WakeOne(q.waitSend))
  }

  function ReceiveFromISR(q: Queue): Queue
    requires q.items != []
  {
    if q.rxLock == UNLOCKED then Receive(q)
    else q.(items := q.items[1..], rxLock := Int8(q.rxLock + 1))
  }

  /** xQueuePeek, the critical section that finds an item: it stays for another waiting reader. */
  function Peek(q: Queue): Queue {
    q.(waitRecv := WakeOne(q.waitRecv))
  }

  /** prvLockQueue. */
  function Lock(q: Queue): Queue {
    q.(rxLock := if q.rxLock == UNLOCKED then LOCKED_UNMODIFIED else q.rxLock,
       txLock := if q.txLock == UNLOCKED then LOCKED_UNMODIFIED else q.txLock)
  }

  function WakeMany(s: seq<Waiter>, n: int): seq<Waiter>
    decreases s
  {
    if n <= 0 || s == [] then s else WakeMany(s[1..], n - 1)
  }

  /** The two critical sections of prvUnlockQueue. */
  function UnlockTx(q: Queue): Queue {
    q.(waitRecv := WakeMany(q.waitRecv, q.txLock), txLock := UNLOCKED)
  }

  function UnlockRx(q: Queue): Queue {
    q.(waitSend := WakeMany(q.waitSend, q.rxLock), rxLock := UNLOCKED)
  }

  // ------------------------------------------------------------------ what they promise

  /** The items never outnumber the length, and each has the item size. */
  ghost predicate Sized(q: Queue) {
    && 0 < q.length && |q.items| <= q.length
    && forall k :: 0 <= k < |q.items| ==> |q.items[k]| == q.itemSize
  }

  /** Sending keeps the count within the length exactly when it does not overwrite a full queue of
      zero-size items: that branch counts the item without discarding one. */
  lemma SendSized(q: Queue, x: Data, pos: Position)
    requires Sized(q) && |x| == q.itemSize && HasRoom(q, pos) && (pos == Overwrite ==> q.length == 1)
    ensures Sized(Put(q, x, pos)) <==> !(q.itemSize == 0 && pos == Overwrite && |q.items| == q.length)
  {
    var r := Put(q, x, pos);
    assert forall k :: 0 <= k < |r.items| ==> r.items[k] == x || r.items[k] in q.items;
  }

  /** A taken binary semaphore, overwritten when already given, counts two. */
  lemma OverwriteCountsTwo(q: Queue)
    requires q.length == 1 && q.itemSize == 0 && q.items == [[]]
    ensures HasRoom(q, Overwrite) && |Put(q, [], Overwrite).items| == 2
  {}

  /** Event lists stay in priority order, so the task woken is one of highest priority. */
  ghost predicate ByPriority(s: seq<Waiter>) {
    forall j, k :: 0 <= j < k < |s| ==> s[j].value <= s[k].value
  }

  lemma EnlistHead(s: seq<Waiter>, w: Waiter)
    requires s == [] || w.value < s[0].value
    ensures Enlist(s, w) == [w] + s
  {}

  lemma EnlistTail(s: seq<Waiter>, w: Waiter)
    requires !(s == [] || w.value < s[0].value)
    ensures Enlist(s, w) == [s[0]] + Enlist(s[1..], w)
  {}

  lemma {:induction false} EnlistByPriority(s: seq<Waiter>, w: Waiter)
    requires ByPriority(s)
    ensures ByPriority(Enlist(s, w)) && multiset(Enlist(s, w)) == multiset(s) + multiset{w}
    decreases s
  {
    hide Enlist;
    if s == [] || w.value < s[0].value {
      EnlistHead(s, w);
    } else {
      EnlistTail(s, w);
      EnlistByPriority(s[1..], w);
      var t := Enlist(s[1..], w);
      assert s == [s[0]] + s[1..];
      forall k | 0 <= k < |t| ensures s[0].value <= t[k].value {
        assert t[k] in multiset(t);
        assert t[k] == w || t[k] in s[1..];
      }
    }
  }
}

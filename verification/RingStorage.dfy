/** What the two ring buffers, of queues and of stream buffers, have in common. */
module RingStorage {
  /** An index that may have run past the end of the storage area by less than its length. */
  function Wrap(i: nat, length: nat): nat { if i >= length then i - length else i }

  /** memcpy into the storage area. */
  method CopyIn<T>(storage: array<T>, offset: nat, data: seq<T>)
    requires offset + |data| <= storage.Length
    modifies storage
    ensures storage[..] == old(storage[..offset]) + data + old(storage[offset + |data|..])
  {
    var i := 0;
    while i < |data|
      invariant 0 <= i <= |data|
      invariant storage[..] == old(storage[..offset]) + data[..i] + old(storage[offset + i..])
    {
      ghost var now := storage[..];
      storage[offset + i] := data[i];
      assert storage[..] == now[offset + i := data[i]];
      i := i + 1;
    }
  }
}

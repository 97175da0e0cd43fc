/** Whole runs of the allocator, on the abstract state that Heap4.Heap implements. */
module HeapRuns {
  import opened HeapGaps
  import opened HeapState
  import opened AllocTable

  datatype Op = Alloc(wanted: int) | Release(addr: int)

  /** The live blocks after one pvPortMalloc, or one vPortFree of a block that is still live. */
  ghost function Step(lo: int, live: seq<Chunk>, hi: int, op: Op): seq<Chunk> {
    match op
    case Alloc(w) =>
      var f := Gaps(lo, live, hi);
      if Satisfiable(f, w)
      then InsertLive(live, Chunk(f[FirstFit(f, RequestSize(w))].addr,
                                  Taken(f[FirstFit(f, RequestSize(w))].size, RequestSize(w))))
      else live
    case Release(a) => if HasBlock(live, a) then RemoveAt(live, IndexOf(live, a)) else live
  }

  ghost function Run(lo: int, live: seq<Chunk>, hi: int, ops: seq<Op>): seq<Chunk>
    decreases |ops|
  {
    if ops == [] then live else Run(lo, Step(lo, live, hi, ops[0]), hi, ops[1..])
  }

  /** What pvPortMalloc establishes is the step. */
  lemma AllocatedIsStep(lo: int, live: seq<Chunk>, live': seq<Chunk>, hi: int, w: int, f': seq<Chunk>, pv: int)
    requires var f := Gaps(lo, live, hi);
      if Satisfiable(f, w) then Allocated(live, live', f, f', RequestSize(w), pv) else live' == live
    ensures live' == Step(lo, live, hi, Alloc(w))
  {}

  ghost predicate Good(lo: int, live: seq<Chunk>, hi: int) {
    && lo % ALIGNMENT == 0 && hi % ALIGNMENT == 0
    && LiveOK(lo, live, hi) && Aligned(live)
    && HoldHeaders(Gaps(lo, live, hi)) && Aligned(Gaps(lo, live, hi))
  }

  /** The block an allocation carves, and what it leaves. */
  lemma AllocStep(lo: int, live: seq<Chunk>, hi: int, w: int) returns (c: Chunk)
    requires Good(lo, live, hi) && Satisfiable(Gaps(lo, live, hi), w)
    ensures Step(lo, live, hi, Alloc(w)) == InsertLive(live, c) && !HasBlock(live, c.addr)
    ensures Good(lo, InsertLive(live, c), hi)
    ensures w + HEADER_SIZE + TAIL_CANARY_SIZE <= c.size
  {
    hide Gaps, LiveOK, Aligned, InsertLive, HoldHeaders, HasBlock, RequestSize;
    var f := Gaps(lo, live, hi);
    RequestExact(w);
    var i, need := FirstFit(f, RequestSize(w)), RequestSize(w);
    c := Chunk(f[i].addr, Taken(f[i].size, need));
    FitAligned(f, i, need);
    CarveGap(lo, live, hi, i, c.size);
    CarvedHoldHeaders(f, i, c.size);
    AllocateFacts(lo, live, hi, i, c.size);
    CarvedIsNew(lo, live, hi, i);
    GapsAligned(lo, InsertLive(live, c), hi);
  }

  lemma FitAligned(f: seq<Chunk>, i: nat, need: int)
    requires i < |f| && Aligned(f) && need % ALIGNMENT == 0
    ensures Taken(f[i].size, need) % ALIGNMENT == 0 && f[i].addr % ALIGNMENT == 0
  {
    assert AlignedChunk(f[i]);
  }

  ghost predicate Fits(f: seq<Chunk>, i: nat, w: int) {
    && i < |f| && RequestSize(w) <= f[i].size
    && forall k :: 0 <= k < i ==> f[k].size < RequestSize(w)
  }

  /** How much an allocation takes.  The lowest free block that is large enough is used; one that
      exceeds the aligned request by more than 32 bytes is split, its front becoming live and its rest
      staying free in its place; a smaller surplus goes to the caller, so that no live block is larger
      than what was asked for by more than 59 bytes. */
  lemma SplitExact(lo: int, live: seq<Chunk>, hi: int, w: int) returns (i: nat, c: Chunk)
    requires Good(lo, live, hi) && Satisfiable(Gaps(lo, live, hi), w)
    ensures var f, live' := Gaps(lo, live, hi), Step(lo, live, hi, Alloc(w));
      && Fits(f, i, w) && c.addr == f[i].addr
      && (forall x :: x in live' <==> x in live || x == c)
      && (f[i].size - RequestSize(w) > 32 ==>
            && c.size == RequestSize(w)
            && Gaps(lo, live', hi) == f[..i] + [Chunk(c.End(), f[i].size - c.size)] + f[i + 1..])
      && (f[i].size - RequestSize(w) <= 32 ==>
            c == f[i] && Gaps(lo, live', hi) == f[..i] + f[i + 1..])
      && w + 20 <= c.size <= w + 59
  {
    hide Gaps, LiveOK, Aligned, InsertLive, HoldHeaders, HasBlock, RequestSize;
    var f := Gaps(lo, live, hi);
    RequestExact(w);
    i := FirstFit(f, RequestSize(w));
    c := Chunk(f[i].addr, Taken(f[i].size, RequestSize(w)));
    CarveGap(lo, live, hi, i, c.size);
    InsertLiveMembers(live, c);
  }

  /** Serving one request leaves room for another in a free block that held both: splitting gives away
      no more than was asked for. */
  lemma LeavesRoom(lo: int, live: seq<Chunk>, hi: int, w: int, v: int, k: nat)
    requires Good(lo, live, hi) && 0 < w < ALLOCATED_BIT && 0 < v < ALLOCATED_BIT && k < |Gaps(lo, live, hi)|
    requires RequestSize(w) + RequestSize(v) <= Gaps(lo, live, hi)[k].size
    requires RequestSize(w) + 32 < Gaps(lo, live, hi)[k].size
    ensures Satisfiable(Gaps(lo, live, hi), w)
    ensures Satisfiable(Gaps(lo, Step(lo, live, hi, Alloc(w)), hi), v)
  {
    hide Good, Gaps, RequestSize, Step;
    RequestExact(w);
    RequestExact(v);
    var f, live' := Gaps(lo, live, hi), Step(lo, live, hi, Alloc(w));
    var i, c := SplitExact(lo, live, hi, w);
    var g := Gaps(lo, live', hi);
    if k == i {
      assert g[i] == Chunk(c.End(), f[i].size - c.size);
    } else if f[i].size - RequestSize(w) > 32 {
      assert g[k] == f[k];
    } else {
      assert g[k - 1] == f[k];
    }
  }

  lemma ReleaseStep(lo: int, live: seq<Chunk>, hi: int, k: nat)
    requires Good(lo, live, hi) && k < |live|
    ensures Good(lo, RemoveAt(live, k), hi)
  {
    hide Gaps, LiveOK, Aligned, InsertLive, HoldHeaders, RemoveAt, InsertFree;
    ReleaseGap(lo, live, hi, k);
    LargeEnough(lo, live, hi, k);
    InsertFreeHolds(Gaps(lo, live, hi), live[k]);
    AlignedShrink(live, k);
    GapsAligned(lo, RemoveAt(live, k), hi);
  }

  /** Every sequence of allocations and releases, however interleaved, keeps the heap well formed. */
  lemma {:induction false} RunKeepsGood(lo: int, live: seq<Chunk>, hi: int, ops: seq<Op>)
    requires Good(lo, live, hi)
    ensures Good(lo, Run(lo, live, hi, ops), hi)
    decreases |ops|
  {
    hide Good;
    if ops != [] {
      match ops[0] {
        case Alloc(w) =>
          if Satisfiable(Gaps(lo, live, hi), w) { var c := AllocStep(lo, live, hi, w); }
        case Release(a) =>
          if HasBlock(live, a) { ReleaseStep(lo, live, hi, IndexOf(live, a)); }
      }
      RunKeepsGood(lo, Step(lo, live, hi, ops[0]), hi, ops[1..]);
    }
  }

  /** Freeing what was just allocated restores the exact earlier live blocks, hence the free list. */
  lemma AllocThenRelease(lo: int, live: seq<Chunk>, hi: int, w: int) returns (c: Chunk)
    requires Good(lo, live, hi) && Satisfiable(Gaps(lo, live, hi), w)
    ensures Step(lo, live, hi, Alloc(w)) == InsertLive(live, c)
    ensures Run(lo, live, hi, [Alloc(w), Release(c.addr)]) == live
  {
    hide Good, Gaps, Satisfiable, RequestSize;
    c := AllocStep(lo, live, hi, w);
    var live' := InsertLive(live, c);
    InsertThenRemove(live, c);
    assert [Alloc(w), Release(c.addr)][1..] == [Release(c.addr)];
    assert [Release(c.addr)][1..] == [];
    assert Run(lo, live', hi, [Release(c.addr)]) == Run(lo, Step(lo, live', hi, Release(c.addr)), hi, []);
  }

  lemma {:induction false} InsertThenRemove(live: seq<Chunk>, c: Chunk)
    requires !HasBlock(live, c.addr)
    ensures HasBlock(InsertLive(live, c), c.addr)
    ensures RemoveAt(InsertLive(live, c), IndexOf(InsertLive(live, c), c.addr)) == live
    decreases live
  {
    HasBlockInsert(live, c, c.addr);
    var p := InsertPlace(live, c);
    var live' := InsertLive(live, c);
    var k := IndexOf(live', c.addr);
    assert forall j :: 0 <= j < |live'| && j != p ==> live'[j] == live[if j < p then j else j - 1];
    assert k == p;
  }

  lemma {:induction false} InsertPlace(live: seq<Chunk>, c: Chunk) returns (p: nat)
    ensures p <= |live| && InsertLive(live, c) == live[..p] + [c] + live[p..]
    decreases live
  {
    if live == [] || c.addr < live[0].addr {
      p := 0;
    } else {
      var q := InsertPlace(live[1..], c);
      p := q + 1;
      assert live[..p] == [live[0]] + live[1..][..q];
    }
  }

  function Releases(order: seq<int>): seq<Op> {
    if order == [] then [] else [Release(order[0])] + Releases(order[1..])
  }

  lemma FirstIsBlock(live: seq<Chunk>)
    ensures live != [] ==> HasBlock(live, live[0].addr)
  {}

  /** Freeing every live block, in any order, leaves the single initial free block. */
  lemma {:induction false} ReleaseAll(lo: int, live: seq<Chunk>, hi: int, order: seq<int>)
    requires Good(lo, live, hi) && lo < hi
    requires forall a :: HasBlock(live, a) ==> a in order
    ensures Run(lo, live, hi, Releases(order)) == []
    ensures Gaps(lo, Run(lo, live, hi, Releases(order)), hi) == [Chunk(lo, hi - lo)]
    decreases |order|
  {
    if order == [] {
      FirstIsBlock(live);
    } else {
      var a, rest := order[0], order[1..];
      var live' := Step(lo, live, hi, Release(a));
      assert Releases(order)[1..] == Releases(rest);
      if HasBlock(live, a) {
        ReleaseStep(lo, live, hi, IndexOf(live, a));
      }
      forall b | HasBlock(live', b) ensures b in rest {
        if HasBlock(live, a) { HasBlockRemove(lo, live, hi, IndexOf(live, a), b); }
        assert b in order && b != a;
      }
      ReleaseAll(lo, live', hi, rest);
    }
  }

  // --------------------------------------------------------- a full side table

  /** n blocks of 32 bytes, side by side. */
  function Row(lo: int, n: nat): seq<Chunk>
    decreases n
  {
    if n == 0 then [] else [Chunk(lo, 32)] + Row(lo + 32, n - 1)
  }

  function Requests(n: nat): seq<Op> {
    if n == 0 then [] else [Alloc(12)] + Requests(n - 1)
  }

  function Addresses(live: seq<Chunk>): (r: seq<int>)
    ensures |r| == |live|
    ensures forall k :: 0 <= k < |live| ==> r[k] == live[k].addr
  {
    seq(|live|, k requires 0 <= k < |live| => live[k].addr)
  }

  lemma {:induction false} RowFacts(lo: int, n: nat, hi: int)
    requires lo + 32 * n <= hi
    ensures LiveOK(lo, Row(lo, n), hi) && Gaps(lo, Row(lo, n), hi) == Gap(lo + 32 * n, hi)
    ensures |Row(lo, n)| == n && forall k :: 0 <= k < n ==> Row(lo, n)[k] == Chunk(lo + 32 * k, 32)
    ensures InsertLive(Row(lo, n), Chunk(lo + 32 * n, 32)) == Row(lo, n + 1)
    decreases n
  {
    if n > 0 {
      RowFacts(lo + 32, n - 1, hi);
      var rest := Row(lo + 32, n - 1);
      assert Row(lo, n)[1..] == rest;
      assert Gap(lo, lo) + Gaps(lo + 32, rest, hi) == Gaps(lo + 32, rest, hi);
    }
  }

  /** A request of 12 bytes takes 32, and is met from the one gap that is left. */
  lemma RowGrows(lo: int, n: nat, hi: int)
    requires lo + 32 * n + 64 < hi
    ensures Step(lo, Row(lo, n), hi, Alloc(12)) == Row(lo, n + 1)
  {
    hide Row, Gaps, InsertLive;
    RowFacts(lo, n, hi);
    var f := Gaps(lo, Row(lo, n), hi);
    assert f == [Chunk(lo + 32 * n, hi - lo - 32 * n)] && RequestSize(12) == 32;
    assert f[0].size >= 32 && FirstFit(f, 32) == 0;
  }

  lemma {:induction false} RowRun(lo: int, n: nat, m: nat, hi: int)
    requires lo + 32 * (n + m) + 64 < hi
    ensures Run(lo, Row(lo, n), hi, Requests(m)) == Row(lo, n + m)
    decreases m
  {
    hide Step, Row;
    if m > 0 {
      RowGrows(lo, n, hi);
      assert Requests(m)[1..] == Requests(m - 1);
      RowRun(lo, n + 1, m - 1, hi);
    }
  }

  /** 256 allocations of 12 bytes fill the side table of any heap of more than 8256 bytes; freeing the
      first block then leaves the last one recorded twice. */
  lemma FullTableRemovalFails(lo: int, hi: int, t: seq<int>)
    requires 0 < lo && lo + 32 * SLOTS + 64 < hi
    ensures var live := Run(lo, [], hi, Requests(SLOTS));
      var order := Addresses(live);
      && |live| == SLOTS && live[0].addr == lo && SameBlocks(order, live)
      && (Holds(t, order) ==>
            && !Holds(Removed(t, lo), Without(order, lo))
            && Removed(t, lo)[SLOTS - 2] == Removed(t, lo)[SLOTS - 1] == live[SLOTS - 1].addr)
  {
    hide Run, Row, Requests;
    RowRun(lo, 0, SLOTS, hi);
    RowFacts(lo, 0, hi);
    RowFacts(lo, SLOTS, hi);
    var live := Row(lo, SLOTS);
    assert Row(lo, 0) == [];
    var order := Addresses(live);
    RowOrder(lo, live, order);
    if Holds(t, order) {
      FrontOf(t, order);
      RemovalExact(t, order, lo);
      assert FirstIndex(t, lo) == 0;
    }
  }

  lemma RowOrder(lo: int, live: seq<Chunk>, order: seq<int>)
    requires 0 < lo && |order| == |live|
    requires forall k :: 0 <= k < |live| ==> live[k] == Chunk(lo + 32 * k, 32) && order[k] == live[k].addr
    ensures SameBlocks(order, live)
  {
    forall a ensures a in order <==> HasBlock(live, a) {
      if HasBlock(live, a) {
        var k :| 0 <= k < |live| && live[k].addr == a;
        assert order[k] == a;
      }
    }
  }
}

/** The heap of heap_4.c seen as an interval of addresses [lo, hi), where hi is the
    address of the end marker.  The only abstract state is the address-ordered list of
    live blocks; the free list is *defined* to be the maximal gaps between them. */
module HeapGaps {

  const ALIGNMENT := 8
  const HEADER_SIZE := 16            // four 32-bit words, already a multiple of ALIGNMENT
  const TAIL_CANARY_SIZE := 4
  const MINIMUM_BLOCK_SIZE := 2 * HEADER_SIZE
  const ALLOCATED_BIT := 0x8000_0000

  datatype Chunk = Chunk(addr: int, size: int) {
    function End(): int { addr + size }
  }

  /** Live blocks: in address order, disjoint, and large enough for a header and a tail canary. */
  ghost predicate LiveOK(lo: int, live: seq<Chunk>, hi: int)
    decreases live
  {
    if live == [] then lo <= hi
    else
      && lo <= live[0].addr
      && live[0].size >= HEADER_SIZE + TAIL_CANARY_SIZE
      && LiveOK(live[0].End(), live[1..], hi)
  }

  function Gap(lo: int, hi: int): seq<Chunk> {
    if lo < hi then [Chunk(lo, hi - lo)] else []
  }

  /** The maximal gaps that `live` leaves in [lo, hi). */
  function Gaps(lo: int, live: seq<Chunk>, hi: int): seq<Chunk>
    decreases live
  {
    if live == [] then Gap(lo, hi)
    else Gap(lo, live[0].addr) + Gaps(live[0].End(), live[1..], hi)
  }

  function Total(cs: seq<Chunk>): int {
    if cs == [] then 0 else cs[0].size + Total(cs[1..])
  }

  ghost predicate Covers(cs: seq<Chunk>, a: int) {
    exists k :: 0 <= k < |cs| && cs[k].addr <= a < cs[k].End()
  }

  /** Address-ordered and never touching, inside [lo, hi). */
  ghost predicate Separated(lo: int, cs: seq<Chunk>, hi: int) {
    && (forall k :: 0 <= k < |cs| ==> lo <= cs[k].addr && 0 < cs[k].size && cs[k].End() <= hi)
    && (forall j, k :: 0 <= j < k < |cs| ==> cs[j].End() < cs[k].addr)
  }

  ghost predicate AlignedChunk(c: Chunk) {
    c.addr % ALIGNMENT == 0 && c.size % ALIGNMENT == 0
  }

  ghost predicate Aligned(cs: seq<Chunk>) {
    forall k :: 0 <= k < |cs| ==> AlignedChunk(cs[k])
  }

  /** Every free block can hold the header that the allocator writes into it. */
  ghost predicate HoldHeaders(cs: seq<Chunk>) {
    forall k :: 0 <= k < |cs| ==> HEADER_SIZE <= cs[k].size
  }

  lemma {:induction false} LiveBounds(lo: int, live: seq<Chunk>, hi: int)
    requires LiveOK(lo, live, hi)
    ensures lo <= hi
    ensures forall k :: 0 <= k < |live| ==>
      && lo <= live[k].addr && live[k].End() <= hi && live[k].size >= HEADER_SIZE + TAIL_CANARY_SIZE
    ensures forall j, k :: 0 <= j < k < |live| ==> live[j].End() <= live[k].addr
    decreases live
  {
    if live != [] {
      LiveBounds(live[0].End(), live[1..], hi);
      assert forall k :: 1 <= k < |live| ==> live[k] == live[1..][k - 1];
    }
  }

  /** The free list is strictly address-ordered and no two free blocks touch. */
  lemma {:induction false} GapsSeparated(lo: int, live: seq<Chunk>, hi: int)
    requires LiveOK(lo, live, hi)
    ensures Separated(lo, Gaps(lo, live, hi), hi)
    decreases live
  {
    LiveBounds(lo, live, hi);
    if live != [] {
      GapsSeparated(live[0].End(), live[1..], hi);
      var rest := Gaps(live[0].End(), live[1..], hi);
      var g := Gap(lo, live[0].addr);
      forall k | |g| <= k < |g| + |rest| ensures (g + rest)[k] == rest[k - |g|] {}
    }
  }

  /** Tiling: each address of [lo, hi) lies in a free block or in a live block, never both. */
  lemma {:induction false} GapsTile(lo: int, live: seq<Chunk>, hi: int, a: int)
    requires LiveOK(lo, live, hi)
    ensures Covers(Gaps(lo, live, hi), a) <==> lo <= a < hi && !Covers(live, a)
    decreases live
  {
    LiveBounds(lo, live, hi);
    if live == [] {
      assert Covers(Gap(lo, hi), a) <== lo <= a < hi by {
        if lo <= a < hi { assert Gap(lo, hi)[0].addr <= a < Gap(lo, hi)[0].End(); }
      }
    } else {
      var g, rest := Gap(lo, live[0].addr), Gaps(live[0].End(), live[1..], hi);
      GapsTile(live[0].End(), live[1..], hi, a);
      CoversConcat(g, rest, a);
      CoversConcat([live[0]], live[1..], a);
      assert [live[0]] + live[1..] == live;
      assert Covers([live[0]], a) <==> live[0].addr <= a < live[0].End() by {
        assert [live[0]][0] == live[0];
      }
      assert Covers(g, a) <==> lo <= a < live[0].addr by {
        if lo <= a < live[0].addr { assert g[0].addr <= a < g[0].End(); }
      }
      if Covers(live[1..], a) {
        var k :| 0 <= k < |live[1..]| && live[1..][k].addr <= a < live[1..][k].End();
        assert live[k + 1].addr <= a < live[k + 1].End();
      }
    }
  }

  lemma CoversConcat(s: seq<Chunk>, t: seq<Chunk>, a: int)
    ensures Covers(s + t, a) <==> Covers(s, a) || Covers(t, a)
  {
    if Covers(s, a) {
      var k :| 0 <= k < |s| && s[k].addr <= a < s[k].End();
      assert (s + t)[k] == s[k];
    }
    if Covers(t, a) {
      var k :| 0 <= k < |t| && t[k].addr <= a < t[k].End();
      assert (s + t)[|s| + k] == t[k];
    }
  }

  lemma {:induction false} TotalConcat(s: seq<Chunk>, t: seq<Chunk>)
    ensures Total(s + t) == Total(s) + Total(t)
  {
    if s == [] {
      assert s + t == t;
    } else {
      TotalConcat(s[1..], t);
      assert (s + t)[1..] == s[1..] + t;
    }
  }

  /** Conservation: free and live bytes always add up to the whole heap. */
  lemma {:induction false} GapsConserve(lo: int, live: seq<Chunk>, hi: int)
    requires LiveOK(lo, live, hi)
    ensures Total(Gaps(lo, live, hi)) + Total(live) == hi - lo
    decreases live
  {
    if live != [] {
      GapsConserve(live[0].End(), live[1..], hi);
      TotalConcat(Gap(lo, live[0].addr), Gaps(live[0].End(), live[1..], hi));
    }
  }

  lemma {:induction false} TotalBoundsEach(cs: seq<Chunk>, k: nat)
    requires k < |cs|
    requires forall j :: 0 <= j < |cs| ==> 0 < cs[j].size
    ensures cs[k].size <= Total(cs)
  {
    TotalNonNegative(cs[1..]);
    if k > 0 { TotalBoundsEach(cs[1..], k - 1); }
  }

  lemma {:induction false} TotalNonNegative(cs: seq<Chunk>)
    requires forall j :: 0 <= j < |cs| ==> 0 < cs[j].size
    ensures 0 <= Total(cs)
  {
    if cs != [] { TotalNonNegative(cs[1..]); }
  }

  // ---------------------------------------------------------------- allocation

  function InsertLive(live: seq<Chunk>, c: Chunk): seq<Chunk> {
    if live == [] || c.addr < live[0].addr then [c] + live
    else [live[0]] + InsertLive(live[1..], c)
  }

  lemma {:induction false} LiveAt(lo: int, live: seq<Chunk>, hi: int, k: nat)
    requires LiveOK(lo, live, hi) && k < |live|
    ensures lo <= live[k].addr && 0 < live[k].size && live[k].End() <= hi
    decreases live
  {
    LiveOrdered(lo, live, hi);
    if k > 0 { LiveAt(live[0].End(), live[1..], hi, k - 1); }
  }

  lemma {:induction false} LiveOrdered(lo: int, live: seq<Chunk>, hi: int)
    requires LiveOK(lo, live, hi)
    ensures lo <= hi
    ensures live != [] ==> live[0].End() <= hi
    decreases live
  {
    if live != [] { LiveOrdered(live[0].End(), live[1..], hi); }
  }

  lemma {:induction false} GapAt(lo: int, live: seq<Chunk>, hi: int, k: nat)
    requires LiveOK(lo, live, hi) && k < |Gaps(lo, live, hi)|
    ensures lo <= Gaps(lo, live, hi)[k].addr && 0 < Gaps(lo, live, hi)[k].size && Gaps(lo, live, hi)[k].End() <= hi
    decreases live
  {
    LiveOrdered(lo, live, hi);
    if live != [] {
      var g := Gap(lo, live[0].addr);
      if k >= |g| { GapAt(live[0].End(), live[1..], hi, k - |g|); }
    }
  }

  /** Carving the front of the i-th gap replaces that gap, in place, by what is left of it. */
  lemma {:induction false} CarveGap(lo: int, live: seq<Chunk>, hi: int, i: nat, taken: int)
    requires LiveOK(lo, live, hi)
    requires i < |Gaps(lo, live, hi)|
    requires HEADER_SIZE + TAIL_CANARY_SIZE <= taken <= Gaps(lo, live, hi)[i].size
    ensures LiveOK(lo, InsertLive(live, Chunk(Gaps(lo, live, hi)[i].addr, taken)), hi)
    ensures Gaps(lo, InsertLive(live, Chunk(Gaps(lo, live, hi)[i].addr, taken)), hi)
         == Carved(Gaps(lo, live, hi), i, taken)
    decreases live
  {
    var f := Gaps(lo, live, hi);
    var c := Chunk(f[i].addr, taken);
    GapAt(lo, live, hi, i);
    if live == [] {
      assert LiveOK(c.End(), [c][1..], hi);
      assert Gaps(lo, [c], hi) == Gap(lo, c.addr) + Gaps(c.End(), [c][1..], hi);
    } else {
      var g, rest := Gap(lo, live[0].addr), Gaps(live[0].End(), live[1..], hi);
      if i < |g| {
        assert f[..i] == [] && f[i + 1..] == rest;
        CarveFirst(c, live, hi);
      } else {
        var j := i - |g|;
        GapAt(live[0].End(), live[1..], hi, j);
        CarveGap(live[0].End(), live[1..], hi, j, taken);
        CarvedSkip(g, rest, j, taken);
        var tail := InsertLive(live[1..], c);
        assert ([live[0]] + tail)[1..] == tail;
      }
    }
  }

  function Carved(f: seq<Chunk>, i: nat, taken: int): seq<Chunk>
    requires i < |f|
  {
    f[..i] + Gap(f[i].addr + taken, f[i].End()) + f[i + 1..]
  }

  lemma CarvedSkip(g: seq<Chunk>, f: seq<Chunk>, j: nat, taken: int)
    requires j < |f|
    ensures Carved(g + f, |g| + j, taken) == g + Carved(f, j, taken)
  {
    assert (g + f)[..|g| + j] == g + f[..j];
    assert (g + f)[|g| + j + 1..] == f[j + 1..];
  }

  lemma CarveFirst(c: Chunk, live: seq<Chunk>, hi: int)
    requires live != [] && LiveOK(c.End(), live, hi)
    requires HEADER_SIZE + TAIL_CANARY_SIZE <= c.size
    ensures LiveOK(c.addr, [c] + live, hi)
    ensures Gaps(c.addr, [c] + live, hi)
         == Gap(c.End(), live[0].addr) + Gaps(live[0].End(), live[1..], hi)
  {
    assert ([c] + live)[1..] == live;
  }

  // ------------------------------------------------------------------- freeing

  /** Joins c with the chunk after it when they touch. */
  function JoinNext(c: Chunk, f: seq<Chunk>): seq<Chunk> {
    if f != [] && c.End() == f[0].addr then [Chunk(c.addr, c.size + f[0].size)] + f[1..] else [c] + f
  }

  /** Address-ordered insertion that coalesces with the neighbour on either side. */
  function InsertFree(f: seq<Chunk>, c: Chunk): seq<Chunk> {
    if f == [] || c.addr <= f[0].addr then JoinNext(c, f)
    else if f[0].End() == c.addr then JoinNext(Chunk(f[0].addr, f[0].size + c.size), f[1..])
    else [f[0]] + InsertFree(f[1..], c)
  }

  function RemoveAt(live: seq<Chunk>, k: nat): seq<Chunk>
    requires k < |live|
  {
    live[..k] + live[k + 1..]
  }

  /** Releasing a live block and coalescing gives exactly the gaps of the remaining live
      blocks: two-sided merging restores the canonical free list. */
  lemma {:induction false} ReleaseGap(lo: int, live: seq<Chunk>, hi: int, k: nat)
    requires LiveOK(lo, live, hi) && k < |live|
    ensures LiveOK(lo, RemoveAt(live, k), hi)
    ensures Gaps(lo, RemoveAt(live, k), hi) == InsertFree(Gaps(lo, live, hi), live[k])
    decreases live
  {
    var c := live[k];
    var rest := live[1..];
    if k == 0 {
      assert RemoveAt(live, 0) == rest;
      ReleaseFirst(lo, c, rest, hi);
    } else {
      ReleaseGap(live[0].End(), rest, hi, k - 1);
      LiveAt(live[0].End(), rest, hi, k - 1);
      assert RemoveAt(live, k) == [live[0]] + RemoveAt(rest, k - 1);
      assert RemoveAt(live, k)[1..] == RemoveAt(rest, k - 1);
      var g, f := Gap(lo, live[0].addr), Gaps(live[0].End(), rest, hi);
      if g != [] {
        assert (g + f)[0] == g[0] && (g + f)[1..] == f;
        assert InsertFree(g + f, c) == [g[0]] + InsertFree(f, c);
        assert [g[0]] == g;
      } else {
        assert g + f == f;
        assert Gaps(lo, RemoveAt(live, k), hi) == g + InsertFree(f, c);
      }
    }
  }

  lemma ReleaseFirst(lo: int, c: Chunk, rest: seq<Chunk>, hi: int)
    requires lo <= c.addr && c.size > 0 && LiveOK(c.End(), rest, hi)
    ensures LiveOK(lo, rest, hi)
    ensures Gaps(lo, rest, hi) == InsertFree(Gap(lo, c.addr) + Gaps(c.End(), rest, hi), c)
  {
    LiveOrdered(c.End(), rest, hi);
    var stop := if rest == [] then hi else rest[0].addr;
    var tail := if rest == [] then [] else Gaps(rest[0].End(), rest[1..], hi);
    if tail != [] { GapAt(rest[0].End(), rest[1..], hi, 0); }
    assert Gaps(c.End(), rest, hi) == Gap(c.End(), stop) + tail;
    assert Gaps(lo, rest, hi) == Gap(lo, stop) + tail;
    InsertBetween(lo, c, stop, tail);
  }

  lemma InsertBetween(lo: int, c: Chunk, stop: int, tail: seq<Chunk>)
    requires lo <= c.addr && c.size > 0 && c.End() <= stop
    requires tail != [] ==> stop < tail[0].addr
    ensures InsertFree(Gap(lo, c.addr) + (Gap(c.End(), stop) + tail), c) == Gap(lo, stop) + tail
  {
    hide InsertFree, JoinNext, Gap;
    var f := Gap(c.End(), stop) + tail;
    GapStarts(c, stop, tail);
    if lo < c.addr {
      var before := Chunk(lo, c.addr - lo);
      GapIs(lo, c.addr);
      InsertOnto(before, f, c);
      JoinGap(Chunk(lo, c.End() - lo), stop, tail);
    } else {
      GapIs(lo, c.addr);
      assert [] + f == f;
      InsertFirst(f, c);
      JoinGap(c, stop, tail);
    }
    GapIs(lo, stop);
  }

  lemma GapIs(lo: int, hi: int)
    ensures Gap(lo, hi) == if lo < hi then [Chunk(lo, hi - lo)] else []
  {}

  lemma GapStarts(c: Chunk, stop: int, tail: seq<Chunk>)
    requires c.size > 0 && c.End() <= stop && (tail != [] ==> stop < tail[0].addr)
    ensures var f := Gap(c.End(), stop) + tail;
      f == [] || c.addr < f[0].addr
  {}

  lemma InsertFirst(f: seq<Chunk>, c: Chunk)
    requires f == [] || c.addr < f[0].addr
    ensures InsertFree(f, c) == JoinNext(c, f)
  {}

  lemma InsertOnto(e: Chunk, f: seq<Chunk>, c: Chunk)
    requires e.addr < c.addr == e.End()
    ensures InsertFree([e] + f, c) == JoinNext(Chunk(e.addr, e.size + c.size), f)
  {
    assert ([e] + f)[1..] == f;
  }

  lemma JoinGap(c: Chunk, stop: int, tail: seq<Chunk>)
    requires c.End() <= stop
    requires tail != [] ==> stop < tail[0].addr
    ensures JoinNext(c, Gap(c.End(), stop) + tail) == [Chunk(c.addr, stop - c.addr)] + tail
  {
    var f := Gap(c.End(), stop) + tail;
    if c.End() < stop {
      assert f[0] == Chunk(c.End(), stop - c.End()) && f[1..] == tail;
    } else {
      assert f == tail;
    }
  }

  lemma GapAligned(lo: int, hi: int)
    requires lo % ALIGNMENT == 0 && hi % ALIGNMENT == 0
    ensures Aligned(Gap(lo, hi))
  {
    if lo < hi { assert Gap(lo, hi) == [Chunk(lo, hi - lo)] && (hi - lo) % ALIGNMENT == 0; }
  }

  lemma EndAligned(c: Chunk)
    requires AlignedChunk(c)
    ensures c.End() % ALIGNMENT == 0
  {}

  /** Every free block starts on, and spans a multiple of, the alignment. */
  lemma {:induction false} GapsAligned(lo: int, live: seq<Chunk>, hi: int)
    requires Aligned(live) && lo % ALIGNMENT == 0 && hi % ALIGNMENT == 0
    ensures Aligned(Gaps(lo, live, hi))
    decreases live
  {
    if live == [] {
      GapAligned(lo, hi);
    } else {
      assert AlignedChunk(live[0]);
      EndAligned(live[0]);
      GapAligned(lo, live[0].addr);
      GapsAligned(live[0].End(), live[1..], hi);
      AlignedConcat(Gap(lo, live[0].addr), Gaps(live[0].End(), live[1..], hi));
    }
  }

  lemma AlignedConcat(s: seq<Chunk>, t: seq<Chunk>)
    requires Aligned(s) && Aligned(t)
    ensures Aligned(s + t)
  {}

  /** No header address is both free and live. */
  lemma {:induction false} LiveNotFree(lo: int, live: seq<Chunk>, hi: int, j: nat, k: nat)
    requires LiveOK(lo, live, hi) && j < |live| && k < |Gaps(lo, live, hi)|
    ensures live[j].addr != Gaps(lo, live, hi)[k].addr
    ensures live[j].End() <= Gaps(lo, live, hi)[k].addr || Gaps(lo, live, hi)[k].End() <= live[j].addr
    decreases live
  {
    var g := Gap(lo, live[0].addr);
    GapAt(lo, live, hi, k);
    LiveAt(lo, live, hi, j);
    if k >= |g| {
      GapAt(live[0].End(), live[1..], hi, k - |g|);
      if j > 0 { LiveNotFree(live[0].End(), live[1..], hi, j - 1, k - |g|); }
    } else if j > 0 {
      LiveAt(live[0].End(), live[1..], hi, j - 1);
    }
  }

  lemma {:induction false} InsertLiveMembers(live: seq<Chunk>, c: Chunk)
    ensures |InsertLive(live, c)| == |live| + 1
    ensures forall x :: x in InsertLive(live, c) <==> x == c || x in live
    decreases live
  {
    if live != [] && c.addr >= live[0].addr { InsertLiveMembers(live[1..], c); }
  }
}

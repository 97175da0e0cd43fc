/** What the words of the heap represent: live blocks, their gaps as the free list, canaries and
    allocation records, and how each allocation or release moves from one such state to the next. */
module HeapState {
  import opened MachineWord
  import opened HeapGaps
  import opened HeapLinks
  import opened HeapLinking
  import opened AllocTable

  const NULL := 0
  const HEAD_CANARY_PATTERN := 0xABBA1234
  const TAIL_CANARY_PATTERN := 0xBAAD5678

  function AlignDown(a: int): int { a - a % ALIGNMENT }

  function AlignUp(a: int): int {
    if a % ALIGNMENT != 0 then AlignDown(a + (ALIGNMENT - 1)) else a
  }

  lemma AlignUpIs(a: int)
    ensures AlignUp(a) == if a % ALIGNMENT != 0 then AlignDown(a + (ALIGNMENT - 1)) else a
    ensures a <= AlignUp(a) < a + ALIGNMENT && AlignUp(a) % ALIGNMENT == 0
    ensures a - ALIGNMENT < AlignDown(a) <= a && AlignDown(a) % ALIGNMENT == 0
  {}

  function SetBit(x: int): int { if x < ALLOCATED_BIT then x + ALLOCATED_BIT else x }
  function ClearBit(x: int): int { if x < ALLOCATED_BIT then x else x - ALLOCATED_BIT }

  /** Header, payload and tail canary, rounded up to the alignment. */
  function RequestSize(wanted: int): int { AlignUp(wanted + HEADER_SIZE + TAIL_CANARY_SIZE) }

  /** Index of the lowest free block of at least `need` bytes, or the length if there is none. */
  function FirstFit(f: seq<Chunk>, need: int): (i: nat)
    ensures i <= |f|
    ensures i < |f| ==> f[i].size >= need
    ensures forall k :: 0 <= k < i ==> f[k].size < need
  {
    if f == [] || f[0].size >= need then 0 else 1 + FirstFit(f[1..], need)
  }

  /** How much of a free block is handed out: all of it unless the remainder is worth keeping. */
  function Taken(blockSize: int, need: int): int {
    if blockSize - need > MINIMUM_BLOCK_SIZE then need else blockSize
  }

  ghost predicate LiveHeaders(next: Words, size: Words, live: seq<Chunk>) {
    forall k :: 0 <= k < |live| ==>
      && live[k].addr in size && size[live[k].addr] == live[k].size + ALLOCATED_BIT
      && live[k].addr in next && next[live[k].addr] == NULL
  }

  /** The header words represent the live blocks, and the free list their gaps. */
  ghost predicate Structure(lo: int, hi: int, start: int, live: seq<Chunk>, next: Words, size: Words) {
    && LiveOK(lo, live, hi)
    && Seg(next, size, start, Gaps(lo, live, hi), hi)
    && hi in next && next[hi] == NULL && hi in size && size[hi] == 0
    && start in size && size[start] == 0
    && HoldHeaders(Gaps(lo, live, hi))
    && LiveHeaders(next, size, live)
  }

  /** Both canaries of every live block. */
  ghost predicate LiveCanaries(canary: Words, words: Words, live: seq<Chunk>) {
    forall k :: 0 <= k < |live| ==>
      && live[k].addr in canary && canary[live[k].addr] == HEAD_CANARY_PATTERN
      && live[k].End() - TAIL_CANARY_SIZE in words
      && words[live[k].End() - TAIL_CANARY_SIZE] == TAIL_CANARY_PATTERN
  }

  ghost predicate FreeCanaries(canary: Words, f: seq<Chunk>) {
    forall k :: 0 <= k < |f| ==> f[k].addr in canary && canary[f[k].addr] == HEAD_CANARY_PATTERN
  }

  ghost predicate HasBlock(live: seq<Chunk>, a: int) {
    exists k :: 0 <= k < |live| && live[k].addr == a
  }

  /** `order` names the live blocks, each once. */
  ghost predicate SameBlocks(order: seq<int>, live: seq<Chunk>) {
    && Entries(order) && |order| == |live|
    && forall a :: a in order <==> HasBlock(live, a)
  }

  function Min(a: int, b: int): int { if a < b then a else b }

  function Least(s: seq<int>): int
    requires s != []
  {
    if |s| == 1 then s[0] else Min(Least(s[..|s| - 1]), s[|s| - 1])
  }

  lemma {:induction false} LeastExact(s: seq<int>)
    requires s != []
    ensures Least(s) in s && forall k :: 0 <= k < |s| ==> Least(s) <= s[k]
  {
    if |s| > 1 {
      var rest := s[..|s| - 1];
      LeastExact(rest);
      assert s == rest + [s[|s| - 1]];
    }
  }

  /** Everything outside the free list and the inserted block keeps its header words. */
  ghost predicate Outside(m: Words, m': Words, start: int, f: seq<Chunk>, block: int) {
    forall a :: a in m && a != start && a != block && (forall k :: 0 <= k < |f| ==> f[k].addr != a)
      ==> a in m' && m'[a] == m[a]
  }

  lemma InitialRecords(canary: Words, words: Words, bytes: int)
    ensures LiveCanaries(canary, words, [])
    ensures Least([bytes]) == bytes
  {}

  /** The header words that prvHeapInit writes represent one free block. */
  lemma InitialStructure(lo: int, hi: int, start: int, next: Words, size: Words)
    requires lo + HEADER_SIZE <= hi && !(lo <= start <= hi)
    ensures Structure(lo, hi, start, [],
                      next[start := lo][hi := NULL][lo := hi], size[start := 0][hi := 0][lo := hi - lo])
    ensures Total(Gaps(lo, [], hi)) == hi - lo
  {
    var c := Chunk(lo, hi - lo);
    assert [c][1..] == [] && Gaps(lo, [], hi) == [c];
    assert Seg(next[start := lo][hi := NULL][lo := hi], size[start := 0][hi := 0][lo := hi - lo], lo, [], hi);
    assert Total([c]) == c.size + Total([]);
  }

  lemma CarvedHoldHeaders(f: seq<Chunk>, i: nat, taken: int)
    requires HoldHeaders(f) && i < |f|
    requires taken == f[i].size || taken + HEADER_SIZE <= f[i].size
    ensures HoldHeaders(Carved(f, i, taken))
  {}

  lemma LiveKeepHeaders(lo: int, hi: int, start: int, live: seq<Chunk>, next: Words, size: Words,
                        next': Words, size': Words, i: nat, extra: int)
    requires LiveOK(lo, live, hi) && LiveHeaders(next, size, live) && !(lo <= start <= hi)
    requires i < |Gaps(lo, live, hi)|
    requires Gaps(lo, live, hi)[i].addr <= extra < Gaps(lo, live, hi)[i].End()
    requires Outside(next, next', start, Gaps(lo, live, hi), extra)
    requires Outside(size, size', start, Gaps(lo, live, hi), extra)
    ensures LiveHeaders(next', size', live)
    ensures forall j :: 0 <= j < |live| ==> live[j].addr != Gaps(lo, live, hi)[i].addr
  {
    hide Gaps, LiveOK;
    forall j | 0 <= j < |live|
      ensures live[j].addr in next' && next'[live[j].addr] == next[live[j].addr]
      ensures live[j].addr in size' && size'[live[j].addr] == size[live[j].addr]
      ensures live[j].addr != Gaps(lo, live, hi)[i].addr
    {
      LiveAt(lo, live, hi, j);
      forall k | 0 <= k < |Gaps(lo, live, hi)| ensures Gaps(lo, live, hi)[k].addr != live[j].addr {
        LiveNotFree(lo, live, hi, j, k);
      }
      LiveNotFree(lo, live, hi, j, i);
    }
  }

  lemma LiveHeadersGrow(next: Words, size: Words, live: seq<Chunk>, c: Chunk)
    requires LiveHeaders(next, size, live)
    requires forall j :: 0 <= j < |live| ==> live[j].addr != c.addr
    ensures LiveHeaders(next[c.addr := NULL], size[c.addr := c.size + ALLOCATED_BIT], InsertLive(live, c))
  {
    InsertLiveMembers(live, c);
    var live' := InsertLive(live, c);
    forall k | 0 <= k < |live'|
      ensures live'[k] == c || (live'[k].addr != c.addr && live'[k].addr in size && live'[k].addr in next
        && size[live'[k].addr] == live'[k].size + ALLOCATED_BIT && next[live'[k].addr] == NULL)
    {
      assert live'[k] in live';
    }
  }

  lemma SegIgnores(next: Words, size: Words, start: int, f: seq<Chunk>, end: int, a: int, n: int, z: int)
    requires Seg(next, size, start, f, end) && a != start
    requires forall k :: 0 <= k < |f| ==> f[k].addr != a
    ensures Seg(next[a := n], size[a := z], start, f, end)
  {
    SegFrame(next, size, next[a := n], size[a := z], start, f, end);
  }

  lemma CarvedElsewhere(lo: int, f: seq<Chunk>, hi: int, i: nat, taken: int)
    requires Separated(lo, f, hi) && i < |f| && 0 < taken <= f[i].size
    ensures forall k :: 0 <= k < |Carved(f, i, taken)| ==> Carved(f, i, taken)[k].addr != f[i].addr
  {
    var m := Gap(f[i].addr + taken, f[i].End());
    var r := Carved(f, i, taken);
    forall k | 0 <= k < |r| ensures r[k].addr != f[i].addr {
      if k >= i + |m| { assert r[k] == f[k - |m| + 1]; }
    }
  }

  /** After relinking, marking the carved block allocated re-establishes the structure. */
  lemma FinishTake(lo: int, hi: int, start: int, live: seq<Chunk>, next0: Words, size0: Words,
                   next: Words, size: Words, i: nat, taken: int, extra: int)
    requires Structure(lo, hi, start, live, next0, size0) && !(lo <= start <= hi)
    requires i < |Gaps(lo, live, hi)|
    requires var b := Gaps(lo, live, hi)[i];
      && HEADER_SIZE + TAIL_CANARY_SIZE <= taken <= b.size && (taken == b.size || taken + HEADER_SIZE <= b.size)
      && b.addr <= extra < b.End()
    requires Seg(next, size, start, Carved(Gaps(lo, live, hi), i, taken), hi)
    requires Outside(next0, next, start, Gaps(lo, live, hi), extra)
    requires Outside(size0, size, start, Gaps(lo, live, hi), extra)
    requires start in size && size[start] == 0
    ensures var c := Chunk(Gaps(lo, live, hi)[i].addr, taken);
      Structure(lo, hi, start, InsertLive(live, c), next[c.addr := NULL], size[c.addr := taken + ALLOCATED_BIT])
  {
    hide Gaps, LiveOK, Seg, Carved, HoldHeaders, LiveHeaders, Separated;
    var f := Gaps(lo, live, hi);
    var c := Chunk(f[i].addr, taken);
    GapsSeparated(lo, live, hi);
    GapAt(lo, live, hi, i);
    CarveGap(lo, live, hi, i, taken);
    CarvedHoldHeaders(f, i, taken);
    CarvedElsewhere(lo, f, hi, i, taken);
    SegIgnores(next, size, start, Carved(f, i, taken), hi, c.addr, NULL, taken + ALLOCATED_BIT);
    LiveKeepHeaders(lo, hi, start, live, next0, size0, next, size, i, extra);
    LiveHeadersGrow(next, size, live, c);
    EndKept(lo, live, hi, start, next0, next, extra);
    EndKept(lo, live, hi, start, size0, size, extra);
  }

  lemma EndKept(lo: int, live: seq<Chunk>, hi: int, start: int, m: Words, m': Words, extra: int)
    requires LiveOK(lo, live, hi) && hi in m && start != hi && extra != hi
    requires Outside(m, m', start, Gaps(lo, live, hi), extra)
    ensures hi in m' && m'[hi] == m[hi]
  {
    forall k | 0 <= k < |Gaps(lo, live, hi)| ensures Gaps(lo, live, hi)[k].addr != hi {
      GapAt(lo, live, hi, k);
    }
  }

  lemma TakeFacts(lo: int, live: seq<Chunk>, hi: int, start: int, next: Words, size: Words, i: nat)
    requires LiveOK(lo, live, hi) && !(lo <= start <= hi)
    requires Seg(next, size, start, Gaps(lo, live, hi), hi) && i < |Gaps(lo, live, hi)|
    ensures var f := Gaps(lo, live, hi);
      var prev := LastNode(start, f[..i]);
      && Separated(lo, f, hi) && lo <= f[i].addr && f[i].End() <= hi
      && prev in next && f[i].addr in next && f[i].addr in size && size[f[i].addr] == f[i].size
      && (prev == start || exists k :: 0 <= k < |f| && f[k].addr == prev)
      && Seg(next[prev := next[f[i].addr]], size, start, f[..i] + f[i + 1..], hi)
  {
    hide Seg, LiveOK, Gaps;
    var f := Gaps(lo, live, hi);
    GapsSeparated(lo, live, hi);
    SeparatedDistinct(lo, f, hi, start);
    Unlink(next, size, start, f, i, hi);
    if i > 0 { assert f[..i][|f[..i]| - 1] == f[i - 1]; }
  }

  /** The same, from the represented structure. */
  lemma TakeStart(lo: int, live: seq<Chunk>, hi: int, start: int, next: Words, size: Words, i: nat)
    requires Structure(lo, hi, start, live, next, size) && !(lo <= start <= hi) && i < |Gaps(lo, live, hi)|
    ensures var f := Gaps(lo, live, hi);
      var prev := LastNode(start, f[..i]);
      && Separated(lo, f, hi) && lo <= f[i].addr && f[i].End() <= hi
      && prev in next && f[i].addr in next && f[i].addr in size && size[f[i].addr] == f[i].size
      && (prev == start || exists k :: 0 <= k < |f| && f[k].addr == prev)
      && Seg(next[prev := next[f[i].addr]], size, start, f[..i] + f[i + 1..], hi)
      && start in size && size[start] == 0 && hi in size
  {
    hide Seg, Gaps, LiveOK, LastNode, Separated, HoldHeaders, LiveHeaders;
    TakeFacts(lo, live, hi, start, next, size, i);
  }

  lemma SplitFacts(next: Words, size: Words, start: int, lo: int, f: seq<Chunk>, hi: int, i: nat, want: int)
    requires i < |f| && Separated(lo, f, hi) && !(lo <= start <= hi)
    requires 0 < want < f[i].size
    requires Seg(next, size, start, f[..i] + f[i + 1..], hi)
    ensures var g := f[..i] + f[i + 1..];
      var rest := Chunk(f[i].addr + want, f[i].size - want);
      && Separated(lo, g, hi) && Apart(g, rest) && (forall k :: 0 <= k < |g| ==> g[k].addr != f[i].addr)
      && Seg(next, size[rest.addr := rest.size][f[i].addr := want], start, g, hi)
      && InsertFree(g, rest) == Carved(f, i, want)
  {
    hide InsertFree;
    var g := f[..i] + f[i + 1..];
    var rest := Chunk(f[i].addr + want, f[i].size - want);
    SeparatedWithout(lo, f, hi, i);
    ReturnRest(lo, f, hi, i, rest);
    assert Gap(rest.addr, f[i].End()) == [rest];
    SegFrame(next, size, next, size[rest.addr := rest.size][f[i].addr := want], start, g, hi);
  }

  lemma WholeBlock(f: seq<Chunk>, i: nat)
    requires i < |f|
    ensures Carved(f, i, f[i].size) == f[..i] + f[i + 1..]
  {}

  lemma OutsideAfter(m0: Words, m1: Words, m2: Words, start: int, f: seq<Chunk>, i: nat, a: int)
    requires i < |f| && Outside(m0, m1, start, f, a) && Outside(m1, m2, start, f[..i] + f[i + 1..], a)
    ensures Outside(m0, m2, start, f, a)
  {
    var g := f[..i] + f[i + 1..];
    forall k | 0 <= k < |g| ensures exists j :: 0 <= j < |f| && g[k].addr == f[j].addr {
      assert g[k] == if k < i then f[k] else f[k + 1];
    }
  }

  lemma {:induction false} InsertLiveTotal(live: seq<Chunk>, c: Chunk)
    ensures Total(InsertLive(live, c)) == Total(live) + c.size
    decreases live
  {
    if live == [] || c.addr < live[0].addr {
      assert ([c] + live)[1..] == live;
    } else {
      InsertLiveTotal(live[1..], c);
      assert InsertLive(live, c)[1..] == InsertLive(live[1..], c);
    }
  }

  lemma LeastSnoc(h: seq<int>, x: int)
    requires h != []
    ensures Least(h + [x]) == Min(Least(h), x)
  {
    assert (h + [x])[..|h|] == h;
  }

  /** The request arithmetic never wraps, and rounds up to an aligned size above header and canary. */
  lemma RequestExact(wanted: int)
    requires 0 < wanted < ALLOCATED_BIT
    ensures var w := Add32(Add32(wanted, HEADER_SIZE), TAIL_CANARY_SIZE);
      && w == wanted + HEADER_SIZE + TAIL_CANARY_SIZE
      && RequestSize(wanted) == (if w % ALIGNMENT != 0 then Add32(w, ALIGNMENT - w % ALIGNMENT) else w)
    ensures RequestSize(wanted) % ALIGNMENT == 0
    ensures wanted + HEADER_SIZE + TAIL_CANARY_SIZE <= RequestSize(wanted)
    ensures RequestSize(wanted) < wanted + HEADER_SIZE + TAIL_CANARY_SIZE + ALIGNMENT
  {
    hide Add32, AlignUp;
    var w := wanted + HEADER_SIZE + TAIL_CANARY_SIZE;
    NoWrap(wanted, HEADER_SIZE);
    NoWrap(wanted + HEADER_SIZE, TAIL_CANARY_SIZE);
    AlignUpIs(w);
    UpByRest(w);
    if w % ALIGNMENT != 0 { NoWrap(w, ALIGNMENT - w % ALIGNMENT); }
  }

  lemma NoWrap(a: int, b: int)
    requires 0 <= a && 0 <= b && a + b < WORD_LIMIT
    ensures Add32(a, b) == a + b
  {}

  lemma UpByRest(w: int)
    ensures AlignUp(w) == if w % ALIGNMENT != 0 then w + (ALIGNMENT - w % ALIGNMENT) else w
  {}

  lemma AlignedGrow(live: seq<Chunk>, c: Chunk)
    requires Aligned(live) && AlignedChunk(c)
    ensures Aligned(InsertLive(live, c))
  {
    InsertLiveMembers(live, c);
    forall k | 0 <= k < |InsertLive(live, c)| ensures AlignedChunk(InsertLive(live, c)[k]) {
      assert InsertLive(live, c)[k] in InsertLive(live, c);
    }
  }

  /** What the search relies on: addresses strictly between null and the end marker, sizes bounded by the total. */
  lemma FreeFacts(lo: int, live: seq<Chunk>, hi: int)
    requires LiveOK(lo, live, hi) && 0 < lo && Aligned(live) && lo % ALIGNMENT == 0 && hi % ALIGNMENT == 0
    ensures forall k :: 0 <= k < |Gaps(lo, live, hi)| ==>
      && 0 < Gaps(lo, live, hi)[k].addr < hi && Gaps(lo, live, hi)[k].size <= Total(Gaps(lo, live, hi))
      && AlignedChunk(Gaps(lo, live, hi)[k])
  {
    GapsSeparated(lo, live, hi);
    GapsAligned(lo, live, hi);
    forall k | 0 <= k < |Gaps(lo, live, hi)|
      ensures Gaps(lo, live, hi)[k].size <= Total(Gaps(lo, live, hi))
    {
      TotalBoundsEach(Gaps(lo, live, hi), k);
    }
  }

  /** A request can be met: it is non-zero, has the top bit clear, and some free block holds it. */
  ghost predicate Satisfiable(f: seq<Chunk>, wanted: int) {
    && 0 < wanted < ALLOCATED_BIT
    && exists k :: 0 <= k < |f| && RequestSize(wanted) <= f[k].size
  }

  /** The lowest adequate free block was used.  If it exceeds the request by more than the smallest block
      worth keeping, its front of exactly the request became live and the rest stayed free in place;
      otherwise all of it became live. */
  ghost predicate Allocated(live: seq<Chunk>, live': seq<Chunk>, f: seq<Chunk>, f': seq<Chunk>, need: int, pv: int) {
    var i := FirstFit(f, need);
    && i < |f| && pv == f[i].addr + HEADER_SIZE
    && var surplus := f[i].size - need;
      if surplus > MINIMUM_BLOCK_SIZE then
        && live' == InsertLive(live, Chunk(f[i].addr, need))
        && f' == f[..i] + [Chunk(f[i].addr + need, surplus)] + f[i + 1..]
      else
        live' == InsertLive(live, f[i]) && f' == f[..i] + f[i + 1..]
  }

  lemma AllocatedIs(live: seq<Chunk>, f: seq<Chunk>, i: nat, need: int)
    requires i < |f| && i == FirstFit(f, need)
    ensures var taken := Taken(f[i].size, need);
      Allocated(live, InsertLive(live, Chunk(f[i].addr, taken)), f, Carved(f, i, taken), need, f[i].addr + HEADER_SIZE)
  {
    hide InsertLive, FirstFit;
  }

  lemma AllocateFacts(lo: int, live: seq<Chunk>, hi: int, i: nat, taken: int)
    requires LiveOK(lo, live, hi) && i < |Gaps(lo, live, hi)| && Aligned(live)
    requires HEADER_SIZE + TAIL_CANARY_SIZE <= taken <= Gaps(lo, live, hi)[i].size && taken % ALIGNMENT == 0
    requires Gaps(lo, live, hi)[i].addr % ALIGNMENT == 0
    ensures var c := Chunk(Gaps(lo, live, hi)[i].addr, taken);
      && Aligned(InsertLive(live, c))
      && Gaps(lo, InsertLive(live, c), hi) == Carved(Gaps(lo, live, hi), i, taken)
      && Total(Gaps(lo, InsertLive(live, c), hi)) == Total(Gaps(lo, live, hi)) - taken
      && (c.addr + HEADER_SIZE) % ALIGNMENT == 0
  {
    hide Gaps, LiveOK, Total, Carved, Aligned, InsertLive;
    var c := Chunk(Gaps(lo, live, hi)[i].addr, taken);
    CarveGap(lo, live, hi, i, taken);
    AlignedGrow(live, c);
    GapsConserve(lo, live, hi);
    GapsConserve(lo, InsertLive(live, c), hi);
    InsertLiveTotal(live, c);
  }

  lemma HasBlockInsert(live: seq<Chunk>, c: Chunk, a: int)
    ensures HasBlock(InsertLive(live, c), a) <==> a == c.addr || HasBlock(live, a)
  {
    InsertLiveMembers(live, c);
    var live' := InsertLive(live, c);
    assert c in live';
    if HasBlock(live, a) {
      var k :| 0 <= k < |live| && live[k].addr == a;
      assert live[k] in live';
    }
    if HasBlock(live', a) {
      var k :| 0 <= k < |live'| && live'[k].addr == a;
      assert live'[k] in live';
    }
  }

  lemma OrderGrow(order: seq<int>, live: seq<Chunk>, c: Chunk)
    requires SameBlocks(order, live) && !HasBlock(live, c.addr) && c.addr != 0
    ensures SameBlocks(order + [c.addr], InsertLive(live, c))
  {
    hide HasBlock;
    InsertLiveMembers(live, c);
    var order' := order + [c.addr];
    forall k | 0 <= k < |order| ensures order[k] != c.addr { assert order[k] in order; }
    forall a ensures a in order' <==> HasBlock(InsertLive(live, c), a) {
      HasBlockInsert(live, c, a);
    }
  }

  /** The carved block was not live before: it started inside a gap. */
  lemma CarvedIsNew(lo: int, live: seq<Chunk>, hi: int, i: nat)
    requires LiveOK(lo, live, hi) && i < |Gaps(lo, live, hi)|
    ensures !HasBlock(live, Gaps(lo, live, hi)[i].addr)
  {
    hide Gaps, LiveOK;
    forall k | 0 <= k < |live| ensures live[k].addr != Gaps(lo, live, hi)[i].addr {
      LiveNotFree(lo, live, hi, k, i);
    }
  }

  lemma FreeNotLive(lo: int, live: seq<Chunk>, hi: int, c: Chunk)
    requires LiveOK(lo, live, hi) && c in live
    ensures forall k :: 0 <= k < |Gaps(lo, live, hi)| ==> Gaps(lo, live, hi)[k].addr != c.addr
  {
    hide Gaps, LiveOK;
    var j :| 0 <= j < |live| && live[j] == c;
    forall k | 0 <= k < |Gaps(lo, live, hi)| ensures Gaps(lo, live, hi)[k].addr != c.addr {
      LiveNotFree(lo, live, hi, j, k);
    }
  }

  /** Stamping the new block and the free headers leaves every live block with both canaries. */
  lemma CanariesGrow(lo: int, hi: int, start: int, live: seq<Chunk>, c: Chunk,
                     canary: Words, canary': Words, words: Words)
    requires LiveOK(lo, InsertLive(live, c), hi) && !(lo <= start <= hi)
    requires LiveCanaries(canary, words, live)
    requires c.addr in canary' && canary'[c.addr] == HEAD_CANARY_PATTERN
    requires Outside(canary, canary', start, Gaps(lo, InsertLive(live, c), hi), c.addr)
    ensures LiveCanaries(canary', words[c.End() - TAIL_CANARY_SIZE := TAIL_CANARY_PATTERN], InsertLive(live, c))
  {
    hide Gaps, LiveOK, InsertLive;
    var live' := InsertLive(live, c);
    InsertLiveMembers(live, c);
    assert c in live';
    var j :| 0 <= j < |live'| && live'[j] == c;
    LiveBounds(lo, live', hi);
    forall k | 0 <= k < |live'| && k != j
      ensures live'[k].addr in canary' && canary'[live'[k].addr] == HEAD_CANARY_PATTERN
      ensures live'[k].End() - TAIL_CANARY_SIZE in words
      ensures words[live'[k].End() - TAIL_CANARY_SIZE] == TAIL_CANARY_PATTERN
      ensures live'[k].End() != c.End()
    {
      assert live'[k] in live';
      FreeNotLive(lo, live', hi, live'[k]);
    }
  }

  lemma OrderTable(t: seq<int>, order: seq<int>, live: seq<Chunk>, p: int)
    requires Holds(t, order) && SameBlocks(order, live) && p != 0 && |live| < SLOTS
    ensures Holds(Added(t, p), order + [p])
  {
    AdditionExact(t, order, p);
  }

  ghost function IndexOf(live: seq<Chunk>, a: int): (k: nat)
    requires HasBlock(live, a)
    ensures k < |live| && live[k].addr == a
  {
    var k :| 0 <= k < |live| && live[k].addr == a;
    k
  }

  lemma {:induction false} InsertFreeHolds(f: seq<Chunk>, c: Chunk)
    requires HoldHeaders(f) && HEADER_SIZE <= c.size
    ensures HoldHeaders(InsertFree(f, c))
    decreases f
  {
    if f == [] || c.addr <= f[0].addr || f[0].End() == c.addr {
    } else {
      InsertFreeHolds(f[1..], c);
    }
  }

  lemma RemoveTotal(live: seq<Chunk>, k: nat)
    requires k < |live|
    ensures Total(RemoveAt(live, k)) == Total(live) - live[k].size
  {
    var tail := live[k..];
    assert live == live[..k] + tail && tail[1..] == live[k + 1..];
    TotalConcat(live[..k], tail);
    TotalConcat(live[..k], live[k + 1..]);
  }

  lemma LeastIsAtMostLast(h: seq<int>)
    requires h != []
    ensures Least(h) <= h[|h| - 1]
  {}

  lemma ReleaseLiveHeaders(lo: int, hi: int, start: int, live: seq<Chunk>, next: Words, size: Words,
                           next': Words, size': Words, k: nat)
    requires LiveOK(lo, live, hi) && LiveHeaders(next, size, live) && !(lo <= start <= hi) && k < |live|
    requires Outside(next, next', start, Gaps(lo, live, hi), live[k].addr)
    requires Outside(size, size', start, Gaps(lo, live, hi), live[k].addr)
    ensures LiveHeaders(next', size', RemoveAt(live, k))
  {
    hide Gaps, LiveOK;
    LiveBounds(lo, live, hi);
    forall j | 0 <= j < |live| && j != k
      ensures live[j].addr in next' && next'[live[j].addr] == NULL
      ensures live[j].addr in size' && size'[live[j].addr] == live[j].size + ALLOCATED_BIT
    {
      FreeNotLive(lo, live, hi, live[j]);
      assert live[j].addr != live[k].addr;
    }
    var rest := RemoveAt(live, k);
    forall j | 0 <= j < |rest| ensures rest[j] == if j < k then live[j] else live[j + 1] {}
  }

  /** Relinking a released block re-establishes the structure without it. */
  lemma ReleaseStructure(lo: int, hi: int, start: int, live: seq<Chunk>, next0: Words, size0: Words,
                         next: Words, size: Words, k: nat)
    requires Structure(lo, hi, start, live, next0, size0) && !(lo <= start <= hi) && k < |live|
    requires Seg(next, size, start, InsertFree(Gaps(lo, live, hi), live[k]), hi)
    requires Outside(next0, next, start, Gaps(lo, live, hi), live[k].addr)
    requires Outside(size0, size, start, Gaps(lo, live, hi), live[k].addr)
    requires start in size && size[start] == 0
    ensures Structure(lo, hi, start, RemoveAt(live, k), next, size)
    ensures Gaps(lo, RemoveAt(live, k), hi) == InsertFree(Gaps(lo, live, hi), live[k])
    ensures Total(Gaps(lo, RemoveAt(live, k), hi)) == Total(Gaps(lo, live, hi)) + live[k].size
  {
    hide Gaps, LiveOK, Seg, InsertFree, HoldHeaders, LiveHeaders, RemoveAt, Total;
    ReleaseGap(lo, live, hi, k);
    LiveAt(lo, live, hi, k);
    LargeEnough(lo, live, hi, k);
    InsertFreeHolds(Gaps(lo, live, hi), live[k]);
    ReleaseLiveHeaders(lo, hi, start, live, next0, size0, next, size, k);
    EndKept(lo, live, hi, start, next0, next, live[k].addr);
    EndKept(lo, live, hi, start, size0, size, live[k].addr);
    GapsConserve(lo, live, hi);
    GapsConserve(lo, RemoveAt(live, k), hi);
    RemoveTotal(live, k);
  }

  lemma LargeEnough(lo: int, live: seq<Chunk>, hi: int, k: nat)
    requires LiveOK(lo, live, hi) && k < |live|
    ensures HEADER_SIZE + TAIL_CANARY_SIZE <= live[k].size
  {
    LiveBounds(lo, live, hi);
  }

  /** The released block overlaps no free block. */
  lemma LiveApart(lo: int, live: seq<Chunk>, hi: int, k: nat)
    requires LiveOK(lo, live, hi) && k < |live|
    ensures Apart(Gaps(lo, live, hi), live[k])
    ensures forall j :: 0 <= j < |Gaps(lo, live, hi)| ==> Gaps(lo, live, hi)[j].addr != live[k].addr
  {
    hide Gaps, LiveOK;
    forall j | 0 <= j < |Gaps(lo, live, hi)|
      ensures Gaps(lo, live, hi)[j].addr != live[k].addr
      ensures Gaps(lo, live, hi)[j].End() <= live[k].addr || live[k].End() <= Gaps(lo, live, hi)[j].addr
    {
      LiveNotFree(lo, live, hi, k, j);
    }
  }

  lemma WithoutMembers(order: seq<int>, p: int, a: int)
    requires Entries(order) && p in order
    ensures a in Without(order, p) <==> a in order && a != p
    ensures Entries(Without(order, p)) && |Without(order, p)| == |order| - 1
  {
    var j, rest := FirstIndex(order, p), Without(order, p);
    assert forall i :: 0 <= i < |rest| ==> rest[i] == if i < j then order[i] else order[i + 1];
    assert order[j] == p;
    if a in order && a != p {
      var m :| 0 <= m < |order| && order[m] == a;
      assert rest[if m < j then m else m - 1] == a;
    }
  }

  lemma HasBlockRemove(lo: int, live: seq<Chunk>, hi: int, k: nat, a: int)
    requires LiveOK(lo, live, hi) && k < |live|
    ensures HasBlock(RemoveAt(live, k), a) <==> HasBlock(live, a) && a != live[k].addr
  {
    hide LiveOK;
    LiveBounds(lo, live, hi);
    var rest := RemoveAt(live, k);
    assert forall i :: 0 <= i < |rest| ==> rest[i] == if i < k then live[i] else live[i + 1];
    if HasBlock(live, a) && a != live[k].addr {
      var m :| 0 <= m < |live| && live[m].addr == a;
      assert rest[if m < k then m else m - 1] == live[m];
    }
    if HasBlock(rest, a) {
      var i :| 0 <= i < |rest| && rest[i].addr == a;
      assert live[if i < k then i else i + 1].addr == a;
    }
  }

  lemma OrderShrink(lo: int, hi: int, order: seq<int>, live: seq<Chunk>, k: nat)
    requires SameBlocks(order, live) && LiveOK(lo, live, hi) && k < |live|
    ensures SameBlocks(Without(order, live[k].addr), RemoveAt(live, k))
  {
    hide LiveOK, Without, RemoveAt, Entries;
    var p := live[k].addr;
    assert HasBlock(live, p);
    RemoveLength(live, k);
    WithoutMembers(order, p, p);
    forall a ensures a in Without(order, p) <==> HasBlock(RemoveAt(live, k), a) {
      WithoutMembers(order, p, a);
      HasBlockRemove(lo, live, hi, k, a);
    }
  }

  lemma CanariesShrink(lo: int, hi: int, start: int, live: seq<Chunk>, k: nat, f: seq<Chunk>,
                       canary: Words, canary': Words, words: Words)
    requires LiveOK(lo, live, hi) && !(lo <= start <= hi) && k < |live|
    requires LiveCanaries(canary, words, live)
    requires f == Gaps(lo, RemoveAt(live, k), hi) && LiveOK(lo, RemoveAt(live, k), hi)
    requires Outside(canary, canary', start, f, start)
    ensures LiveCanaries(canary', words, RemoveAt(live, k))
  {
    hide LiveOK, Gaps;
    var rest := RemoveAt(live, k);
    LiveBounds(lo, live, hi);
    forall j | 0 <= j < |rest|
      ensures rest[j].addr in canary' && canary'[rest[j].addr] == HEAD_CANARY_PATTERN
      ensures rest[j].End() - TAIL_CANARY_SIZE in words
      ensures words[rest[j].End() - TAIL_CANARY_SIZE] == TAIL_CANARY_PATTERN
    {
      assert rest[j] == if j < k then live[j] else live[j + 1];
      FreeNotLive(lo, rest, hi, rest[j]);
    }
  }

  lemma TableShrink(t: seq<int>, order: seq<int>, live: seq<Chunk>, p: int)
    requires Holds(t, order) && SameBlocks(order, live) && HasBlock(live, p) && |live| < SLOTS
    ensures Holds(Removed(t, p), Without(order, p))
  {
    assert p in order;
    RemovalExact(t, order, p);
  }

  lemma RemoveLength(live: seq<Chunk>, k: nat)
    requires k < |live|
    ensures |RemoveAt(live, k)| == |live| - 1
  {}

  lemma AlignedShrink(live: seq<Chunk>, k: nat)
    requires Aligned(live) && k < |live|
    ensures Aligned(RemoveAt(live, k))
  {}

  lemma OutsideUpdate(m0: Words, m: Words, start: int, f: seq<Chunk>, a: int, v: int)
    requires Outside(m0[a := v], m, start, f, a)
    ensures Outside(m0, m, start, f, a)
  {}

  // --------------------------------------------------------------------- block layout

  ghost predicate InHeader(c: Chunk, a: int) { c.addr <= a < c.addr + HEADER_SIZE }
  ghost predicate InPayload(c: Chunk, a: int) { c.addr + HEADER_SIZE <= a < c.End() - TAIL_CANARY_SIZE }
  ghost predicate InTail(c: Chunk, a: int) { c.End() - TAIL_CANARY_SIZE <= a < c.End() }

  /** A payload byte belongs to no header, no tail canary, no other payload, and not to the end marker. */
  lemma PayloadDisjoint(lo: int, live: seq<Chunk>, hi: int, i: nat, a: int)
    requires LiveOK(lo, live, hi) && HoldHeaders(Gaps(lo, live, hi)) && i < |live| && InPayload(live[i], a)
    ensures forall k :: 0 <= k < |live| ==> !InHeader(live[k], a) && !InTail(live[k], a)
    ensures forall k :: 0 <= k < |live| && InPayload(live[k], a) ==> k == i
    ensures forall k :: 0 <= k < |Gaps(lo, live, hi)| ==> !InHeader(Gaps(lo, live, hi)[k], a)
    ensures lo <= a < hi
  {
    hide Gaps, LiveOK;
    LiveBounds(lo, live, hi);
    forall k | 0 <= k < |live| && k != i ensures live[k].End() <= a || a < live[k].addr {
      assert if k < i then live[k].End() <= live[i].addr else live[i].End() <= live[k].addr;
    }
    forall k | 0 <= k < |Gaps(lo, live, hi)| ensures !InHeader(Gaps(lo, live, hi)[k], a) {
      LiveNotFree(lo, live, hi, i, k);
    }
  }

  lemma PayloadApart(lo: int, live: seq<Chunk>, hi: int, i: nat, a: int)
    requires LiveOK(lo, live, hi) && i < |live|
    requires live[i].addr + HEADER_SIZE <= a && a + 4 <= live[i].End() - TAIL_CANARY_SIZE
    ensures forall k :: 0 <= k < |live| ==> live[k].End() - TAIL_CANARY_SIZE != a
  {
    hide LiveOK;
    LiveBounds(lo, live, hi);
    forall k | 0 <= k < |live| && k != i ensures live[k].End() <= live[i].addr || live[i].End() <= live[k].addr {}
  }

  // Where the fields of a header lie: head_canary, pxNextFreeBlock, xBlockSize, xOwner.
  const CANARY_OFFSET := 0
  const NEXT_OFFSET := 4
  const SIZE_OFFSET := 8

  /** A word of one block's payload is no header field of the blocks of cs. */
  ghost predicate Clear(cs: seq<Chunk>, a: int) {
    forall k :: 0 <= k < |cs| ==> !InHeader(cs[k], a)
  }

  lemma {:induction false} SegClear(next: Words, size: Words, from: int, f: seq<Chunk>, to: int, a: int, v: int)
    requires Seg(next, size, from, f, to) && Clear(f, a) && from != a - NEXT_OFFSET
    ensures Seg(next[a - NEXT_OFFSET := v], size[a - SIZE_OFFSET := v], from, f, to)
    decreases f
  {
    if f != [] {
      assert !InHeader(f[0], a);
      assert forall k :: 0 <= k < |f| - 1 ==> f[1..][k] == f[k + 1];
      SegClear(next, size, f[0].addr, f[1..], to, a, v);
    }
  }

  /** Writing a payload word leaves the block structure intact. */
  lemma WriteKeepsStructure(lo: int, hi: int, start: int, live: seq<Chunk>, next: Words, size: Words,
                            i: nat, a: int, v: int)
    requires Structure(lo, hi, start, live, next, size) && i < |live|
    requires start + HEADER_SIZE <= lo || hi < start
    requires live[i].addr + HEADER_SIZE <= a && a + 4 <= live[i].End() - TAIL_CANARY_SIZE
    ensures Structure(lo, hi, start, live, next[a - NEXT_OFFSET := v], size[a - SIZE_OFFSET := v])
  {
    hide Gaps, LiveOK, Seg, HoldHeaders, InPayload, InTail;
    InPayloadIs(live[i], a);
    PayloadDisjoint(lo, live, hi, i, a);
    SegClear(next, size, start, Gaps(lo, live, hi), hi, a, v);
    forall k | 0 <= k < |live|
      ensures live[k].addr != a - NEXT_OFFSET && live[k].addr != a - SIZE_OFFSET
    {
      assert !InHeader(live[k], a);
    }
  }

  lemma InPayloadIs(c: Chunk, a: int)
    ensures InPayload(c, a) <==> c.addr + HEADER_SIZE <= a < c.End() - TAIL_CANARY_SIZE
  {}

  /** Nor does it touch a canary that matters. */
  lemma WriteKeepsCanaries(lo: int, live: seq<Chunk>, hi: int, canary: Words, words: Words, i: nat, a: int, v: int)
    requires LiveOK(lo, live, hi) && HoldHeaders(Gaps(lo, live, hi)) && i < |live|
    requires live[i].addr + HEADER_SIZE <= a && a + 4 <= live[i].End() - TAIL_CANARY_SIZE
    ensures LiveCanaries(canary, words, live) ==> LiveCanaries(canary[a - CANARY_OFFSET := v], words[a := v], live)
    ensures FreeCanaries(canary, Gaps(lo, live, hi)) ==>
      FreeCanaries(canary[a - CANARY_OFFSET := v], Gaps(lo, live, hi))
  {
    hide Gaps, LiveOK, HoldHeaders, InTail;
    PayloadDisjoint(lo, live, hi, i, a);
    PayloadApart(lo, live, hi, i, a);
    forall k | 0 <= k < |live| ensures live[k].addr != a {
      assert !InHeader(live[k], a);
      LiveAt(lo, live, hi, k);
    }
    var f := Gaps(lo, live, hi);
    forall k | 0 <= k < |f| ensures f[k].addr != a { assert !InHeader(f[k], a); }
  }

  /** A client's write of a payload word, seen as a raw memory write, keeps structure and canaries. */
  lemma WriteKeeps(lo: int, hi: int, start: int, live: seq<Chunk>, next: Words, size: Words,
                   canary: Words, words: Words, i: nat, a: int, v: int)
    requires Structure(lo, hi, start, live, next, size) && i < |live|
    requires start + HEADER_SIZE <= lo || hi < start
    requires live[i].addr + HEADER_SIZE <= a && a + 4 <= live[i].End() - TAIL_CANARY_SIZE
    ensures Structure(lo, hi, start, live, next[a - NEXT_OFFSET := v], size[a - SIZE_OFFSET := v])
    ensures LiveCanaries(canary, words, live) ==> LiveCanaries(canary[a - CANARY_OFFSET := v], words[a := v], live)
    ensures FreeCanaries(canary, Gaps(lo, live, hi)) ==>
      FreeCanaries(canary[a - CANARY_OFFSET := v], Gaps(lo, live, hi))
  {
    hide Gaps, LiveOK, Seg, HoldHeaders, LiveHeaders, LiveCanaries, FreeCanaries;
    WriteKeepsStructure(lo, hi, start, live, next, size, i, a, v);
    WriteKeepsCanaries(lo, live, hi, canary, words, i, a, v);
  }
}

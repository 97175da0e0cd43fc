/** What the linking half of prvInsertBlockIntoFreeList does to the header words, case by case. */
module HeapLinking {
  import opened HeapGaps
  import opened HeapLinks

  lemma AdvanceSeg(next: Words, size: Words, start: int, f: seq<Chunk>, p: nat, end: int)
    requires p < |f|
    requires Seg(next, size, start, f[..p], f[p].addr)
    requires Seg(next, size, LastNode(start, f[..p]), f[p..], end)
    ensures Seg(next, size, start, f[..p + 1], FirstNode(f[p + 1..], end))
    ensures next[LastNode(start, f[..p])] == f[p].addr == LastNode(start, f[..p + 1])
    ensures f[p].addr in next && f[p].addr in size && size[f[p].addr] == f[p].size
    ensures next[f[p].addr] == FirstNode(f[p + 1..], end)
    ensures Seg(next, size, f[p].addr, f[p + 1..], end)
  {
    assert f[p..][1..] == f[p + 1..];
    assert f[..p] + [f[p]] == f[..p + 1];
    SegSplit(next, size, start, f[..p], [f[p]], FirstNode(f[p + 1..], end));
  }

  lemma SegReads(next: Words, size: Words, start: int, f: seq<Chunk>, p: nat, end: int)
    requires p <= |f| && Seg(next, size, LastNode(start, f[..p]), f[p..], end)
    ensures LastNode(start, f[..p]) in next && next[LastNode(start, f[..p])] == FirstNode(f[p..], end)
    ensures p == 0 ==> Seg(next, size, start, f[..p], FirstNode(f[p..], end))
  {}

  /** The place found by the search: the chunks of `pre` lie before c, those of `post` after it. */
  ghost predicate Place(next: Words, size: Words, start: int, lo: int,
                        pre: seq<Chunk>, c: Chunk, post: seq<Chunk>, end: int) {
    && lo <= c.addr && 0 < c.size && c.End() <= end
    && Separated(lo, pre, c.addr) && Separated(c.End(), post, end) && !(lo <= start <= end)
    && Seg(next, size, start, pre, FirstNode(post, end))
    && Seg(next, size, LastNode(start, pre), post, end)
  }

  /** No neighbour touches c. */
  lemma HookAlone(next: Words, size: Words, start: int, lo: int,
                  pre: seq<Chunk>, c: Chunk, post: seq<Chunk>, end: int)
    requires Place(next, size, start, lo, pre, c, post, end)
    requires c.addr in size && size[c.addr] == c.size
    ensures Seg(next[c.addr := FirstNode(post, end)][LastNode(start, pre) := c.addr], size,
                start, pre + ([c] + post), end)
  {
    var next' := next[c.addr := FirstNode(post, end)][LastNode(start, pre) := c.addr];
    if post != [] { SegOwns(next, size, LastNode(start, pre), post, end, 0); }
    Hook(next, size, next', size, start, pre, c, post, end, FirstNode(post, end));
  }

  /** Only the chunk after c touches it. */
  lemma HookJoinNext(next: Words, size: Words, start: int, lo: int,
                     pre: seq<Chunk>, c: Chunk, q: Chunk, post: seq<Chunk>, end: int)
    requires Place(next, size, start, lo, pre, c, [q] + post, end) && c.End() == q.addr
    ensures Seg(next[c.addr := FirstNode(post, end)][LastNode(start, pre) := c.addr],
                size[c.addr := c.size + q.size],
                start, pre + ([Chunk(c.addr, c.size + q.size)] + post), end)
  {
    SkipFirst(next, size, LastNode(start, pre), lo, c.End(), q, post, end);
    Hook(next, size, next[c.addr := FirstNode(post, end)][LastNode(start, pre) := c.addr],
         size[c.addr := c.size + q.size], start, pre, Chunk(c.addr, c.size + q.size), post, end, q.addr);
  }

  lemma SkipFirst(next: Words, size: Words, from: int, lo: int, low: int, q: Chunk, post: seq<Chunk>, end: int)
    requires Seg(next, size, from, [q] + post, end) && Separated(low, [q] + post, end)
    ensures q.addr in next && next[q.addr] == FirstNode(post, end) && q.addr in size && size[q.addr] == q.size
    ensures post != [] ==> Seg(next, size, post[0].addr, post[1..], end)
    ensures post != [] ==> post[0].addr in size && size[post[0].addr] == post[0].size
    ensures forall k :: 0 <= k < |post| ==> q.End() < post[k].addr
  {
    assert ([q] + post)[1..] == post;
    assert forall k :: 0 <= k < |post| ==> ([q] + post)[k + 1] == post[k];
  }

  /** Only the chunk before c touches it: its header absorbs c. */
  lemma HookOntoPrevious(next: Words, size: Words, start: int, lo: int,
                         pre: seq<Chunk>, e: Chunk, c: Chunk, post: seq<Chunk>, end: int)
    requires Place(next, size, start, lo, pre + [e], c, post, end) && e.End() == c.addr
    ensures Seg(next[e.addr := FirstNode(post, end)], size[e.addr := e.size + c.size],
                start, pre + ([Chunk(e.addr, e.size + c.size)] + post), end)
  {
    BeforeLast(next, size, start, lo, pre, e, c.addr, FirstNode(post, end));
    if post != [] { SegOwns(next, size, e.addr, post, end, 0); }
    Hook(next, size, next[e.addr := FirstNode(post, end)], size[e.addr := e.size + c.size],
         start, pre, Chunk(e.addr, e.size + c.size), post, end, e.addr);
  }

  lemma BeforeLast(next: Words, size: Words, start: int, lo: int, pre: seq<Chunk>, e: Chunk, hi: int, to: int)
    requires Seg(next, size, start, pre + [e], to) && Separated(lo, pre + [e], hi)
    ensures Seg(next, size, start, pre, e.addr)
    ensures LastNode(start, pre) in next && next[LastNode(start, pre)] == e.addr
    ensures lo <= e.addr
    ensures forall k :: 0 <= k < |pre| ==> pre[k].addr < e.addr
    ensures forall j, k :: 0 <= j < k < |pre| ==> pre[j].addr < pre[k].addr
    ensures forall k :: 0 <= k < |pre| ==> lo <= pre[k].addr
  {
    SegSplit(next, size, start, pre, [e], to);
    assert (pre + [e])[|pre|] == e;
    assert forall k :: 0 <= k < |pre| ==> (pre + [e])[k] == pre[k];
  }

  /** Both neighbours touch c: the gap is plugged. */
  lemma HookPlug(next: Words, size: Words, start: int, lo: int,
                 pre: seq<Chunk>, e: Chunk, c: Chunk, q: Chunk, post: seq<Chunk>, end: int)
    requires Place(next, size, start, lo, pre + [e], c, [q] + post, end)
    requires e.End() == c.addr && c.End() == q.addr
    ensures Seg(next[e.addr := FirstNode(post, end)],
                size[e.addr := e.size + c.size][e.addr := e.size + c.size + q.size],
                start, pre + ([Chunk(e.addr, e.size + c.size + q.size)] + post), end)
  {
    BeforeLast(next, size, start, lo, pre, e, c.addr, q.addr);
    SkipFirst(next, size, e.addr, lo, c.End(), q, post, end);
    var size' := size[e.addr := e.size + c.size][e.addr := e.size + c.size + q.size];
    Hook(next, size, next[e.addr := FirstNode(post, end)], size', start, pre,
         Chunk(e.addr, e.size + c.size + q.size), post, end, e.addr);
  }

  /** c overlaps no chunk of f. */
  ghost predicate Apart(f: seq<Chunk>, c: Chunk) {
    forall k :: 0 <= k < |f| ==> f[k].End() <= c.addr || c.End() <= f[k].addr
  }

  /** The four outcomes of linking c between `pre` and `post`, as the code writes them. */
  ghost predicate LinkWrites(next: Words, size: Words, next': Words, size': Words, start: int,
                             pre: seq<Chunk>, c: Chunk, post: seq<Chunk>, end: int)
  {
    var onto := pre != [] && pre[|pre| - 1].End() == c.addr;
    var join := post != [] && c.End() == post[0].addr;
    var last := LastNode(start, pre);
    var after := FirstNode(if join then post[1..] else post, end);
    var sum := if pre == [] then c.size else pre[|pre| - 1].size + c.size;
    if onto then
      && next' == next[last := after]
      && size' == if join then size[last := sum][last := sum + post[0].size] else size[last := sum]
    else
      && next' == next[c.addr := after][last := c.addr]
      && size' == if join then size[c.addr := c.size + post[0].size] else size
  }

  lemma LinkCorrect(next: Words, size: Words, next': Words, size': Words, start: int, lo: int,
                    pre: seq<Chunk>, c: Chunk, post: seq<Chunk>, end: int)
    requires Place(next, size, start, lo, pre, c, post, end) && c.addr in size && size[c.addr] == c.size
    requires LinkWrites(next, size, next', size', start, pre, c, post, end)
    ensures Seg(next', size', start, InsertAt(pre + post, c, |pre|), end)
  {
    hide Seg, Place, LinkWrites;
    assert (pre + post)[..|pre|] == pre && (pre + post)[|pre|..] == post;
    if pre != [] && pre[|pre| - 1].End() == c.addr {
      var e, pre0 := pre[|pre| - 1], pre[..|pre| - 1];
      assert pre == pre0 + [e];
      LinkCorrectOnto(next, size, next', size', start, lo, pre0, e, c, post, end);
      assert (pre + post)[..|pre| - 1] == pre0;
    } else {
      LinkCorrectAlone(next, size, next', size', start, lo, pre, c, post, end);
    }
  }

  lemma LinkCorrectAlone(next: Words, size: Words, next': Words, size': Words, start: int, lo: int,
                         pre: seq<Chunk>, c: Chunk, post: seq<Chunk>, end: int)
    requires Place(next, size, start, lo, pre, c, post, end) && c.addr in size && size[c.addr] == c.size
    requires LinkWrites(next, size, next', size', start, pre, c, post, end)
    requires !(pre != [] && pre[|pre| - 1].End() == c.addr)
    ensures Seg(next', size', start, pre + JoinNext(c, post), end)
  {
    if post != [] && c.End() == post[0].addr {
      assert post == [post[0]] + post[1..];
      HookJoinNext(next, size, start, lo, pre, c, post[0], post[1..], end);
    } else {
      HookAlone(next, size, start, lo, pre, c, post, end);
    }
  }

  lemma LinkCorrectOnto(next: Words, size: Words, next': Words, size': Words, start: int, lo: int,
                        pre: seq<Chunk>, e: Chunk, c: Chunk, post: seq<Chunk>, end: int)
    requires Place(next, size, start, lo, pre + [e], c, post, end)
    requires e.End() == c.addr
    requires LinkWrites(next, size, next', size', start, pre + [e], c, post, end)
    ensures Seg(next', size', start, pre + JoinNext(Chunk(e.addr, e.size + c.size), post), end)
  {
    assert (pre + [e])[|pre|] == e;
    if post != [] && c.End() == post[0].addr {
      assert post == [post[0]] + post[1..];
      HookPlug(next, size, start, lo, pre, e, c, post[0], post[1..], end);
    } else {
      HookOntoPrevious(next, size, start, lo, pre, e, c, post, end);
    }
  }

  lemma PlaceHere(next: Words, size: Words, start: int, lo: int, f: seq<Chunk>, p: nat, c: Chunk, end: int)
    requires Separated(lo, f, end) && !(lo <= start <= end) && p <= |f|
    requires lo <= c.addr && 0 < c.size && c.End() <= end
    requires Seg(next, size, start, f[..p], FirstNode(f[p..], end))
    requires Seg(next, size, LastNode(start, f[..p]), f[p..], end)
    requires Apart(f, c)
    requires forall k :: 0 <= k < p ==> f[k].addr < c.addr
    requires c.addr <= FirstNode(f[p..], end)
    ensures Place(next, size, start, lo, f[..p], c, f[p..], end)
    ensures InsertAt(f, c, p) == InsertFree(f, c)
    ensures LastNode(start, f[..p]) == if p == 0 then start else f[p - 1].addr
    ensures p > 0 ==> lo <= f[p - 1].addr
  {
    hide Seg, InsertAt, InsertFree, Separated, Apart, FirstNode, LastNode;
    assert f == f[..p] + f[p..];
    FoundPlace(lo, f, f[..p], c, f[p..], end);
    InsertHere(lo, f, p, c, end);
    LastHere(start, lo, f, p, end);
  }

  lemma InsertHere(lo: int, f: seq<Chunk>, p: nat, c: Chunk, end: int)
    requires p <= |f| && 0 < c.size && Separated(lo, f, end) && Apart(f, c)
    requires forall k :: 0 <= k < p ==> f[k].addr < c.addr
    requires c.addr <= FirstNode(f[p..], end)
    ensures InsertAt(f, c, p) == InsertFree(f, c)
  {
    hide InsertAt, InsertFree;
    assert f == f[..p] + f[p..];
    FoundPlace(lo, f, f[..p], c, f[p..], end);
    InsertFreeAt(f, c, p);
  }

  lemma LastHere(start: int, lo: int, f: seq<Chunk>, p: nat, end: int)
    requires p <= |f| && Separated(lo, f, end)
    ensures LastNode(start, f[..p]) == if p == 0 then start else f[p - 1].addr
    ensures p > 0 ==> lo <= f[p - 1].addr
  {}

  /** What the linking code reads at the place found. */
  lemma LinkReads(next: Words, size: Words, start: int, lo: int,
                  pre: seq<Chunk>, c: Chunk, post: seq<Chunk>, end: int)
    requires Place(next, size, start, lo, pre, c, post, end)
    ensures var last := LastNode(start, pre);
      && last in next && next[last] == FirstNode(post, end)
      && (pre == [] ==> last != c.addr) && (pre != [] ==> last < c.addr)
      && (post != [] ==>
          && post[0].addr in next && next[post[0].addr] == FirstNode(post[1..], end)
          && post[0].addr in size && size[post[0].addr] == post[0].size
          && c.addr < post[0].addr < end)
  {
    if post != [] {
      var last := LastNode(start, pre);
      assert Seg(next, size, post[0].addr, post[1..], end);
    }
  }

  lemma SeparatedBefore(lo: int, pre: seq<Chunk>, post: seq<Chunk>, hi: int, bound: int)
    requires Separated(lo, pre + post, hi)
    requires forall k :: 0 <= k < |pre| ==> pre[k].End() <= bound
    ensures Separated(lo, pre, bound)
  {
    var f := pre + post;
    assert forall k :: 0 <= k < |pre| ==> f[k] == pre[k];
  }

  lemma SeparatedAfter(lo: int, pre: seq<Chunk>, post: seq<Chunk>, hi: int, bound: int)
    requires Separated(lo, pre + post, hi)
    requires post != [] ==> bound <= post[0].addr
    ensures Separated(bound, post, hi)
  {
    var f := pre + post;
    forall j, k | 0 <= j < k < |post| ensures post[j].End() < post[k].addr {
      assert f[|pre| + j].End() < f[|pre| + k].addr;
    }
    forall k | 0 <= k < |post| ensures bound <= post[k].addr && 0 < post[k].size && post[k].End() <= hi {
      assert f[|pre| + k] == post[k];
      if k > 0 { assert post[0].End() < post[k].addr; assert f[|pre|] == post[0]; }
    }
  }

  lemma FoundPlace(lo: int, f: seq<Chunk>, pre: seq<Chunk>, c: Chunk, post: seq<Chunk>, end: int)
    requires f == pre + post && Separated(lo, f, end) && 0 < c.size
    requires Apart(f, c)
    requires forall k :: 0 <= k < |pre| ==> pre[k].addr < c.addr
    requires c.addr <= FirstNode(post, end)
    ensures Separated(lo, pre, c.addr) && Separated(c.End(), post, end)
    ensures post != [] ==> c.addr < post[0].addr
    ensures forall k :: 0 <= k < |pre| - 1 ==> pre[k].End() < c.addr
  {
    assert forall k :: 0 <= k < |pre| ==> f[k] == pre[k];
    if post != [] { assert f[|pre|] == post[0]; }
    SeparatedBefore(lo, pre, post, end, c.addr);
    SeparatedAfter(lo, pre, post, end, c.End());
    forall k | 0 <= k < |pre| - 1 ensures pre[k].End() < c.addr {
      assert pre[k].End() < pre[|pre| - 1].addr;
    }
  }

  // ------------------------------------------------------------------- taking a block out

  /** Bypassing the i-th chunk removes it from the list. */
  lemma Unlink(next: Words, size: Words, start: int, f: seq<Chunk>, i: nat, end: int)
    requires i < |f| && Seg(next, size, start, f, end) && Distinct(start, f)
    ensures LastNode(start, f[..i]) in next && f[i].addr in next && f[i].addr in size && size[f[i].addr] == f[i].size
    ensures next[LastNode(start, f[..i])] == f[i].addr
    ensures Seg(next[LastNode(start, f[..i]) := next[f[i].addr]], size, start, f[..i] + f[i + 1..], end)
  {
    var pre, post := f[..i], f[i + 1..];
    var last := LastNode(start, pre);
    assert f == pre + ([f[i]] + post) && ([f[i]] + post)[1..] == post;
    SegSplit(next, size, start, pre, [f[i]] + post, end);
    var to := next[f[i].addr];
    var next' := next[last := to];
    SegRetarget(next, size, start, pre, f[i].addr, to);
    assert Seg(next, size, f[i].addr, post, end);
    AfterUnlink(next, size, start, f, i, end, to);
    SegSplit(next', size, start, pre, post, end);
  }

  /** The links after the bypassed chunk do not change. */
  lemma AfterUnlink(next: Words, size: Words, start: int, f: seq<Chunk>, i: nat, end: int, to: int)
    requires i < |f| && Distinct(start, f) && Seg(next, size, f[i].addr, f[i + 1..], end)
    ensures var last := LastNode(start, f[..i]);
      Seg(next[last := to], size, last, f[i + 1..], end) <==> to == FirstNode(f[i + 1..], end)
  {
    var post, last := f[i + 1..], LastNode(start, f[..i]);
    if post != [] {
      assert forall k :: 0 <= k < |post| ==> post[k] == f[i + 1 + k];
      assert post == [post[0]] + post[1..];
      SegFrame(next, size, next[last := to], size, post[0].addr, post[1..], end);
    }
  }

  lemma SeparatedDistinct(lo: int, f: seq<Chunk>, hi: int, start: int)
    requires Separated(lo, f, hi) && !(lo <= start <= hi)
    ensures Distinct(start, f)
  {}

  lemma SeparatedWithout(lo: int, f: seq<Chunk>, hi: int, i: nat)
    requires Separated(lo, f, hi) && i < |f|
    ensures Separated(lo, f[..i] + f[i + 1..], hi)
    ensures Apart(f[..i] + f[i + 1..], f[i])
    ensures forall k :: 0 <= k < |f| - 1 ==>
      (f[..i] + f[i + 1..])[k] == if k < i then f[k] else f[k + 1]
  {
    var g := f[..i] + f[i + 1..];
    assert forall k :: 0 <= k < |g| ==> g[k] == if k < i then f[k] else f[k + 1];
  }

  /** Returning the unused end of a carved block lands in its old place and merges with nothing. */
  lemma ReturnRest(lo: int, f: seq<Chunk>, hi: int, i: nat, rest: Chunk)
    requires Separated(lo, f, hi) && i < |f|
    requires f[i].addr < rest.addr && rest.End() == f[i].End() && 0 < rest.size
    ensures InsertFree(f[..i] + f[i + 1..], rest) == f[..i] + [rest] + f[i + 1..]
  {
    hide InsertFree;
    var g := f[..i] + f[i + 1..];
    SeparatedWithout(lo, f, hi, i);
    InsertFreeAt(g, rest, i);
    assert g[..i] == f[..i] && g[i..] == f[i + 1..];
    if i > 0 { assert g[i - 1] == f[i - 1]; }
    if i + 1 < |f| { assert f[i + 1..][0] == f[i + 1]; }
    assert f[..i] + ([rest] + f[i + 1..]) == f[..i] + [rest] + f[i + 1..];
  }
}

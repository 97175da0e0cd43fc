/** The intrusive free list of heap_4.c: link and size words stored in block headers.  The two
    header fields are kept as separate address-indexed maps, so writing one leaves the other alone. */
module HeapLinks {
  import opened HeapGaps

  type Words = map<int, int>

  /** The links lead from node `from` through the headers of `f`, in order, to `to`. */
  ghost predicate Seg(next: Words, size: Words, from: int, f: seq<Chunk>, to: int)
    decreases f
  {
    from in next &&
    if f == [] then next[from] == to
    else
      && next[from] == f[0].addr
      && f[0].addr in size && size[f[0].addr] == f[0].size
      && Seg(next, size, f[0].addr, f[1..], to)
  }

  function LastNode(from: int, f: seq<Chunk>): int {
    if f == [] then from else f[|f| - 1].addr
  }

  function FirstNode(f: seq<Chunk>, to: int): int {
    if f == [] then to else f[0].addr
  }

  ghost predicate Agree(a: Words, b: Words, f: seq<Chunk>) {
    forall k :: 0 <= k < |f| && f[k].addr in a ==> f[k].addr in b && b[f[k].addr] == a[f[k].addr]
  }

  lemma {:induction false} SegFrame(next: Words, size: Words, next': Words, size': Words,
                                    from: int, f: seq<Chunk>, to: int)
    requires Seg(next, size, from, f, to)
    requires from in next' && next'[from] == next[from]
    requires Agree(next, next', f) && Agree(size, size', f)
    ensures Seg(next', size', from, f, to)
    decreases f
  {
    if f != [] {
      assert f[0].addr in next;
      SegFrame(next, size, next', size', f[0].addr, f[1..], to);
    }
  }

  lemma {:induction false} SegSplit(next: Words, size: Words, from: int, f: seq<Chunk>, g: seq<Chunk>, to: int)
    ensures Seg(next, size, from, f + g, to)
       <==> Seg(next, size, from, f, FirstNode(g, to)) && Seg(next, size, LastNode(from, f), g, to)
    decreases f
  {
    if f == [] {
      assert f + g == g;
    } else {
      SegSplit(next, size, f[0].addr, f[1..], g, to);
      assert (f + g)[1..] == f[1..] + g;
      assert LastNode(from, f) == LastNode(f[0].addr, f[1..]);
    }
  }

  /** Redirecting the last link of a segment. */
  lemma {:induction false} SegRetarget(next: Words, size: Words, from: int, f: seq<Chunk>, to: int, to': int)
    requires Seg(next, size, from, f, to)
    requires forall k :: 0 <= k < |f| ==> f[k].addr != from
    requires forall j, k :: 0 <= j < k < |f| ==> f[j].addr != f[k].addr
    ensures Seg(next[LastNode(from, f) := to'], size, from, f, to')
    decreases f
  {
    if f != [] {
      SegRetarget(next, size, f[0].addr, f[1..], to, to');
      assert LastNode(from, f) == LastNode(f[0].addr, f[1..]);
      assert LastNode(from, f) != from;
    }
  }

  /** The insertion of c seen from the place it happens: p chunks lie before c. */
  function InsertAt(f: seq<Chunk>, c: Chunk, p: nat): seq<Chunk>
    requires p <= |f|
  {
    if p > 0 && f[p - 1].End() == c.addr
    then f[..p - 1] + JoinNext(Chunk(f[p - 1].addr, f[p - 1].size + c.size), f[p..])
    else f[..p] + JoinNext(c, f[p..])
  }

  lemma {:induction false} InsertFreeAt(f: seq<Chunk>, c: Chunk, p: nat)
    requires p <= |f|
    requires forall k :: 0 <= k < p ==> f[k].addr < c.addr
    requires forall k :: 0 <= k < p - 1 ==> f[k].End() < c.addr
    requires p < |f| ==> c.addr < f[p].addr
    ensures InsertFree(f, c) == InsertAt(f, c, p)
    decreases p
  {
    if p == 0 {
      assert f[0..] == f;
    } else if p == 1 && f[0].End() == c.addr {
    } else {
      InsertFreeAt(f[1..], c, p - 1);
      InsertAtSkip(f, c, p);
    }
  }

  lemma InsertAtSkip(f: seq<Chunk>, c: Chunk, p: nat)
    requires 0 < p <= |f|
    requires p == 1 ==> f[0].End() != c.addr
    ensures InsertAt(f, c, p) == [f[0]] + InsertAt(f[1..], c, p - 1)
  {
    var g := f[1..];
    assert g[p - 1..] == f[p..];
    assert [f[0]] + g[..p - 1] == f[..p];
    if p > 1 {
      assert g[p - 2] == f[p - 1];
      assert [f[0]] + g[..p - 2] == f[..p - 1];
    }
  }

  lemma {:induction false} SegOwns(next: Words, size: Words, from: int, f: seq<Chunk>, to: int, k: nat)
    requires Seg(next, size, from, f, to) && k < |f|
    ensures f[k].addr in next && f[k].addr in size && size[f[k].addr] == f[k].size
    decreases f
  {
    if k == 0 {
      assert Seg(next, size, f[0].addr, f[1..], to);
    } else {
      SegOwns(next, size, f[0].addr, f[1..], to, k - 1);
    }
  }

  ghost predicate Distinct(from: int, f: seq<Chunk>) {
    && (forall k :: 0 <= k < |f| ==> f[k].addr != from)
    && (forall j, k :: 0 <= j < k < |f| ==> f[j].addr != f[k].addr)
  }

  /** Hooking chunk d between `pre` and `post` by rewriting only d's header and the last link of `pre`. */
  lemma Hook(next: Words, size: Words, next': Words, size': Words, start: int,
             pre: seq<Chunk>, d: Chunk, post: seq<Chunk>, end: int, was: int)
    requires Seg(next, size, start, pre, was) && Distinct(start, pre)
    requires post != [] ==> Seg(next, size, post[0].addr, post[1..], end)
    requires post != [] ==> post[0].addr in size && size[post[0].addr] == post[0].size
    requires var last := LastNode(start, pre);
      && last in next' && next'[last] == d.addr
      && (last != start ==> start in next' && next'[start] == next[start])
      && (forall k :: 0 <= k < |pre| && pre[k].addr in next && pre[k].addr != last ==>
            pre[k].addr in next' && next'[pre[k].addr] == next[pre[k].addr])
    requires Agree(size, size', pre) && Agree(size, size', post) && Agree(next, next', post)
    requires d.addr in next' && d.addr in size' && size'[d.addr] == d.size
    requires next'[d.addr] == FirstNode(post, end)
    ensures Seg(next', size', start, pre + ([d] + post), end)
  {
    var last := LastNode(start, pre);
    SegRetarget(next, size, start, pre, was, d.addr);
    SegFrame(next[last := d.addr], size, next', size', start, pre, d.addr);
    if post != [] {
      assert post[0].addr in next;
      SegFrame(next, size, next', size', post[0].addr, post[1..], end);
    }
    assert Seg(next', size', d.addr, post, end);
    assert ([d] + post)[1..] == post;
    SegSplit(next', size', start, pre, [d] + post, end);
  }
}

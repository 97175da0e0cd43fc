/** xEventGroupSync as a meeting point: nobody leaves before everyone has arrived, and then all leave
    with the same value. */
module EventRendezvous {
  import opened EventSpec
  import opened EventProtocol

  // ------------------------------------------------------------------------------- one completing call

  lemma FreedLeaves(g: Group, snapshot: Bits, u: nat)
    requires Inv(g) && Listed(g.waiters, u) && u in g.pending
    requires Satisfied(g.pending[u].word, snapshot)
    ensures Listed(Freed(g.waiters, snapshot), u) && !Listed(Kept(g.waiters, snapshot), u)
  {
    hide Kept, Freed, Satisfied, Unique;
    var e :| e in g.waiters && e.who == u;
    assert EntryOK(g, e);
    WalkExact(g.waiters, snapshot);
    assert e in Freed(g.waiters, snapshot);
    KeptOrFreed(g.waiters, snapshot, u);
  }

  /** When the caller's bits complete the set it waits for, it returns a value containing them, every
      task blocked for the same bits is released with that same value, and the bits end up clear. */
  lemma Rendezvous(g: Group, t: nat, bits: Bits, want: Bits, mayBlock: bool, u: nat)
    requires Inv(g) && Enabled(g, DoSync(t, bits, want, mayBlock)) && want <= g.bits + bits
    ensures var (h, out) := Sync(g, t, bits, want, mayBlock);
      && out == Returns(g.bits + bits) && want <= out.value
      && h.bits !! want && h.bits <= g.bits + bits
      && (Listed(g.waiters, u) && u in g.pending && g.pending[u].req == Request(want, true, true) ==>
            (!Listed(h.waiters, u) && u in h.pending && h.pending[u].word == ReleaseWord(out.value)
             && Resume(h, u).1 == out))
  {
    var snapshot := g.bits + bits;
    assert snapshot * want == want;
    assert Plain(snapshot);
    hide ClearMask, Unique, Kept, Freed, Satisfied;
    if Listed(g.waiters, u) && u in g.pending && g.pending[u].req == Request(want, true, true) {
      var e :| e in g.waiters && e.who == u;
      assert EntryOK(g, e);
      WaitWordTests(want, true, true, snapshot);
      FreedLeaves(g, snapshot, u);
      ReleaseWordReads(snapshot);
    }
  }

  // ---------------------------------------------------------------------------- a whole gathering

  datatype Party = Party(task: nat, bits: Bits)

  /** The bits set once these parties have arrived. */
  ghost function Gathered(start: Bits, parties: seq<Party>): Bits {
    if parties == [] then start else Gathered(start, parties[..|parties| - 1]) + parties[|parties| - 1].bits
  }

  /** The group after each party in turn has called xEventGroupSync, prepared to block. */
  ghost function After(start: Bits, parties: seq<Party>, want: Bits): Group {
    if parties == [] then Group(start, [], map[]) else
      var last := parties[|parties| - 1];
      Sync(After(start, parties[..|parties| - 1], want), last.task, last.bits, want, true).0
  }

  ghost function Lined(parties: seq<Party>, word: Bits): (r: seq<Entry<nat>>)
    ensures |r| == |parties|
    ensures forall i :: 0 <= i < |r| ==> r[i] == Entry(parties[i].task, word)
  {
    seq(|parties|, i requires 0 <= i < |parties| => Entry(parties[i].task, word))
  }

  ghost predicate Waiting(g: Group, parties: seq<Party>, want: Bits) {
    var word := WaitWord(want, true, true);
    && g.waiters == Lined(parties, word)
    && forall p :: p in parties ==> p.task in g.pending && g.pending[p.task].word == word
  }

  lemma {:induction false} NoneFreed<T>(s: seq<Entry<T>>, snapshot: Bits)
    requires forall i :: 0 <= i < |s| ==> !Satisfied(s[i].word, snapshot)
    ensures Kept(s, snapshot) == s && Freed(s, snapshot) == [] && ClearMask(s, snapshot) == {}
  {
    hide Satisfied;
    if s != [] {
      NoneFreed(s[..|s| - 1], snapshot);
    }
  }

  lemma {:induction false} AllFreed<T>(s: seq<Entry<T>>, snapshot: Bits, mask: Bits)
    requires forall i :: 0 <= i < |s| ==> Satisfied(s[i].word, snapshot) && ClearedBy(s[i].word) == mask
    ensures Kept(s, snapshot) == [] && Freed(s, snapshot) == s && ClearMask(s, snapshot) <= mask
  {
    hide Satisfied, ClearedBy;
    if s != [] {
      AllFreed(s[..|s| - 1], snapshot, mask);
    }
  }

  lemma NotYet(g: Group, parties: seq<Party>, p: Party, want: Bits)
    requires Waiting(g, parties, want) && Plain(want)
    requires !(want <= g.bits + p.bits)
    ensures var h := Sync(g, p.task, p.bits, want, true).0;
      Waiting(h, parties + [p], want) && h.bits == g.bits + p.bits
  {
    var snapshot, word := g.bits + p.bits, WaitWord(want, true, true);
    assert snapshot * want != want;
    WaitWordTests(want, true, true, snapshot);
    hide Satisfied, Kept, Freed, ClearMask, WaitWord;
    NoneFreed(g.waiters, snapshot);
    var h := SetBits(g, p.bits);
    assert h.bits == snapshot && h.waiters == g.waiters;
    assert Lined(parties + [p], word) == Lined(parties, word) + [Entry(p.task, word)];
  }

  lemma NobodyYet(start: Bits, want: Bits)
    ensures Waiting(After(start, [], want), [], want)
  {}

  /** As long as the set is incomplete, everyone who has arrived is still waiting. */
  lemma {:induction false} StillGathering(start: Bits, parties: seq<Party>, want: Bits)
    requires Plain(want) && !(want <= Gathered(start, parties))
    ensures Waiting(After(start, parties, want), parties, want)
    ensures After(start, parties, want).bits == Gathered(start, parties)
  {
    hide Sync, Waiting, Plain;
    if parties == [] {
      NobodyYet(start, want);
    } else {
      var rest, p := parties[..|parties| - 1], parties[|parties| - 1];
      StillGathering(start, rest, want);
      NotYet(After(start, rest, want), rest, p, want);
      assert rest + [p] == parties;
    }
  }

  /** The party that completes the set lets everyone go: each returns the same value, which holds all
      the bits waited for, nobody stays behind, and the bits are clear again. */
  lemma Meeting(start: Bits, parties: seq<Party>, last: Party, want: Bits, p: Party)
    requires Plain(start) && Plain(want) && Plain(last.bits) && (forall q :: q in parties ==> Plain(q.bits))
    requires !(want <= Gathered(start, parties))
    requires want <= Gathered(start, parties) + last.bits
    ensures var everything := Gathered(start, parties) + last.bits;
      var (h, out) := Sync(After(start, parties, want), last.task, last.bits, want, true);
      && out == Returns(everything) && h.bits == everything - want && h.waiters == []
      && (p in parties ==> p.task in h.pending && Resume(h, p.task).1 == Returns(everything))
  {
    var g := After(start, parties, want);
    var everything, word := Gathered(start, parties) + last.bits, WaitWord(want, true, true);
    StillGathering(start, parties, want);
    GatheredPlain(start, parties);
    assert everything * want == want;
    WaitWordTests(want, true, true, everything);
    ReleaseWordReads(everything);
    assert ClearedBy(word) == want;
    hide Satisfied, Kept, Freed, ClearMask, ClearedBy, WaitWord, ReleaseWord, After, Gathered;
    AllFreed(g.waiters, everything, want);
    if p in parties {
      var i :| 0 <= i < |parties| && parties[i] == p;
      assert g.waiters[i] == Entry(p.task, word);
      assert Listed(g.waiters, p.task);
    }
  }

  lemma {:induction false} GatheredPlain(start: Bits, parties: seq<Party>)
    requires Plain(start) && (forall q :: q in parties ==> Plain(q.bits))
    ensures Plain(Gathered(start, parties))
  {
    if parties != [] {
      GatheredPlain(start, parties[..|parties| - 1]);
    }
  }
}

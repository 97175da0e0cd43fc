/** An event group shared by any number of tasks.  Every operation runs with the scheduler suspended
    or inside one critical section, so each is one step; a blocked task may time out at any point
    and run again at any later point. */
module EventProtocol {
  import opened EventSpec

  datatype Request = Request(want: Bits, clear: bool, all: bool)

  /** A task inside a blocking call: what it asked for and the word in its event list item. */
  datatype Pending = Pending(req: Request, word: Bits)

  datatype Group = Group(bits: Bits, waiters: seq<Entry<nat>>, pending: map<nat, Pending>)

  /** What a step means for the call it belongs to: it returns a value, blocks, or goes on. */
  datatype Outcome = Returns(value: Bits) | Blocks | GoesOn

  // ------------------------------------------------------------------------------ the operations

  ghost predicate Listed(s: seq<Entry<nat>>, t: nat) {
    exists e :: e in s && e.who == t
  }

  /** xEventGroupSetBits */
  ghost function SetBits(g: Group, bits: Bits): Group {
    var snapshot := g.bits + bits;
    var freed := Freed(g.waiters, snapshot);
    Group(snapshot - ClearMask(g.waiters, snapshot), Kept(g.waiters, snapshot),
          map t | t in g.pending ::
            if Listed(freed, t) then g.pending[t].(word := ReleaseWord(snapshot)) else g.pending[t])
  }

  /** xEventGroupClearBits */
  ghost function ClearBits(g: Group, bits: Bits): (Group, Outcome) {
    (g.(bits := g.bits - bits), Returns(g.bits))
  }

  /** vTaskPlaceOnUnorderedEventList */
  ghost function Block(g: Group, t: nat, req: Request): Group {
    var word := WaitWord(req.want, req.clear, req.all);
    g.(waiters := g.waiters + [Entry(t, word)], pending := g.pending[t := Pending(req, word)])
  }

  /** xEventGroupWaitBits up to the point where it returns or blocks. */
  ghost function WaitBits(g: Group, t: nat, req: Request, mayBlock: bool): (Group, Outcome) {
    if TestWaitCondition(g.bits, req.want, req.all) then
      (g.(bits := if req.clear then g.bits - req.want else g.bits), Returns(g.bits))
    else if !mayBlock then (g, Returns(g.bits))
    else (Block(g, t, req), Blocks)
  }

  /** xEventGroupSync up to the point where it returns or blocks. */
  ghost function Sync(g: Group, t: nat, bits: Bits, want: Bits, mayBlock: bool): (Group, Outcome) {
    var h := SetBits(g, bits);
    if (g.bits + bits) * want == want then (h.(bits := h.bits - want), Returns(g.bits + bits))
    else if !mayBlock then (h, Returns(h.bits))
    else (Block(h, t, Request(want, true, true)), Blocks)
  }

  ghost function WithoutTask(s: seq<Entry<nat>>, t: nat): seq<Entry<nat>> {
    if s == [] then [] else
      WithoutTask(s[..|s| - 1], t) + (if s[|s| - 1].who == t then [] else [s[|s| - 1]])
  }

  /** The tick takes a task whose block time is over off the event list; its item word is untouched. */
  ghost function Timeout(g: Group, t: nat): Group {
    g.(waiters := WithoutTask(g.waiters, t))
  }

  /** A task that is off the list runs on: the tail of xEventGroupWaitBits and xEventGroupSync. */
  ghost function Resume(g: Group, t: nat): (Group, Outcome)
    requires t in g.pending
  {
    var req, word := g.pending[t].req, g.pending[t].word;
    var left := g.(pending := g.pending - {t});
    if UNBLOCKED in word then (left, Returns(word - CONTROL))
    else if TestWaitCondition(g.bits, req.want, req.all) && req.clear then
      (left.(bits := g.bits - req.want), Returns(g.bits - CONTROL))
    else (left, Returns(g.bits - CONTROL))
  }

  datatype Step =
    | DoSet(bits: Bits)
    | DoRead                             // at the end of xEventGroupSetBits, and xEventGroupGetBitsFromISR
    | DoClear(bits: Bits)
    | DoWait(task: nat, req: Request, mayBlock: bool)
    | DoSync(task: nat, bits: Bits, want: Bits, mayBlock: bool)
    | DoTimeout(task: nat)
    | DoResume(task: nat)

  /** The assertions on the arguments, and which tasks can take which step. */
  ghost predicate Enabled(g: Group, step: Step) {
    match step
    case DoSet(bits) => Plain(bits)
    case DoRead => true
    case DoClear(bits) => Plain(bits)
    case DoWait(t, req, _) => t !in g.pending && Plain(req.want) && req.want != {}
    case DoSync(t, bits, want, _) => t !in g.pending && Plain(bits) && Plain(want) && want != {}
    case DoTimeout(t) => Listed(g.waiters, t)
    case DoResume(t) => t in g.pending && !Listed(g.waiters, t)
  }

  ghost function Apply(g: Group, step: Step): (Group, Outcome)
    requires Enabled(g, step)
  {
    match step
    case DoSet(bits) => (SetBits(g, bits), GoesOn)
    case DoRead => (g, Returns(g.bits))
    case DoClear(bits) => ClearBits(g, bits)
    case DoWait(t, req, mayBlock) => WaitBits(g, t, req, mayBlock)
    case DoSync(t, bits, want, mayBlock) => Sync(g, t, bits, want, mayBlock)
    case DoTimeout(t) => (Timeout(g, t), GoesOn)
    case DoResume(t) => Resume(g, t)
  }

  // ------------------------------------------------------------------------------- the invariant

  ghost predicate Unique(s: seq<Entry<nat>>) {
    s == [] || (Unique(s[..|s| - 1]) && !Listed(s[..|s| - 1], s[|s| - 1].who))
  }

  ghost predicate Asked(p: Pending) {
    Plain(p.req.want) && p.req.want != {}
  }

  ghost predicate StillWaiting(p: Pending) {
    p.word == WaitWord(p.req.want, p.req.clear, p.req.all)
  }

  /** The word of a released task holds a snapshot in which its condition was met. */
  ghost predicate WasReleased(p: Pending) {
    var snapshot := p.word - CONTROL;
    && Plain(snapshot) && p.word == ReleaseWord(snapshot)
    && TestWaitCondition(snapshot, p.req.want, p.req.all)
  }

  ghost predicate EntryOK(g: Group, e: Entry<nat>) {
    e.who in g.pending && StillWaiting(g.pending[e.who]) && e.word == g.pending[e.who].word
  }

  ghost predicate PendingOK(g: Group, t: nat)
    requires t in g.pending
  {
    Asked(g.pending[t]) && (StillWaiting(g.pending[t]) || (WasReleased(g.pending[t]) && !Listed(g.waiters, t)))
  }

  /** No control bit is stored in the group, and no waiting task's condition is met. */
  ghost predicate Inv(g: Group) {
    && Plain(g.bits)
    && Unique(g.waiters)
    && (forall e :: e in g.waiters ==> EntryOK(g, e))
    && (forall e :: e in g.waiters ==> !Satisfied(e.word, g.bits))
    && (forall t :: t in g.pending ==> PendingOK(g, t))
  }

  // --------------------------------------------------------------------- facts about the waiting list

  lemma UniqueLast(s: seq<Entry<nat>>)
    requires Unique(s) && s != []
    ensures Unique(s[..|s| - 1]) && !Listed(s[..|s| - 1], s[|s| - 1].who)
  {}

  lemma UniqueSnoc(k: seq<Entry<nat>>, e: Entry<nat>)
    requires Unique(k) && !Listed(k, e.who)
    ensures Unique(k + [e])
  {
    assert (k + [e])[..|k|] == k;
  }

  lemma KeptNotListed(s: seq<Entry<nat>>, snapshot: Bits, t: nat)
    ensures Listed(Kept(s, snapshot), t) ==> Listed(s, t)
  {
    WalkExact(s, snapshot);
    if x :| x in Kept(s, snapshot) && x.who == t {
      assert x in s;
    }
  }

  lemma {:induction false} KeptUnique(s: seq<Entry<nat>>, snapshot: Bits)
    requires Unique(s)
    ensures Unique(Kept(s, snapshot))
  {
    hide Satisfied, Unique, Listed;
    if s == [] {
      assert Kept(s, snapshot) == s;
    } else {
      var rest, e := s[..|s| - 1], s[|s| - 1];
      UniqueLast(s);
      KeptUnique(rest, snapshot);
      KeptNotListed(rest, snapshot, e.who);
      var k := Kept(rest, snapshot);
      if Satisfied(e.word, snapshot) {
        assert Kept(s, snapshot) == k;
      } else {
        UniqueSnoc(k, e);
        assert Kept(s, snapshot) == k + [e];
      }
    }
  }

  lemma NotListedIn(k: seq<Entry<nat>>, s: seq<Entry<nat>>, t: nat)
    requires !Listed(s, t) && forall e :: e in k ==> e in s
    ensures !Listed(k, t)
  {}

  /** A listed task is kept or freed, never both. */
  lemma KeptOrFreed(s: seq<Entry<nat>>, snapshot: Bits, t: nat)
    requires Unique(s)
    ensures Listed(Kept(s, snapshot), t) ==> Listed(s, t) && !Listed(Freed(s, snapshot), t)
  {
    WalkExact(s, snapshot);
    hide Kept, Freed, Satisfied, Unique;
    if Listed(Kept(s, snapshot), t) {
      var x :| x in Kept(s, snapshot) && x.who == t;
      assert x in s;
      if y :| y in Freed(s, snapshot) && y.who == t {
        OneEach(s, x, y);
      }
    }
  }

  lemma {:induction false} OneEach(s: seq<Entry<nat>>, x: Entry<nat>, y: Entry<nat>)
    requires Unique(s) && x in s && y in s && x.who == y.who
    ensures x == y
  {
    var rest, e := s[..|s| - 1], s[|s| - 1];
    assert s == rest + [e];
    if x in rest && y in rest {
      OneEach(rest, x, y);
    }
  }

  lemma {:induction false} WithoutTaskExact(s: seq<Entry<nat>>, t: nat)
    requires Unique(s)
    ensures Unique(WithoutTask(s, t))
    ensures forall e :: e in WithoutTask(s, t) <==> e in s && e.who != t
  {
    hide Unique, Listed;
    if s == [] {
      assert WithoutTask(s, t) == s;
    } else {
      var rest, e := s[..|s| - 1], s[|s| - 1];
      UniqueLast(s);
      WithoutTaskExact(rest, t);
      NotListedIn(WithoutTask(rest, t), rest, e.who);
      assert s == rest + [e];
      var k := WithoutTask(rest, t);
      if e.who == t {
        assert WithoutTask(s, t) == k;
      } else {
        UniqueSnoc(k, e);
        assert WithoutTask(s, t) == k + [e];
      }
    }
  }

  // ------------------------------------------------------------------------- every step keeps it

  lemma SetKeepsEntry(g: Group, bits: Bits, e: Entry<nat>)
    requires Inv(g) && Plain(bits) && e in SetBits(g, bits).waiters
    ensures EntryOK(SetBits(g, bits), e) && !Satisfied(e.word, SetBits(g, bits).bits)
  {
    var snapshot := g.bits + bits;
    WalkExact(g.waiters, snapshot);
    KeptOrFreed(g.waiters, snapshot, e.who);
    hide Kept, Freed, ClearMask, Satisfied, Unique, Plain, StillWaiting, PendingOK;
    var h := SetBits(g, bits);
    assert EntryOK(g, e) && Listed(h.waiters, e.who);
    if Satisfied(e.word, h.bits) { SatisfiedMonotone(e.word, h.bits, snapshot); }
  }

  lemma SetKeepsPending(g: Group, bits: Bits, t: nat)
    requires Inv(g) && Plain(bits) && t in g.pending
    ensures t in SetBits(g, bits).pending && PendingOK(SetBits(g, bits), t)
  {
    var snapshot := g.bits + bits;
    var freed := Freed(g.waiters, snapshot);
    WalkExact(g.waiters, snapshot);
    KeptOrFreed(g.waiters, snapshot, t);
    assert Plain(snapshot) by { PlainPart(g, bits); }
    hide Kept, Freed, ClearMask, Satisfied, Unique, Plain, StillWaiting, WasReleased;
    assert PendingOK(g, t);
    if Listed(freed, t) {
      var e :| e in freed && e.who == t;
      assert EntryOK(g, e);
      ReleasedWell(g.pending[t], snapshot);
    }
  }

  lemma SetKeeps(g: Group, bits: Bits)
    requires Inv(g) && Plain(bits)
    ensures Inv(SetBits(g, bits))
  {
    hide Kept, Freed, ClearMask, Satisfied, Unique, Plain, EntryOK, PendingOK;
    var h := SetBits(g, bits);
    KeptUnique(g.waiters, g.bits + bits);
    PlainPart(g, bits);
    forall e | e in h.waiters ensures EntryOK(h, e) && !Satisfied(e.word, h.bits) {
      SetKeepsEntry(g, bits, e);
    }
    forall t | t in h.pending ensures PendingOK(h, t) {
      SetKeepsPending(g, bits, t);
    }
  }

  lemma PlainPart(g: Group, bits: Bits)
    requires Plain(g.bits) && Plain(bits)
    ensures Plain(SetBits(g, bits).bits) && Plain(g.bits + bits)
  {}

  lemma ReleasedWell(p: Pending, snapshot: Bits)
    requires Asked(p) && StillWaiting(p) && Satisfied(p.word, snapshot) && Plain(snapshot)
    ensures WasReleased(p.(word := ReleaseWord(snapshot)))
  {
    WaitWordTests(p.req.want, p.req.clear, p.req.all, snapshot);
    ReleaseWordReads(snapshot);
  }

  lemma ShrinkKeeps(g: Group, bits: Bits)
    requires Inv(g) && bits <= g.bits
    ensures Inv(g.(bits := bits))
  {
    hide Satisfied, Unique, Asked, StillWaiting, WasReleased;
    var h := g.(bits := bits);
    forall e | e in h.waiters ensures EntryOK(h, e) && !Satisfied(e.word, bits) {
      assert EntryOK(g, e);
      if Satisfied(e.word, bits) { SatisfiedMonotone(e.word, bits, g.bits); }
    }
    forall t | t in h.pending ensures PendingOK(h, t) { assert PendingOK(g, t); }
  }

  lemma ListedPending(g: Group, t: nat)
    requires Inv(g)
    ensures Listed(g.waiters, t) ==> t in g.pending
  {
    hide Unique, Satisfied, Plain;
    if e :| e in g.waiters && e.who == t { assert EntryOK(g, e); }
  }

  lemma BlockKeepsPending(g: Group, t: nat, req: Request, u: nat)
    requires Inv(g) && t !in g.pending && Plain(req.want) && req.want != {}
    requires u in g.pending || u == t
    ensures PendingOK(Block(g, t, req), u)
  {
    hide Unique, Satisfied, Plain, WaitWord, WasReleased;
    var h := Block(g, t, req);
    if u != t {
      assert PendingOK(g, u);
      assert Listed(h.waiters, u) ==> Listed(g.waiters, u);
    }
  }

  lemma BlockKeeps(g: Group, t: nat, req: Request)
    requires Inv(g) && t !in g.pending && Plain(req.want) && req.want != {}
    requires !TestWaitCondition(g.bits, req.want, req.all)
    ensures Inv(Block(g, t, req))
  {
    hide Satisfied, Plain, WaitWord, TestWaitCondition, Unique, Listed, PendingOK;
    WaitWordTests(req.want, req.clear, req.all, g.bits);
    ListedPending(g, t);
    var h := Block(g, t, req);
    UniqueSnoc(g.waiters, Entry(t, h.pending[t].word));
    forall e | e in h.waiters ensures EntryOK(h, e) && !Satisfied(e.word, h.bits) {
      if e in g.waiters { assert EntryOK(g, e); }
    }
    forall u | u in h.pending ensures PendingOK(h, u) { BlockKeepsPending(g, t, req, u); }
  }

  lemma TimeoutKeeps(g: Group, t: nat)
    requires Inv(g)
    ensures Inv(Timeout(g, t))
  {
    WithoutTaskExact(g.waiters, t);
    hide Satisfied, Unique, Plain, Asked, StillWaiting, WasReleased, WithoutTask;
    var h := Timeout(g, t);
    forall e | e in h.waiters ensures EntryOK(h, e) && !Satisfied(e.word, h.bits) { assert EntryOK(g, e); }
    forall u | u in h.pending ensures PendingOK(h, u) {
      assert PendingOK(g, u);
      assert Listed(h.waiters, u) ==> Listed(g.waiters, u);
    }
  }

  lemma LeaveKeeps(g: Group, t: nat)
    requires Inv(g) && !Listed(g.waiters, t)
    ensures Inv(g.(pending := g.pending - {t}))
  {
    hide Satisfied, Unique, Plain, Asked, StillWaiting, WasReleased;
    var h := g.(pending := g.pending - {t});
    forall e | e in h.waiters ensures EntryOK(h, e) && !Satisfied(e.word, h.bits) {
      assert EntryOK(g, e) && Listed(g.waiters, e.who);
    }
    forall u | u in h.pending ensures PendingOK(h, u) { assert PendingOK(g, u); }
  }

  /** The value a call returns never holds a control bit; one that returns because it was released
      returns a value in which its condition is met. */
  ghost predicate OutcomeOK(g: Group, step: Step, out: Outcome) {
    && (out.Returns? ==> Plain(out.value))
    && (step.DoResume? && step.task in g.pending && UNBLOCKED in g.pending[step.task].word ==>
          out.Returns?
          && TestWaitCondition(out.value, g.pending[step.task].req.want, g.pending[step.task].req.all))
  }

  lemma StepKeeps(g: Group, step: Step)
    requires Inv(g) && Enabled(g, step)
    ensures Inv(Apply(g, step).0) && OutcomeOK(g, step, Apply(g, step).1)
  {
    hide Unique, Satisfied, WithoutTask, Kept, Freed, ClearMask;
    match step
    case DoSet(bits) => SetKeeps(g, bits);
    case DoRead =>
    case DoClear(bits) => ShrinkKeeps(g, g.bits - bits);
    case DoWait(t, req, mayBlock) =>
      if TestWaitCondition(g.bits, req.want, req.all) {
        ShrinkKeeps(g, if req.clear then g.bits - req.want else g.bits);
      } else {
        BlockKeeps(g, t, req);
      }
    case DoSync(t, bits, want, mayBlock) => SyncKeeps(g, t, bits, want, mayBlock);
    case DoTimeout(t) => TimeoutKeeps(g, t);
    case DoResume(t) => ResumeKeeps(g, t);
  }

  lemma SyncKeeps(g: Group, t: nat, bits: Bits, want: Bits, mayBlock: bool)
    requires Inv(g) && Enabled(g, DoSync(t, bits, want, mayBlock))
    ensures Inv(Sync(g, t, bits, want, mayBlock).0)
    ensures OutcomeOK(g, DoSync(t, bits, want, mayBlock), Sync(g, t, bits, want, mayBlock).1)
  {
    SetKeeps(g, bits);
    var h := SetBits(g, bits);
    if (g.bits + bits) * want == want {
      ShrinkKeeps(h, h.bits - want);
    } else {
      assert !(want <= h.bits) by { NotAll(g, bits, want); }
      assert !TestWaitCondition(h.bits, want, true) by { assert h.bits * want == want ==> want <= h.bits; }
      hide Inv, SetBits, TestWaitCondition;
      if mayBlock { BlockKeeps(h, t, Request(want, true, true)); }
      assert Plain(h.bits) by { SetKeepsPlain(g, bits); }
    }
  }

  lemma SetKeepsPlain(g: Group, bits: Bits)
    requires Inv(g) && Plain(bits)
    ensures Plain(SetBits(g, bits).bits)
  {}

  lemma NotAll(g: Group, bits: Bits, want: Bits)
    ensures want <= SetBits(g, bits).bits ==> (g.bits + bits) * want == want
  {
    if want <= SetBits(g, bits).bits {
      assert want <= g.bits + bits;
    }
  }

  lemma ResumeKeeps(g: Group, t: nat)
    requires Inv(g) && t in g.pending && !Listed(g.waiters, t)
    ensures Inv(Resume(g, t).0) && OutcomeOK(g, DoResume(t), Resume(g, t).1)
  {
    hide Unique, Satisfied;
    var p := g.pending[t];
    assert PendingOK(g, t);
    LeaveKeeps(g, t);
    var left := g.(pending := g.pending - {t});
    if UNBLOCKED in p.word {
      if StillWaiting(p) { WaitWordTests(p.req.want, p.req.clear, p.req.all, g.bits); }
    } else {
      ShrinkKeeps(left, g.bits - p.req.want);
    }
  }

  // ----------------------------------------------------------------------------------- whole runs

  ghost predicate IsRun(g: Group, steps: seq<Step>)
    decreases |steps|
  {
    steps == [] || (Enabled(g, steps[0]) && IsRun(Apply(g, steps[0]).0, steps[1..]))
  }

  ghost function Run(g: Group, steps: seq<Step>): Group
    requires IsRun(g, steps)
    decreases |steps|
  {
    if steps == [] then g else Run(Apply(g, steps[0]).0, steps[1..])
  }

  lemma {:induction false} RunKeeps(g: Group, steps: seq<Step>)
    requires Inv(g) && IsRun(g, steps)
    ensures Inv(Run(g, steps))
    decreases |steps|
  {
    hide Inv, Apply, Enabled;
    if steps != [] {
      StepKeeps(g, steps[0]);
      RunKeeps(Apply(g, steps[0]).0, steps[1..]);
    }
  }

  /** However sets, clears, waits, rendezvous, timeouts and resumptions interleave, a task whose
      condition holds is never left on the waiting list, and every value handed back is plain. */
  lemma NeverLeftBlocked(steps: seq<Step>, t: nat, last: Step)
    ensures var g := Group({}, [], map[]);
      IsRun(g, steps) ==> var h := Run(g, steps);
        && Plain(h.bits)
        && (Listed(h.waiters, t) ==>
              (t in h.pending && !TestWaitCondition(h.bits, h.pending[t].req.want, h.pending[t].req.all)))
        && (Enabled(h, last) ==> OutcomeOK(h, last, Apply(h, last).1))
  {
    var g := Group({}, [], map[]);
    assert Inv(g);
    if IsRun(g, steps) {
      hide IsRun, Run, Unique, Satisfied, OutcomeOK, Apply;
      RunKeeps(g, steps);
      var h := Run(g, steps);
      if Listed(h.waiters, t) {
        var e :| e in h.waiters && e.who == t;
        assert EntryOK(h, e) && PendingOK(h, t);
        var req := h.pending[t].req;
        WaitWordTests(req.want, req.clear, req.all, h.bits);
      }
      if Enabled(h, last) { StepKeeps(h, last); }
    }
  }
}

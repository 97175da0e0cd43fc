/** What the callers of an event group see: which bits a set leaves, whom it releases, and what a
    blocked call returns, whatever the others do in between. */
module EventCalls {
  import opened EventSpec
  import opened EventProtocol

  /** The condition of a request, in so many words. */
  ghost predicate Met(req: Request, bits: Bits) {
    if req.all then req.want <= bits else exists b :: b in req.want && b in bits
  }

  ghost predicate Waits(g: Group, t: nat) { Listed(g.waiters, t) && t in g.pending }

  /** t is waiting before the set and no longer after it. */
  ghost predicate Released(g: Group, bits: Bits, t: nat) {
    Waits(g, t) && !Listed(SetBits(g, bits).waiters, t)
  }

  /** The entry of a waiting task says what the task asked for. */
  lemma EntryOf(g: Group, t: nat) returns (e: Entry<nat>)
    requires Inv(g) && Listed(g.waiters, t)
    ensures e in g.waiters && e.who == t && t in g.pending && e.word == g.pending[t].word && StillWaiting(g.pending[t])
    ensures Plain(g.pending[t].req.want) && e.word - CONTROL == g.pending[t].req.want
    ensures CLEAR_ON_EXIT in e.word <==> g.pending[t].req.clear
  {
    hide Unique, Satisfied;
    e :| e in g.waiters && e.who == t;
    assert EntryOK(g, e) && PendingOK(g, t);
    var req := g.pending[t].req;
    WaitWordTests(req.want, req.clear, req.all, {});
  }

  lemma MeetsTest(g: Group, t: nat, e: Entry<nat>, snapshot: Bits)
    requires t in g.pending && Plain(g.pending[t].req.want) && StillWaiting(g.pending[t])
    requires e.word == g.pending[t].word
    ensures Satisfied(e.word, snapshot) <==> Met(g.pending[t].req, snapshot)
  {
    var req := g.pending[t].req;
    WaitWordTests(req.want, req.clear, req.all, snapshot);
    ConditionMeans(snapshot, req.want, req.all);
  }

  /** A set releases exactly the tasks whose conditions it meets. */
  lemma ReleasesExactly(g: Group, bits: Bits, t: nat)
    requires Inv(g) && Waits(g, t)
    ensures Released(g, bits, t) <==> Met(g.pending[t].req, g.bits + bits)
  {
    hide Kept, Satisfied, Unique, Met, Freed, ClearMask, StillWaiting, Plain;
    var snapshot := g.bits + bits;
    var e := EntryOf(g, t);
    MeetsTest(g, t, e, snapshot);
    WalkExact(g.waiters, snapshot);
    if x :| x in Kept(g.waiters, snapshot) && x.who == t { OneEach(g.waiters, x, e); }
    assert Satisfied(e.word, snapshot) || e in Kept(g.waiters, snapshot);
  }

  /** Of the old and the new bits together, a set leaves exactly those that no task it releases had asked
      to be cleared on exit. */
  lemma SetLeaves(g: Group, bits: Bits, b: nat)
    requires Inv(g) && Plain(bits)
    ensures b in SetBits(g, bits).bits <==>
      && (b in g.bits || b in bits)
      && !(exists t :: Released(g, bits, t) && g.pending[t].req.clear && b in g.pending[t].req.want)
  {
    hide Kept, Satisfied, Unique, Met, Freed, ClearMask, StillWaiting, Plain;
    var snapshot := g.bits + bits;
    MaskExact(g.waiters, snapshot, b);
    if e :| e in g.waiters && Satisfied(e.word, snapshot) && CLEAR_ON_EXIT in e.word && b in e.word && b !in CONTROL {
      Clears(g, bits, e, b);
    }
    if t :| Released(g, bits, t) && g.pending[t].req.clear && b in g.pending[t].req.want {
      var e := EntryOf(g, t);
      ReleasesExactly(g, bits, t);
      MeetsTest(g, t, e, snapshot);
    }
  }

  lemma Clears(g: Group, bits: Bits, e: Entry<nat>, b: nat)
    requires Inv(g) && e in g.waiters && Satisfied(e.word, g.bits + bits)
    requires CLEAR_ON_EXIT in e.word && b in e.word && b !in CONTROL
    ensures Released(g, bits, e.who) && g.pending[e.who].req.clear && b in g.pending[e.who].req.want
  {
    hide Kept, Satisfied, Unique, Met, Freed, ClearMask, StillWaiting, Plain;
    assert Listed(g.waiters, e.who);
    var x := EntryOf(g, e.who);
    OneEach(g.waiters, x, e);
    MeetsTest(g, e.who, e, g.bits + bits);
    ReleasesExactly(g, bits, e.who);
  }

  // ------------------------------------------------------------------------- the course of a blocked call

  datatype Found = NotYet | At(snapshot: Bits)

  /** The bits that a step sets, on top of those that are set. */
  ghost function SetIn(step: Step): Found {
    match step
    case DoSet(bits) => At(bits)
    case DoSync(_, bits, _, _) => At(bits)
    case _ => NotYet
  }

  /** A set with these bits releases t, and hands it all the bits that are set then. */
  lemma SetReleases(g: Group, bits: Bits, t: nat)
    requires Inv(g) && Waits(g, t) && Plain(bits)
    ensures var h := SetBits(g, bits);
      t in h.pending
      && if Met(g.pending[t].req, g.bits + bits)
         then !Listed(h.waiters, t) && h.pending[t] == g.pending[t].(word := ReleaseWord(g.bits + bits))
         else Waits(h, t) && h.pending[t] == g.pending[t]
  {
    hide Kept, Satisfied, Unique, Met, Freed, ClearMask, StillWaiting, Plain;
    var snapshot := g.bits + bits;
    var e := EntryOf(g, t);
    ReleasesExactly(g, bits, t);
    KeptOrFreed(g.waiters, snapshot, t);
    WalkExact(g.waiters, snapshot);
    if !Listed(Kept(g.waiters, snapshot), t) {
      assert e !in Kept(g.waiters, snapshot);
      assert Listed(Freed(g.waiters, snapshot), t);
    }
  }

  /** Others blocking, timing out or leaving do not touch the entry of t. */
  lemma WaiterStays(g: Group, step: Step, t: nat)
    requires Inv(g) && Waits(g, t) && Enabled(g, step) && step != DoTimeout(t) && SetIn(step).NotYet?
    ensures Waits(Apply(g, step).0, t) && Apply(g, step).0.pending[t] == g.pending[t]
  {
    hide Satisfied, Unique, Plain, TestWaitCondition, WithoutTask;
    var e := EntryOf(g, t);
    match step
    case DoTimeout(u) =>
      WithoutUnique(g, u);
      assert e in WithoutTask(g.waiters, u);
    case DoWait(u, req, mayBlock) =>
      if !TestWaitCondition(g.bits, req.want, req.all) && mayBlock { assert e in Block(g, u, req).waiters; }
    case _ =>
  }

  lemma WithoutUnique(g: Group, u: nat)
    requires Inv(g)
    ensures forall e :: e in WithoutTask(g.waiters, u) <==> e in g.waiters && e.who != u
  {
    WithoutTaskExact(g.waiters, u);
  }

  lemma WaiterStep(g: Group, step: Step, t: nat)
    requires Inv(g) && Waits(g, t) && Enabled(g, step) && step != DoTimeout(t)
    ensures var h := Apply(g, step).0;
      t in h.pending
      && if SetIn(step).At? && Met(g.pending[t].req, g.bits + SetIn(step).snapshot)
         then !Listed(h.waiters, t) && h.pending[t] == g.pending[t].(word := ReleaseWord(g.bits + SetIn(step).snapshot))
         else Waits(h, t) && h.pending[t] == g.pending[t]
  {
    hide Met, SetBits, Inv, Plain;
    match step
    case DoSet(bits) => SetReleases(g, bits, t);
    case DoSync(u, bits, want, mayBlock) =>
      SetReleases(g, bits, t);
      JoinKeeps(SetBits(g, bits), u, Request(want, true, true), t);
    case _ => WaiterStays(g, step, t);
  }

  lemma JoinKeeps(g: Group, u: nat, req: Request, t: nat)
    requires u != t
    ensures Listed(Block(g, u, req).waiters, t) <==> Listed(g.waiters, t)
    ensures t in g.pending ==> t in Block(g, u, req).pending && Block(g, u, req).pending[t] == g.pending[t]
  {
    hide WaitWord;
    var h := Block(g, u, req);
    if e :| e in g.waiters && e.who == t { assert e in h.waiters; }
  }

  /** A task that is off the list keeps what it was given until it runs. */
  lemma ReleasedStep(g: Group, step: Step, t: nat)
    requires Inv(g) && t in g.pending && !Listed(g.waiters, t) && Enabled(g, step) && step != DoResume(t)
    ensures var h := Apply(g, step).0;
      t in h.pending && h.pending[t] == g.pending[t] && !Listed(h.waiters, t)
  {
    hide Satisfied, Unique, Plain, TestWaitCondition, WithoutTask, Kept, Freed, ClearMask, WaitWord;
    match step
    case DoSet(bits) => SetPasses(g, bits, t);
    case DoSync(u, bits, want, _) =>
      SetPasses(g, bits, t);
      JoinKeeps(SetBits(g, bits), u, Request(want, true, true), t);
    case DoWait(u, req, _) => JoinKeeps(g, u, req, t);
    case DoTimeout(u) => WithoutUnique(g, u);
    case _ =>
  }

  lemma SetPasses(g: Group, bits: Bits, t: nat)
    requires t in g.pending && !Listed(g.waiters, t)
    ensures var h := SetBits(g, bits);
      t in h.pending && h.pending[t] == g.pending[t] && !Listed(h.waiters, t)
  {
    hide Kept, Freed, Satisfied, ClearMask;
    KeptNotListed(g.waiters, g.bits + bits, t);
    FreedNotListed(g.waiters, g.bits + bits, t);
  }

  lemma FreedNotListed(s: seq<Entry<nat>>, snapshot: Bits, t: nat)
    ensures Listed(Freed(s, snapshot), t) ==> Listed(s, t)
  {
    WalkExact(s, snapshot);
    if x :| x in Freed(s, snapshot) && x.who == t { assert x in s; }
  }

  /** The bits just after the first set of the run that meets the request. */
  ghost function FirstMet(g: Group, steps: seq<Step>, req: Request): Found
    requires IsRun(g, steps)
    decreases |steps|
  {
    if steps == [] then NotYet
    else if SetIn(steps[0]).At? && Met(req, g.bits + SetIn(steps[0]).snapshot)
    then At(g.bits + SetIn(steps[0]).snapshot)
    else FirstMet(Apply(g, steps[0]).0, steps[1..], req)
  }

  ghost predicate LeavesAlone(steps: seq<Step>, t: nat) {
    forall k :: 0 <= k < |steps| ==> steps[k] != DoTimeout(t) && steps[k] != DoResume(t)
  }

  /** A task that blocks, and is not timed out, stays blocked until the first set that meets its request,
      and then returns the bits as they were at that set, however long it takes to run and whatever
      happens to the bits in between. */
  lemma {:induction false} BlockedReturns(g: Group, steps: seq<Step>, t: nat)
    requires Inv(g) && Waits(g, t) && IsRun(g, steps) && LeavesAlone(steps, t)
    ensures var r, req := Run(g, steps), g.pending[t].req;
      t in r.pending && r.pending[t].req == req
      && match FirstMet(g, steps, req)
         case NotYet => Waits(r, t)
         case At(snapshot) =>
           !Listed(r.waiters, t) && Met(req, snapshot)
           && Resume(r, t).1 == Returns(snapshot) && Resume(r, t).0.bits == r.bits
    decreases |steps|
  {
    hide Inv, Apply, Enabled, Met, SetIn;
    if steps != [] {
      var req := g.pending[t].req;
      var h := Apply(g, steps[0]).0;
      assert steps[0] != DoTimeout(t);
      StepKeeps(g, steps[0]);
      WaiterStep(g, steps[0], t);
      if Waits(h, t) {
        BlockedReturns(h, steps[1..], t);
      } else {
        var snapshot := g.bits + SetIn(steps[0]).snapshot;
        assert Plain(snapshot) by { PlainSet(g, steps[0]); }
        KeepsWord(h, steps[1..], t);
        ReleaseWordReads(snapshot);
      }
    }
  }

  lemma PlainSet(g: Group, step: Step)
    requires Inv(g) && Enabled(g, step) && SetIn(step).At?
    ensures Plain(g.bits + SetIn(step).snapshot)
  {}

  lemma {:induction false} KeepsWord(g: Group, steps: seq<Step>, t: nat)
    requires Inv(g) && t in g.pending && !Listed(g.waiters, t) && IsRun(g, steps) && LeavesAlone(steps, t)
    ensures var r := Run(g, steps);
      t in r.pending && r.pending[t] == g.pending[t] && !Listed(r.waiters, t)
    decreases |steps|
  {
    hide Inv, Apply, Enabled;
    if steps != [] {
      assert steps[0] != DoResume(t);
      StepKeeps(g, steps[0]);
      ReleasedStep(g, steps[0], t);
      KeepsWord(Apply(g, steps[0]).0, steps[1..], t);
    }
  }

  // ----------------------------------------------------------------------------- calls that do not block

  /** A wait whose condition holds returns the bits, and clears what it waited for if it was to; one whose
      condition does not hold returns the bits, or joins the end of the waiting list, and clears nothing. */
  lemma WaitExact(g: Group, t: nat, req: Request, mayBlock: bool, b: nat)
    requires Inv(g) && Enabled(g, DoWait(t, req, mayBlock))
    ensures var (h, out) := WaitBits(g, t, req, mayBlock);
      && (b in h.bits <==> b in g.bits && !(Met(req, g.bits) && req.clear && b in req.want))
      && (if Met(req, g.bits) || !mayBlock
          then out == Returns(g.bits) && h.waiters == g.waiters && h.pending == g.pending
          else
            && out == Blocks && Waits(h, t) && h.pending[t].req == req && |h.waiters| == |g.waiters| + 1
            && h.waiters[..|g.waiters|] == g.waiters)
  {
    hide WaitWord, TestWaitCondition, Inv, Met;
    ConditionMeans(g.bits, req.want, req.all);
    MetIs(req, g.bits);
    if !Met(req, g.bits) && mayBlock {
      var h := Block(g, t, req);
      assert h.waiters[|g.waiters|].who == t && h.waiters[|g.waiters|] in h.waiters;
    }
  }

  lemma MetIs(req: Request, bits: Bits)
    ensures Met(req, bits) <==> TestWaitCondition(bits, req.want, req.all)
  {
    ConditionMeans(bits, req.want, req.all);
  }

  /** A rendezvous that is not complete only sets its bits; the caller then waits for all it wants, to be
      cleared on exit, or returns the bits that are left. */
  lemma SyncWaits(g: Group, t: nat, bits: Bits, want: Bits, mayBlock: bool)
    requires Inv(g) && Enabled(g, DoSync(t, bits, want, mayBlock)) && !(want <= g.bits + bits)
    ensures var (h, out) := Sync(g, t, bits, want, mayBlock);
      var base := SetBits(g, bits);
      && h.bits == base.bits
      && (if mayBlock then out == Blocks && Waits(h, t) && h.pending[t].req == Request(want, true, true)
          else out == Returns(base.bits) && h == base)
  {
    hide WaitWord, SetBits, Inv;
    assert (g.bits + bits) * want == want ==> want <= g.bits + bits;
    var base := SetBits(g, bits);
    if mayBlock {
      var h := Block(base, t, Request(want, true, true));
      assert h.waiters[|base.waiters|].who == t && h.waiters[|base.waiters|] in h.waiters;
    }
  }

  /** A task that is timed out returns, when it runs, the bits as they are then; if they meet its request
      after all, it clears what it waited for if it was to. */
  lemma TimedOutReturns(g: Group, t: nat, steps: seq<Step>, b: nat)
    requires Inv(g) && Waits(g, t) && IsRun(Timeout(g, t), steps) && LeavesAlone(steps, t)
    ensures var r, req := Run(Timeout(g, t), steps), g.pending[t].req;
      t in r.pending && !Listed(r.waiters, t)
      && var (h, out) := Resume(r, t);
        && out == Returns(r.bits) && t !in h.pending
        && (b in h.bits <==> b in r.bits && !(Met(req, r.bits) && req.clear && b in req.want))
  {
    hide Inv, IsRun, Run, Met, Plain, StillWaiting, TestWaitCondition;
    var e := EntryOf(g, t);
    var h := Timeout(g, t);
    WithoutUnique(g, t);
    assert !Listed(h.waiters, t) by { NoneLeft(h.waiters, t); }
    TimeoutKeeps(g, t);
    KeepsWord(h, steps, t);
    RunKeeps(h, steps);
    var r := Run(h, steps);
    PlainBits(r);
    MetIs(g.pending[t].req, r.bits);
    NotReleased(g.pending[t]);
    assert r.bits - CONTROL == r.bits by { PlainApart(r.bits); }
  }

  lemma NoneLeft(s: seq<Entry<nat>>, t: nat)
    requires forall e :: e in s ==> e.who != t
    ensures !Listed(s, t)
  {}

  lemma PlainBits(g: Group)
    requires Inv(g)
    ensures Plain(g.bits)
  {}

  lemma PlainApart(bits: Bits)
    requires Plain(bits)
    ensures bits - CONTROL == bits
  {}

  lemma NotReleased(p: Pending)
    requires StillWaiting(p) && Plain(p.req.want)
    ensures UNBLOCKED !in p.word
  {
    WaitWordTests(p.req.want, p.req.clear, p.req.all, {});
  }

  /** Clearing returns the bits before and takes away exactly those given; it releases nobody. */
  lemma ClearExact(g: Group, bits: Bits, b: nat, t: nat)
    requires Inv(g) && Enabled(g, DoClear(bits))
    ensures var (h, out) := Apply(g, DoClear(bits));
      && out == Returns(g.bits) && (b in h.bits <==> b in g.bits && b !in bits)
      && h.waiters == g.waiters && (Waits(g, t) ==> !Met(h.pending[t].req, h.bits))
  {
    hide Satisfied, Unique, Met, StillWaiting, Plain, PendingOK;
    if Waits(g, t) {
      var e := EntryOf(g, t);
      MeetsTest(g, t, e, g.bits - bits);
      if Satisfied(e.word, g.bits - bits) { SatisfiedMonotone(e.word, g.bits - bits, g.bits); }
    }
  }
}

/** Whole calls on a recursive mutex: what one take or one give comes to, whatever the other tasks do
    between its accesses. */
module MutexCalls {
  import opened MachineWord
  import opened RecursiveMutex

  ghost predicate Own(step: Step, t: int) { step.t == t }

  /** How many of the steps are task t's. */
  ghost function Steps(steps: seq<Step>, t: int): nat {
    if steps == [] then 0 else Steps(steps[..|steps| - 1], t) + (if Own(steps[|steps| - 1], t) then 1 else 0)
  }

  /** Task t starts no other call. */
  ghost predicate OneCall(steps: seq<Step>, t: int) {
    forall k :: 0 <= k < |steps| && Own(steps[k], t) ==> steps[k].Go?
  }

  lemma {:induction false} RunSnoc(m: Mutex, steps: seq<Step>)
    requires steps != []
    ensures var n := |steps| - 1;
      && Run(m, steps) == Apply(Run(m, steps[..n]), steps[n])
      && (IsRun(m, steps) <==> IsRun(m, steps[..n]) && Enabled(Run(m, steps[..n]), steps[n]))
    decreases |steps|
  {
    hide Apply, Enabled;
    var n := |steps| - 1;
    if n == 0 {
      assert steps[1..] == [] && steps[..0] == [];
    } else {
      RunSnoc(Apply(m, steps[0]), steps[1..]);
      assert steps[1..][..n - 1] == steps[..n][1..];
    }
  }

  lemma OthersKeep(m: Mutex, step: Step, t: int)
    requires !Own(step, t)
    ensures PcOf(Apply(m, step), t) == PcOf(m, t) && DepthOf(Apply(m, step), t) == DepthOf(m, t)
  {}

  /** Another task's step cannot take the mutex from its holder, nor change the count it keeps. */
  lemma HolderKeeps(m: Mutex, step: Step, t: int)
    requires Inv(m) && Enabled(m, step) && !Own(step, t) && m.holder == Task(t)
    ensures var r := Apply(m, step);
      r.holder == Task(t) && r.count == m.count && r.available == 0
  {
    assert TaskOK(m, step.t);
  }

  // -------------------------------------------------------------------------------------------- giving

  /** Where a give that began at depth d stands after n of its accesses. */
  ghost predicate Giving(m: Mutex, t: int, d: int, n: nat) {
    if n == 0 then PcOf(m, t) == GiveCheck && DepthOf(m, t) == d && m.holder == Task(t)
    else if n == 1 then PcOf(m, t) == DecRead && DepthOf(m, t) == d && m.holder == Task(t)
    else if n == 2 then PcOf(m, t).DecWrite? && DepthOf(m, t) == d && m.holder == Task(t)
    else if n == 3 then PcOf(m, t) == GiveTest && DepthOf(m, t) == d - 1 && m.holder == Task(t)
    else if n == 4 && d == 1 then PcOf(m, t) == GiveSend && DepthOf(m, t) == 0 && m.holder == Task(t)
    else n == Accesses(d) && PcOf(m, t) == Idle && DepthOf(m, t) == d - 1
  }

  /** Check, read, write and test of the count; and the return of the mutex when it reached zero. */
  function Accesses(d: int): nat { if d == 1 then 5 else 4 }

  lemma GivesOn(m: Mutex, step: Step, t: int, d: int, n: nat)
    requires Inv(m) && Enabled(m, step) && step.Go? && step.t == t && d > 0 && Giving(m, t, d, n)
    ensures Giving(Apply(m, step), t, d, n + 1)
    ensures var r := Apply(m, step);
      n + 1 == Accesses(d) ==> (if d == 1 then r.holder == NoTask && r.available == 1
                                else r.holder == Task(t) && r.available == 0 && r.count == d - 1)
  {
    assert TaskOK(m, t);
  }

  lemma GivingKept(m: Mutex, step: Step, t: int, d: int, n: nat)
    requires Inv(m) && Enabled(m, step) && !Own(step, t) && Giving(m, t, d, n)
    ensures Giving(Apply(m, step), t, d, n)
  {
    hide Inv, Enabled, Apply;
    OthersKeep(m, step, t);
    if m.holder == Task(t) { HolderKeeps(m, step, t); }
  }

  /** A give by the holder, at depth d, however the others' accesses fall between its own: it is over
      after its fourth access, or its fifth if d was 1; it leaves depth d - 1; and its last access
      makes the mutex available, without a holder, exactly when d was 1. */
  lemma {:induction false} GiveGives(m: Mutex, steps: seq<Step>, t: int)
    requires Inv(m) && PcOf(m, t) == Idle && DepthOf(m, t) > 0
    requires IsRun(Apply(m, BeginGive(t)), steps) && OneCall(steps, t)
    ensures var r, d, n := Run(Apply(m, BeginGive(t)), steps), DepthOf(m, t), Steps(steps, t);
      && Inv(r) && Giving(r, t, d, n) && n <= Accesses(d)
      && (PcOf(r, t) == Idle <==> n == Accesses(d))
      && (n == Accesses(d) ==> DepthOf(r, t) == d - 1)
      && (n == Accesses(d) && Own(steps[|steps| - 1], t) ==>
            (if d == 1 then r.holder == NoTask && r.available == 1
             else r.holder == Task(t) && r.available == 0 && r.count == d - 1))
    decreases |steps|
  {
    hide Apply, Enabled, Inv;
    var b, d := Apply(m, BeginGive(t)), DepthOf(m, t);
    BeginsGive(m, t);
    if steps != [] {
      var n := |steps| - 1;
      var rest, step := steps[..n], steps[n];
      RunSnoc(b, steps);
      GiveGives(m, rest, t);
      var r := Run(b, rest);
      StepKeeps(r, step);
      if Own(step, t) {
        assert step.Go? && PcOf(r, t) != Idle by { assert steps[n] == step; GoesOn(r, step); }
        GivesOn(r, step, t, d, Steps(rest, t));
      } else {
        GivingKept(r, step, t, d, Steps(rest, t));
      }
    }
  }

  lemma BeginsGive(m: Mutex, t: int)
    requires Inv(m) && PcOf(m, t) == Idle && DepthOf(m, t) > 0
    ensures Inv(Apply(m, BeginGive(t))) && Giving(Apply(m, BeginGive(t)), t, DepthOf(m, t), 0)
  {
    StepKeeps(m, BeginGive(t));
    assert TaskOK(m, t);
  }

  lemma GoesOn(m: Mutex, step: Step)
    requires Enabled(m, step) && step.Go?
    ensures PcOf(m, step.t) != Idle
  {}

  // -------------------------------------------------------------------------------------------- taking

  /** The step of t finds the mutex its own, or available. */
  ghost predicate Gets(m: Mutex, t: int) {
    (PcOf(m, t) == TakeCheck && m.holder == Task(t)) || (PcOf(m, t) == TakeAcquire && m.available > 0)
  }

  /** How many accesses task t has made in these steps, counting from the one that got the mutex. */
  ghost function SinceGot(m: Mutex, steps: seq<Step>, t: int): nat
    decreases |steps|
  {
    if steps == [] then 0
    else
      var n := |steps| - 1;
      var k := SinceGot(m, steps[..n], t);
      if !Own(steps[n], t) then k
      else if k > 0 || Gets(Run(m, steps[..n]), t) then k + 1 else 0
  }

  /** Where a take that began at depth d stands, k accesses after it got the mutex. */
  ghost predicate Taking(m: Mutex, t: int, d: int, k: nat) {
    if k == 0 then
      && DepthOf(m, t) == d
      && if d > 0 then PcOf(m, t) == TakeCheck && m.holder == Task(t)
         else PcOf(m, t).TakeCheck? || PcOf(m, t).TakeAcquire? || PcOf(m, t).Idle?
    else
      && m.holder == Task(t)
      && if k == 1 then PcOf(m, t) == IncRead && DepthOf(m, t) == d
         else if k == 2 then PcOf(m, t).IncWrite? && DepthOf(m, t) == d
         else k == 3 && PcOf(m, t) == Idle && DepthOf(m, t) == d + 1
  }

  lemma TakesOn(m: Mutex, step: Step, t: int, d: int, k: nat)
    requires Inv(m) && Enabled(m, step) && step.Go? && step.t == t && Taking(m, t, d, k)
    ensures Taking(Apply(m, step), t, d, if k > 0 || Gets(m, t) then k + 1 else 0)
    ensures var r := Apply(m, step);
      && (k == 2 ==> r.count == d + 1 && r.available == 0)
      && (k == 0 && PcOf(r, t) == Idle ==> step == Go(t, false) && PcOf(m, t) == TakeAcquire && m.available == 0)
  {
    assert TaskOK(m, t);
  }

  lemma TakingKept(m: Mutex, step: Step, t: int, d: int, k: nat)
    requires Inv(m) && Enabled(m, step) && !Own(step, t) && Taking(m, t, d, k)
    ensures Taking(Apply(m, step), t, d, k)
  {
    hide Inv, Enabled, Apply;
    OthersKeep(m, step, t);
    if m.holder == Task(t) { HolderKeeps(m, step, t); }
  }

  /** A take from depth d, however the others' accesses fall between its own: once it has got the mutex,
      at its first access if it held it already, two more accesses complete it, at depth d + 1 and as
      the holder; and it returns without the mutex only if it did not hold it, and would not wait when
      it found it taken. */
  lemma {:induction false} TakeTakes(m: Mutex, steps: seq<Step>, t: int)
    requires Inv(m) && PcOf(m, t) == Idle && DepthOf(m, t) < WORD_LIMIT - 1
    requires IsRun(Apply(m, BeginTake(t)), steps) && OneCall(steps, t)
    ensures var b, d := Apply(m, BeginTake(t)), DepthOf(m, t);
      var r, k := Run(b, steps), SinceGot(b, steps, t);
      && Inv(r) && Taking(r, t, d, k)
      && (d > 0 ==> k == Steps(steps, t))
      && (PcOf(r, t) == Idle ==> k == 3 || (k == 0 && d == 0))
      && (k == 3 ==> PcOf(r, t) == Idle && r.holder == Task(t) && DepthOf(r, t) == d + 1)
      && (PcOf(r, t) == Idle && k == 0 && Own(steps[|steps| - 1], t) ==>
            steps[|steps| - 1] == Go(t, false) && Run(b, steps[..|steps| - 1]).available == 0)
    decreases |steps|
  {
    hide Apply, Enabled, Inv, Gets;
    var b, d := Apply(m, BeginTake(t)), DepthOf(m, t);
    BeginsTake(m, t);
    if steps != [] {
      var n := |steps| - 1;
      var rest, step := steps[..n], steps[n];
      RunSnoc(b, steps);
      TakeTakes(m, rest, t);
      var r, k := Run(b, rest), SinceGot(b, rest, t);
      StepKeeps(r, step);
      if Own(step, t) {
        assert step.Go? && PcOf(r, t) != Idle by { assert steps[n] == step; GoesOn(r, step); }
        TakesOn(r, step, t, d, k);
        if d > 0 && k == 0 { assert Gets(r, t) by { AtFirst(r, t, d); } }
      } else {
        TakingKept(r, step, t, d, k);
      }
    }
  }

  lemma AtFirst(m: Mutex, t: int, d: int)
    requires Taking(m, t, d, 0) && d > 0
    ensures Gets(m, t)
  {}

  lemma BeginsTake(m: Mutex, t: int)
    requires Inv(m) && PcOf(m, t) == Idle && DepthOf(m, t) < WORD_LIMIT - 1
    ensures Inv(Apply(m, BeginTake(t))) && Taking(Apply(m, BeginTake(t)), t, DepthOf(m, t), 0)
    ensures PcOf(Apply(m, BeginTake(t)), t) == TakeCheck && 0 <= DepthOf(m, t)
  {
    StepKeeps(m, BeginTake(t));
    assert TaskOK(m, t);
  }
}

/** Event group words and what one xEventGroupSetBits does to the bits and to the waiting tasks. */
module EventSpec {

  /** A machine word as the set of its one bits: | is union, & is intersection, & ~ is difference. */
  type Bits = set<nat>

  const WIDTH := 32

  const CLEAR_ON_EXIT: nat := 24
  const UNBLOCKED: nat := 25
  const WAIT_FOR_ALL: nat := 26
  const IN_USE: nat := 31

  const CONTROL: Bits := {24, 25, 26, 27, 28, 29, 30, 31}

  /** Bits an application may use. */
  predicate Plain(w: Bits) { forall b :: b in w ==> b < 24 }

  predicate Fits(w: Bits) { forall b :: b in w ==> b < WIDTH }

  // --------------------------------------------------------------------------- words as numbers

  function ValueFrom(w: Bits, i: nat): nat
    requires i <= WIDTH
    decreases WIDTH - i
  {
    if i == WIDTH then 0 else (if i in w then 1 else 0) + 2 * ValueFrom(w, i + 1)
  }

  function BitsFrom(n: nat, i: nat): Bits
    requires i <= WIDTH
    decreases WIDTH - i
  {
    if i == WIDTH then {} else (if n % 2 == 1 then {i} else {}) + BitsFrom(n / 2, i + 1)
  }

  function Number(w: Bits): nat { ValueFrom(w, 0) }

  function Word(n: nat): Bits { BitsFrom(n, 0) }

  function Pow2(n: nat): nat { if n == 0 then 1 else 2 * Pow2(n - 1) }

  lemma Pow2Width()
    ensures Pow2(WIDTH) == 0x1_0000_0000
  {
    assert Pow2(8) == 0x100;
    assert Pow2(16) == 0x1_0000;
    assert Pow2(24) == 0x100_0000;
  }

  lemma {:induction false} ValueBelow(w: Bits, i: nat)
    requires i <= WIDTH
    ensures ValueFrom(w, i) < Pow2(WIDTH - i)
    decreases WIDTH - i
  {
    if i < WIDTH { ValueBelow(w, i + 1); }
  }

  lemma {:induction false} ValueRoundTrip(w: Bits, i: nat)
    requires i <= WIDTH
    ensures BitsFrom(ValueFrom(w, i), i) == set b | b in w && i <= b < WIDTH
    decreases WIDTH - i
  {
    if i < WIDTH { ValueRoundTrip(w, i + 1); }
  }

  lemma {:induction false} BitsAbove(n: nat, i: nat)
    requires i <= WIDTH
    ensures forall b :: b in BitsFrom(n, i) ==> i <= b < WIDTH
    decreases WIDTH - i
  {
    if i < WIDTH { BitsAbove(n / 2, i + 1); }
  }

  lemma {:induction false} ValueOfMore(w: Bits, x: Bits, i: nat)
    requires i <= WIDTH && (forall b :: i <= b < WIDTH ==> (b in w <==> b in x))
    ensures ValueFrom(w, i) == ValueFrom(x, i)
    decreases WIDTH - i
  {
    if i < WIDTH { ValueOfMore(w, x, i + 1); }
  }

  lemma {:induction false} BitsRoundTrip(n: nat, i: nat)
    requires i <= WIDTH && n < Pow2(WIDTH - i)
    ensures ValueFrom(BitsFrom(n, i), i) == n
    decreases WIDTH - i
  {
    if i < WIDTH {
      BitsRoundTrip(n / 2, i + 1);
      BitsAbove(n / 2, i + 1);
      ValueOfMore(BitsFrom(n, i), BitsFrom(n / 2, i + 1), i + 1);
    }
  }

  /** Words and 32-bit numbers correspond one to one. */
  lemma WordsAreNumbers(w: Bits, n: nat)
    requires Fits(w)
    ensures Number(w) < 0x1_0000_0000 && Word(Number(w)) == w
    ensures n < 0x1_0000_0000 ==> Fits(Word(n)) && Number(Word(n)) == n
  {
    Pow2Width();
    ValueBelow(w, 0);
    ValueRoundTrip(w, 0);
    if n < 0x1_0000_0000 {
      BitsRoundTrip(n, 0);
      BitsAbove(n, 0);
    }
  }

  // ----------------------------------------------------------------------------- wait conditions

  /** prvTestWaitCondition */
  predicate TestWaitCondition(current: Bits, want: Bits, all: bool) {
    if all then current * want == want else current * want != {}
  }

  /** The word a blocking task leaves in its event list item. */
  function WaitWord(want: Bits, clear: bool, all: bool): Bits {
    want + (if clear then {CLEAR_ON_EXIT} else {}) + (if all then {WAIT_FOR_ALL} else {}) + {IN_USE}
  }

  /** The test that xEventGroupSetBits applies to an item word. */
  predicate Satisfied(word: Bits, bits: Bits) {
    var control, waited := word * CONTROL, word - CONTROL;
    if WAIT_FOR_ALL !in control then waited * bits != {} else waited * bits == waited
  }

  /** The word of a released task: the snapshot, flagged. */
  function ReleaseWord(snapshot: Bits): Bits { snapshot + {UNBLOCKED} + {IN_USE} }

  /** Packing a request into a word and testing it there is testing the request. */
  lemma WaitWordTests(want: Bits, clear: bool, all: bool, bits: Bits)
    requires Plain(want)
    ensures var w := WaitWord(want, clear, all);
      && w - CONTROL == want && Fits(w) && UNBLOCKED !in w
      && (CLEAR_ON_EXIT in w * CONTROL <==> clear)
      && (Satisfied(w, bits) <==> TestWaitCondition(bits, want, all))
  {
    var w := WaitWord(want, clear, all);
    assert w - CONTROL == want;
    assert want * bits == bits * want;
  }

  /** A released task finds exactly the snapshot, without control bits. */
  lemma ReleaseWordReads(snapshot: Bits)
    requires Plain(snapshot)
    ensures ReleaseWord(snapshot) - CONTROL == snapshot && UNBLOCKED in ReleaseWord(snapshot)
    ensures Fits(ReleaseWord(snapshot))
  {
    assert ReleaseWord(snapshot) - CONTROL == snapshot;
  }

  /** Taking bits away never satisfies a waiter. */
  lemma SatisfiedMonotone(word: Bits, bits: Bits, more: Bits)
    requires bits <= more && Satisfied(word, bits)
    ensures Satisfied(word, more)
  {
    var waited := word - CONTROL;
    if WAIT_FOR_ALL in word * CONTROL {
      assert waited <= more;
    } else {
      var b :| b in waited * bits;
      assert b in waited * more;
    }
  }

  // ------------------------------------------------------------------------- one walk of the list

  /** A waiting task and the word in its event list item. */
  datatype Entry<T> = Entry(who: T, word: Bits)

  /** The entries still waiting after the walk, in order. */
  function Kept<T>(s: seq<Entry<T>>, snapshot: Bits): (r: seq<Entry<T>>)
    ensures |r| <= |s|
  {
    if s == [] then [] else
      Kept(s[..|s| - 1], snapshot) + (if Satisfied(s[|s| - 1].word, snapshot) then [] else [s[|s| - 1]])
  }

  /** The entries released by the walk, in order. */
  function Freed<T>(s: seq<Entry<T>>, snapshot: Bits): seq<Entry<T>> {
    if s == [] then [] else
      Freed(s[..|s| - 1], snapshot) + (if Satisfied(s[|s| - 1].word, snapshot) then [s[|s| - 1]] else [])
  }

  function ClearedBy(word: Bits): Bits {
    if CLEAR_ON_EXIT in word * CONTROL then word - CONTROL else {}
  }

  /** The union of the bits waited for by the released entries that clear on exit. */
  function ClearMask<T>(s: seq<Entry<T>>, snapshot: Bits): Bits {
    if s == [] then {} else
      ClearMask(s[..|s| - 1], snapshot)
      + (if Satisfied(s[|s| - 1].word, snapshot) then ClearedBy(s[|s| - 1].word) else {})
  }

  function Whos<T>(s: seq<Entry<T>>): (r: seq<T>)
    ensures |r| == |s|
  {
    seq(|s|, i requires 0 <= i < |s| => s[i].who)
  }

  /** Each entry is dealt with exactly once, released exactly when satisfied by the one snapshot. */
  lemma {:induction false} WalkExact<T>(s: seq<Entry<T>>, snapshot: Bits)
    ensures multiset(s) == multiset(Kept(s, snapshot)) + multiset(Freed(s, snapshot))
    ensures forall e :: e in Freed(s, snapshot) <==> e in s && Satisfied(e.word, snapshot)
    ensures forall e :: e in Kept(s, snapshot) <==> e in s && !Satisfied(e.word, snapshot)
  {
    if s != [] {
      var rest, e := s[..|s| - 1], s[|s| - 1];
      WalkExact(rest, snapshot);
      assert s == rest + [e];
    }
  }

  /** A bit is cleared after the walk exactly when some released entry asked for it, with the flag that
      says to clear what it waited for. */
  lemma {:induction false} MaskExact<T>(s: seq<Entry<T>>, snapshot: Bits, b: nat)
    ensures b in ClearMask(s, snapshot) <==>
      exists e :: e in s && Satisfied(e.word, snapshot) && CLEAR_ON_EXIT in e.word && b in e.word && b !in CONTROL
  {
    hide Satisfied;
    if s != [] {
      var rest, e := s[..|s| - 1], s[|s| - 1];
      MaskExact(rest, snapshot, b);
      assert s == rest + [e];
    }
  }

  /** All of the bits asked for are set, or any of them. */
  lemma ConditionMeans(current: Bits, want: Bits, all: bool)
    ensures TestWaitCondition(current, want, all) <==>
      if all then want <= current else exists b :: b in want && b in current
  {
    if all {
      if current * want == want { assert want <= current; }
      if want <= current { assert current * want == want; }
    } else {
      if b :| b in want && b in current { assert b in current * want; }
      if current * want != {} {
        var b :| b in current * want;
        assert b in want && b in current;
      }
    }
  }
}

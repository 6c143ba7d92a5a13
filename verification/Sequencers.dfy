/** The round-robin sequencer of util/container.go: a Load / CompareAndSwap loop run by many threads. */
module Sequencers {
  import opened Bytes

  const MAX_INT32 := 0x7FFF_FFFF
  const MIN_INT32 := -0x8000_0000

  /** current + 1 in int32 arithmetic. */
  function Inc(current: int32): int32 {
    if current == MAX_INT32 then MIN_INT32 else current + 1
  }

  /** What Next stores after `current`: the increment, then the roll-over test. */
  function Succ(min: int32, max: int32, current: int32): int32 {
    if Inc(current) > max then min else Inc(current)
  }

  /** The value of the counter after i increments. */
  function Nth(min: int32, max: int32, i: nat): int32 {
    if i == 0 then min else Succ(min, max, Nth(min, max, i - 1))
  }

  class RoundRobinInteger {
    const min: int32
    const max: int32
    var value: int32

    constructor (min: int32, max: int32)
      ensures this.min == min && this.max == max && value == Nth(min, max, 0)
    {
      this.min, this.max, value := min, max, min;
    }

    method CompareAndSwap(current: int32, next: int32) returns (swapped: bool)
      modifies this`value
      ensures swapped == (old(value) == current)
      ensures value == if swapped then next else old(value)
    {
      swapped := value == current;
      if swapped {
        value := next;
      }
    }

    /** The loop of one thread when no other interferes: the first swap succeeds. */
    method Next() returns (r: int32)
      modifies this`value
      ensures r == old(value) && value == Succ(min, max, old(value))
    {
      var swapped := false;
      r := value;
      while !swapped
        invariant value == if swapped then Succ(min, max, old(value)) else old(value)
        invariant swapped ==> r == old(value)
        decreases !swapped
      {
        r := value;
        var next := Inc(r);
        if next > max {
          next := min;
        }
        swapped := CompareAndSwap(r, next);
      }
    }
  }

  // ----- Threads interleaved between Load and CompareAndSwap -----

  /** `loaded` is what a thread read and has not yet tried to swap; `taken` what Next returned. */
  datatype Counter =
    Counter(min: int32, max: int32, value: int32, loaded: map<nat, int32>, taken: seq<int32>)

  function Init(min: int32, max: int32): Counter { Counter(min, max, min, map[], []) }

  /** The next atomic operation of a thread that calls Next over and over. */
  function Step(s: Counter, thread: nat): Counter {
    if thread !in s.loaded then s.(loaded := s.loaded[thread := s.value])
    else
      var current := s.loaded[thread];
      var s' := s.(loaded := s.loaded - {thread});
      if s.value != current then s'
      else s'.(value := Succ(s.min, s.max, current), taken := s.taken + [current])
  }

  function Run(s: Counter, turns: seq<nat>): Counter
    decreases |turns|
  {
    if turns == [] then s else Run(Step(s, turns[0]), turns[1..])
  }

  predicate Inv(s: Counter) {
    && s.value == Nth(s.min, s.max, |s.taken|)
    && forall i :: 0 <= i < |s.taken| ==> s.taken[i] == Nth(s.min, s.max, i)
  }

  lemma {:induction false} RunKeepsInv(s: Counter, turns: seq<nat>)
    requires Inv(s)
    ensures Inv(Run(s, turns)) && Run(s, turns).min == s.min && Run(s, turns).max == s.max
    decreases |turns|
  {
    if turns != [] {
      RunKeepsInv(Step(s, turns[0]), turns[1..]);
    }
  }

  /**
   In every interleaving, also when a swap succeeds on a value that left and came back, the i-th
   call of Next to succeed returns the i-th value of the sequence.
   */
  lemma {:induction false} Linearizable(min: int32, max: int32, turns: seq<nat>)
    ensures var s := Run(Init(min, max), turns);
      forall i :: 0 <= i < |s.taken| ==> s.taken[i] == Nth(min, max, i)
  {
    RunKeepsInv(Init(min, max), turns);
  }

  lemma {:induction false} LoadSurvives(s: Counter, thread: nat, others: seq<nat>)
    requires thread in s.loaded && thread !in others
    ensures var s' := Run(s, others);
      && thread in s'.loaded && s'.loaded[thread] == s.loaded[thread]
      && s'.min == s.min && s'.max == s.max && |s'.taken| >= |s.taken|
      && (|s'.taken| == |s.taken| ==> s'.value == s.value && s'.taken == s.taken)
    decreases |others|
  {
    if others != [] {
      assert others[0] in others;
      LoadSurvives(Step(s, others[0]), thread, others[1..]);
    }
  }

  /** A swap only fails when another call has succeeded since the load: some caller always gets on. */
  lemma {:induction false} UnovertakenSucceeds(s: Counter, thread: nat, others: seq<nat>)
    requires thread !in s.loaded && thread !in others
    ensures var s1 := Step(s, thread); var s2 := Run(s1, others); var s3 := Step(s2, thread);
      |s2.taken| == |s.taken| ==> s3.taken == s.taken + [s.value]
  {
    LoadSurvives(Step(s, thread), thread, others);
  }

  // ----- The sequence -----

  lemma {:induction false} NthClimbs(min: int32, max: int32, i: nat)
    requires min <= max && i <= max - min
    ensures Nth(min, max, i) == min + i
  {
    if i > 0 {
      NthClimbs(min, max, i - 1);
    }
  }

  /** Below the largest int32 the sequence goes from min up to max, over and over. */
  lemma {:induction false} NthCycles(min: int32, max: int32, i: nat)
    requires min <= max < MAX_INT32
    ensures i <= max - min ==> Nth(min, max, i) == min + i
    ensures Nth(min, max, i + (max - min + 1)) == Nth(min, max, i)
  {
    if i <= max - min {
      NthClimbs(min, max, i);
    }
    if i == 0 {
      NthClimbs(min, max, max - min);
    } else {
      NthCycles(min, max, i - 1);
    }
  }

  function Cycles(count: nat, p: nat): nat {
    if count == 0 then 0 else p + Cycles(count - 1, p)
  }

  lemma {:induction false} CyclesMultiply(count: nat, p: nat)
    ensures Cycles(count, p) == count * p
  {
    if count > 0 {
      CyclesMultiply(count - 1, p);
    }
  }

  lemma {:induction false} NthInCycle(min: int32, max: int32, count: nat, r: nat)
    requires min <= max < MAX_INT32 && r <= max - min
    ensures Nth(min, max, Cycles(count, max - min + 1) + r) == min + r
  {
    if count == 0 {
      NthClimbs(min, max, r);
    } else {
      NthInCycle(min, max, count - 1, r);
      NthCycles(min, max, Cycles(count - 1, max - min + 1) + r);
    }
  }

  lemma {:induction false} Division(i: nat, p: nat)
    requires p > 0
    ensures i == i / p * p + i % p && 0 <= i / p
  {}

  /** So the i-th value is min plus the remainder of i by the size of the range. */
  lemma {:induction false} NthIsRemainder(min: int32, max: int32, i: nat)
    requires min <= max < MAX_INT32
    ensures Nth(min, max, i) == min + i % (max - min + 1)
  {
    var p := max - min + 1;
    Division(i, p);
    CyclesMultiply(i / p, p);
    NthInCycle(min, max, i / p, i % p);
  }

  lemma {:induction false} WrapSucc(x: int)
    ensures Inc(Wrap32(x)) == Wrap32(x + 1)
  {}

  lemma {:induction false} WrapDistinct(x: int, y: int)
    requires x < y < x + TWO_32
    ensures Wrap32(x) != Wrap32(y)
  {}

  /** At the largest int32 the roll-over test never fires: the counter wraps through the negatives. */
  lemma {:induction false} NthWraps(min: int32, i: nat)
    ensures Nth(min, MAX_INT32, i) == Wrap32(min + i)
  {
    if i > 0 {
      NthWraps(min, i - 1);
      WrapSucc(min + i - 1);
    }
  }

  function Period(min: int32, max: int32): int {
    if max < MAX_INT32 then max - min + 1 else TWO_32
  }

  lemma {:induction false} CycleReusesNothing(min: int32, max: int32, i: nat, j: nat)
    requires min <= max < MAX_INT32 && i < j <= i + (max - min)
    ensures Nth(min, max, i) != Nth(min, max, j)
  {
    var p := max - min + 1;
    if i >= p {
      CycleReusesNothing(min, max, i - p, j - p);
      NthCycles(min, max, i - p);
      NthCycles(min, max, j - p);
    } else {
      NthCycles(min, max, i);
      if j < p {
        NthCycles(min, max, j);
      } else {
        NthCycles(min, max, j - p);
      }
    }
  }

  /** Calls closer than the period never return the same number. */
  lemma {:induction false} NoReuseWithinPeriod(min: int32, max: int32, i: nat, j: nat)
    requires min <= max && i < j < i + Period(min, max)
    ensures Nth(min, max, i) != Nth(min, max, j)
  {
    if max < MAX_INT32 {
      CycleReusesNothing(min, max, i, j);
    } else {
      NthWraps(min, i);
      NthWraps(min, j);
      WrapDistinct(min + i, min + j);
    }
  }

  lemma {:induction false} CycleStaysInRange(min: int32, max: int32, i: nat)
    requires min <= max < MAX_INT32
    ensures min <= Nth(min, max, i) <= max
  {
    if i > 0 {
      CycleStaysInRange(min, max, i - 1);
    }
  }

  /** The first n numbers stay in min..max exactly when the wrap cannot happen or is not reached. */
  lemma {:induction false} InRangeIff(min: int32, max: int32, n: nat)
    requires min <= max
    ensures (forall i: nat :: i < n ==> min <= Nth(min, max, i) <= max)
        <==> max < MAX_INT32 || min == MIN_INT32 || n <= max - min + 1
  {
    if max < MAX_INT32 {
      forall i: nat | i < n ensures min <= Nth(min, max, i) <= max { CycleStaysInRange(min, max, i); }
    } else if n <= max - min + 1 {
      forall i: nat | i < n ensures Nth(min, max, i) == min + i { NthClimbs(min, max, i); }
    } else {
      var last := max - min;
      NthClimbs(min, max, last);
      assert Nth(min, max, last + 1) == MIN_INT32;
    }
  }
}

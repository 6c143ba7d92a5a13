/**
 The connection group of channel/handler/channel_group.go: the set and its counter are changed in
 two separate atomic steps, so the counter runs behind the set.
 */
module ChannelGroups {
  import opened Bytes

  /** Where a thread stands: between calls, or about to add to the counter. */
  datatype Pc = Idle | Increment | Decrement

  datatype Group = Group(conns: set<int>, count: int32, threads: seq<Pc>)

  datatype Action = Add(tid: nat, conn: int) | Remove(tid: nat, conn: int) | Settle(tid: nat)

  function Step(g: Group, a: Action): Group {
    if a.tid >= |g.threads| then g else
    match a
    case Add(tid, conn) =>
      if g.threads[tid] != Idle || conn in g.conns then g
      else g.(conns := g.conns + {conn}, threads := g.threads[tid := Increment])
    case Remove(tid, conn) =>
      if g.threads[tid] != Idle || conn !in g.conns then g
      else g.(conns := g.conns - {conn}, threads := g.threads[tid := Decrement])
    case Settle(tid) =>
      g.(count := Wrap32(g.count + Owed(g.threads[tid])), threads := g.threads[tid := Idle])
  }

  function Owed(pc: Pc): int {
    match pc
    case Idle => 0
    case Increment => 1
    case Decrement => -1
  }

  function Pending(threads: seq<Pc>): int {
    if threads == [] then 0 else Pending(threads[..|threads| - 1]) + Owed(threads[|threads| - 1])
  }

  function Run(g: Group, actions: seq<Action>): Group
    decreases |actions|
  {
    if actions == [] then g else Run(Step(g, actions[0]), actions[1..])
  }

  lemma {:induction false} PendingAfter(threads: seq<Pc>, tid: nat, pc: Pc)
    requires tid < |threads|
    ensures Pending(threads[tid := pc]) == Pending(threads) - Owed(threads[tid]) + Owed(pc)
  {
    var n := |threads| - 1;
    if tid < n {
      PendingAfter(threads[..n], tid, pc);
      assert threads[tid := pc][..n] == threads[..n][tid := pc];
    } else {
      assert threads[tid := pc][..n] == threads[..n];
    }
  }

  lemma {:induction false} WrapAdd(x: int, y: int)
    ensures Wrap32(Wrap32(x) + y) == Wrap32(x + y)
  {
  }

  /** The group holds what was added last, or not removed since, by calls that got to run. */
  lemma {:induction false} MembershipFollows(g: Group, a: Action, conn: int)
    ensures var g' := Step(g, a); var runs := a.tid < |g.threads| && g.threads[a.tid] == Idle;
      conn in g'.conns <==>
        if runs && !a.Settle? && a.conn == conn then a.Add? else conn in g.conns
  {}

  predicate Behind(g: Group) {
    g.count == Wrap32(|g.conns| - Pending(g.threads))
  }

  lemma {:induction false} StepKeepsCount(g: Group, a: Action)
    requires Behind(g)
    ensures Behind(Step(g, a))
  {
    if a.tid < |g.threads| {
      PendingAfter(g.threads, a.tid, if a.Add? then Increment else if a.Remove? then Decrement else Idle);
      if a.Settle? {
        WrapAdd(|g.conns| - Pending(g.threads), Owed(g.threads[a.tid]));
      }
    }
  }

  lemma {:induction false} RunKeepsCount(g: Group, actions: seq<Action>)
    requires Behind(g)
    ensures Behind(Run(g, actions))
    decreases |actions|
  {
    if actions != [] {
      StepKeepsCount(g, actions[0]);
      RunKeepsCount(Step(g, actions[0]), actions[1..]);
    }
  }

  lemma {:induction false} NothingPending(threads: seq<Pc>)
    requires forall i :: 0 <= i < |threads| ==> threads[i] == Idle
    ensures Pending(threads) == 0
  {
    if threads != [] {
      NothingPending(threads[..|threads| - 1]);
    }
  }

  /**
   In every interleaving the counter is the size of the set less the changes still to be counted;
   with no call under way it is the size itself, as an int32 holds it.
   */
  lemma {:induction false} SizeCountsTheSet(threads: seq<Pc>, actions: seq<Action>)
    requires forall i :: 0 <= i < |threads| ==> threads[i] == Idle
    ensures var g := Run(Group({}, 0, threads), actions);
            Behind(g) && ((forall i :: 0 <= i < |g.threads| ==> g.threads[i] == Idle) ==> g.count == Wrap32(|g.conns|))
  {
    NothingPending(threads);
    RunKeepsCount(Group({}, 0, threads), actions);
    var g := Run(Group({}, 0, threads), actions);
    if forall i :: 0 <= i < |g.threads| ==> g.threads[i] == Idle {
      NothingPending(g.threads);
    }
  }

  // ----- When Size is never negative -----

  predicate AllIdle(threads: seq<Pc>) {
    forall i :: 0 <= i < |threads| ==> threads[i] == Idle
  }

  /** A thread by itself that has yet to count an addition has its connection in the set. */
  predicate AloneOk(g: Group) {
    |g.threads| == 0 || (|g.threads| == 1 && (g.threads[0] == Increment ==> g.conns != {}))
  }

  lemma {:induction false} RunKeepsAlone(g: Group, actions: seq<Action>)
    requires AloneOk(g)
    ensures AloneOk(Run(g, actions))
    decreases |actions|
  {
    if actions != [] {
      RunKeepsAlone(Step(g, actions[0]), actions[1..]);
    }
  }

  lemma {:induction false} AloneNeverNegative(g: Group)
    requires AloneOk(g) && Behind(g) && |g.conns| < 0x7FFF_FFFF
    ensures g.count >= 0
  {
    if g.threads != [] {
      assert g.threads == [g.threads[0]];
      assert g.threads[..0] == [];
      assert Pending(g.threads) == Pending([]) + Owed(g.threads[0]);
    }
  }

  /** One thread adds a connection, another removes it, and the removal is counted first. */
  lemma {:induction false} RemovalCountedFirst(threads: seq<Pc>) returns (actions: seq<Action>)
    requires AllIdle(threads) && |threads| >= 2
    ensures var g := Run(Group({}, 0, threads), actions); g.conns == {} && g.count == -1
  {
    var g := Group({}, 0, threads);
    var g1 := Step(g, Add(0, 7));
    var g2 := Step(g1, Remove(1, 7));
    var g3 := Step(g2, Settle(1));
    actions := [Add(0, 7), Remove(1, 7), Settle(1)];
    assert actions[1..] == [Remove(1, 7), Settle(1)];
    assert [Remove(1, 7), Settle(1)][1..] == [Settle(1)];
    assert [Settle(1)][1..] == [];
    assert Run(g3, []) == g3;
    assert Run(g2, [Settle(1)]) == g3;
    assert Run(g1, [Remove(1, 7), Settle(1)]) == g3;
    assert g2.conns == {};
  }

  /**
   In every run that keeps the set within an int32, Size is never negative exactly when at most one
   thread uses the group.
   */
  lemma {:induction false} SizeNonNegativeIff(threads: seq<Pc>)
    requires AllIdle(threads)
    ensures
      (forall actions ::
         var g := Run(Group({}, 0, threads), actions);
         |g.conns| < 0x7FFF_FFFF ==> g.count >= 0)
      <==> |threads| <= 1
  {
    if |threads| <= 1 {
      forall actions | |Run(Group({}, 0, threads), actions).conns| < 0x7FFF_FFFF
        ensures Run(Group({}, 0, threads), actions).count >= 0
      {
        NothingPending(threads);
        RunKeepsCount(Group({}, 0, threads), actions);
        RunKeepsAlone(Group({}, 0, threads), actions);
        AloneNeverNegative(Run(Group({}, 0, threads), actions));
      }
    } else {
      var actions := RemovalCountedFirst(threads);
      assert Run(Group({}, 0, threads), actions).count == -1;
    }
  }
}

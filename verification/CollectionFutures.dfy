/**
 NewCollectionFuture of channel/future.go: n listeners on futures that other threads complete, an
 atomic counter, and the aggregate future, at the grain of their atomic operations.
 */
module CollectionFutures {
  import opened Bytes
  import opened Values
  import opened Futures

  /** Where listener i stands once its goroutine has been launched. */
  datatype Listener =
    | NotRun
    | Saw(ok: bool)                        // future.IsSuccess
    | Blaming(cause: Option<Error>)        // future.Cause
    | Zeroed                               // counter.Add(-1) returned 0
    | Ended(ok: bool)

  /**
   Listener i watches futs[members[i]]; one future may be listed several times. `winner` is the
   listener whose call completed the aggregate: no step reads it.
   */
  datatype Group = Group(
    members: seq<nat>, futs: seq<Fut>, registered: nat,
    counter: int, agg: Fut, winner: Option<nat>, pcs: seq<Listener>)

  datatype Action =
    | Register                                  // the constructor's next AddListener
    | Succeed(f: nat)                           // SetSuccess of future f
    | FailWith(f: nat, cause: Option<Error>)    // SetFailure of future f
    | Flag(f: nat)                              // the compare-and-swap of Cancel on future f
    | CloseCancelled(f: nat)                    // the critical section of Cancel on future f
    | Listen(i: nat)                            // the next step of listener i

  predicate WellFormed(members: seq<nat>, futures: nat) {
    |members| < 0x8000_0000 && forall i :: 0 <= i < |members| ==> members[i] < futures
  }

  /** No members: the aggregate has already succeeded. */
  function Init(members: seq<nat>, futures: nat): Group {
    Group(members, seq(futures, _ => NEW_FUTURE), 0, |members|,
          if members == [] then AfterSuccess(NEW_FUTURE).0 else NEW_FUTURE, None,
          seq(|members|, _ => NotRun))
  }

  function PutFut(s: Group, f: nat, fut: Fut): Group {
    if f < |s.futs| then s.(futs := s.futs[f := fut]) else s
  }

  function FutOf(s: Group, i: nat): Fut {
    if i < |s.members| && s.members[i] < |s.futs| then s.futs[s.members[i]] else NEW_FUTURE
  }

  function PutPc(s: Group, i: nat, pc: Listener): Group
    requires i < |s.pcs|
  {
    s.(pcs := s.pcs[i := pc])
  }

  /** Listener i has called a completing method of the aggregate. */
  function Complete(s: Group, i: nat, call: (Fut, bool)): Group {
    s.(agg := call.0, winner := if call.1 then Some(i) else s.winner)
  }

  function ListenStep(s: Group, i: nat): Group
    requires i < |s.pcs|
  {
    match s.pcs[i]
    case NotRun => if i in FutOf(s, i).launched then PutPc(s, i, Saw(FutOf(s, i).IsSuccess())) else s
    case Saw(ok) =>
      if ok then
        PutPc(s, i, if s.counter - 1 == 0 then Zeroed else Ended(true)).(counter := s.counter - 1)
      else PutPc(s, i, Blaming(FutOf(s, i).err))
    case Blaming(cause) => Complete(PutPc(s, i, Ended(false)), i, AfterFailure(s.agg, cause))
    case Zeroed => Complete(PutPc(s, i, Ended(true)), i, AfterSuccess(s.agg))
    case Ended(_) => s
  }

  function Next(s: Group, a: Action): Group {
    match a
    case Register =>
      if s.registered < |s.members| && s.members[s.registered] < |s.futs| then
        var f := s.members[s.registered];
        PutFut(s, f, AfterListener(s.futs[f], s.registered)).(registered := s.registered + 1)
      else s
    case Succeed(f) => if f < |s.futs| then PutFut(s, f, AfterSuccess(s.futs[f]).0) else s
    case FailWith(f, e) => if f < |s.futs| then PutFut(s, f, AfterFailure(s.futs[f], e).0) else s
    case Flag(f) => if f < |s.futs| then PutFut(s, f, s.futs[f].(cancelled := true)) else s
    case CloseCancelled(f) =>
      if f < |s.futs| && s.futs[f].cancelled then PutFut(s, f, AfterSuccess(s.futs[f]).0) else s
    case Listen(i) => if i < |s.pcs| then ListenStep(s, i) else s
  }

  function Run(s: Group, actions: seq<Action>): Group
    decreases |actions|
  {
    if actions == [] then s else Run(Next(s, actions[0]), actions[1..])
  }

  // ----- Counting -----

  predicate Counted(pc: Listener) { pc.Zeroed? || pc == Ended(true) }

  function Count(pcs: seq<Listener>): (n: nat)
    ensures n <= |pcs|
  {
    if pcs == [] then 0 else (if Counted(pcs[0]) then 1 else 0) + Count(pcs[1..])
  }

  lemma {:induction false} CountUpdate(pcs: seq<Listener>, i: nat, pc: Listener)
    requires i < |pcs|
    ensures Count(pcs[i := pc]) + (if Counted(pcs[i]) then 1 else 0)
         == Count(pcs) + (if Counted(pc) then 1 else 0)
  {
    if i == 0 {
      assert pcs[0 := pc][1..] == pcs[1..];
    } else {
      assert pcs[i := pc][1..] == pcs[1..][i - 1 := pc];
      CountUpdate(pcs[1..], i - 1, pc);
    }
  }

  lemma {:induction false} CountAll(pcs: seq<Listener>)
    ensures Count(pcs) == |pcs| <==> forall i :: 0 <= i < |pcs| ==> Counted(pcs[i])
  {
    if pcs != [] {
      CountAll(pcs[1..]);
      assert forall i :: 0 < i < |pcs| ==> pcs[i] == pcs[1..][i - 1];
      assert forall i :: 0 <= i < |pcs[1..]| ==> pcs[1..][i] == pcs[i + 1];
    }
  }

  lemma {:induction false} CountNone(pcs: seq<Listener>)
    requires forall i :: 0 <= i < |pcs| ==> pcs[i] == NotRun
    ensures Count(pcs) == 0
  {
    if pcs != [] {
      CountNone(pcs[1..]);
    }
  }

  // ----- Invariants -----

  /** What a listener has seen agrees with its future, which is done for good. */
  predicate ListenerOk(s: Group, i: nat)
    requires i < |s.pcs|
  {
    var f := FutOf(s, i);
    match s.pcs[i]
    case NotRun => true
    case Saw(ok) => f.done && SeenOk(f, ok)
    case Blaming(cause) => f.done && cause == f.err && SeenOk(f, false)
    case Zeroed => f.done && SeenOk(f, true)
    case Ended(ok) => f.done && SeenOk(f, ok) && (!ok ==> s.agg.done)
  }

  predicate SeenOk(f: Fut, ok: bool) {
    if ok then f.err == None else f.err.Some? || f.cancelled
  }

  /** Listener i has seen a failure and passed its cause on. */
  predicate Blamed(s: Group, i: int, cause: Option<Error>) {
    0 <= i < |s.pcs| && s.pcs[i] == Ended(false) && FutOf(s, i).err == cause
  }

  /** Listener w completed the aggregate: counting the last success, or with its member's cause. */
  predicate Explained(s: Group, w: nat) {
    && w < |s.pcs|
    && if s.pcs[w] == Ended(true)
       then s.agg.err == None && forall i :: 0 <= i < |s.pcs| ==> Counted(s.pcs[i])
       else Blamed(s, w, s.agg.err)
  }

  predicate AggOk(s: Group) {
    && !s.agg.cancelled && (!s.agg.done ==> s.agg.err == None)
    && (s.members == [] ==> s.agg.done && s.agg.err == None)
    && (s.agg.done && s.members != [] ==> s.winner.Some? && Explained(s, s.winner.value))
  }

  ghost predicate CounterOk(s: Group) {
    && s.counter == |s.members| - Count(s.pcs)
    && (s.members != [] && s.counter == 0 && !s.agg.done ==>
          exists i :: 0 <= i < |s.pcs| && s.pcs[i].Zeroed?)
    && (forall i :: 0 <= i < |s.pcs| && s.pcs[i].Zeroed? ==> s.counter == 0)
  }

  ghost predicate FutsOk(s: Group) {
    forall f :: 0 <= f < |s.futs| && !s.futs[f].done ==>
      s.futs[f].launched == [] && s.futs[f].err == None
  }

  ghost predicate Inv(s: Group) {
    && |s.pcs| == |s.members| && WellFormed(s.members, |s.futs|)
    && FutsOk(s) && CounterOk(s) && AggOk(s)
    && (forall i :: 0 <= i < |s.pcs| ==> ListenerOk(s, i))
  }

  // ----- Every step keeps the invariant -----

  /** A step of a member future: what is done stays done with its error, and flags stay up. */
  lemma {:induction false} FutStepKeepsInv(s: Group, f: nat, fut: Fut)
    requires Inv(s) && f < |s.futs|
    requires s.futs[f].done ==> fut.done && fut.err == s.futs[f].err
    requires s.futs[f].cancelled ==> fut.cancelled
    requires !fut.done ==> fut.launched == [] && fut.err == None
    ensures Inv(PutFut(s, f, fut))
  {
    var s' := PutFut(s, f, fut);
    forall i | 0 <= i < |s.pcs| ensures ListenerOk(s', i) {
      assert ListenerOk(s, i);
    }
    forall i, c | Blamed(s, i, c) ensures Blamed(s', i, c) {
      assert ListenerOk(s, i);
    }
  }

  lemma {:induction false} SeeKeepsInv(s: Group, i: nat)
    requires Inv(s) && i < |s.pcs| && s.pcs[i].NotRun?
    ensures Inv(ListenStep(s, i))
  {
    var s' := ListenStep(s, i);
    if s' != s {
      CountUpdate(s.pcs, i, s'.pcs[i]);
      forall j | 0 <= j < |s.pcs| ensures ListenerOk(s', j) {
        assert ListenerOk(s, j);
      }
      assert forall j, c :: Blamed(s, j, c) ==> Blamed(s', j, c);
      assert forall j :: 0 <= j < |s.pcs| && s.pcs[j].Zeroed? ==> s'.pcs[j].Zeroed?;
    }
  }

  lemma {:induction false} CountDownKeepsInv(s: Group, i: nat)
    requires Inv(s) && i < |s.pcs| && s.pcs[i] == Saw(true)
    ensures Inv(ListenStep(s, i))
  {
    var s' := ListenStep(s, i);
    CountUpdate(s.pcs, i, s'.pcs[i]);
    assert ListenerOk(s, i);
    forall j | 0 <= j < |s.pcs| ensures ListenerOk(s', j) {
      assert ListenerOk(s, j);
    }
    assert forall j, c :: Blamed(s, j, c) ==> Blamed(s', j, c);
    assert s'.counter == 0 ==> s'.pcs[i].Zeroed?;
    assert !Counted(s.pcs[i]);
    CountAll(s'.pcs);
  }

  lemma {:induction false} BlameKeepsInv(s: Group, i: nat)
    requires Inv(s) && i < |s.pcs| && s.pcs[i] == Saw(false)
    ensures Inv(ListenStep(s, i))
  {
    var s' := ListenStep(s, i);
    CountUpdate(s.pcs, i, s'.pcs[i]);
    forall j | 0 <= j < |s.pcs| ensures ListenerOk(s', j) {
      assert ListenerOk(s, j);
    }
    assert forall j, c :: Blamed(s, j, c) ==> Blamed(s', j, c);
    assert forall j :: 0 <= j < |s.pcs| && s.pcs[j].Zeroed? ==> s'.pcs[j].Zeroed?;
  }

  lemma {:induction false} FailAggKeepsInv(s: Group, i: nat)
    requires Inv(s) && i < |s.pcs| && s.pcs[i].Blaming?
    ensures Inv(ListenStep(s, i))
  {
    var s' := ListenStep(s, i);
    CountUpdate(s.pcs, i, s'.pcs[i]);
    assert ListenerOk(s, i);
    forall j | 0 <= j < |s.pcs| ensures ListenerOk(s', j) {
      assert ListenerOk(s, j);
    }
    assert Blamed(s', i, s.pcs[i].cause);
    assert forall j, c :: Blamed(s, j, c) ==> Blamed(s', j, c);
    assert !Counted(s.pcs[i]);
  }

  lemma {:induction false} SucceedAggKeepsInv(s: Group, i: nat)
    requires Inv(s) && i < |s.pcs| && s.pcs[i].Zeroed?
    ensures Inv(ListenStep(s, i))
  {
    var s' := ListenStep(s, i);
    CountUpdate(s.pcs, i, s'.pcs[i]);
    CountAll(s.pcs);
    forall j | 0 <= j < |s.pcs| ensures ListenerOk(s', j) {
      assert ListenerOk(s, j);
    }
    assert forall j :: 0 <= j < |s.pcs| ==> Counted(s.pcs[j]) && Counted(s'.pcs[j]);
    assert forall j, c :: Blamed(s, j, c) ==> Blamed(s', j, c);
  }

  lemma {:induction false} NextKeepsInv(s: Group, a: Action)
    requires Inv(s)
    ensures Inv(Next(s, a))
  {
    match a
    case Register =>
      if s.registered < |s.members| && s.members[s.registered] < |s.futs| {
        var f := s.members[s.registered];
        FutStepKeepsInv(s, f, AfterListener(s.futs[f], s.registered));
        var s1 := PutFut(s, f, AfterListener(s.futs[f], s.registered));
        RegisteredIsFree(s1, s.registered + 1);
      }
    case Succeed(f) => if f < |s.futs| { FutStepKeepsInv(s, f, AfterSuccess(s.futs[f]).0); }
    case FailWith(f, e) => if f < |s.futs| { FutStepKeepsInv(s, f, AfterFailure(s.futs[f], e).0); }
    case Flag(f) => if f < |s.futs| { FutStepKeepsInv(s, f, s.futs[f].(cancelled := true)); }
    case CloseCancelled(f) => if f < |s.futs| { FutStepKeepsInv(s, f, AfterSuccess(s.futs[f]).0); }
    case Listen(i) =>
      if i < |s.pcs| {
        match s.pcs[i]
        case NotRun => SeeKeepsInv(s, i);
        case Saw(ok) => if ok { CountDownKeepsInv(s, i); } else { BlameKeepsInv(s, i); }
        case Blaming(_) => FailAggKeepsInv(s, i);
        case Zeroed => SucceedAggKeepsInv(s, i);
        case Ended(_) =>
      }
  }

  /** The constructor's loop counter is not part of the invariant. */
  lemma {:induction false} RegisteredIsFree(s: Group, n: nat)
    requires Inv(s)
    ensures Inv(s.(registered := n))
  {
    var s' := s.(registered := n);
    forall i | 0 <= i < |s.pcs| ensures ListenerOk(s', i) {
      assert ListenerOk(s, i);
    }
    assert forall i, c :: Blamed(s, i, c) ==> Blamed(s', i, c);
  }

  lemma {:induction false} RunKeepsInv(s: Group, actions: seq<Action>)
    requires Inv(s)
    ensures Inv(Run(s, actions))
    decreases |actions|
  {
    if actions != [] {
      NextKeepsInv(s, actions[0]);
      RunKeepsInv(Next(s, actions[0]), actions[1..]);
    }
  }

  lemma {:induction false} InitOk(members: seq<nat>, futures: nat)
    requires WellFormed(members, futures)
    ensures Inv(Init(members, futures))
  {
    CountNone(Init(members, futures).pcs);
  }

  // ----- What the aggregate says once every listener has run -----

  ghost predicate AllEnded(s: Group) {
    forall i :: 0 <= i < |s.pcs| ==> s.pcs[i].Ended?
  }

  ghost predicate Reachable(s: Group) {
    exists futures: nat, actions: seq<Action> ::
      WellFormed(s.members, futures) && s == Run(Init(s.members, futures), actions)
  }

  lemma {:induction false} ReachableOk(s: Group)
    requires Reachable(s)
    ensures Inv(s)
  {
    var futures: nat, actions :|
      WellFormed(s.members, futures) && s == Run(Init(s.members, futures), actions);
    InitOk(s.members, futures);
    RunKeepsInv(Init(s.members, futures), actions);
  }

  lemma {:induction false} DoneOnceAllEnded(s: Group)
    requires Reachable(s) && AllEnded(s)
    ensures s.agg.done
  {
    ReachableOk(s);
    CountAll(s.pcs);
    if forall i :: 0 <= i < |s.pcs| ==> s.pcs[i] == Ended(true) {
    } else {
      var i :| 0 <= i < |s.pcs| && s.pcs[i] != Ended(true);
      assert ListenerOk(s, i);
    }
  }

  /**
   Members never cancelled: once all listeners have run, the aggregate has succeeded exactly when
   every member has, and otherwise holds the cause of a member that failed.
   */
  lemma {:induction false} AggregateIffAllSucceeded(s: Group)
    requires Reachable(s) && AllEnded(s)
    requires forall i :: 0 <= i < |s.members| ==> !FutOf(s, i).cancelled
    ensures s.agg.done
    ensures s.agg.IsSuccess() <==> forall i :: 0 <= i < |s.members| ==> FutOf(s, i).IsSuccess()
    ensures !s.agg.IsSuccess() ==> s.agg.err.Some?
    ensures !s.agg.IsSuccess() ==>
      (exists i :: 0 <= i < |s.members| && !FutOf(s, i).IsSuccess() && FutOf(s, i).err == s.agg.err)
  {
    ReachableOk(s);
    DoneOnceAllEnded(s);
    forall i | 0 <= i < |s.pcs|
      ensures s.pcs[i] == Ended(FutOf(s, i).IsSuccess())
      ensures !FutOf(s, i).IsSuccess() ==> FutOf(s, i).err.Some?
    {
      assert ListenerOk(s, i);
    }
    if s.agg.err.Some? {
      assert Blamed(s, s.winner.value, s.agg.err);
    }
  }

  /**
   Cancelled members and mixed causes included: the aggregate holds the cause, or nil, of the
   member whose listener completed it first, and reports success exactly when that cause is nil.
   */
  lemma {:induction false} AggregateIsWinners(s: Group)
    requires Reachable(s) && AllEnded(s) && s.members != []
    ensures s.winner.Some? && s.winner.value < |s.members| == |s.pcs|
    ensures s.agg.err == FutOf(s, s.winner.value).err
    ensures s.agg.IsSuccess() <==> FutOf(s, s.winner.value).err == None
    ensures s.pcs[s.winner.value] == Ended(true) ==> forall i :: 0 <= i < |s.pcs| ==> s.pcs[i] == Ended(true)
  {
    ReachableOk(s);
    DoneOnceAllEnded(s);
    assert ListenerOk(s, s.winner.value);
  }

  /**
   A cancelled member has no cause to pass on, and a nil cause reads as success: if some listeners
   saw a failure, and all of these found no cause, the aggregate reports success all the same.
   */
  lemma {:induction false} NilCausesReadAsSuccess(s: Group)
    requires Reachable(s) && AllEnded(s)
    requires forall i :: 0 <= i < |s.pcs| && s.pcs[i] == Ended(false) ==> FutOf(s, i).err == None
    ensures s.agg.IsSuccess()
    ensures forall i :: 0 <= i < |s.pcs| && s.pcs[i] == Ended(false) ==> FutOf(s, i).cancelled
  {
    ReachableOk(s);
    DoneOnceAllEnded(s);
    forall i | 0 <= i < |s.pcs| && s.pcs[i] == Ended(false) ensures FutOf(s, i).cancelled {
      assert ListenerOk(s, i);
    }
  }

  /** Causes that are all there make the aggregate fail as soon as one listener saw a failure. */
  lemma {:induction false} CausesReadAsFailure(s: Group)
    requires Reachable(s) && AllEnded(s)
    requires exists i :: 0 <= i < |s.pcs| && s.pcs[i] == Ended(false)
    requires forall i :: 0 <= i < |s.pcs| && s.pcs[i] == Ended(false) ==> FutOf(s, i).err.Some?
    ensures s.agg.done && s.agg.err.Some?
  {
    ReachableOk(s);
    DoneOnceAllEnded(s);
    var i :| 0 <= i < |s.pcs| && s.pcs[i] == Ended(false);
    assert !Counted(s.pcs[i]);
  }

  // ----- Every listener gets to run -----

  /** A registered listener waits on its future, or has been launched by it. */
  ghost predicate RegistrationsOk(s: Group) {
    && s.registered <= |s.members| == |s.pcs| && WellFormed(s.members, |s.futs|)
    && forall i: nat :: i < s.registered ==> Enlisted(FutOf(s, i), i)
  }

  predicate Enlisted(f: Fut, i: nat) {
    if f.done then i in f.launched else i in f.listeners
  }

  lemma {:induction false} RegistrationStep(s: Group, a: Action)
    requires RegistrationsOk(s)
    ensures RegistrationsOk(Next(s, a))
  {
    var s' := Next(s, a);
    forall i: nat | i < s'.registered ensures Enlisted(FutOf(s', i), i) {
      if i < s.registered {
        assert Enlisted(FutOf(s, i), i);
      }
    }
  }

  lemma {:induction false} RegistrationsKept(s: Group, actions: seq<Action>)
    requires RegistrationsOk(s)
    ensures RegistrationsOk(Run(s, actions))
    decreases |actions|
  {
    if actions != [] {
      RegistrationStep(s, actions[0]);
      RegistrationsKept(Next(s, actions[0]), actions[1..]);
    }
  }

  /** Neither the constructor nor any listener has a step left. */
  ghost predicate Settled(s: Group) {
    forall a: Action :: a.Register? || a.Listen? ==> Next(s, a) == s
  }

  /** Once the members are done and nothing moves any more, all listeners have run to their end. */
  lemma {:induction false} SettledMeansAllEnded(s: Group)
    requires Reachable(s) && Settled(s)
    requires forall i :: 0 <= i < |s.members| ==> FutOf(s, i).done
    ensures AllEnded(s)
  {
    var futures: nat, actions :|
      WellFormed(s.members, futures) && s == Run(Init(s.members, futures), actions);
    RegistrationsKept(Init(s.members, futures), actions);
    assert Next(s, Register) == s;
    forall i | 0 <= i < |s.pcs| ensures s.pcs[i].Ended? {
      assert Next(s, Action.Listen(i)) == s;
      assert ListenStep(s, i).pcs[i] == s.pcs[i];
    }
  }

  // ----- Exactly when the aggregate can be trusted -----

  /** No future outside this set is cancelled during the run. */
  predicate CancelsOnly(actions: seq<Action>, cancellable: set<nat>) {
    forall a :: a in actions && a.Flag? ==> a.f in cancellable
  }

  /** The aggregate has succeeded exactly if all members have. */
  predicate Right(s: Group) {
    s.agg.IsSuccess() <==> forall i :: 0 <= i < |s.members| ==> FutOf(s, i).IsSuccess()
  }

  lemma {:induction false} FlagsComeFromCancel(s: Group, actions: seq<Action>, cancellable: set<nat>)
    requires CancelsOnly(actions, cancellable)
    requires forall f :: 0 <= f < |s.futs| && s.futs[f].cancelled ==> f in cancellable
    ensures var s' := Run(s, actions);
      && s'.members == s.members && |s'.futs| == |s.futs|
      && forall f :: 0 <= f < |s.futs| && s'.futs[f].cancelled ==> f in cancellable
    decreases |actions|
  {
    if actions != [] {
      assert actions[0] in actions;
      FlagsComeFromCancel(Next(s, actions[0]), actions[1..], cancellable);
    }
  }

  lemma {:induction false} UncancelledIsRight(
      members: seq<nat>, futures: nat, cancellable: set<nat>, actions: seq<Action>)
    requires WellFormed(members, futures) && CancelsOnly(actions, cancellable)
    requires forall i :: 0 <= i < |members| ==> members[i] !in cancellable
    requires AllEnded(Run(Init(members, futures), actions))
    ensures Right(Run(Init(members, futures), actions))
  {
    var s := Run(Init(members, futures), actions);
    FlagsComeFromCancel(Init(members, futures), actions, cancellable);
    forall i | 0 <= i < |s.members| ensures !FutOf(s, i).cancelled {
      assert members[i] !in cancellable;
    }
    AggregateIffAllSucceeded(s);
  }

  /** Some run that cancels only these futures leads from one state to the other. */
  ghost predicate Leads(s: Group, s': Group, cancellable: set<nat>) {
    exists actions :: CancelsOnly(actions, cancellable) && Run(s, actions) == s'
  }

  lemma {:induction false} RunAppend(s: Group, a: seq<Action>, b: seq<Action>)
    ensures Run(s, a + b) == Run(Run(s, a), b)
    decreases |a|
  {
    if a == [] {
      assert a + b == b;
    } else {
      assert (a + b)[1..] == a[1..] + b;
      RunAppend(Next(s, a[0]), a[1..], b);
    }
  }

  lemma {:induction false} LeadsOn(start: Group, s: Group, a: Action, cancellable: set<nat>) returns (s': Group)
    requires Leads(start, s, cancellable) && (a.Flag? ==> a.f in cancellable)
    ensures s' == Next(s, a) && Leads(start, s', cancellable)
  {
    var actions :| CancelsOnly(actions, cancellable) && Run(start, actions) == s;
    RunAppend(start, actions, [a]);
    assert [a][1..] == [];
    s' := Next(s, a);
    assert Run(s, [a]) == Run(s', []);
    assert CancelsOnly(actions + [a], cancellable);
  }

  /** How one member is made to end. */
  datatype Way = Succeeding | Failing(cause: Option<Error>) | Cancelling

  predicate DoneAs(fut: Fut, way: Way) {
    && fut.done && (fut.cancelled <==> way.Cancelling?)
    && fut.err == if way.Failing? then way.cause else None
  }

  /** The others succeed. */
  function WayOf(g: nat, f: nat, way: Way): Way {
    if g == f then way else Succeeding
  }

  function Cancelled(f: nat, way: Way): set<nat> {
    if way.Cancelling? then {f} else {}
  }

  /** The futures before m have ended, f among them in its own way; no listener has run. */
  ghost predicate Completed(s: Group, f: nat, way: Way, m: nat) {
    && s.registered == 0 && m <= |s.futs| && |s.pcs| == |s.members|
    && (forall g :: 0 <= g < m ==> DoneAs(s.futs[g], WayOf(g, f, way)))
    && (forall g :: m <= g < |s.futs| ==> s.futs[g] == NEW_FUTURE)
    && (forall i :: 0 <= i < |s.pcs| ==> s.pcs[i] == NotRun)
  }

  lemma {:induction false} CompleteAll(members: seq<nat>, futures: nat, f: nat, way: Way, m: nat) returns (s: Group)
    requires m <= futures && f < futures
    ensures Leads(Init(members, futures), s, Cancelled(f, way)) && Completed(s, f, way, m)
    ensures s.members == members && |s.futs| == futures
    decreases m
  {
    var start := Init(members, futures);
    if m == 0 {
      assert Run(start, []) == start && CancelsOnly([], Cancelled(f, way));
      s := start;
    } else {
      s := CompleteAll(members, futures, f, way, m - 1);
      match WayOf(m - 1, f, way) {
        case Cancelling =>
          s := LeadsOn(start, s, Flag(f), Cancelled(f, way));
          s := LeadsOn(start, s, CloseCancelled(f), Cancelled(f, way));
        case Failing(cause) => s := LeadsOn(start, s, Action.FailWith(f, cause), Cancelled(f, way));
        case Succeeding => s := LeadsOn(start, s, Action.Succeed(m - 1), Cancelled(f, way));
      }
    }
  }

  /** The first r listeners have been launched, and the first k of these have ended. */
  ghost predicate Launched(s: Group, f: nat, way: Way, r: nat, k: nat) {
    && k <= r == s.registered <= |s.members| == |s.pcs|
    && WellFormed(s.members, |s.futs|)
    && (forall g :: 0 <= g < |s.futs| ==> DoneAs(s.futs[g], WayOf(g, f, way)))
    && (forall i :: 0 <= i < r ==> i in FutOf(s, i).launched)
    && (forall i :: 0 <= i < |s.pcs| ==> if i < k then s.pcs[i].Ended? else s.pcs[i] == NotRun)
  }

  lemma {:induction false} RegisterLaunches(s: Group, f: nat, way: Way, r: nat)
    requires Launched(s, f, way, r, 0) && r < |s.members|
    ensures Launched(Next(s, Register), f, way, r + 1, 0)
  {
    var s' := Next(s, Register);
    forall i | 0 <= i < r + 1 ensures i in FutOf(s', i).launched {
      if i < r {
        assert i in FutOf(s, i).launched;
      }
    }
  }

  lemma {:induction false} LaunchAll(members: seq<nat>, futures: nat, f: nat, way: Way, r: nat) returns (s: Group)
    requires WellFormed(members, futures) && f < futures && r <= |members|
    ensures Leads(Init(members, futures), s, Cancelled(f, way)) && Launched(s, f, way, r, 0)
    ensures s.members == members && |s.futs| == futures
    decreases r
  {
    if r == 0 {
      s := CompleteAll(members, futures, f, way, futures);
    } else {
      s := LaunchAll(members, futures, f, way, r - 1);
      RegisterLaunches(s, f, way, r - 1);
      s := LeadsOn(Init(members, futures), s, Register, Cancelled(f, way));
    }
  }

  lemma {:induction false} ListenerEnds(s: Group, f: nat, way: Way, k: nat)
    requires Launched(s, f, way, |s.members|, k) && k < |s.members|
    ensures var s3 := ListenStep(ListenStep(ListenStep(s, k), k), k);
      Launched(s3, f, way, |s.members|, k + 1) && s3.members == s.members && |s3.futs| == |s.futs|
  {
    var s1 := ListenStep(s, k);
    assert s1 == PutPc(s, k, Saw(FutOf(s, k).IsSuccess()));
    var s2 := ListenStep(s1, k);
    assert FutOf(s1, k) == FutOf(s, k);
    forall i | 0 <= i < |s.members| ensures i in FutOf(ListenStep(s2, k), i).launched {
      assert i in FutOf(s, i).launched;
    }
  }

  lemma {:induction false} EndAll(members: seq<nat>, futures: nat, f: nat, way: Way, k: nat) returns (s: Group)
    requires WellFormed(members, futures) && f < futures && k <= |members|
    ensures Leads(Init(members, futures), s, Cancelled(f, way)) && Launched(s, f, way, |members|, k)
    ensures s.members == members && |s.futs| == futures
    decreases k
  {
    if k == 0 {
      s := LaunchAll(members, futures, f, way, |members|);
    } else {
      s := EndAll(members, futures, f, way, k - 1);
      ListenerEnds(s, f, way, k - 1);
      s := LeadsOn(Init(members, futures), s, Action.Listen(k - 1), Cancelled(f, way));
      s := LeadsOn(Init(members, futures), s, Action.Listen(k - 1), Cancelled(f, way));
      s := LeadsOn(Init(members, futures), s, Action.Listen(k - 1), Cancelled(f, way));
    }
  }

  /** A run to the end in which member f ends in this way and all other futures succeed. */
  lemma {:induction false} OneEnds(members: seq<nat>, futures: nat, f: nat, way: Way)
    returns (actions: seq<Action>, s: Group)
    requires WellFormed(members, futures) && f in members
    ensures CancelsOnly(actions, Cancelled(f, way)) && s == Run(Init(members, futures), actions)
    ensures Reachable(s) && AllEnded(s) && s.members == members
    ensures forall i :: 0 <= i < |members| ==> DoneAs(FutOf(s, i), WayOf(members[i], f, way))
  {
    s := EndAll(members, futures, f, way, |members|);
    actions :| CancelsOnly(actions, Cancelled(f, way)) && Run(Init(members, futures), actions) == s;
  }

  /** One member cancelled, and the aggregate reports success all the same. */
  lemma {:induction false} OneCancelMisleads(members: seq<nat>, futures: nat, f: nat) returns (actions: seq<Action>)
    requires WellFormed(members, futures) && f in members
    ensures CancelsOnly(actions, {f})
    ensures var s := Run(Init(members, futures), actions); AllEnded(s) && s.agg.IsSuccess() && !Right(s)
  {
    var s;
    actions, s := OneEnds(members, futures, f, Cancelling);
    var i :| 0 <= i < |members| && members[i] == f;
    AggregateIsWinners(s);
    DoneOnceAllEnded(s);
    assert !FutOf(s, i).IsSuccess();
  }

  /** One member failed with a cause, and the aggregate fails with that cause. */
  lemma {:induction false} OneFailureShows(members: seq<nat>, futures: nat, f: nat, e: Error)
    returns (actions: seq<Action>)
    requires WellFormed(members, futures) && f in members
    ensures CancelsOnly(actions, {})
    ensures var s := Run(Init(members, futures), actions); AllEnded(s) && s.agg.done && s.agg.err == Some(e)
  {
    var s;
    actions, s := OneEnds(members, futures, f, Failing(Some(e)));
    var i :| 0 <= i < |members| && members[i] == f;
    AggregateIffAllSucceeded(s);
    assert !FutOf(s, i).IsSuccess();
  }

  /** All members succeeded, and so does the aggregate. */
  lemma {:induction false} AllSuccessesShow(members: seq<nat>, futures: nat, f: nat) returns (actions: seq<Action>)
    requires WellFormed(members, futures) && f in members
    ensures CancelsOnly(actions, {})
    ensures var s := Run(Init(members, futures), actions); AllEnded(s) && s.agg.IsSuccess()
  {
    var s;
    actions, s := OneEnds(members, futures, f, Succeeding);
    AggregateIffAllSucceeded(s);
  }

  /**
   The aggregate succeeds exactly if all members do, in every run with these cancellations,
   exactly when no member is among the futures that may be cancelled.
   */
  lemma {:induction false} RightIffNoMemberCancellable(members: seq<nat>, futures: nat, cancellable: set<nat>)
    requires WellFormed(members, futures)
    ensures
      (forall actions ::
         CancelsOnly(actions, cancellable) && AllEnded(Run(Init(members, futures), actions)) ==>
           Right(Run(Init(members, futures), actions)))
      <==> (forall i :: 0 <= i < |members| ==> members[i] !in cancellable)
  {
    if i :| 0 <= i < |members| && members[i] in cancellable {
      var actions := OneCancelMisleads(members, futures, members[i]);
      assert CancelsOnly(actions, cancellable);
    } else {
      forall actions | CancelsOnly(actions, cancellable) && AllEnded(Run(Init(members, futures), actions))
        ensures Right(Run(Init(members, futures), actions))
      {
        UncancelledIsRight(members, futures, cancellable, actions);
      }
    }
  }
}

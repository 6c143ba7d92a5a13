/**
 The Future of channel/future.go. Its critical sections are functions on a snapshot; the class
 is the code, and the interleaving model runs those sections in any order.
 */
module Futures {
  import opened Bytes
  import opened Values

  /** `launched` lists the listeners for which a goroutine has been started. */
  datatype Fut = Fut(done: bool, err: Option<Error>, cancelled: bool,
                     listeners: seq<nat>, launched: seq<nat>)
  {
    predicate IsSuccess() { done && err == None && !cancelled }
  }

  const NEW_FUTURE := Fut(false, None, false, [], [])

  // ----- The critical sections -----

  function Close(f: Fut): Fut {
    f.(done := true, launched := f.launched + f.listeners)
  }

  function AfterSuccess(f: Fut): (Fut, bool) {
    if f.done then (f, false) else (Close(f), true)
  }

  function AfterFailure(f: Fut, e: Option<Error>): (Fut, bool) {
    if f.done then (f, false) else (Close(f.(err := e)), true)
  }

  function AfterListener(f: Fut, id: nat): Fut {
    if f.done then f.(launched := f.launched + [id]) else f.(listeners := f.listeners + [id])
  }

  class Future {
    var done: bool
    var err: Option<Error>
    var cancelled: bool
    var listeners: seq<nat>
    var launched: seq<nat>

    function State(): Fut
      reads this
    {
      Fut(done, err, cancelled, listeners, launched)
    }

    constructor ()
      ensures State() == NEW_FUTURE
    {
      done, err, cancelled, listeners, launched := false, None, false, [], [];
    }

    method NotifyListeners()
      modifies this`launched
      ensures launched == old(launched) + listeners
    {
      for i := 0 to |listeners|
        invariant launched == old(launched) + listeners[..i]
      {
        launched := launched + [listeners[i]];
      }
    }

    method SetSuccess() returns (r: bool)
      modifies this
      ensures (State(), r) == AfterSuccess(old(State()))
    {
      if done {
        return false;
      }
      done := true;
      NotifyListeners();
      return true;
    }

    method SetFailure(e: Option<Error>) returns (r: bool)
      modifies this
      ensures (State(), r) == AfterFailure(old(State()), e)
    {
      if done {
        return false;
      }
      err := e;
      done := true;
      NotifyListeners();
      return true;
    }

    /** The compare-and-swap of the flag, and then, if it succeeded, the critical section. */
    method Cancel() returns (r: bool)
      modifies this
      ensures if old(cancelled) then State() == old(State()) && !r
              else (State(), r) == AfterSuccess(old(State()).(cancelled := true))
    {
      if cancelled {
        return false;
      }
      cancelled := true;
      if done {
        return false;
      }
      done := true;
      NotifyListeners();
      return true;
    }

    method AddListener(id: nat)
      modifies this
      ensures State() == AfterListener(old(State()), id)
    {
      if done {
        launched := launched + [id];
      } else {
        listeners := listeners + [id];
      }
    }
  }

  // ----- Concurrent calls -----

  /** Caller i of the kind Listen adds listener number i. */
  datatype Op = Succeed | FailWith(error: Option<Error>) | CancelIt | Listen

  datatype Pc = Ready | Flagged | Finished

  datatype Caller = Caller(op: Op, pc: Pc, result: Option<bool>)

  datatype Race = Race(f: Fut, callers: seq<Caller>)

  function Init(ops: seq<Op>): Race {
    Race(NEW_FUTURE, seq(|ops|, i requires 0 <= i < |ops| => Caller(ops[i], Ready, None)))
  }

  function Return(s: Race, i: nat, f: Fut, r: Option<bool>): Race
    requires i < |s.callers|
  {
    Race(f, s.callers[i := s.callers[i].(pc := Finished, result := r)])
  }

  /** One atomic step of caller i: a critical section, or the compare-and-swap of Cancel. */
  function Step(s: Race, i: nat): Race
    requires i < |s.callers|
  {
    var c := s.callers[i];
    if c.pc.Finished? then s
    else
      match c.op
      case Succeed => var (f, r) := AfterSuccess(s.f); Return(s, i, f, Some(r))
      case FailWith(e) => var (f, r) := AfterFailure(s.f, e); Return(s, i, f, Some(r))
      case Listen => Return(s, i, AfterListener(s.f, i), None)
      case CancelIt =>
        if c.pc.Flagged? then var (f, r) := AfterSuccess(s.f); Return(s, i, f, Some(r))
        else if s.f.cancelled then Return(s, i, s.f, Some(false))
        else Race(s.f.(cancelled := true), s.callers[i := c.(pc := Flagged)])
  }

  function Run(s: Race, turns: seq<nat>): Race
    decreases |turns|
  {
    if turns == [] then s
    else Run(if turns[0] < |s.callers| then Step(s, turns[0]) else s, turns[1..])
  }

  predicate Won(s: Race, i: int) { 0 <= i < |s.callers| && s.callers[i].result == Some(true) }

  function ErrorOf(op: Op): Option<Error> { if op.FailWith? then op.error else None }

  ghost predicate NoDuplicates(xs: seq<nat>) {
    forall j, k :: 0 <= j < k < |xs| ==> xs[j] != xs[k]
  }

  /** Caller i has added its listener. */
  predicate Added(s: Race, i: int) {
    0 <= i < |s.callers| && s.callers[i].op.Listen? && s.callers[i].pc.Finished?
  }

  ghost predicate Inv(s: Race) {
    && (forall i, j :: Won(s, i) && Won(s, j) ==> i == j)
    && (s.f.done <==> exists i :: Won(s, i))
    && (forall i :: Won(s, i) ==> s.f.err == ErrorOf(s.callers[i].op))
    && (!s.f.done ==> s.f.err == None && s.f.launched == [])
    && (var added := if s.f.done then s.f.launched else s.f.listeners;
        NoDuplicates(added) && forall i :: i in added <==> Added(s, i))
    && (forall i :: 0 <= i < |s.callers| && s.callers[i].result.Some? ==> s.callers[i].pc.Finished?)
    && (s.f.cancelled <==> exists i :: 0 <= i < |s.callers| && PastFlag(s.callers[i]))
  }

  predicate PastFlag(c: Caller) { c.op.CancelIt? && !c.pc.Ready? }

  lemma {:induction false} CloseKeepsInv(s: Race, i: nat, f: Fut)
    requires Inv(s) && i < |s.callers| && !s.callers[i].pc.Finished? && !s.callers[i].op.Listen?
    requires s.callers[i].op.CancelIt? ==> s.callers[i].pc.Flagged?
    requires !s.f.done && f == Close(s.f.(err := ErrorOf(s.callers[i].op)))
    ensures Inv(Return(s, i, f, Some(true)))
  {
    var s' := Return(s, i, f, Some(true));
    assert Won(s', i);
    assert forall j :: Won(s', j) ==> j == i || Won(s, j);
    assert forall j :: Added(s', j) <==> Added(s, j);
    assert forall j :: 0 <= j < |s.callers| ==> PastFlag(s'.callers[j]) == PastFlag(s.callers[j]);
    assert s'.f.launched == s.f.listeners;
  }

  lemma {:induction false} LoseKeepsInv(s: Race, i: nat)
    requires Inv(s) && i < |s.callers| && !s.callers[i].pc.Finished? && !s.callers[i].op.Listen?
    requires if s.callers[i].op.CancelIt? && s.callers[i].pc.Ready? then s.f.cancelled else s.f.done
    ensures Inv(Return(s, i, s.f, Some(false)))
  {
    var s' := Return(s, i, s.f, Some(false));
    assert forall j :: Won(s', j) <==> Won(s, j);
    assert forall j :: Added(s', j) <==> Added(s, j);
    assert forall j :: 0 <= j < |s.callers| && PastFlag(s.callers[j]) ==> PastFlag(s'.callers[j]);
  }

  lemma {:induction false} ListenKeepsInv(s: Race, i: nat)
    requires Inv(s) && i < |s.callers| && !s.callers[i].pc.Finished? && s.callers[i].op.Listen?
    ensures Inv(Step(s, i))
  {
    var s' := Step(s, i);
    assert !Added(s, i);
    assert forall j :: Won(s', j) <==> Won(s, j);
    assert forall j :: Added(s', j) <==> Added(s, j) || j == i;
    assert forall j :: 0 <= j < |s.callers| ==> PastFlag(s'.callers[j]) == PastFlag(s.callers[j]);
    var added := if s.f.done then s.f.launched else s.f.listeners;
    assert forall j :: j in added + [i] <==> j in added || j == i;
  }

  lemma {:induction false} FlagKeepsInv(s: Race, i: nat)
    requires Inv(s) && i < |s.callers| && s.callers[i].op.CancelIt?
    requires s.callers[i].pc.Ready? && !s.f.cancelled
    ensures Inv(Step(s, i))
  {
    var s' := Step(s, i);
    assert forall j :: Won(s', j) <==> Won(s, j);
    assert forall j :: Added(s', j) <==> Added(s, j);
    assert PastFlag(s'.callers[i]);
  }

  lemma {:induction false} StepKeepsInv(s: Race, i: nat)
    requires Inv(s) && i < |s.callers|
    ensures Inv(Step(s, i))
  {
    var c := s.callers[i];
    if c.pc.Finished? {
    } else if c.op.Listen? {
      ListenKeepsInv(s, i);
    } else if c.op.CancelIt? && c.pc.Ready? && !s.f.cancelled {
      FlagKeepsInv(s, i);
    } else if s.f.done || (c.op.CancelIt? && c.pc.Ready?) {
      LoseKeepsInv(s, i);
    } else {
      CloseKeepsInv(s, i, Close(s.f.(err := ErrorOf(c.op))));
    }
  }

  lemma {:induction false} RunKeepsInv(s: Race, turns: seq<nat>)
    requires Inv(s)
    ensures Inv(Run(s, turns))
    decreases |turns|
  {
    if turns != [] {
      if turns[0] < |s.callers| {
        StepKeepsInv(s, turns[0]);
        RunKeepsInv(Step(s, turns[0]), turns[1..]);
      } else {
        RunKeepsInv(s, turns[1..]);
      }
    }
  }

  /**
   In every interleaving: the future is done once one call has returned true, which no second one
   ever does, and holds that call's error; the listeners launched are those of exactly the
   callers that have added one, each once, as soon as the future is done and not before.
   */
  lemma {:induction false} CompletedAndNotifiedOnce(ops: seq<Op>, turns: seq<nat>)
    ensures var s := Run(Init(ops), turns);
      && (forall i, j :: Won(s, i) && Won(s, j) ==> i == j)
      && (s.f.done <==> exists i :: Won(s, i))
      && (forall i :: Won(s, i) ==> s.f.err == ErrorOf(s.callers[i].op))
      && NoDuplicates(s.f.launched)
      && (forall i :: i in s.f.launched <==> s.f.done && Added(s, i))
  {
    RunKeepsInv(Init(ops), turns);
  }

  predicate Closing(s: Race, i: int) {
    0 <= i < |s.callers| && s.callers[i].op.CancelIt? && s.callers[i].pc.Flagged?
  }

  /** Once a completing call has returned the future is done, or a Cancel is about to complete it. */
  ghost predicate ReturnedMeansDone(s: Race) {
    && (forall i :: 0 <= i < |s.callers| && s.callers[i].pc.Finished? && !s.callers[i].op.Listen? ==>
          s.f.done || s.f.cancelled)
    && (forall i :: 0 <= i < |s.callers| && s.callers[i].pc.Finished? ==>
          s.callers[i].op.Succeed? || s.callers[i].op.FailWith? ==> s.f.done)
    && (s.f.cancelled && !s.f.done ==> exists i :: Closing(s, i))
  }

  lemma {:induction false} RunKeepsReturned(s: Race, turns: seq<nat>)
    requires ReturnedMeansDone(s)
    ensures ReturnedMeansDone(Run(s, turns))
    decreases |turns|
  {
    if turns != [] {
      StepKeepsReturned(s, turns[0]);
      RunKeepsReturned(if turns[0] < |s.callers| then Step(s, turns[0]) else s, turns[1..]);
    }
  }

  lemma {:induction false} StepKeepsReturned(s: Race, i: nat)
    requires ReturnedMeansDone(s)
    ensures i < |s.callers| ==> ReturnedMeansDone(Step(s, i))
  {
    if i < |s.callers| {
      var s' := Step(s, i);
      if s'.f.cancelled && !s'.f.done {
        if s.f.cancelled {
          var j :| Closing(s, j);
          assert j == i ==> s'.f.done;
          assert Closing(s', j);
        } else {
          assert Closing(s', i);
        }
      }
    }
  }

  /** When all calls have returned the future is done exactly if one of them was to complete it. */
  lemma {:induction false} DoneIffCompleted(ops: seq<Op>, turns: seq<nat>)
    requires forall c :: c in Run(Init(ops), turns).callers ==> c.pc.Finished?
    ensures Run(Init(ops), turns).f.done <==> exists i :: 0 <= i < |ops| && !ops[i].Listen?
  {
    var s := Run(Init(ops), turns);
    RunKeepsInv(Init(ops), turns);
    RunKeepsReturned(Init(ops), turns);
    RunKeepsOps(Init(ops), turns);
    if i :| 0 <= i < |ops| && !ops[i].Listen? {
      assert s.callers[i] in s.callers && s.callers[i].pc.Finished?;
      assert forall j :: 0 <= j < |s.callers| ==> s.callers[j] in s.callers;
    }
    if s.f.done {
      var i :| Won(s, i);
      assert s.callers[i].result.Some?;
      WinnersComplete(Init(ops), turns);
    }
  }

  lemma {:induction false} WinnersComplete(s: Race, turns: seq<nat>)
    requires forall i :: Won(s, i) ==> !s.callers[i].op.Listen?
    ensures forall i :: Won(Run(s, turns), i) ==> !Run(s, turns).callers[i].op.Listen?
    decreases |turns|
  {
    if turns != [] {
      var s' := if turns[0] < |s.callers| then Step(s, turns[0]) else s;
      assert forall i :: Won(s', i) ==> Won(s, i) || !s'.callers[i].op.Listen?;
      WinnersComplete(s', turns[1..]);
    }
  }

  /** What a future is when done it stays, error included. */
  lemma {:induction false} DoneIsFinal(s: Race, turns: seq<nat>)
    requires s.f.done
    ensures var s' := Run(s, turns); s'.f.done && s'.f.err == s.f.err && s.f.launched <= s'.f.launched
    decreases |turns|
  {
    if turns != [] {
      DoneIsFinal(if turns[0] < |s.callers| then Step(s, turns[0]) else s, turns[1..]);
    }
  }

  lemma {:induction false} FlagIsFinal(s: Race, turns: seq<nat>)
    requires s.f.cancelled
    ensures Run(s, turns).f.cancelled
    decreases |turns|
  {
    if turns != [] {
      FlagIsFinal(if turns[0] < |s.callers| then Step(s, turns[0]) else s, turns[1..]);
    }
  }

  /** No turn belongs to a caller of Cancel. */
  predicate NoCancel(s: Race, turns: seq<nat>) {
    forall t :: t in turns && t < |s.callers| ==> !s.callers[t].op.CancelIt?
  }

  lemma {:induction false} RunKeepsOps(s: Race, turns: seq<nat>)
    ensures |Run(s, turns).callers| == |s.callers|
    ensures forall i :: 0 <= i < |s.callers| ==> Run(s, turns).callers[i].op == s.callers[i].op
    decreases |turns|
  {
    if turns != [] {
      RunKeepsOps(if turns[0] < |s.callers| then Step(s, turns[0]) else s, turns[1..]);
    }
  }

  lemma {:induction false} SuccessUntilCancel(s: Race, turns: seq<nat>)
    requires Inv(s) && s.f.IsSuccess()
    ensures Run(s, turns).f.IsSuccess() <==> NoCancel(s, turns)
    decreases |turns|
  {
    if turns != [] {
      var t, s' := turns[0], if turns[0] < |s.callers| then Step(s, turns[0]) else s;
      assert t in turns;
      if t < |s.callers| && s.callers[t].op.CancelIt? {
        assert !PastFlag(s.callers[t]);
        FlagIsFinal(s', turns[1..]);
      } else {
        if t < |s.callers| {
          StepKeepsInv(s, t);
          RunKeepsOps(s, [t]);
        }
        SuccessUntilCancel(s', turns[1..]);
        assert forall u :: u in turns <==> u == t || u in turns[1..];
      }
    }
  }

  /**
   A success lasts exactly until the next turn of a caller of Cancel, which sets the flag even on
   a future that is done.
   */
  lemma {:induction false} SuccessLastsIff(ops: seq<Op>, before: seq<nat>, after: seq<nat>)
    requires Run(Init(ops), before).f.IsSuccess()
    ensures Run(Run(Init(ops), before), after).f.IsSuccess()
      <==> forall t :: t in after && t < |ops| ==> !ops[t].CancelIt?
  {
    RunKeepsInv(Init(ops), before);
    RunKeepsOps(Init(ops), before);
    SuccessUntilCancel(Run(Init(ops), before), after);
  }
}

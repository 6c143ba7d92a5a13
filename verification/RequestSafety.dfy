/**
 The runs of the request-response protocol: what is so in every state they reach, and once they
 are at rest.
 */
module RequestSafety {
  import opened Bytes
  import opened Values
  import opened Requests
  import Sequencers
  import Timers

  // ----- Runs without reuse of numbers -----

  /** No number is taken again before its last holder is retired. */
  ghost predicate NoReuse(s: Sys, actions: seq<Action>)
    decreases |actions|
  {
    actions != [] ==> TakesFree(s, actions[0]) && NoReuse(Next(s, actions[0]), actions[1..])
  }

  lemma {:induction false} RunKeepsInv(s: Sys, actions: seq<Action>)
    requires Inv(s) && NoReuse(s, actions)
    ensures Inv(Run(s, actions))
    decreases |actions|
  {
    if actions != [] {
      NextKeepsInv(s, actions[0]);
      RunKeepsInv(Next(s, actions[0]), actions[1..]);
    }
  }

  lemma {:induction false} InitOk(min: int32, max: int32, n: nat, msgs: seq<Message>)
    requires min <= max
    ensures Inv(Init(min, max, n, msgs))
  {
    var s := Init(min, max, n, msgs);
    forall r | 0 <= r < n ensures RequestOk(s, r) {
      assert s.reqs[r] == NEW_REQUEST;
    }
  }

  /** A state that a run without reuse reaches. */
  ghost predicate Reachable(s: Sys) {
    exists n: nat, msgs: seq<Message>, actions: seq<Action> ::
      && s.min <= s.max && s == Run(Init(s.min, s.max, n, msgs), actions)
      && NoReuse(Init(s.min, s.max, n, msgs), actions)
  }

  lemma {:induction false} ReachableOk(s: Sys)
    requires Reachable(s)
    ensures Inv(s)
  {
    var n: nat, msgs, actions :|
      && s.min <= s.max && s == Run(Init(s.min, s.max, n, msgs), actions)
      && NoReuse(Init(s.min, s.max, n, msgs), actions);
    InitOk(s.min, s.max, n, msgs);
    RunKeepsInv(Init(s.min, s.max, n, msgs), actions);
  }

  /** In every reachable state only one request at a time can find an entry under its number. */
  lemma {:induction false} OneHolderPerNumber(s: Sys, r: nat, r': nat)
    requires Reachable(s) && r < |s.reqs| && r' < |s.reqs|
    requires Numbered(s.reqs[r]) && Numbered(s.reqs[r']) && s.reqs[r].seqNo == s.reqs[r'].seqNo
    ensures r == r' || Retired(s, r) || Retired(s, r')
    ensures s.reqs[r].seqNo in s.items ==>
      s.items[s.reqs[r].seqNo] < |s.reqs| && !Retired(s, s.items[s.reqs[r].seqNo])
  {
    ReachableOk(s);
    if !Retired(s, r) && !Retired(s, r') {
      SameNumberSameRequest(s, r, r');
    }
  }

  // ----- As many requests as there are numbers -----

  lemma {:induction false} IssuedGrows(s: Sys, actions: seq<Action>)
    ensures s.issued <= Run(s, actions).issued
    ensures Run(s, actions).min == s.min && Run(s, actions).max == s.max
    decreases |actions|
  {
    if actions != [] {
      IssuedGrows(Next(s, actions[0]), actions[1..]);
    }
  }

  lemma {:induction false} FirstRoundIsFree(s: Sys)
    requires NumbersOk(s) && s.issued < Sequencers.Period(s.min, s.max)
    ensures NumberFree(s)
  {
    forall r | 0 <= r < |s.reqs| && Numbered(s.reqs[r]) ensures s.reqs[r].seqNo != s.counter {
      Sequencers.NoReuseWithinPeriod(s.min, s.max, s.reqs[r].ticket, s.issued);
    }
  }

  lemma {:induction false} FirstRoundHasNoReuse(s: Sys, actions: seq<Action>)
    requires Inv(s) && Run(s, actions).issued <= Sequencers.Period(s.min, s.max)
    ensures NoReuse(s, actions)
    decreases |actions|
  {
    if actions != [] {
      var s' := Next(s, actions[0]);
      IssuedGrows(s', actions[1..]);
      if s'.issued > s.issued {
        FirstRoundIsFree(s);
      }
      NextKeepsInv(s, actions[0]);
      IssuedGrows(s, [actions[0]]);
      FirstRoundHasNoReuse(s', actions[1..]);
    }
  }

  /** A run that has issued no more numbers than there are has no reuse, whatever its requests do. */
  lemma {:induction false} FirstRoundIsReachable(
      min: int32, max: int32, n: nat, msgs: seq<Message>, actions: seq<Action>)
    requires min <= max && Run(Init(min, max, n, msgs), actions).issued <= Sequencers.Period(min, max)
    ensures Reachable(Run(Init(min, max, n, msgs), actions))
  {
    InitOk(min, max, n, msgs);
    FirstRoundHasNoReuse(Init(min, max, n, msgs), actions);
    IssuedGrows(Init(min, max, n, msgs), actions);
  }

  // ----- No request is lost -----

  /** Somebody is still going to complete the future of request r. */
  predicate InHand(s: Sys, r: nat)
    requires r < |s.reqs|
  {
    var q := s.reqs[r];
    || (q.timer.phase in {Timers.Armed, Timers.Expired} && !q.timer.cancelled)
    || q.timer.phase.Committed?
    || q.send.Unscheduling? || q.send.Completing?
    || RemoverPc(s, q) in {Unscheduled, Valuing, Succeeding}
  }

  /**
   In every reachable state the future of every request that has armed its timer is done, exactly
   once, or in hand: its timer will fire, its callback is running, or the thread that removed its
   entry is on its way to complete it.
   */
  lemma {:induction false} NoLostRequest(s: Sys, r: nat)
    requires Reachable(s) && r < |s.reqs| && Numbered(s.reqs[r]) && !s.reqs[r].caller.Arming?
    ensures s.reqs[r].fut.done || InHand(s, r)
    ensures s.reqs[r].completions == if s.reqs[r].fut.done then 1 else 0
  {
    ReachableOk(s);
    assert RequestOk(s, r);
  }

  /** No thread of the system can take a step that changes anything. */
  ghost predicate Quiescent(s: Sys) {
    forall a: Action :: Next(s, a) == s
  }

  lemma {:induction false} ThreadsAtRest(s: Sys, r: nat)
    requires Quiescent(s) && r < |s.reqs|
    ensures s.reqs[r].caller.Returned?
    ensures s.reqs[r].timer.phase !in {Timers.Armed, Timers.Expired, Timers.Committed}
    ensures s.reqs[r].send.Idle? || s.reqs[r].send.Written? || s.reqs[r].send.Closed?
  {
    assert Next(s, Call(r)) == s && Next(s, Clock(r)) == s && Next(s, Write(r, None)) == s;
    assert CallStep(s, r).reqs[r] == s.reqs[r];
    assert ClockStep(s, r).reqs[r] == s.reqs[r];
    assert WriteStep(s, r, None).reqs[r] == s.reqs[r];
  }

  lemma {:induction false} PeersAtRest(s: Sys, o: nat)
    requires Quiescent(s) && o < |s.resps|
    requires s.resps[o].entry.Some? && s.resps[o].entry.value < |s.reqs|
    ensures s.resps[o].pc == Gone
  {
    assert Next(s, Peer(o)) == s;
    assert PeerStep(s, o).resps[o] == s.resps[o];
  }

  /** When nothing moves any more, every future is done and was completed exactly once. */
  lemma {:induction false} AllDoneAtQuiescence(s: Sys, r: nat)
    requires Reachable(s) && Quiescent(s) && r < |s.reqs|
    ensures s.reqs[r].fut.done && s.reqs[r].completions == 1
    ensures s.reqs[r].send.Written? || s.reqs[r].send.Closed?
  {
    ThreadsAtRest(s, r);
    NoLostRequest(s, r);
    ReachableOk(s);
    assert RequestOk(s, r);
    var remover := s.reqs[r].removedBy;
    if remover.Some? {
      PeersAtRest(s, remover.value);
    }
  }

  // ----- Responses reach the requests they answer -----

  /**
   A future that succeeded holds the message of the one response that took its entry from the
   map, and that message carries the number the request was issued.
   */
  lemma {:induction false} ResponsesCorrelate(s: Sys, r: nat)
    requires Reachable(s) && r < |s.reqs| && s.reqs[r].fut.IsSuccess()
    ensures var q := s.reqs[r];
      && q.value.Some? && q.value.value.seqNo == q.seqNo
      && q.seqNo == Sequencers.Nth(s.min, s.max, q.ticket)
      && q.removedBy.Some? && q.removedBy.value < |s.resps|
      && s.resps[q.removedBy.value].msg == q.value.value
    ensures forall o ::
      0 <= o < |s.resps| && s.resps[o].entry == Some(r) ==> s.reqs[r].removedBy == Some(o)
  {
    ReachableOk(s);
    assert RequestOk(s, r);
  }

  /** The future of request r and its value are the same in both states. */
  predicate SameOutcome(s: Sys, s': Sys, r: nat) {
    && r < |s.reqs| == |s'.reqs|
    && s'.reqs[r].fut == s.reqs[r].fut && s'.reqs[r].value == s.reqs[r].value
  }

  lemma {:induction false} WriteLeavesDone(s: Sys, x: nat, fault: Option<Error>, r: nat)
    requires x < |s.reqs| && r < |s.reqs| && s.reqs[r].fut.done
    ensures SameOutcome(s, WriteStep(s, x, fault), r)
  {}

  lemma {:induction false} ClockLeavesDone(s: Sys, x: nat, r: nat)
    requires x < |s.reqs| && r < |s.reqs| && s.reqs[r].fut.done
    ensures SameOutcome(s, ClockStep(s, x), r)
  {}

  lemma {:induction false} CallLeavesDone(s: Sys, x: nat, r: nat)
    requires x < |s.reqs| && r < |s.reqs| && s.reqs[r].fut.done
    ensures SameOutcome(s, CallStep(s, x), r)
  {}

  lemma {:induction false} PeerLeavesDone(s: Sys, o: nat, r: nat)
    requires o < |s.resps| && r < |s.reqs| && s.reqs[r].fut.done
    requires !(s.resps[o].pc.Valuing? && s.resps[o].entry == Some(r))
    ensures SameOutcome(s, PeerStep(s, o), r)
  {}

  /** No later step, of a duplicate response or anything else, changes a successful future. */
  lemma {:induction false} SuccessIsFinal(s: Sys, a: Action, r: nat)
    requires Reachable(s) && r < |s.reqs| && s.reqs[r].fut.IsSuccess()
    ensures SameOutcome(s, Next(s, a), r)
  {
    ReachableOk(s);
    assert RequestOk(s, r);
    match a
    case Call(x) => if x < |s.reqs| { CallLeavesDone(s, x, r); }
    case Write(x, fault) => if x < |s.reqs| { WriteLeavesDone(s, x, fault, r); }
    case Clock(x) => if x < |s.reqs| { ClockLeavesDone(s, x, r); }
    case Peer(o) => if o < |s.resps| { PeerLeavesDone(s, o, r); }
  }
}
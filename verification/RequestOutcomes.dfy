/**
 How the futures of the request-response protocol end: a response brings success, and a failure is
 the time-out or the fault of the request's own Write.
 */
module RequestOutcomes {
  import opened Bytes
  import opened Values
  import opened Requests
  import opened RequestSafety

  // ----- What a done future says -----

  /** The thread that removed the entry for response o has gone through with it. */
  predicate Answered(s: Sys, r: nat, o: nat)
    requires r < |s.reqs|
  {
    s.reqs[r].removedBy == Some(o) && o < |s.resps| && s.resps[o].pc.Gone?
  }

  /**
   In every reachable state: a future is done exactly when its timer has run its task, its failed
   Write has been reported, or its response has been handled. An error is the time-out of the
   first or the fault of the second; so a response that neither has forestalled brings success.
   */
  lemma {:induction false} OutcomeHasCause(s: Sys, r: nat)
    requires Reachable(s) && r < |s.reqs|
    ensures var q := s.reqs[r];
      && (q.fut.done <==> q.timer.phase.Ran? || q.send.Closed? || exists o: nat :: Answered(s, r, o))
      && (forall e :: q.fut.err == Some(e) ==>
            (e == TimedOut && q.timer.phase.Ran?) || q.send == Closed(e))
      && (forall o: nat :: Answered(s, r, o) && !q.timer.phase.Ran? && !q.send.Closed? ==>
            q.fut.IsSuccess() && q.value == Some(s.resps[o].msg))
  {
    ReachableOk(s);
    assert RequestOk(s, r);
    var remover := s.reqs[r].removedBy;
    assert RemoverPc(s, s.reqs[r]).Gone? ==> remover.Some? && Answered(s, r, remover.value);
  }

  // ----- The fault of a Write -----

  function ErrorIn(send: Send): Option<Error> {
    match send
    case Failing(e) => Some(e)
    case Unscheduling(e, _) => Some(e)
    case Completing(e) => Some(e)
    case Closed(e) => Some(e)
    case _ => None
  }

  /** Where Write has ended up, apart from the way to get there, stays. */
  predicate SendSettled(p: Send, q: Send) {
    && (p.Written? ==> q.Written?)
    && (ErrorIn(p).Some? ==> ErrorIn(q) == ErrorIn(p))
  }

  /** What a step does to the Write of request r. */
  predicate SendMoved(s: Sys, a: Action, s': Sys, r: nat) {
    && r < |s.reqs| == |s'.reqs|
    && var p, q := s.reqs[r].send, s'.reqs[r].send;
    && SendSettled(p, q)
    && (q.Written? ==> p.Written? || a == Write(r, None))
    && (ErrorIn(q).Some? ==> ErrorIn(p).Some? || a == Write(r, ErrorIn(q)))
  }

  lemma {:induction false} CallMovesSend(s: Sys, x: nat, r: nat)
    requires x < |s.reqs| && r < |s.reqs| && RequestOk(s, r)
    ensures SendMoved(s, Call(x), CallStep(s, x), r)
  {}

  lemma {:induction false} WriteMovesSend(s: Sys, x: nat, fault: Option<Error>, r: nat)
    requires x < |s.reqs| && r < |s.reqs|
    ensures SendMoved(s, Write(x, fault), WriteStep(s, x, fault), r)
  {}

  lemma {:induction false} ClockMovesSend(s: Sys, x: nat, r: nat)
    requires x < |s.reqs| && r < |s.reqs|
    ensures SendMoved(s, Clock(x), ClockStep(s, x), r)
  {}

  lemma {:induction false} PeerMovesSend(s: Sys, o: nat, r: nat)
    requires o < |s.resps| && r < |s.reqs|
    ensures SendMoved(s, Peer(o), PeerStep(s, o), r)
  {}

  lemma {:induction false} NextMovesSend(s: Sys, a: Action, r: nat)
    requires Inv(s) && r < |s.reqs|
    ensures SendMoved(s, a, Next(s, a), r)
  {
    assert RequestOk(s, r);
    match a
    case Call(x) => if x < |s.reqs| { CallMovesSend(s, x, r); }
    case Write(x, fault) => if x < |s.reqs| { WriteMovesSend(s, x, fault, r); }
    case Clock(x) => if x < |s.reqs| { ClockMovesSend(s, x, r); }
    case Peer(o) => if o < |s.resps| { PeerMovesSend(s, o, r); }
  }

  /** What a run does to it. */
  predicate SendRan(p: Send, q: Send, r: nat, actions: seq<Action>) {
    && SendSettled(p, q)
    && (q.Written? ==> p.Written? || Write(r, None) in actions)
    && (ErrorIn(q).Some? ==> ErrorIn(p).Some? || Write(r, ErrorIn(q)) in actions)
  }

  lemma {:induction false} RunMovesSend(s: Sys, actions: seq<Action>, r: nat)
    requires Inv(s) && NoReuse(s, actions) && r < |s.reqs|
    ensures r < |Run(s, actions).reqs|
    ensures SendRan(s.reqs[r].send, Run(s, actions).reqs[r].send, r, actions)
    decreases |actions|
  {
    if actions != [] {
      NextMovesSend(s, actions[0], r);
      NextKeepsInv(s, actions[0]);
      RunMovesSend(Next(s, actions[0]), actions[1..], r);
    }
  }

  /** A future that failed was timed out, or failed with an error that its own Write met in the run. */
  lemma {:induction false} FailureComesFromWrite(
      min: int32, max: int32, n: nat, msgs: seq<Message>, actions: seq<Action>, r: nat, e: Error)
    requires min <= max && NoReuse(Init(min, max, n, msgs), actions) && r < n
    ensures var s := Run(Init(min, max, n, msgs), actions);
      r < |s.reqs| && (s.reqs[r].fut.err == Some(e) ==>
        (e == TimedOut && s.reqs[r].timer.phase.Ran?) || Write(r, Some(e)) in actions)
  {
    var start := Init(min, max, n, msgs);
    var s := Run(start, actions);
    InitOk(min, max, n, msgs);
    RunMovesSend(start, actions, r);
    RangeStays(start, actions);
    OutcomeHasCause(s, r);
  }

  lemma {:induction false} RangeStays(s: Sys, actions: seq<Action>)
    ensures Run(s, actions).min == s.min && Run(s, actions).max == s.max
    decreases |actions|
  {
    if actions != [] {
      RangeStays(Next(s, actions[0]), actions[1..]);
    }
  }

  ghost predicate FaultTold(s: Sys, r: nat, e: Error)
    requires r < |s.reqs|
  {
    var q := s.reqs[r];
    && q.send == Closed(e) && q.fut.done
    && (!q.timer.phase.Ran? && (forall o: nat :: !Answered(s, r, o)) ==> q.fut.err == Some(e))
  }

  /**
   A Write that meets a fault e fails its future with e, unless the time-out or a response comes
   first: at rest the future is done, and e is its error in every other case.
   */
  lemma {:induction false} FaultReachesFuture(s: Sys, r: nat, e: Error, actions: seq<Action>)
    requires Reachable(s) && r < |s.reqs| && s.reqs[r].send.Writing?
    requires NoReuse(Next(s, Write(r, Some(e))), actions)
    requires var s' := Run(Next(s, Write(r, Some(e))), actions); Reachable(s') && Quiescent(s')
    ensures r < |Run(Next(s, Write(r, Some(e))), actions).reqs|
    ensures FaultTold(Run(Next(s, Write(r, Some(e))), actions), r, e)
  {
    var s1 := Next(s, Write(r, Some(e)));
    ReachableOk(s);
    NextKeepsInv(s, Write(r, Some(e)));
    assert ErrorIn(s1.reqs[r].send) == Some(e);
    RunMovesSend(s1, actions, r);
    var s' := Run(s1, actions);
    AllDoneAtQuiescence(s', r);
    OutcomeHasCause(s', r);
    ReachableOk(s');
    assert RequestOk(s', r);
    var remover := s'.reqs[r].removedBy;
    assert RemoverPc(s', s'.reqs[r]).Gone? ==> remover.Some? && Answered(s', r, remover.value);
  }

  // ----- A response to a pending request -----

  /** Response o and the entry it took, if it took one. */
  predicate TakenStays(s: Sys, s': Sys, o: nat) {
    && o < |s.resps| == |s'.resps| && |s.reqs| == |s'.reqs|
    && s'.resps[o].msg == s.resps[o].msg
    && (s.resps[o].entry.Some? ==> s'.resps[o].entry == s.resps[o].entry)
  }

  lemma {:induction false} NextKeepsTaken(s: Sys, a: Action, o: nat)
    requires Inv(s) && o < |s.resps|
    ensures TakenStays(s, Next(s, a), o)
  {}

  lemma {:induction false} RunKeepsTaken(s: Sys, actions: seq<Action>, o: nat)
    requires Inv(s) && NoReuse(s, actions) && o < |s.resps|
    ensures TakenStays(s, Run(s, actions), o)
    decreases |actions|
  {
    if actions != [] {
      NextKeepsTaken(s, actions[0], o);
      NextKeepsInv(s, actions[0]);
      RunKeepsTaken(Next(s, actions[0]), actions[1..], o);
    }
  }

  predicate ResponseTold(s: Sys, r: nat, o: nat, msg: Message)
    requires r < |s.reqs|
  {
    var q := s.reqs[r];
    && Answered(s, r, o) && q.fut.done
    && (!q.timer.phase.Ran? && !q.send.Closed? ==> q.fut.IsSuccess() && q.value == Some(msg))
  }

  /**
   A message that carries the number of a pending request completes that request: at rest its
   future is done, with success and this message unless the time-out or a failed Write was first.
   */
  lemma {:induction false} ResponseSucceeds(s: Sys, o: nat, actions: seq<Action>)
    requires Reachable(s) && o < |s.resps| && s.resps[o].pc.Arriving?
    requires s.resps[o].msg.seqNo > 0 && s.resps[o].msg.seqNo in s.items
    requires NoReuse(Next(s, Peer(o)), actions)
    requires var s' := Run(Next(s, Peer(o)), actions); Reachable(s') && Quiescent(s')
    ensures var s' := Run(Next(s, Peer(o)), actions); var r := s.items[s.resps[o].msg.seqNo];
      r < |s'.reqs| && ResponseTold(s', r, o, s.resps[o].msg)
  {
    ReachableOk(s);
    RemoveChanges(s, o);
    NextKeepsInv(s, Peer(o));
    var s1 := Next(s, Peer(o));
    var r := s.items[s.resps[o].msg.seqNo];
    RunKeepsTaken(s1, actions, o);
    var s' := Run(s1, actions);
    ReachableOk(s');
    PeersAtRest(s', o);
    AllDoneAtQuiescence(s', r);
    OutcomeHasCause(s', r);
  }

  /** A message under no number of a pending request leaves requests and map alone. */
  lemma {:induction false} OthersPassThrough(s: Sys, o: nat)
    requires Reachable(s) && o < |s.resps| && s.resps[o].pc.Arriving?
    requires s.resps[o].msg.seqNo <= 0 || s.resps[o].msg.seqNo !in s.items
    ensures Next(s, Peer(o)).reqs == s.reqs && Next(s, Peer(o)).items == s.items
  {}

  // ----- What a removal takes with it -----

  /** A response, a failed Write and a time-out each leave nothing in the map under their number. */
  lemma {:induction false} RemovalsRemove(s: Sys, r: nat, o: nat, fault: Option<Error>)
    requires Reachable(s) && r < |s.reqs| && o < |s.resps|
    ensures s.resps[o].pc.Arriving? && s.resps[o].msg.seqNo > 0 ==> s.resps[o].msg.seqNo !in Next(s, Peer(o)).items
    ensures s.reqs[r].send.Failing? ==> s.reqs[r].seqNo !in Next(s, Write(r, fault)).items
    ensures s.reqs[r].timer.phase.Committed? && !s.reqs[r].deleted ==> s.reqs[r].seqNo !in Next(s, Clock(r)).items
  {
    ReachableOk(s);
  }

  /** The timer's task has not run, and its check will find the flag. */
  predicate Quieted(s: Sys, r: nat) {
    r < |s.reqs| && s.reqs[r].timer.cancelled &&
    !s.reqs[r].timer.phase.Committed? && !s.reqs[r].timer.phase.Ran?
  }

  lemma {:induction false} NextKeepsQuieted(s: Sys, a: Action, r: nat)
    requires Inv(s) && Quieted(s, r)
    ensures Quieted(Next(s, a), r)
  {
    assert RequestOk(s, r);
    match a
    case Call(x) => if x < |s.reqs| { CallKeepsQuieted(s, x, r); }
    case Write(x, fault) => if x < |s.reqs| { WriteKeepsQuieted(s, x, fault, r); }
    case Clock(x) => if x < |s.reqs| { ClockKeepsQuieted(s, x, r); }
    case Peer(o) => if o < |s.resps| { PeerKeepsQuieted(s, o, r); }
  }

  lemma {:induction false} CallKeepsQuieted(s: Sys, x: nat, r: nat)
    requires x < |s.reqs| && Quieted(s, r) && RequestOk(s, r)
    ensures Quieted(CallStep(s, x), r)
  {}

  lemma {:induction false} WriteKeepsQuieted(s: Sys, x: nat, fault: Option<Error>, r: nat)
    requires x < |s.reqs| && Quieted(s, r)
    ensures Quieted(WriteStep(s, x, fault), r)
  {}

  lemma {:induction false} ClockKeepsQuieted(s: Sys, x: nat, r: nat)
    requires x < |s.reqs| && Quieted(s, r)
    ensures Quieted(ClockStep(s, x), r)
  {}

  lemma {:induction false} PeerKeepsQuieted(s: Sys, o: nat, r: nat)
    requires o < |s.resps| && Quieted(s, r)
    ensures Quieted(PeerStep(s, o), r)
  {}

  lemma {:induction false} RunKeepsQuieted(s: Sys, actions: seq<Action>, r: nat)
    requires Inv(s) && NoReuse(s, actions) && Quieted(s, r)
    ensures Quieted(Run(s, actions), r)
    decreases |actions|
  {
    if actions != [] {
      NextKeepsQuieted(s, actions[0], r);
      NextKeepsInv(s, actions[0]);
      RunKeepsQuieted(Next(s, actions[0]), actions[1..], r);
    }
  }

  /** Once its response has been handled a request is never timed out, if its timer had not got that far. */
  lemma {:induction false} AnsweredNeverTimesOut(s: Sys, r: nat, o: nat, actions: seq<Action>)
    requires Reachable(s) && r < |s.reqs| && Answered(s, r, o) && NoReuse(s, actions)
    requires !s.reqs[r].timer.phase.Committed? && !s.reqs[r].timer.phase.Ran?
    ensures r < |Run(s, actions).reqs| && !Run(s, actions).reqs[r].timer.phase.Ran?
  {
    ReachableOk(s);
    assert RequestOk(s, r);
    RunKeepsQuieted(s, actions, r);
  }

  // ----- A stored request stays in the map until somebody takes it out -----

  predicate InMap(s: Sys, r: nat)
    requires r < |s.reqs|
  {
    s.reqs[r].seqNo in s.items && s.items[s.reqs[r].seqNo] == r
  }

  /** Its response, or the failure of its own Write, has taken the entry of request r. */
  predicate Taken(q: Request) {
    q.removedBy.Some? || q.send.Unscheduling? || q.send.Completing? || q.send.Closed?
  }

  /** A timer callback of its own number has deleted what the map held under it. */
  predicate Deleted(s: Sys, r: nat, x: int)
    requires r < |s.reqs|
  {
    0 <= x < |s.reqs| && s.reqs[x].deleted && s.reqs[x].seqNo == s.reqs[r].seqNo
  }

  ghost predicate Findable(s: Sys, r: nat)
    requires r < |s.reqs|
  {
    Stored(s.reqs[r]) ==> InMap(s, r) || Taken(s.reqs[r]) || exists x :: Deleted(s, r, x)
  }

  /** What a step leaves of the reasons for a request not to be in the map. */
  predicate ReasonsStay(p: Request, q: Request) {
    && (Taken(p) ==> Taken(q)) && (p.deleted ==> q.deleted)
    && (Numbered(p) ==> q.seqNo == p.seqNo) && (Stored(p) ==> Stored(q))
  }

  predicate ReasonsKept(s: Sys, s': Sys, r: nat) {
    r < |s.reqs| == |s'.reqs| && ReasonsStay(s.reqs[r], s'.reqs[r])
  }

  lemma {:induction false} NextKeepsReasons(s: Sys, a: Action, r: nat)
    requires Inv(s) && r < |s.reqs|
    ensures ReasonsKept(s, Next(s, a), r)
  {
    assert RequestOk(s, r);
    match a
    case Call(x) => if x < |s.reqs| { CallKeepsReasons(s, x, r); }
    case Write(x, fault) => if x < |s.reqs| { WriteKeepsReasons(s, x, fault, r); }
    case Clock(x) => if x < |s.reqs| { ClockKeepsReasons(s, x, r); }
    case Peer(o) => if o < |s.resps| { PeerKeepsReasons(s, o, r); }
  }

  lemma {:induction false} CallKeepsReasons(s: Sys, x: nat, r: nat)
    requires x < |s.reqs| && r < |s.reqs| && RequestOk(s, r)
    ensures ReasonsKept(s, CallStep(s, x), r)
  {}

  lemma {:induction false} WriteKeepsReasons(s: Sys, x: nat, fault: Option<Error>, r: nat)
    requires x < |s.reqs| && r < |s.reqs|
    ensures ReasonsKept(s, WriteStep(s, x, fault), r)
  {}

  lemma {:induction false} ClockKeepsReasons(s: Sys, x: nat, r: nat)
    requires x < |s.reqs| && r < |s.reqs|
    ensures ReasonsKept(s, ClockStep(s, x), r)
  {}

  lemma {:induction false} PeerKeepsReasons(s: Sys, o: nat, r: nat)
    requires o < |s.resps| && r < |s.reqs|
    ensures ReasonsKept(s, PeerStep(s, o), r)
  {}

  /** A request leaves the map only when it is taken or its number deleted, and enters it when stored. */
  ghost predicate LeavesForReason(s: Sys, s': Sys, r: nat)
    requires r < |s.reqs| == |s'.reqs|
  {
    && (InMap(s, r) && Stored(s.reqs[r]) && !InMap(s', r) ==>
          Taken(s'.reqs[r]) || exists x :: Deleted(s', r, x))
    && (Stored(s'.reqs[r]) && !Stored(s.reqs[r]) ==> InMap(s', r))
  }

  lemma {:induction false} CallLeaves(s: Sys, x: nat, r: nat)
    requires Inv(s) && x < |s.reqs| && r < |s.reqs|
    ensures LeavesForReason(s, CallStep(s, x), r)
  {
    assert RequestOk(s, x) && RequestOk(s, r);
    if s.reqs[x].caller.Storing? && s.reqs[x].seqNo in s.items {
      SameNumberSameRequest(s, x, s.items[s.reqs[x].seqNo]);
    }
  }

  lemma {:induction false} WriteLeaves(s: Sys, x: nat, fault: Option<Error>, r: nat)
    requires Inv(s) && x < |s.reqs| && r < |s.reqs|
    ensures LeavesForReason(s, WriteStep(s, x, fault), r)
  {
    assert RequestOk(s, x) && RequestOk(s, r);
    if s.reqs[x].send.Failing? && s.reqs[x].seqNo in s.items {
      SameNumberSameRequest(s, x, s.items[s.reqs[x].seqNo]);
    }
  }

  lemma {:induction false} ClockLeaves(s: Sys, x: nat, r: nat)
    requires Inv(s) && x < |s.reqs| && r < |s.reqs|
    ensures LeavesForReason(s, ClockStep(s, x), r)
  {
    var s' := ClockStep(s, x);
    if InMap(s, r) && !InMap(s', r) {
      assert Deleted(s', r, x);
    }
  }

  lemma {:induction false} PeerLeaves(s: Sys, o: nat, r: nat)
    requires Inv(s) && o < |s.resps| && r < |s.reqs|
    ensures LeavesForReason(s, PeerStep(s, o), r)
  {
    if Removes(s, o) {
      RemoveChanges(s, o);
    }
  }

  lemma {:induction false} NextKeepsFindable(s: Sys, a: Action, r: nat)
    requires Inv(s) && r < |s.reqs| && Findable(s, r)
    ensures r < |Next(s, a).reqs| && Findable(Next(s, a), r)
  {
    var s' := Next(s, a);
    NextKeepsReasons(s, a, r);
    match a {
      case Call(x) => if x < |s.reqs| { CallLeaves(s, x, r); }
      case Write(x, fault) => if x < |s.reqs| { WriteLeaves(s, x, fault, r); }
      case Clock(x) => if x < |s.reqs| { ClockLeaves(s, x, r); }
      case Peer(o) => if o < |s.resps| { PeerLeaves(s, o, r); }
    }
    if x :| Deleted(s, r, x) && Stored(s.reqs[r]) {
      NextKeepsReasons(s, a, x);
      assert RequestOk(s, x);
      assert Deleted(s', r, x);
    }
  }

  lemma {:induction false} RunKeepsFindable(s: Sys, actions: seq<Action>, r: nat)
    requires Inv(s) && NoReuse(s, actions) && r < |s.reqs| && Findable(s, r)
    ensures r < |Run(s, actions).reqs| && Findable(Run(s, actions), r)
    decreases |actions|
  {
    if actions != [] {
      NextKeepsFindable(s, actions[0], r);
      NextKeepsInv(s, actions[0]);
      RunKeepsFindable(Next(s, actions[0]), actions[1..], r);
    }
  }

  /**
   A stored request can be found under its number until its response or its own failed Write takes
   it, or a timer callback of the same number deletes it.
   */
  lemma {:induction false} StoredIsFindable(
      min: int32, max: int32, n: nat, msgs: seq<Message>, actions: seq<Action>, r: nat)
    requires min <= max && NoReuse(Init(min, max, n, msgs), actions) && r < n
    ensures var s := Run(Init(min, max, n, msgs), actions); r < |s.reqs| && Findable(s, r)
  {
    InitOk(min, max, n, msgs);
    RunKeepsFindable(Init(min, max, n, msgs), actions, r);
  }
}

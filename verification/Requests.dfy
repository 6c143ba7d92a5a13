/**
 The request-response protocol of example/request_response.go and example/persistent_client.go at
 the grain of its atomic operations: the Load and CompareAndSwap of the sequencer, the arming and
 the callback steps of each timer, the Swap, LoadAndDelete and Delete of the pending map, each
 critical section of a timer or a future, and the plain write of a future's value.
 */
module Requests {
  import opened Bytes
  import opened Values
  import opened Futures
  import opened Timers
  import opened Sequencers

  // ----- State -----

  /** Where a call of Request stands. */
  datatype CallerPc =
    | Loading                        // sequencer.Load
    | Swapping(current: int32)       // sequencer.CompareAndSwap
    | Arming                         // NewTimeout
    | Storing                        // items.Swap
    | Cancelling(replaced: nat)      // Cancel of the entry that was replaced
    | Sending                        // ctx.Write
    | Returned

  /** Where the Write of a request, and the listener that a failure launches, stand. */
  datatype Send =
    | Idle
    | Writing
    | Written
    | Failing(error: Error)                    // items.LoadAndDelete
    | Unscheduling(error: Error, entry: nat)   // Cancel of the removed entry's timer
    | Completing(error: Error)                 // future.SetFailure
    | Closed(error: Error)

  /**
   One call of Request, its future, its map entry and its timer. `ticket` is how many numbers had
   been issued before its own, `removedBy` the response that took its entry out of the map, and
   `completions` how many completing calls returned true: none of the three is read by a step.
   */
  datatype Request = Request(
    caller: CallerPc, seqNo: int32, ticket: nat,
    send: Send,
    timer: Timeout, deleted: bool,
    fut: Fut, value: Option<Message>, completions: nat,
    removedBy: Option<nat>)

  datatype PeerPc =
    | Arriving       // items.LoadAndDelete
    | Unscheduled    // Cancel of the removed entry's timer
    | Valuing        // f.value = value
    | Succeeding     // future.SetSuccess
    | Gone

  /** One message received from the peer and handled by OnMessage. */
  datatype Response = Response(msg: Message, pc: PeerPc, entry: Option<nat>)

  datatype Sys = Sys(
    min: int32, max: int32, counter: int32, issued: nat,
    items: map<int32, nat>, reqs: seq<Request>, resps: seq<Response>)

  const NEW_REQUEST :=
    Request(Loading, 0, 0, Idle, FRESH, false, NEW_FUTURE, None, 0, None)

  /** n calls of Request still to come and the messages the peer will have sent. */
  function Init(min: int32, max: int32, n: nat, msgs: seq<Message>): Sys {
    Sys(min, max, min, 0, map[], seq(n, _ => NEW_REQUEST),
        seq(|msgs|, i requires 0 <= i < |msgs| => Response(msgs[i], Arriving, None)))
  }

  // ----- Steps -----

  datatype Action =
    | Call(r: nat)                          // the goroutine that called Request
    | Write(r: nat, fault: Option<Error>)   // its Write, which may fail, and the failure listener
    | Clock(r: nat)                         // its timer and the timer's callback
    | Peer(o: nat)                          // the handling of one received message

  function PutReq(s: Sys, r: nat, q: Request): Sys
    requires r < |s.reqs|
  {
    s.(reqs := s.reqs[r := q])
  }

  function Unschedule(s: Sys, r: nat): Sys
    requires r < |s.reqs|
  {
    PutReq(s, r, s.reqs[r].(timer := AfterCancel(s.reqs[r].timer).0))
  }

  function Fail(q: Request, e: Error): Request {
    var (f, won) := AfterFailure(q.fut, Some(e));
    q.(fut := f, completions := q.completions + if won then 1 else 0)
  }

  function Succeed(q: Request): Request {
    var (f, won) := AfterSuccess(q.fut);
    q.(fut := f, completions := q.completions + if won then 1 else 0)
  }

  function CallStep(s: Sys, r: nat): Sys
    requires r < |s.reqs|
  {
    var q := s.reqs[r];
    match q.caller
    case Loading => PutReq(s, r, q.(caller := Swapping(s.counter)))
    case Swapping(current) =>
      if s.counter != current then PutReq(s, r, q.(caller := Loading))
      else
        PutReq(s, r, q.(caller := Arming, seqNo := current, ticket := s.issued))
          .(counter := Succ(s.min, s.max, current), issued := s.issued + 1)
    case Arming => PutReq(s, r, q.(caller := Storing, timer := Timeout(Armed, false)))
    case Storing =>
      var next := if q.seqNo in s.items then Cancelling(s.items[q.seqNo]) else Sending;
      PutReq(s, r, q.(caller := next)).(items := s.items[q.seqNo := r])
    case Cancelling(p) =>
      var s' := if p < |s.reqs| then Unschedule(s, p) else s;
      PutReq(s', r, s'.reqs[r].(caller := Sending))
    case Sending => PutReq(s, r, q.(caller := Returned, send := Writing))
    case Returned => s
  }

  function WriteStep(s: Sys, r: nat, fault: Option<Error>): Sys
    requires r < |s.reqs|
  {
    var q := s.reqs[r];
    match q.send
    case Writing =>
      PutReq(s, r, q.(send := if fault.Some? then Failing(fault.value) else Written))
    case Failing(e) =>
      if q.seqNo in s.items then
        PutReq(s, r, q.(send := Unscheduling(e, s.items[q.seqNo])))
          .(items := s.items - {q.seqNo})
      else PutReq(s, r, q.(send := Completing(e)))
    case Unscheduling(e, x) =>
      var s' := if x < |s.reqs| then Unschedule(s, x) else s;
      PutReq(s', r, s'.reqs[r].(send := Completing(e)))
    case Completing(e) => PutReq(s, r, Fail(q, e).(send := Closed(e)))
    case _ => s
  }

  /** A committed callback deletes the key and then lets the handler fail the future. */
  function ClockStep(s: Sys, r: nat): Sys
    requires r < |s.reqs|
  {
    var q := s.reqs[r];
    if q.timer.phase != Committed then PutReq(s, r, q.(timer := AfterTick(q.timer)))
    else if !q.deleted then
      PutReq(s, r, q.(deleted := true)).(items := s.items - {q.seqNo})
    else PutReq(s, r, Fail(q, TimedOut).(timer := AfterTick(q.timer)))
  }

  function PutResp(s: Sys, o: nat, p: Response): Sys
    requires o < |s.resps|
  {
    s.(resps := s.resps[o := p])
  }

  function PeerStep(s: Sys, o: nat): Sys
    requires o < |s.resps|
  {
    var p := s.resps[o];
    var key := p.msg.seqNo;
    if p.pc.Arriving? then
      if key > 0 && key in s.items && s.items[key] < |s.reqs| then
        var r := s.items[key];
        PutReq(PutResp(s, o, p.(pc := Unscheduled, entry := Some(r))),
               r, s.reqs[r].(removedBy := Some(o)))
          .(items := s.items - {key})
      else PutResp(s, o, p.(pc := Gone))
    else if p.entry.None? || p.entry.value >= |s.reqs| then s
    else
      var r := p.entry.value;
      match p.pc
      case Unscheduled => Unschedule(PutResp(s, o, p.(pc := Valuing)), r)
      case Valuing =>
        PutReq(PutResp(s, o, p.(pc := Succeeding)), r, s.reqs[r].(value := Some(p.msg)))
      case Succeeding => PutReq(PutResp(s, o, p.(pc := Gone)), r, Succeed(s.reqs[r]))
      case _ => s
  }

  function Next(s: Sys, a: Action): Sys {
    match a
    case Call(r) => if r < |s.reqs| then CallStep(s, r) else s
    case Write(r, fault) => if r < |s.reqs| then WriteStep(s, r, fault) else s
    case Clock(r) => if r < |s.reqs| then ClockStep(s, r) else s
    case Peer(o) => if o < |s.resps| then PeerStep(s, o) else s
  }

  function Run(s: Sys, actions: seq<Action>): Sys
    decreases |actions|
  {
    if actions == [] then s else Run(Next(s, actions[0]), actions[1..])
  }

  // ----- Invariants -----

  predicate Numbered(q: Request) { !q.caller.Loading? && !q.caller.Swapping? }

  predicate Stored(q: Request) { Numbered(q) && !q.caller.Arming? && !q.caller.Storing? }

  /** The Write has gone through, or its failure has reached the map and found what was there. */
  predicate PastMap(send: Send) {
    send.Written? || send.Unscheduling? || send.Completing? || send.Closed?
  }

  /**
   Request r has no entry in the map, and its thread will not look for one again: its number can
   be taken once more, even with its future pending and its timer running.
   */
  predicate Retired(s: Sys, r: nat)
    requires r < |s.reqs|
  {
    PastMap(s.reqs[r].send) && !(s.reqs[r].seqNo in s.items && s.items[s.reqs[r].seqNo] == r)
  }

  /** Whoever has held the number the sequencer is about to issue is retired. */
  ghost predicate NumberFree(s: Sys) {
    forall r :: 0 <= r < |s.reqs| && Numbered(s.reqs[r]) && s.reqs[r].seqNo == s.counter ==> Retired(s, r)
  }

  /** Numbers: each request holds the number of its own ticket, and no two share a ticket. */
  ghost predicate NumbersOk(s: Sys) {
    && s.min <= s.max && s.counter == Nth(s.min, s.max, s.issued)
    && (forall r :: 0 <= r < |s.reqs| && Numbered(s.reqs[r]) ==>
          s.reqs[r].ticket < s.issued && s.reqs[r].seqNo == Nth(s.min, s.max, s.reqs[r].ticket))
    && (forall r, r' :: 0 <= r < r' < |s.reqs| && Numbered(s.reqs[r]) && Numbered(s.reqs[r']) ==>
          s.reqs[r].ticket != s.reqs[r'].ticket)
  }

  predicate MayShare(s: Sys, r: nat, r': nat)
    requires r < |s.reqs| && r' < |s.reqs|
  {
    var q, q' := s.reqs[r], s.reqs[r'];
    Numbered(q) && Numbered(q') && q.seqNo == q'.seqNo ==> Retired(s, r) || Retired(s, r')
  }

  /** Of two requests that share a number one is retired. */
  ghost predicate SharingOk(s: Sys) {
    forall r, r' :: 0 <= r < |s.reqs| && 0 <= r' < |s.reqs| && r != r' ==> MayShare(s, r, r')
  }

  /** The map holds stored requests under their own numbers, and none that a response removed. */
  ghost predicate MapOk(s: Sys) {
    forall k :: k in s.items ==>
      && s.items[k] < |s.reqs| && s.reqs[s.items[k]].seqNo == k
      && Stored(s.reqs[s.items[k]]) && s.reqs[s.items[k]].removedBy == None
  }

  /** A response and the request whose entry it removed agree on each other and on the number. */
  ghost predicate RemovalsOk(s: Sys) {
    && (forall o :: 0 <= o < |s.resps| && s.resps[o].entry.Some? ==>
          && s.resps[o].entry.value < |s.reqs|
          && s.reqs[s.resps[o].entry.value].removedBy == Some(o)
          && s.reqs[s.resps[o].entry.value].seqNo == s.resps[o].msg.seqNo)
    && (forall o :: 0 <= o < |s.resps| ==>
          (s.resps[o].pc.Arriving? ==> s.resps[o].entry.None?) &&
          (!s.resps[o].pc.Arriving? && !s.resps[o].pc.Gone? ==> s.resps[o].entry.Some?))
  }

  /** What can be said of one request and the response, if any, that removed its entry. */
  predicate RequestOk(s: Sys, r: nat)
    requires r < |s.reqs|
  {
    var q := s.reqs[r];
    && !q.caller.Cancelling?
    && (q.send != Idle <==> q.caller.Returned?)
    && (q.send.Unscheduling? ==> q.send.entry == r)
    && (q.removedBy.Some? ==>
          Stored(q) && q.removedBy.value < |s.resps| &&
          s.resps[q.removedBy.value].entry == Some(r))
    && TimerOk(s, q) && FutureOk(s, q)
  }

  function RemoverPc(s: Sys, q: Request): PeerPc {
    if q.removedBy.Some? && q.removedBy.value < |s.resps|
    then s.resps[q.removedBy.value].pc else Arriving
  }

  predicate TimerOk(s: Sys, q: Request) {
    && (q.timer.phase == Unarmed <==> !Numbered(q) || q.caller.Arming?)
    && (q.timer.cancelled ==> q.timer.phase != Armed && q.timer.phase != Unarmed)
    && (q.timer.phase == Stopped || q.timer.phase == Skipped ==> q.timer.cancelled)
    && (q.deleted ==> q.timer.phase == Committed || q.timer.phase == Ran)
    && (q.timer.cancelled ==>
          || RemoverPc(s, q) in {Valuing, Succeeding, Gone}
          || q.send.Completing? || q.send.Closed?)
    && (RemoverPc(s, q) in {Valuing, Succeeding, Gone} ==> q.timer.cancelled)
  }

  predicate FutureOk(s: Sys, q: Request) {
    && q.completions == (if q.fut.done then 1 else 0)
    && !q.fut.cancelled && (!q.fut.done ==> q.fut.err == None)
    && (q.timer.phase == Ran || q.send.Closed? || RemoverPc(s, q).Gone? ==> q.fut.done)
    && (q.value.Some? <==> RemoverPc(s, q) in {Succeeding, Gone})
    && (q.value.Some? ==> q.value == Some(s.resps[q.removedBy.value].msg))
    && (q.fut.done && q.fut.err == None ==> RemoverPc(s, q).Gone?)
    && (q.fut.err.Some? ==>
          || (q.fut.err == Some(TimedOut) && q.timer.phase == Ran)
          || (q.send.Closed? && q.fut.err == Some(q.send.error)))
  }

  ghost predicate Inv(s: Sys) {
    && NumbersOk(s) && SharingOk(s) && MapOk(s) && RemovalsOk(s)
    && forall r :: 0 <= r < |s.reqs| ==> RequestOk(s, r)
  }

  // ----- Every step keeps the invariant -----

  lemma {:induction false} SameNumberSameRequest(s: Sys, r: nat, r': nat)
    requires SharingOk(s) && r < |s.reqs| && r' < |s.reqs| && !Retired(s, r) && !Retired(s, r')
    requires Numbered(s.reqs[r]) && Numbered(s.reqs[r']) && s.reqs[r].seqNo == s.reqs[r'].seqNo
    ensures r == r'
  {
    assert r != r' ==> MayShare(s, r, r');
  }

  /** The step changes nothing about the number of request r, except perhaps to retire it. */
  predicate KeepsNumber(s: Sys, s': Sys, r: nat)
    requires r < |s.reqs| == |s'.reqs|
  {
    && (Numbered(s'.reqs[r]) ==> Numbered(s.reqs[r]) && s'.reqs[r].seqNo == s.reqs[r].seqNo)
    && (Retired(s, r) ==> Retired(s', r))
  }

  lemma {:induction false} SharingKept(s: Sys, s': Sys)
    requires SharingOk(s) && |s.reqs| == |s'.reqs|
    requires forall r :: 0 <= r < |s.reqs| ==> KeepsNumber(s, s', r)
    ensures SharingOk(s')
  {
    forall r, r' | 0 <= r < |s.reqs| && 0 <= r' < |s.reqs| && r != r' ensures MayShare(s', r, r') {
      assert MayShare(s, r, r') && KeepsNumber(s, s', r) && KeepsNumber(s, s', r');
    }
  }

  lemma {:induction false} PutReqKeepsSharing(s: Sys, r: nat, q: Request)
    requires SharingOk(s) && r < |s.reqs|
    requires KeepsNumber(s, PutReq(s, r, q), r)
    ensures SharingOk(PutReq(s, r, q))
  {
    forall x | 0 <= x < |s.reqs| ensures KeepsNumber(s, PutReq(s, r, q), x) {}
    SharingKept(s, PutReq(s, r, q));
  }

  lemma {:induction false} DropKeyKeepsSharing(s: Sys, k: int32)
    requires SharingOk(s)
    ensures SharingOk(s.(items := s.items - {k}))
  {
    var s' := s.(items := s.items - {k});
    forall x | 0 <= x < |s.reqs| ensures KeepsNumber(s, s', x) {}
    SharingKept(s, s');
  }

  /** Responses are no part of it. */
  lemma {:induction false} PutRespKeepsSharing(s: Sys, o: nat, p: Response)
    requires SharingOk(s) && o < |s.resps|
    ensures SharingOk(PutResp(s, o, p))
  {
    forall x | 0 <= x < |s.reqs| ensures KeepsNumber(s, PutResp(s, o, p), x) {}
    SharingKept(s, PutResp(s, o, p));
  }

  /** A number is taken while nobody who is not retired holds it. */
  lemma {:induction false} TakeNumberKeepsSharing(s: Sys, r: nat)
    requires SharingOk(s) && r < |s.reqs| && NumberFree(s)
    requires s.reqs[r].caller == Swapping(s.counter) && !PastMap(s.reqs[r].send)
    ensures SharingOk(CallStep(s, r))
  {
    var s' := CallStep(s, r);
    forall x, x' | 0 <= x < |s.reqs| && 0 <= x' < |s.reqs| && x != x' ensures MayShare(s', x, x') {
      assert MayShare(s, x, x');
      assert Retired(s, x) ==> Retired(s', x);
      assert Retired(s, x') ==> Retired(s', x');
    }
  }

  lemma {:induction false} StoreKeepsSharing(s: Sys, r: nat)
    requires SharingOk(s) && r < |s.reqs| && s.reqs[r].caller == Storing && !PastMap(s.reqs[r].send)
    ensures SharingOk(CallStep(s, r))
  {
    var s' := CallStep(s, r);
    forall x | 0 <= x < |s.reqs| ensures KeepsNumber(s, s', x) {}
    SharingKept(s, s');
  }

  /** A step that only rewrites request r, keeping its number, its place and its remover. */
  lemma {:induction false} PutReqKeepsInv(s: Sys, r: nat, q: Request)
    requires Inv(s) && r < |s.reqs|
    requires var p := s.reqs[r];
      q.seqNo == p.seqNo && q.ticket == p.ticket && q.removedBy == p.removedBy &&
      Numbered(q) == Numbered(p) && (Stored(p) ==> Stored(q)) && (PastMap(p.send) ==> PastMap(q.send))
    requires RequestOk(PutReq(s, r, q), r)
    ensures Inv(PutReq(s, r, q))
  {
    var s' := PutReq(s, r, q);
    PutReqKeepsSharing(s, r, q);
    forall r' | 0 <= r' < |s.reqs| && r' != r ensures RequestOk(s', r') {
      assert RequestOk(s, r');
    }
  }

  lemma {:induction false} DropKeyKeepsInv(s: Sys, k: int32)
    requires Inv(s)
    ensures Inv(s.(items := s.items - {k}))
  {
    var s' := s.(items := s.items - {k});
    DropKeyKeepsSharing(s, k);
    forall r | 0 <= r < |s.reqs| ensures RequestOk(s', r) {
      assert RequestOk(s, r);
    }
  }

  lemma {:induction false} TakeNumberKeepsInv(s: Sys, r: nat)
    requires Inv(s) && r < |s.reqs| && s.reqs[r].caller == Swapping(s.counter)
    requires NumberFree(s)
    ensures Inv(CallStep(s, r))
  {
    var s' := CallStep(s, r);
    assert RequestOk(s, r);
    TakeNumberKeepsSharing(s, r);
    assert Nth(s.min, s.max, s.issued + 1) == Succ(s.min, s.max, s.counter);
    forall r' | 0 <= r' < |s.reqs| ensures RequestOk(s', r') {
      assert RequestOk(s, r');
    }
    assert MapOk(s') by {
      forall k | k in s.items ensures s.items[k] != r {}
    }
  }

  /** No other request holds an entry under the number that is being stored. */
  lemma {:induction false} StoreChanges(s: Sys, r: nat)
    requires Inv(s) && r < |s.reqs| && s.reqs[r].caller == Storing
    ensures var q := s.reqs[r]; var s1 := PutReq(s, r, q.(caller := Sending));
      Inv(s1) && q.seqNo !in s.items && CallStep(s, r) == s1.(items := s.items[q.seqNo := r])
  {
    var q := s.reqs[r];
    assert RequestOk(s, r);
    if q.seqNo in s.items {
      SameNumberSameRequest(s, r, s.items[q.seqNo]);
    }
    PutReqKeepsInv(s, r, q.(caller := Sending));
  }

  lemma {:induction false} StoreKeepsInv(s: Sys, r: nat)
    requires Inv(s) && r < |s.reqs| && s.reqs[r].caller == Storing
    ensures Inv(CallStep(s, r))
  {
    assert RequestOk(s, r);
    StoreKeepsSharing(s, r);
    StoreChanges(s, r);
    var s1, s' := PutReq(s, r, s.reqs[r].(caller := Sending)), CallStep(s, r);
    forall r' | 0 <= r' < |s.reqs| ensures RequestOk(s', r') {
      assert RequestOk(s1, r');
    }
  }

  /** If the step takes a number, that number is free. */
  ghost predicate TakesFree(s: Sys, a: Action) {
    a.Call? && a.r < |s.reqs| && s.reqs[a.r].caller == Swapping(s.counter) ==> NumberFree(s)
  }

  lemma {:induction false} CallKeepsInv(s: Sys, r: nat)
    requires Inv(s) && r < |s.reqs|
    requires TakesFree(s, Call(r))
    ensures Inv(CallStep(s, r))
  {
    var q := s.reqs[r];
    assert RequestOk(s, r);
    match q.caller
    case Loading => PutReqKeepsInv(s, r, q.(caller := Swapping(s.counter)));
    case Swapping(current) =>
      if s.counter == current {
        TakeNumberKeepsInv(s, r);
      } else {
        PutReqKeepsInv(s, r, q.(caller := Loading));
      }
    case Arming => PutReqKeepsInv(s, r, q.(caller := Storing, timer := Timeout(Armed, false)));
    case Storing => StoreKeepsInv(s, r);
    case Sending => PutReqKeepsInv(s, r, q.(caller := Returned, send := Writing));
    case Returned =>
  }

  lemma {:induction false} SendMovesOn(s: Sys, r: nat, send: Send)
    requires Inv(s) && r < |s.reqs|
    requires s.reqs[r].send.Writing? || s.reqs[r].send.Failing?
    requires send != Idle && !send.Closed? && (send.Unscheduling? ==> send.entry == r)
    ensures Inv(PutReq(s, r, s.reqs[r].(send := send)))
  {
    assert RequestOk(s, r);
    PutReqKeepsInv(s, r, s.reqs[r].(send := send));
  }

  lemma {:induction false} FailedWriteKeepsInv(s: Sys, r: nat, fault: Option<Error>)
    requires Inv(s) && r < |s.reqs| && s.reqs[r].send.Failing?
    ensures Inv(WriteStep(s, r, fault))
  {
    var q := s.reqs[r];
    var e := q.send.error;
    assert RequestOk(s, r);
    if q.seqNo in s.items {
      SameNumberSameRequest(s, r, s.items[q.seqNo]);
      SendMovesOn(s, r, Unscheduling(e, r));
      DropKeyKeepsInv(PutReq(s, r, q.(send := Unscheduling(e, r))), q.seqNo);
    } else {
      SendMovesOn(s, r, Completing(e));
    }
  }

  lemma {:induction false} UnscheduleKeepsInv(s: Sys, r: nat, fault: Option<Error>)
    requires Inv(s) && r < |s.reqs| && s.reqs[r].send.Unscheduling?
    ensures Inv(WriteStep(s, r, fault))
  {
    var q := s.reqs[r];
    assert RequestOk(s, r);
    var q' := q.(timer := AfterCancel(q.timer).0, send := Completing(q.send.error));
    assert Unschedule(s, r).reqs[r := q'] == s.reqs[r := q'];
    PutReqKeepsInv(s, r, q');
  }

  lemma {:induction false} WriteKeepsInv(s: Sys, r: nat, fault: Option<Error>)
    requires Inv(s) && r < |s.reqs|
    ensures Inv(WriteStep(s, r, fault))
  {
    var q := s.reqs[r];
    assert RequestOk(s, r);
    match q.send
    case Writing => SendMovesOn(s, r, if fault.Some? then Failing(fault.value) else Written);
    case Failing(_) => FailedWriteKeepsInv(s, r, fault);
    case Unscheduling(_, _) => UnscheduleKeepsInv(s, r, fault);
    case Completing(e) => PutReqKeepsInv(s, r, Fail(q, e).(send := Closed(e)));
    case _ =>
  }

  lemma {:induction false} ClockKeepsInv(s: Sys, r: nat)
    requires Inv(s) && r < |s.reqs|
    ensures Inv(ClockStep(s, r))
  {
    var q := s.reqs[r];
    assert RequestOk(s, r);
    if q.timer.phase != Committed {
      PutReqKeepsInv(s, r, q.(timer := AfterTick(q.timer)));
    } else if !q.deleted {
      PutReqKeepsInv(s, r, q.(deleted := true));
      DropKeyKeepsInv(PutReq(s, r, q.(deleted := true)), q.seqNo);
    } else {
      PutReqKeepsInv(s, r, Fail(q, TimedOut).(timer := AfterTick(q.timer)));
    }
  }

  predicate Removes(s: Sys, o: nat) {
    && o < |s.resps| && s.resps[o].pc.Arriving?
    && s.resps[o].msg.seqNo > 0 && s.resps[o].msg.seqNo in s.items
  }

  lemma {:induction false} RemoveChanges(s: Sys, o: nat)
    requires Inv(s) && Removes(s, o)
    ensures var s' := PeerStep(s, o); var key := s.resps[o].msg.seqNo; var r := s.items[key];
      && r < |s.reqs| && s.reqs[r].seqNo == key && s.reqs[r].removedBy == None
      && s'.items == s.items - {key}
      && s'.reqs == s.reqs[r := s.reqs[r].(removedBy := Some(o))]
      && s'.resps == s.resps[o := s.resps[o].(pc := Unscheduled, entry := Some(r))]
  {}

  lemma {:induction false} RemoveKeepsTables(s: Sys, o: nat)
    requires Inv(s) && Removes(s, o)
    ensures var s' := PeerStep(s, o); NumbersOk(s') && SharingOk(s') && MapOk(s') && RemovalsOk(s')
  {
    RemoveChanges(s, o);
    var s' := PeerStep(s, o);
    forall x | 0 <= x < |s.reqs| ensures KeepsNumber(s, s', x) {}
    SharingKept(s, s');
  }

  lemma {:induction false} RemoveKeepsRequest(s: Sys, o: nat, r: nat)
    requires Inv(s) && Removes(s, o) && r < |s.reqs|
    ensures RequestOk(PeerStep(s, o), r)
  {
    assert RequestOk(s, r);
  }

  lemma {:induction false} RemoveKeepsInv(s: Sys, o: nat)
    requires Inv(s) && Removes(s, o)
    ensures Inv(PeerStep(s, o))
  {
    RemoveKeepsTables(s, o);
    forall r | 0 <= r < |s.reqs| ensures RequestOk(PeerStep(s, o), r) {
      RemoveKeepsRequest(s, o, r);
    }
  }

  /** The later steps of a response rewrite it and the request whose entry it removed. */
  lemma {:induction false} PutPairKeepsInv(s: Sys, o: nat, p: Response, q: Request)
    requires Inv(s) && o < |s.resps| && s.resps[o].entry.Some? && p.entry == s.resps[o].entry
    requires p.msg == s.resps[o].msg && !p.pc.Arriving?
    requires var r := p.entry.value; var q0 := s.reqs[r];
      && q.seqNo == q0.seqNo && q.ticket == q0.ticket && q.removedBy == q0.removedBy
      && q.caller == q0.caller && q.send == q0.send
      && RequestOk(PutReq(PutResp(s, o, p), r, q), r)
    ensures Inv(PutReq(PutResp(s, o, p), p.entry.value, q))
  {
    var r := p.entry.value;
    var s' := PutReq(PutResp(s, o, p), r, q);
    PutRespKeepsSharing(s, o, p);
    PutReqKeepsSharing(PutResp(s, o, p), r, q);
    forall r' | 0 <= r' < |s.reqs| && r' != r ensures RequestOk(s', r') {
      assert RequestOk(s, r');
      assert s.reqs[r'].removedBy != Some(o);
    }
  }

  /** A message that answers no pending request leaves the requests alone. */
  lemma {:induction false} PassOnKeepsInv(s: Sys, o: nat)
    requires Inv(s) && o < |s.resps| && s.resps[o].pc.Arriving?
    ensures Inv(PutResp(s, o, s.resps[o].(pc := Gone)))
  {
    var s' := PutResp(s, o, s.resps[o].(pc := Gone));
    PutRespKeepsSharing(s, o, s.resps[o].(pc := Gone));
    forall r | 0 <= r < |s.reqs| ensures RequestOk(s', r) {
      assert RequestOk(s, r);
    }
  }

  lemma {:induction false} PeerKeepsInv(s: Sys, o: nat)
    requires Inv(s) && o < |s.resps|
    ensures Inv(PeerStep(s, o))
  {
    var p := s.resps[o];
    if p.pc.Arriving? {
      if p.msg.seqNo > 0 && p.msg.seqNo in s.items {
        RemoveKeepsInv(s, o);
      } else {
        PassOnKeepsInv(s, o);
      }
    } else if p.entry.Some? {
      var r := p.entry.value;
      var q := s.reqs[r];
      assert RequestOk(s, r);
      match p.pc
      case Unscheduled =>
        PutPairKeepsInv(s, o, p.(pc := Valuing), q.(timer := AfterCancel(q.timer).0));
      case Valuing => PutPairKeepsInv(s, o, p.(pc := Succeeding), q.(value := Some(p.msg)));
      case Succeeding => PutPairKeepsInv(s, o, p.(pc := Gone), Succeed(q));
      case Gone =>
    }
  }

  lemma {:induction false} NextKeepsInv(s: Sys, a: Action)
    requires Inv(s) && TakesFree(s, a)
    ensures Inv(Next(s, a))
  {
    match a
    case Call(r) => if r < |s.reqs| { CallKeepsInv(s, r); }
    case Write(r, fault) => if r < |s.reqs| { WriteKeepsInv(s, r, fault); }
    case Clock(r) => if r < |s.reqs| { ClockKeepsInv(s, r); }
    case Peer(o) => if o < |s.resps| { PeerKeepsInv(s, o); }
  }
}

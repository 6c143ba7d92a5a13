/**
 The limit of the request-response protocol: while no number is taken again before its last holder
 is retired, and so for as many requests as the sequencer has numbers, none is lost (module
 RequestSafety); with one more, a run exists that loses one for good.
 */
module RequestLimits {
  import opened Bytes
  import opened Values
  import opened Futures
  import opened Timers
  import opened Sequencers
  import opened Requests
  import opened RequestSafety

  // ----- Lost for good -----

  /** Sent without fault, timer stopped, out of the map and in nobody's hands. */
  ghost predicate Lost(s: Sys, r: nat) {
    && r < |s.reqs|
    && s.reqs[r].caller.Returned? && s.reqs[r].send.Written? && !s.reqs[r].fut.done
    && s.reqs[r].timer.phase == Stopped && s.reqs[r].timer.cancelled
    && (forall k :: k in s.items ==> s.items[k] != r)
    && (forall o :: 0 <= o < |s.resps| ==> s.resps[o].entry != Some(r))
  }

  lemma {:induction false} CallKeepsLost(s: Sys, x: nat, r: nat)
    requires Lost(s, r) && x < |s.reqs|
    ensures Lost(CallStep(s, x), r)
  {}

  lemma {:induction false} WriteKeepsLost(s: Sys, x: nat, fault: Option<Error>, r: nat)
    requires Lost(s, r) && x < |s.reqs|
    ensures Lost(WriteStep(s, x, fault), r)
  {}

  lemma {:induction false} ClockKeepsLost(s: Sys, x: nat, r: nat)
    requires Lost(s, r) && x < |s.reqs|
    ensures Lost(ClockStep(s, x), r)
  {}

  lemma {:induction false} PeerKeepsLost(s: Sys, o: nat, r: nat)
    requires Lost(s, r) && o < |s.resps|
    ensures Lost(PeerStep(s, o), r)
  {}

  lemma {:induction false} LostForever(s: Sys, r: nat, actions: seq<Action>)
    requires Lost(s, r)
    ensures Lost(Requests.Run(s, actions), r)
    decreases |actions|
  {
    if actions != [] {
      match actions[0] {
        case Call(x) => if x < |s.reqs| { CallKeepsLost(s, x, r); }
        case Write(x, fault) => if x < |s.reqs| { WriteKeepsLost(s, x, fault, r); }
        case Clock(x) => if x < |s.reqs| { ClockKeepsLost(s, x, r); }
        case Peer(o) => if o < |s.resps| { PeerKeepsLost(s, o, r); }
      }
      LostForever(Next(s, actions[0]), r, actions[1..]);
    }
  }

  // ----- A run that fills the sequencer -----

  /** Request k once it has been stored and sent, with its timer armed. */
  function Pending(min: int32, max: int32, k: nat): Request {
    Request(Returned, Nth(min, max, k), k, Written, Timeout(Armed, false), false, NEW_FUTURE, None, 0, None)
  }

  /** Requests 0..k are pending, the others untouched. */
  ghost predicate Filled(s: Sys, k: nat, n: nat) {
    && s.min <= s.max && |s.reqs| == n && k <= n
    && (forall o :: 0 <= o < |s.resps| ==> s.resps[o].entry == None)
    && s.issued == k && s.counter == Nth(s.min, s.max, k)
    && (forall r :: 0 <= r < n ==>
          s.reqs[r] == if r < k then Pending(s.min, s.max, r) else NEW_REQUEST)
    && (forall key :: key in s.items ==> s.items[key] < k && Nth(s.min, s.max, s.items[key]) == key)
    && (k > 0 ==> s.min in s.items && s.items[s.min] == 0)
  }

  /** Some run leads from one state to the other. */
  ghost predicate Leads(s: Sys, s': Sys) {
    exists actions: seq<Action> :: Requests.Run(s, actions) == s'
  }

  lemma {:induction false} RunAppend(s: Sys, a: seq<Action>, b: seq<Action>)
    ensures Requests.Run(s, a + b) == Requests.Run(Requests.Run(s, a), b)
    decreases |a|
  {
    if a == [] {
      assert a + b == b;
    } else {
      assert (a + b)[1..] == a[1..] + b;
      RunAppend(Next(s, a[0]), a[1..], b);
    }
  }

  lemma {:induction false} LeadsOn(s: Sys, s': Sys, a: Action)
    requires Leads(s, s')
    ensures Leads(s, Next(s', a))
  {
    var actions :| Requests.Run(s, actions) == s';
    RunAppend(s, actions, [a]);
    assert [a][1..] == [];
    assert Requests.Run(s', [a]) == Requests.Run(Next(s', a), []);
  }

  /** The state after request k has taken its number and armed its timer. */
  function Ready(s: Sys, k: nat): Sys
    requires k < |s.reqs|
  {
    s.(reqs := s.reqs[k := NEW_REQUEST.(caller := Storing, seqNo := s.counter, ticket := s.issued,
                                       timer := Timeout(Armed, false))],
       counter := Succ(s.min, s.max, s.counter), issued := s.issued + 1)
  }

  lemma {:induction false} BecomesReady(s: Sys, k: nat, start: Sys)
    requires k < |s.reqs| && s.reqs[k] == NEW_REQUEST && Leads(start, s)
    ensures Leads(start, Ready(s, k))
  {
    var s1 := CallStep(s, k);
    LeadsOn(start, s, Call(k));
    var s2 := CallStep(s1, k);
    LeadsOn(start, s1, Call(k));
    assert s2.reqs == s.reqs[k := s2.reqs[k]];
    LeadsOn(start, s2, Call(k));
    assert CallStep(s2, k).reqs == s.reqs[k := CallStep(s2, k).reqs[k]];
  }

  lemma {:induction false} NextNumberIsFree(s: Sys, k: nat, n: nat)
    requires Filled(s, k, n) && k < Period(s.min, s.max)
    ensures s.counter !in s.items
  {
    forall key | key in s.items ensures key != s.counter {
      NoReuseWithinPeriod(s.min, s.max, s.items[key], k);
    }
  }

  /** The state once request k has stored its future and sent its message. */
  function Sent(s: Sys, k: nat): Sys
    requires k < |s.reqs|
  {
    s.(reqs := s.reqs[k := Pending(s.min, s.max, k)], items := s.items[s.counter := k],
       counter := Succ(s.min, s.max, s.counter), issued := s.issued + 1)
  }

  lemma {:induction false} SentKeepsFilled(s: Sys, k: nat, n: nat)
    requires Filled(s, k, n) && k < n && s.counter !in s.items
    ensures Filled(Sent(s, k), k + 1, n)
  {
    var s' := Sent(s, k);
    assert s'.counter == Nth(s.min, s.max, k + 1);
  }

  lemma {:induction false} FillOne(s: Sys, k: nat, n: nat, start: Sys)
    requires Filled(s, k, n) && k < n && s.counter !in s.items && Leads(start, s)
    ensures Leads(start, Sent(s, k))
  {
    BecomesReady(s, k, start);
    var s1 := Ready(s, k);
    var s2 := CallStep(s1, k);
    LeadsOn(start, s1, Call(k));
    var s3 := CallStep(s2, k);
    LeadsOn(start, s2, Call(k));
    var s4 := WriteStep(s3, k, None);
    LeadsOn(start, s3, Write(k, None));
    assert s4.reqs == s.reqs[k := Pending(s.min, s.max, k)];
  }

  lemma {:induction false} FillUp(min: int32, max: int32, k: nat, n: nat, msgs: seq<Message>) returns (s: Sys)
    requires min <= max && k <= n && k <= Period(min, max)
    ensures Leads(Requests.Init(min, max, n, msgs), s) && Filled(s, k, n) && s.min == min && s.max == max
    decreases k
  {
    if k == 0 {
      s := Requests.Init(min, max, n, msgs);
      assert Requests.Run(s, []) == s;
    } else {
      var before := FillUp(min, max, k - 1, n, msgs);
      NextNumberIsFree(before, k - 1, n);
      SentKeepsFilled(before, k - 1, n);
      FillOne(before, k - 1, n, Requests.Init(min, max, n, msgs));
      s := Sent(before, k - 1);
    }
  }

  lemma {:induction false} StartsOver(min: int32, max: int32)
    requires min <= max
    ensures Nth(min, max, Period(min, max)) == min
  {
    if max < MAX_INT32 {
      NthCycles(min, max, 0);
    } else {
      NthWraps(min, TWO_32);
    }
  }

  lemma {:induction false} NextRequestReplacesFirst(s: Sys, start: Sys, n: nat) returns (s': Sys)
    requires s.min <= s.max && Leads(start, s)
    requires Filled(s, Period(s.min, s.max), n) && n > Period(s.min, s.max)
    ensures Leads(start, s') && Lost(s', 0)
  {
    var p := Period(s.min, s.max);
    StartsOver(s.min, s.max);
    var s1 := Ready(s, p);
    BecomesReady(s, p, start);
    var s2 := CallStep(s1, p);
    LeadsOn(start, s1, Call(p));
    assert s2.reqs[p].caller == Cancelling(0);
    s' := CallStep(s2, p);
    LeadsOn(start, s2, Call(p));
    assert s'.reqs[0] == s.reqs[0].(timer := Timeout(Stopped, true));
  }

  /** A run from this state loses request r, whatever happens afterwards. */
  ghost predicate CanLose(start: Sys, r: nat) {
    exists s: Sys :: Leads(start, s) && NeverCompleted(s, r)
  }

  ghost predicate NeverCompleted(s: Sys, r: nat) {
    forall actions: seq<Action> :: Lost(Requests.Run(s, actions), r)
  }

  /**
   With more requests than the sequencer has numbers there is a run in which one takes the number
   of the first while that is pending: its Swap drops the entry and its Cancel stops the timer,
   and the first future is not completed in any continuation.
   */
  lemma {:induction false} OneTooManyCanLoseOne(min: int32, max: int32, n: nat, msgs: seq<Message>)
    requires min <= max && n > Period(min, max)
    ensures CanLose(Requests.Init(min, max, n, msgs), 0)
  {
    var full := FillUp(min, max, Period(min, max), n, msgs);
    var s := NextRequestReplacesFirst(full, Requests.Init(min, max, n, msgs), n);
    forall actions: seq<Action> ensures Lost(Requests.Run(s, actions), 0) {
      LostForever(s, 0, actions);
    }
    assert NeverCompleted(s, 0);
  }

  // ----- No more numbers are issued than there are requests -----

  function Count(reqs: seq<Request>): (n: nat)
    ensures n <= |reqs|
  {
    if reqs == [] then 0 else Count(reqs[1..]) + if Numbered(reqs[0]) then 1 else 0
  }

  lemma {:induction false} CountTaken(reqs: seq<Request>, reqs': seq<Request>, r: nat)
    requires r < |reqs| == |reqs'| && !Numbered(reqs[r]) && Numbered(reqs'[r])
    requires forall x :: 0 <= x < |reqs| && x != r ==> Numbered(reqs'[x]) == Numbered(reqs[x])
    ensures Count(reqs') == Count(reqs) + 1
    decreases |reqs|
  {
    if r == 0 {
      CountSame(reqs[1..], reqs'[1..]);
    } else {
      CountTaken(reqs[1..], reqs'[1..], r - 1);
    }
  }

  lemma {:induction false} CountSame(reqs: seq<Request>, reqs': seq<Request>)
    requires |reqs| == |reqs'|
    requires forall x :: 0 <= x < |reqs| ==> Numbered(reqs'[x]) == Numbered(reqs[x])
    ensures Count(reqs') == Count(reqs)
    decreases |reqs|
  {
    if reqs != [] {
      CountSame(reqs[1..], reqs'[1..]);
    }
  }

  /** The step issues no number. */
  predicate IssuesNone(s: Sys, s': Sys) {
    && s'.issued == s.issued && |s'.reqs| == |s.reqs|
    && forall x :: 0 <= x < |s.reqs| ==> Numbered(s'.reqs[x]) == Numbered(s.reqs[x])
  }

  lemma {:induction false} WriteIssuesNone(s: Sys, r: nat, fault: Option<Error>)
    requires r < |s.reqs|
    ensures IssuesNone(s, WriteStep(s, r, fault))
  {}

  lemma {:induction false} ClockIssuesNone(s: Sys, r: nat)
    requires r < |s.reqs|
    ensures IssuesNone(s, ClockStep(s, r))
  {}

  lemma {:induction false} PeerIssuesNone(s: Sys, o: nat)
    requires o < |s.resps|
    ensures IssuesNone(s, PeerStep(s, o))
  {}

  lemma {:induction false} CallIssues(s: Sys, r: nat)
    requires r < |s.reqs|
    ensures if s.reqs[r].caller == Swapping(s.counter)
      then CallStep(s, r).reqs == s.reqs[r := CallStep(s, r).reqs[r]]
           && Numbered(CallStep(s, r).reqs[r]) && CallStep(s, r).issued == s.issued + 1
      else IssuesNone(s, CallStep(s, r))
  {}

  lemma {:induction false} StepCounts(s: Sys, a: Action)
    requires s.issued == Count(s.reqs)
    ensures Next(s, a).issued == Count(Next(s, a).reqs) && |Next(s, a).reqs| == |s.reqs|
  {
    var s' := Next(s, a);
    match a {
      case Call(r) => if r < |s.reqs| { CallIssues(s, r); }
      case Write(r, fault) => if r < |s.reqs| { WriteIssuesNone(s, r, fault); }
      case Clock(r) => if r < |s.reqs| { ClockIssuesNone(s, r); }
      case Peer(o) => if o < |s.resps| { PeerIssuesNone(s, o); }
    }
    if IssuesNone(s, s') {
      CountSame(s.reqs, s'.reqs);
    } else {
      CountTaken(s.reqs, s'.reqs, a.r);
    }
  }

  lemma {:induction false} RunCounts(s: Sys, actions: seq<Action>)
    requires s.issued == Count(s.reqs)
    ensures Requests.Run(s, actions).issued <= |s.reqs|
    decreases |actions|
  {
    if actions != [] {
      StepCounts(s, actions[0]);
      RunCounts(Next(s, actions[0]), actions[1..]);
    }
  }

  lemma {:induction false} NoneNumbered(reqs: seq<Request>)
    requires forall x :: 0 <= x < |reqs| ==> !Numbered(reqs[x])
    ensures Count(reqs) == 0
  {
    if reqs != [] {
      NoneNumbered(reqs[1..]);
    }
  }

  /** A run of no more requests than numbers loses none of them. */
  lemma {:induction false} EnoughNumbersLoseNone(
      min: int32, max: int32, n: nat, msgs: seq<Message>, actions: seq<Action>, r: nat)
    requires min <= max && n <= Period(min, max)
    ensures !Lost(Requests.Run(Requests.Init(min, max, n, msgs), actions), r)
  {
    var start := Requests.Init(min, max, n, msgs);
    var s := Requests.Run(start, actions);
    NoneNumbered(start.reqs);
    RunCounts(start, actions);
    FirstRoundIsReachable(min, max, n, msgs, actions);
    ReachableOk(s);
    if r < |s.reqs| && Numbered(s.reqs[r]) && !s.reqs[r].caller.Arming? {
      NoLostRequest(s, r);
      assert RequestOk(s, r);
    }
  }

  /** Whatever the peer sends, some run loses a request exactly if there are more than numbers. */
  lemma {:induction false} LosesOneIff(min: int32, max: int32, n: nat, msgs: seq<Message>)
    requires min <= max
    ensures (exists r: nat :: CanLose(Requests.Init(min, max, n, msgs), r)) <==> n > Period(min, max)
  {
    var start := Requests.Init(min, max, n, msgs);
    if n > Period(min, max) {
      OneTooManyCanLoseOne(min, max, n, msgs);
    } else {
      forall r: nat ensures !CanLose(start, r) {
        if CanLose(start, r) {
          var s: Sys :| Leads(start, s) && NeverCompleted(s, r);
          var actions :| Requests.Run(start, actions) == s;
          assert Requests.Run(s, []) == s;
          EnoughNumbersLoseNone(min, max, n, msgs, actions, r);
        }
      }
    }
  }
}

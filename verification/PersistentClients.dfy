/**
 The connection claims of channel/persistent_client.go: any number of persistentConnect goroutines
 over one concurrent map of claimed addresses, and a stop at any moment.
 */
module PersistentClients {
  import opened Bytes
  import opened Values
  import opened Futures

  type Addr = nat

  /** Where a goroutine of persistentConnect stands. */
  datatype Pc =
    | Claiming     // activeConns.LoadOrStore
    | Rejected     // SetFailure when the address is claimed already
    | Checking     // the stop check at the top of the loop
    | Starting     // past the check, about to call m.dial
    | Dialing      // in m.dial
    | Connected    // SetSuccess on the first connection
    | Retrying     // the wait after a failed dial
    | Handling     // handlePersistentConnection
    | Lost         // the stop check behind it
    | Pausing      // the wait before reconnecting
    | Failing      // SetFailure on a stop exit, if nothing has completed the future
    | Releasing    // activeConns.Delete on a stop exit
    | Deferred     // the deferred activeConns.Delete
    | Ended

  /**
   One ConnectAddr. `early` says it claimed its address before the stop, `dials` counts the dials
   it has begun, `completions` the completing calls that returned true: no step reads them.
   */
  datatype Worker = Worker(addr: Addr, pc: Pc, isInitial: bool, fut: Fut,
                           early: bool, dials: nat, completions: nat)

  datatype Client = Client(stopped: bool, claims: set<Addr>, workers: seq<Worker>)

  /** `takeStop` is the choice of a select that finds both the stop and its timer ready. */
  datatype Action = Stop | Move(t: nat, dialed: bool, takeStop: bool)

  function Init(addrs: seq<Addr>): Client {
    Client(false, {}, seq(|addrs|, i requires 0 <= i < |addrs| =>
      Worker(addrs[i], Claiming, true, NEW_FUTURE, false, 0, 0)))
  }

  function Fail(w: Worker, e: Error): Worker {
    var (f, won) := AfterFailure(w.fut, Some(e));
    w.(fut := f, completions := w.completions + if won then 1 else 0)
  }

  function Succeed(w: Worker): Worker {
    var (f, won) := AfterSuccess(w.fut);
    w.(fut := f, completions := w.completions + if won then 1 else 0)
  }

  /** The way out on a stop: an initial connect fails its future first. */
  function StopExit(w: Worker): Worker {
    w.(pc := if w.isInitial then Failing else Releasing)
  }

  function Put(s: Client, t: nat, w: Worker): Client
    requires t < |s.workers|
  {
    s.(workers := s.workers[t := w])
  }

  function MoveStep(s: Client, t: nat, dialed: bool, takeStop: bool): Client
    requires t < |s.workers|
  {
    var w := s.workers[t];
    match w.pc
    case Claiming =>
      if w.addr in s.claims then Put(s, t, w.(pc := Rejected))
      else Put(s, t, w.(pc := Checking, early := !s.stopped)).(claims := s.claims + {w.addr})
    case Rejected => Put(s, t, Fail(w, AlreadyConnecting).(pc := Ended))
    case Checking => Put(s, t, if s.stopped then StopExit(w) else w.(pc := Starting))
    case Starting => Put(s, t, w.(pc := Dialing, dials := w.dials + 1))
    case Dialing =>
      Put(s, t, w.(pc := if !dialed then Retrying else if w.isInitial then Connected else Handling))
    case Connected => Put(s, t, Succeed(w).(pc := Handling, isInitial := false))
    case Retrying =>
      Put(s, t, if s.stopped && takeStop then StopExit(w) else w.(pc := Checking))
    case Handling => Put(s, t, w.(pc := Lost))
    case Lost => Put(s, t, w.(pc := if s.stopped then Releasing else Pausing))
    case Pausing =>
      Put(s, t, w.(pc := if s.stopped && takeStop then Releasing else Checking))
    case Failing => Put(s, t, Fail(w, ClientStopped).(pc := Releasing))
    case Releasing => Put(s, t, w.(pc := Deferred)).(claims := s.claims - {w.addr})
    case Deferred =>
      Put(s, t, w.(pc := Ended))
        .(claims := if w.isInitial then s.claims else s.claims - {w.addr})
    case Ended => s
  }

  function Next(s: Client, a: Action): Client {
    match a
    case Stop => s.(stopped := true)
    case Move(t, dialed, takeStop) =>
      if t < |s.workers| then MoveStep(s, t, dialed, takeStop) else s
  }

  function Run(s: Client, actions: seq<Action>): Client
    decreases |actions|
  {
    if actions == [] then s else Run(Next(s, actions[0]), actions[1..])
  }

  /** In the loop, between the claim and the exit. */
  predicate Live(w: Worker) {
    w.pc in {Checking, Starting, Dialing, Connected, Retrying, Handling, Lost, Pausing}
  }

  // ----- At most one goroutine per address ever dials -----

  predicate ClaimOk(s: Client, w: Worker) {
    && (!s.stopped ==> (Live(w) <==> w.early) && w.pc !in {Failing, Releasing, Deferred})
    && (!s.stopped && w.early ==> w.addr in s.claims)
    && (w.dials > 0 || w.pc in {Starting, Dialing, Connected, Handling} ==> w.early)
    && (w.pc in {Claiming, Rejected} ==> !w.early && w.isInitial) && (!w.isInitial ==> w.early)
    && (w.pc in {Connected, Failing} ==> w.isInitial)
    && (w.pc in {Handling, Lost, Pausing} ==> !w.isInitial)
  }

  predicate WorkerOk(s: Client, w: Worker) { ClaimOk(s, w) && FutureOk(w) }

  /** The future is pending while an initial connect is under way, and completed once after. */
  predicate FutureOk(w: Worker) {
    && w.completions == (if w.fut.done then 1 else 0) && !w.fut.cancelled
    && (w.pc in {Claiming, Rejected, Failing} || Live(w) ==> (w.fut.done <==> !w.isInitial))
    && (w.pc in {Releasing, Deferred, Ended} ==> w.fut.done)
    && (w.fut.done ==> (w.fut.err == None <==> !w.isInitial))
    && (!w.fut.done ==> w.fut.err == None)
    && (w.fut.err in {None, Some(AlreadyConnecting), Some(ClientStopped)})
  }

  ghost predicate Inv(s: Client) {
    && (forall t :: 0 <= t < |s.workers| ==> WorkerOk(s, s.workers[t]))
    && (forall t, t' :: 0 <= t < t' < |s.workers| && s.workers[t].early && s.workers[t'].early ==>
          s.workers[t].addr != s.workers[t'].addr)
  }

  lemma {:induction false} MoverClaimOk(s: Client, t: nat, dialed: bool, takeStop: bool)
    requires t < |s.workers| && WorkerOk(s, s.workers[t])
    ensures var s' := MoveStep(s, t, dialed, takeStop); ClaimOk(s', s'.workers[t])
  {}

  lemma {:induction false} MoverFutureOk(s: Client, t: nat, dialed: bool, takeStop: bool)
    requires t < |s.workers| && WorkerOk(s, s.workers[t])
    ensures var s' := MoveStep(s, t, dialed, takeStop); FutureOk(s'.workers[t])
  {}

  /** The map only loses claims after the stop. */
  lemma {:induction false} OthersOk(s: Client, t: nat, dialed: bool, takeStop: bool, w: Worker)
    requires t < |s.workers| && WorkerOk(s, s.workers[t]) && WorkerOk(s, w)
    ensures WorkerOk(MoveStep(s, t, dialed, takeStop), w)
  {}

  lemma {:induction false} MoveKeepsInv(s: Client, t: nat, dialed: bool, takeStop: bool)
    requires Inv(s) && t < |s.workers|
    ensures Inv(MoveStep(s, t, dialed, takeStop))
  {
    var s' := MoveStep(s, t, dialed, takeStop);
    var w, w' := s.workers[t], s'.workers[t];
    assert s'.workers == s.workers[t := w'] && w'.addr == w.addr;
    forall t' | 0 <= t' < |s.workers| ensures WorkerOk(s', s'.workers[t']) {
      if t' == t {
        MoverClaimOk(s, t, dialed, takeStop);
        MoverFutureOk(s, t, dialed, takeStop);
      } else {
        OthersOk(s, t, dialed, takeStop, s.workers[t']);
      }
    }
    forall t' | 0 <= t' < |s.workers| && t' != t && s.workers[t'].early && w'.early
      ensures s.workers[t'].addr != w.addr
    {
      assert WorkerOk(s, s.workers[t']);
    }
  }

  lemma {:induction false} RunKeepsInv(s: Client, actions: seq<Action>)
    requires Inv(s)
    ensures Inv(Run(s, actions)) && |Run(s, actions).workers| == |s.workers|
    decreases |actions|
  {
    if actions != [] {
      if actions[0].Move? && actions[0].t < |s.workers| {
        MoveKeepsInv(s, actions[0].t, actions[0].dialed, actions[0].takeStop);
      } else {
        assert forall t :: 0 <= t < |s.workers| ==> WorkerOk(s, s.workers[t]);
      }
      RunKeepsInv(Next(s, actions[0]), actions[1..]);
    }
  }

  function Dials(s: Client, t: nat): nat {
    if t < |s.workers| then s.workers[t].dials else 0
  }

  predicate HasDialed(w: Worker) { w.dials > 0 }

  /**
   Over a whole run, with a stop at any moment, at most one goroutine per address has ever begun a
   dial, although exits delete the claim twice and claims can be taken again after the stop.
   */
  lemma {:induction false} AddressExclusion(addrs: seq<Addr>, actions: seq<Action>, t: nat, t': nat)
    requires t < |addrs| && t' < |addrs|
    ensures |Run(Init(addrs), actions).workers| == |addrs|
    ensures var ws := Run(Init(addrs), actions).workers;
      HasDialed(ws[t]) && HasDialed(ws[t']) && ws[t].addr == ws[t'].addr ==> t == t'
  {
    var s := Run(Init(addrs), actions);
    RunKeepsInv(Init(addrs), actions);
    assert WorkerOk(s, s.workers[t]) && WorkerOk(s, s.workers[t']);
  }

  /** Before the stop one goroutine per address is in the loop, exactly where the map has a claim. */
  lemma {:induction false} ClaimsAreLiveBeforeStop(addrs: seq<Addr>, actions: seq<Action>, t: nat, t': nat)
    requires t < |addrs| && t' < |addrs| && !Run(Init(addrs), actions).stopped
    ensures var s := Run(Init(addrs), actions);
      && |s.workers| == |addrs|
      && (Live(s.workers[t]) ==> s.workers[t].addr in s.claims)
      && (Live(s.workers[t]) && Live(s.workers[t']) && s.workers[t].addr == s.workers[t'].addr ==>
            t == t')
  {
    var s := Run(Init(addrs), actions);
    RunKeepsInv(Init(addrs), actions);
    assert WorkerOk(s, s.workers[t]) && WorkerOk(s, s.workers[t']);
  }

  /** The future of a goroutine that has returned is done, by one call: a success iff it connected. */
  lemma {:induction false} FutureCompletedOnce(addrs: seq<Addr>, actions: seq<Action>, t: nat)
    requires t < |addrs|
    ensures var s := Run(Init(addrs), actions);
      && |s.workers| == |addrs|
      && s.workers[t].completions <= 1
      && (s.workers[t].pc == Ended ==> s.workers[t].fut.done && s.workers[t].completions == 1)
      && (s.workers[t].fut.IsSuccess() <==> !s.workers[t].isInitial)
  {
    var s := Run(Init(addrs), actions);
    RunKeepsInv(Init(addrs), actions);
    assert WorkerOk(s, s.workers[t]);
  }

  // ----- Success is a dial that connected -----

  /** A dial of goroutine t returns a connection in this step. */
  predicate ConnectsNow(s: Client, a: Action, t: nat) {
    t < |s.workers| && s.workers[t].pc == Dialing && a.Move? && a.t == t && a.dialed
  }

  /** Some dial of goroutine t returns a connection during the run. */
  predicate Connects(s: Client, actions: seq<Action>, t: nat)
    decreases |actions|
  {
    actions != [] && (ConnectsNow(s, actions[0], t) || Connects(Next(s, actions[0]), actions[1..], t))
  }

  /** A connection has been made: the future is completed, or about to be. */
  predicate HasConnected(w: Worker) { !w.isInitial || w.pc == Connected }

  lemma {:induction false} MoveConnects(s: Client, t: nat, dialed: bool, takeStop: bool)
    requires t < |s.workers|
    ensures var s' := MoveStep(s, t, dialed, takeStop); var w, w' := s.workers[t], s'.workers[t];
      && s'.workers == s.workers[t := w']
      && (HasConnected(w') <==> HasConnected(w) || (w.pc == Dialing && dialed))
  {}

  lemma {:induction false} StepConnects(s: Client, a: Action, t: nat)
    requires t < |s.workers|
    ensures var s' := Next(s, a);
      |s'.workers| == |s.workers| &&
      (HasConnected(s'.workers[t]) <==> HasConnected(s.workers[t]) || ConnectsNow(s, a, t))
  {
    if a.Move? && a.t < |s.workers| {
      MoveConnects(s, a.t, a.dialed, a.takeStop);
    }
  }

  lemma {:induction false} RunConnects(s: Client, actions: seq<Action>, t: nat)
    requires t < |s.workers|
    ensures |Run(s, actions).workers| == |s.workers|
    ensures HasConnected(Run(s, actions).workers[t]) <==> HasConnected(s.workers[t]) || Connects(s, actions, t)
    decreases |actions|
  {
    if actions != [] {
      StepConnects(s, actions[0], t);
      RunConnects(Next(s, actions[0]), actions[1..], t);
    }
  }

  /**
   The future succeeds exactly if a dial has returned a connection, as soon as the goroutine has
   taken its next step; that of a goroutine which has returned, exactly if one ever did.
   */
  lemma {:induction false} SuccessIffConnected(addrs: seq<Addr>, actions: seq<Action>, t: nat)
    requires t < |addrs|
    ensures var s := Run(Init(addrs), actions);
      && |s.workers| == |addrs|
      && (s.workers[t].fut.IsSuccess() ==> Connects(Init(addrs), actions, t))
      && (Connects(Init(addrs), actions, t) ==> s.workers[t].fut.IsSuccess() || s.workers[t].pc == Connected)
      && (s.workers[t].pc == Connected ==> MoveStep(s, t, false, false).workers[t].fut.IsSuccess())
      && (s.workers[t].pc == Ended ==> (s.workers[t].fut.IsSuccess() <==> Connects(Init(addrs), actions, t)))
  {
    var s := Run(Init(addrs), actions);
    RunKeepsInv(Init(addrs), actions);
    RunConnects(Init(addrs), actions, t);
    assert WorkerOk(s, s.workers[t]);
  }

  // ----- Failure is a rival or the stop -----

  predicate Rivals(s: Client, t: int, u: int) {
    0 <= t < |s.workers| && 0 <= u < |s.workers| && t != u && s.workers[t].addr == s.workers[u].addr
  }

  predicate TurnedAway(w: Worker) { w.pc == Rejected || w.fut.err == Some(AlreadyConnecting) }

  predicate Claimed(s: Client, u: int, addr: Addr) {
    0 <= u < |s.workers| && s.workers[u].addr == addr && s.workers[u].pc != Claiming
  }

  ghost predicate CausesOk(s: Client) {
    && (forall a :: a in s.claims ==> exists u :: Claimed(s, u, a))
    && (forall t :: 0 <= t < |s.workers| && TurnedAway(s.workers[t]) ==> exists u :: Rivals(s, t, u))
    && (forall t :: 0 <= t < |s.workers| && s.workers[t].fut.err == Some(ClientStopped) ==> s.stopped)
  }

  /** What a step does to goroutine t, as far as causes go. */
  lemma {:induction false} MoveCauses(s: Client, t: nat, dialed: bool, takeStop: bool)
    requires t < |s.workers| && ClaimOk(s, s.workers[t])
    ensures var s' := MoveStep(s, t, dialed, takeStop); var w, w' := s.workers[t], s'.workers[t];
      && s'.workers == s.workers[t := w'] && w'.addr == w.addr && s'.stopped == s.stopped && w'.pc != Claiming
      && s'.claims <= s.claims + {w.addr}
      && (TurnedAway(w') ==> TurnedAway(w) || (w.pc == Claiming && w.addr in s.claims))
      && (w'.fut.err == Some(ClientStopped) ==> w.fut.err == Some(ClientStopped) || s.stopped)
  {}

  lemma {:induction false} MoveKeepsCauses(s: Client, t: nat, dialed: bool, takeStop: bool)
    requires CausesOk(s) && t < |s.workers| && ClaimOk(s, s.workers[t])
    ensures CausesOk(MoveStep(s, t, dialed, takeStop))
  {
    var s' := MoveStep(s, t, dialed, takeStop);
    var w := s.workers[t];
    MoveCauses(s, t, dialed, takeStop);
    forall a | a in s'.claims ensures exists u :: Claimed(s', u, a) {
      if a == w.addr {
        assert Claimed(s', t, a);
      } else {
        var u :| Claimed(s, u, a);
        assert Claimed(s', u, a);
      }
    }
    forall x | 0 <= x < |s.workers| && TurnedAway(s'.workers[x]) ensures exists u :: Rivals(s', x, u) {
      if TurnedAway(s.workers[x]) {
        var u :| Rivals(s, x, u);
        assert Rivals(s', x, u);
      } else {
        var u :| Claimed(s, u, w.addr);
        assert Rivals(s', x, u);
      }
    }
  }

  lemma {:induction false} RunKeepsCauses(s: Client, actions: seq<Action>)
    requires Inv(s) && CausesOk(s)
    ensures CausesOk(Run(s, actions))
    decreases |actions|
  {
    if actions != [] {
      var a, s' := actions[0], Next(s, actions[0]);
      RunKeepsInv(s, [a]);
      assert [a][1..] == [] && Run(s, [a]) == Run(s', []);
      if a.Move? && a.t < |s.workers| {
        assert WorkerOk(s, s.workers[a.t]);
        MoveKeepsCauses(s, a.t, a.dialed, a.takeStop);
      } else {
        assert forall u, b :: Claimed(s, u, b) ==> Claimed(s', u, b);
        assert forall t, u :: Rivals(s, t, u) ==> Rivals(s', t, u);
      }
      RunKeepsCauses(s', actions[1..]);
    }
  }

  /**
   A ConnectAddr is turned away only when another one has the same address, and told of the stop
   only after it; before it, whoever was not turned away is still at it.
   */
  lemma {:induction false} FailuresHaveCauses(addrs: seq<Addr>, actions: seq<Action>, t: nat)
    requires t < |addrs|
    ensures var s := Run(Init(addrs), actions);
      && |s.workers| == |addrs|
      && (s.workers[t].fut.err == Some(AlreadyConnecting) ==> exists u :: Rivals(s, t, u))
      && (s.workers[t].fut.err == Some(ClientStopped) ==> s.stopped)
      && (!s.stopped ==>
            || s.workers[t].pc in {Claiming, Rejected} || Live(s.workers[t])
            || (s.workers[t].pc == Ended && s.workers[t].fut.err == Some(AlreadyConnecting)))
  {
    var s := Run(Init(addrs), actions);
    RunKeepsInv(Init(addrs), actions);
    RunKeepsCauses(Init(addrs), actions);
    assert WorkerOk(s, s.workers[t]);
    assert TurnedAway(s.workers[t]) ==> exists u :: Rivals(s, t, u);
  }

  /** How many steps a goroutine in the loop may be away from its next dial. */
  function ToDial(pc: Pc): nat {
    match pc
    case Starting => 1
    case Checking => 2
    case Retrying => 3
    case Pausing => 3
    case Dialing => 4
    case Lost => 4
    case Handling => 5
    case Connected => 6
    case _ => 0
  }

  /** Until the stop a goroutine in the loop goes on to dial again, whatever it is at. */
  lemma {:induction false} DialsAgain(s: Client, t: nat) returns (actions: seq<Action>)
    requires !s.stopped && t < |s.workers| && Live(s.workers[t])
    ensures |actions| <= 6 && forall a :: a in actions ==> a.Move? && a.t == t
    ensures Dials(Run(s, actions), t) == s.workers[t].dials + 1
    ensures |actions| == ToDial(s.workers[t].pc)
    decreases ToDial(s.workers[t].pc)
  {
    var go := Move(t, false, false);
    var s' := Next(s, go);
    actions := [go];
    if s.workers[t].pc == Starting {
      assert Run(s', []) == s' && [go][1..] == [];
    } else {
      var rest := DialsAgain(s', t);
      actions := [go] + rest;
      assert actions[1..] == rest;
    }
  }

  // ----- Dials after the stop -----

  /** After the stop a goroutine begins one more dial at most: the one whose check it has passed. */
  lemma {:induction false} AtMostOneDialAfterStop(s: Client, actions: seq<Action>, t: nat)
    requires s.stopped && t < |s.workers|
    ensures |Run(s, actions).workers| == |s.workers|
    ensures Run(s, actions).workers[t].dials <= s.workers[t].dials + if s.workers[t].pc == Starting then 1 else 0
    decreases |actions|
  {
    if actions != [] {
      AtMostOneDialAfterStop(Next(s, actions[0]), actions[1..], t);
    }
  }

  /** Some continuation has goroutine t begin another dial. */
  ghost predicate CanDial(s: Client, t: nat)
    requires t < |s.workers|
  {
    exists actions: seq<Action> :: Dials(Run(s, actions), t) > s.workers[t].dials
  }

  /** After the stop a goroutine can still dial exactly if it stands between the check and the dial. */
  lemma {:induction false} DialsAfterStopIff(s: Client, t: nat)
    requires s.stopped && t < |s.workers|
    ensures CanDial(s, t) <==> s.workers[t].pc == Starting
  {
    if s.workers[t].pc == Starting {
      var go := Move(t, false, false);
      assert [go][1..] == [];
      assert Run(s, [go]) == Run(Next(s, go), []);
      assert Dials(Run(s, [go]), t) > s.workers[t].dials;
    } else {
      forall actions: seq<Action> ensures Dials(Run(s, actions), t) <= s.workers[t].dials {
        AtMostOneDialAfterStop(s, actions, t);
      }
    }
  }

  /** And any goroutine can come to stand there: claim, check passed, stop. */
  lemma {:induction false} StopBeforeDial(addrs: seq<Addr>, t: nat) returns (s: Client)
    requires t < |addrs|
    ensures Leads(Init(addrs), s) && s.stopped && |s.workers| == |addrs|
    ensures s.workers[t].pc == Starting && CanDial(s, t)
  {
    var start, go := Init(addrs), Move(t, false, false);
    assert Run(start, []) == start;
    s := LeadsOn(start, start, go);
    s := LeadsOn(start, s, go);
    s := LeadsOn(start, s, Stop);
    DialsAfterStopIff(s, t);
  }

  // ----- When the claims themselves are exclusive, after the stop too -----

  /** No address is given to three goroutines. */
  ghost predicate NoneThrice(addrs: seq<Addr>) {
    forall i: nat, j: nat, k: nat :: !Thrice(addrs, i, j, k)
  }

  predicate Thrice(addrs: seq<Addr>, i: nat, j: nat, k: nat) {
    && i < |addrs| && j < |addrs| && k < |addrs| && i != j && j != k && i != k
    && addrs[i] == addrs[j] == addrs[k]
  }

  predicate BothLive(s: Client, t: nat, t': nat) {
    && t < |s.workers| && t' < |s.workers| && t != t'
    && Live(s.workers[t]) && Live(s.workers[t']) && s.workers[t].addr == s.workers[t'].addr
  }

  /** At most one goroutine per address is in the loop. */
  ghost predicate Exclusive(s: Client) {
    forall t: nat, t': nat :: !BothLive(s, t, t')
  }

  /** Goroutine u of this address has left the loop, or never entered it. */
  predicate Gone(s: Client, u: nat, addr: Addr) {
    u < |s.workers| && s.workers[u].addr == addr && s.workers[u].pc in {Deferred, Ended}
  }

  /** Only a goroutine that is gone can have taken away the claim of one in the loop. */
  ghost predicate Held(s: Client, addr: Addr) {
    addr in s.claims || exists u: nat :: Gone(s, u, addr)
  }

  ghost predicate HeldInv(s: Client, addrs: seq<Addr>) {
    && |s.workers| == |addrs|
    && (forall t :: 0 <= t < |addrs| ==> s.workers[t].addr == addrs[t])
    && (forall t :: 0 <= t < |addrs| && Live(s.workers[t]) ==> Held(s, addrs[t]))
  }

  /** What a step of goroutine t does, as far as claims go. */
  predicate Moved(s: Client, s': Client, t: nat)
    requires t < |s.workers|
  {
    && |s'.workers| == |s.workers|
    && var w, w' := s.workers[t], s'.workers[t];
    && s'.workers == s.workers[t := w'] && w'.addr == w.addr
    && (Live(w') && !Live(w) ==> w.pc == Claiming && w.addr !in s.claims && w.addr in s'.claims)
    && (w.pc in {Deferred, Ended} ==> w'.pc in {Deferred, Ended})
    && s.claims - s'.claims <= {w.addr}
    && (w.addr in s.claims && w.addr !in s'.claims ==> w'.pc in {Deferred, Ended})
  }

  lemma {:induction false} MoveMoves(s: Client, t: nat, dialed: bool, takeStop: bool)
    requires t < |s.workers|
    ensures Moved(s, MoveStep(s, t, dialed, takeStop), t)
  {}

  lemma {:induction false} MovedKeepsHeld(s: Client, s': Client, t: nat, addrs: seq<Addr>)
    requires HeldInv(s, addrs) && t < |s.workers| && Moved(s, s', t)
    ensures HeldInv(s', addrs)
  {
    forall x | 0 <= x < |addrs| && Live(s'.workers[x]) ensures Held(s', addrs[x]) {
      if addrs[x] !in s'.claims {
        if addrs[x] in s.claims {
          assert addrs[x] in s.claims - s'.claims;
          assert Gone(s', t, addrs[x]);
        } else {
          var u: nat :| Gone(s, u, addrs[x]);
          assert Gone(s', u, addrs[x]);
        }
      }
    }
  }

  lemma {:induction false} MovedKeepsExclusive(s: Client, s': Client, t: nat, addrs: seq<Addr>)
    requires HeldInv(s, addrs) && Exclusive(s) && NoneThrice(addrs) && t < |s.workers| && Moved(s, s', t)
    ensures Exclusive(s')
  {
    forall x: nat, x': nat ensures !BothLive(s', x, x') {
      assert !BothLive(s, x, x');
      if BothLive(s', x, x') {
        var other := if x == t then x' else x;
        assert Held(s, addrs[other]);
        var u: nat :| Gone(s, u, addrs[other]);
        assert Thrice(addrs, t, other, u);
      }
    }
  }

  lemma {:induction false} RunStaysExclusive(s: Client, actions: seq<Action>, addrs: seq<Addr>)
    requires HeldInv(s, addrs) && Exclusive(s) && NoneThrice(addrs)
    ensures Exclusive(Run(s, actions))
    decreases |actions|
  {
    if actions != [] {
      var s' := Next(s, actions[0]);
      if actions[0].Move? && actions[0].t < |s.workers| {
        MoveMoves(s, actions[0].t, actions[0].dialed, actions[0].takeStop);
        MovedKeepsHeld(s, s', actions[0].t, addrs);
        MovedKeepsExclusive(s, s', actions[0].t, addrs);
      } else {
        assert s' == s.(stopped := s'.stopped);
        assert forall x: nat, x': nat :: BothLive(s', x, x') ==> BothLive(s, x, x');
        assert forall u: nat, a :: Gone(s, u, a) ==> Gone(s', u, a);
      }
      RunStaysExclusive(s', actions[1..], addrs);
    }
  }

  // ----- The run in which they are not -----

  /** Some run leads from one state to the other. */
  ghost predicate Leads(s: Client, s': Client) {
    exists actions: seq<Action> :: Run(s, actions) == s'
  }

  lemma {:induction false} RunAppend(s: Client, a: seq<Action>, b: seq<Action>)
    ensures Run(s, a + b) == Run(Run(s, a), b)
    decreases |a|
  {
    if a == [] {
      assert a + b == b;
    } else {
      assert (a + b)[1..] == a[1..] + b;
      RunAppend(Next(s, a[0]), a[1..], b);
    }
  }

  lemma {:induction false} LeadsOn(start: Client, s: Client, a: Action) returns (s': Client)
    requires Leads(start, s)
    ensures s' == Next(s, a) && Leads(start, s')
  {
    var actions :| Run(start, actions) == s;
    RunAppend(start, actions, [a]);
    assert [a][1..] == [];
    s' := Next(s, a);
    assert Run(s, [a]) == Run(s', []);
  }

  /** Goroutines j and k have yet to start. */
  predicate TwoToCome(s: Client, addrs: seq<Addr>, i: nat, j: nat, k: nat)
    requires Thrice(addrs, i, j, k)
  {
    && |s.workers| == |addrs| && s.workers[i].addr == addrs[i] && !s.workers[i].isInitial
    && s.workers[j] == Init(addrs).workers[j] && s.workers[k] == Init(addrs).workers[k]
  }

  /** Goroutine i connects, the first of all, and loses its connection. */
  lemma {:induction false} ConnectsAndLoses(addrs: seq<Addr>, i: nat, j: nat, k: nat) returns (s: Client)
    requires Thrice(addrs, i, j, k)
    ensures Leads(Init(addrs), s) && TwoToCome(s, addrs, i, j, k)
    ensures !s.stopped && s.claims == {addrs[i]} && s.workers[i].pc == Lost
  {
    var start, go := Init(addrs), Move(i, true, true);
    assert Run(start, []) == start;
    s := LeadsOn(start, start, go);
    s := LeadsOn(start, s, go);
    s := LeadsOn(start, s, go);
    s := LeadsOn(start, s, go);
    s := LeadsOn(start, s, go);
    s := LeadsOn(start, s, go);
  }

  /** Stopped, it stands between its two deletes. */
  lemma {:induction false} StopsAndReleases(addrs: seq<Addr>, i: nat, j: nat, k: nat) returns (s: Client)
    requires Thrice(addrs, i, j, k)
    ensures Leads(Init(addrs), s) && TwoToCome(s, addrs, i, j, k)
    ensures s.stopped && s.claims == {} && s.workers[i].pc == Deferred
  {
    var start, go := Init(addrs), Move(i, true, true);
    s := ConnectsAndLoses(addrs, i, j, k);
    s := LeadsOn(start, s, Stop);
    s := LeadsOn(start, s, go);
    s := LeadsOn(start, s, go);
  }

  /**
   After the stop the deferred second delete takes away a claim made in between, and two other
   goroutines of the address are then in the loop.
   */
  lemma {:induction false} SecondDeleteFreesAnothersClaim(addrs: seq<Addr>, i: nat, j: nat, k: nat)
    requires Thrice(addrs, i, j, k)
    ensures exists s: Client :: Leads(Init(addrs), s) && BothLive(s, j, k)
  {
    var start := Init(addrs);
    var s := StopsAndReleases(addrs, i, j, k);
    s := LeadsOn(start, s, Move(j, false, false));
    s := LeadsOn(start, s, Move(i, false, false));
    assert s.claims == {};
    s := LeadsOn(start, s, Move(k, false, false));
  }

  /**
   Every run keeps at most one goroutine per address in the loop, after the stop too, exactly when
   no address is given to three of them.
   */
  lemma {:induction false} ClaimsExclusiveIff(addrs: seq<Addr>)
    ensures (forall s: Client :: Leads(Init(addrs), s) ==> Exclusive(s)) <==> NoneThrice(addrs)
  {
    if NoneThrice(addrs) {
      forall s: Client | Leads(Init(addrs), s) ensures Exclusive(s) {
        var actions :| Run(Init(addrs), actions) == s;
        RunStaysExclusive(Init(addrs), actions, addrs);
      }
    } else {
      var i: nat, j: nat, k: nat :| Thrice(addrs, i, j, k);
      SecondDeleteFreesAnothersClaim(addrs, i, j, k);
    }
  }
}

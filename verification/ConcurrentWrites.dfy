/**
 Any number of concurrent Write calls on one connection (channel/context.go): each goroutine
 encodes and then makes one conn.Write, which is atomic and may fail. Steps interleave freely.
 */
module ConcurrentWrites {
  import opened Bytes
  import opened Values
  import opened Encoders
  import opened Streaming
  import opened RoundTrips

  datatype Phase = Started | Encoded(bytes: seq<byte>) | Done(success: bool)

  datatype Writer = Writer(msg: Msg, phase: Phase)

  /** `sent` lists the writers in the order their bytes reached the connection. */
  datatype Net = Net(writers: seq<Writer>, wire: seq<byte>, sent: seq<nat>)

  function Init(ms: seq<Msg>): Net {
    Net(seq(|ms|, i requires 0 <= i < |ms| => Writer(ms[i], Started)), [], [])
  }

  function SetPhase(s: Net, i: nat, p: Phase): Net
    requires i < |s.writers|
  {
    s.(writers := s.writers[i := s.writers[i].(phase := p)])
  }

  /** One step of writer i; `up` says whether conn.Write succeeds, should this step make it. */
  function Step(s: Net, i: nat, up: bool): Net
    requires i < |s.writers|
  {
    match s.writers[i].phase
    case Started =>
      (match OnWire(STACK_ENCODERS, s.writers[i].msg)
       case Ok(b) => SetPhase(s, i, Encoded(b))
       case Err(_) => SetPhase(s, i, Done(false)))
    case Encoded(b) =>
      if up then SetPhase(s, i, Done(true)).(wire := s.wire + b, sent := s.sent + [i])
      else SetPhase(s, i, Done(false))
    case Done(_) => s
  }

  datatype Turn = Turn(writer: nat, up: bool)

  function Run(s: Net, turns: seq<Turn>): Net
    decreases |turns|
  {
    if turns == [] then s
    else if turns[0].writer < |s.writers| then
      Run(Step(s, turns[0].writer, turns[0].up), turns[1..])
    else Run(s, turns[1..])
  }

  function SentMessages(s: Net): (ms: seq<Msg>)
    requires forall k :: 0 <= k < |s.sent| ==> s.sent[k] < |s.writers|
    ensures |ms| == |s.sent|
  {
    seq(|s.sent|, k requires 0 <= k < |s.sent| => s.writers[s.sent[k]].msg)
  }

  /** The wire is the encodings of the writers in `sent`, each of which is there once. */
  ghost predicate Inv(s: Net, ws: seq<seq<byte>>) {
    && (forall k :: 0 <= k < |s.sent| ==> s.sent[k] < |s.writers|)
    && (forall j, k :: 0 <= j < k < |s.sent| ==> s.sent[j] != s.sent[k])
    && (forall i: nat :: i < |s.writers| ==> (i in s.sent <==> s.writers[i].phase == Done(true)))
    && (forall i :: 0 <= i < |s.writers| && s.writers[i].phase.Encoded? ==>
          OnWire(STACK_ENCODERS, s.writers[i].msg) == Ok(s.writers[i].phase.bytes))
    && RoundTrips.Encoded(STACK_ENCODERS, SentMessages(s), ws)
    && s.wire == Concat(ws)
  }

  lemma {:induction false} ConcatSnoc(ws: seq<seq<byte>>, w: seq<byte>)
    ensures Concat(ws + [w]) == Concat(ws) + w
  {
    if ws == [] {
      assert [] + [w] == [w] && [w][1..] == [];
      assert Concat([w]) == w;
    } else {
      assert (ws + [w])[1..] == ws[1..] + [w];
      ConcatSnoc(ws[1..], w);
    }
  }

  lemma {:induction false} SendKeepsInv(s: Net, ws: seq<seq<byte>>, i: nat)
    requires Inv(s, ws) && i < |s.writers| && s.writers[i].phase.Encoded?
    ensures Inv(Step(s, i, true), ws + [s.writers[i].phase.bytes])
  {
    ConcatSnoc(ws, s.writers[i].phase.bytes);
    assert i !in s.sent;
    assert SentMessages(Step(s, i, true)) == SentMessages(s) + [s.writers[i].msg];
  }

  lemma {:induction false} OtherKeepsInv(s: Net, ws: seq<seq<byte>>, i: nat, up: bool)
    requires Inv(s, ws) && i < |s.writers| && !(s.writers[i].phase.Encoded? && up)
    ensures Inv(Step(s, i, up), ws)
  {
    assert SentMessages(Step(s, i, up)) == SentMessages(s);
  }

  lemma {:induction false} StepKeepsInv(s: Net, ws: seq<seq<byte>>, i: nat, up: bool) returns (ws': seq<seq<byte>>)
    requires Inv(s, ws) && i < |s.writers|
    ensures Inv(Step(s, i, up), ws')
  {
    if s.writers[i].phase.Encoded? && up {
      SendKeepsInv(s, ws, i);
      ws' := ws + [s.writers[i].phase.bytes];
    } else {
      OtherKeepsInv(s, ws, i, up);
      ws' := ws;
    }
  }

  lemma {:induction false} RunKeepsInv(s: Net, ws: seq<seq<byte>>, turns: seq<Turn>) returns (ws': seq<seq<byte>>)
    requires Inv(s, ws)
    ensures Inv(Run(s, turns), ws')
    decreases |turns|
  {
    ws' := ws;
    if turns != [] {
      var s', ws1 := s, ws;
      if turns[0].writer < |s.writers| {
        s' := Step(s, turns[0].writer, turns[0].up);
        ws1 := StepKeepsInv(s, ws, turns[0].writer, turns[0].up);
      }
      ws' := RunKeepsInv(s', ws1, turns[1..]);
    }
  }

  lemma {:induction false} RunKeepsMessages(s: Net, turns: seq<Turn>)
    ensures var s' := Run(s, turns);
      |s'.writers| == |s.writers| &&
      forall i :: 0 <= i < |s.writers| ==> s'.writers[i].msg == s.writers[i].msg
    decreases |turns|
  {
    if turns != [] {
      if turns[0].writer < |s.writers| {
        RunKeepsMessages(Step(s, turns[0].writer, turns[0].up), turns[1..]);
      } else {
        RunKeepsMessages(s, turns[1..]);
      }
    }
  }

  /** What has been sent is read back, however the reads cut the wire. */
  lemma {:induction false} SentIsReceived(s: Net, ws: seq<seq<byte>>, hs: seq<Handler>, input: seq<Read>)
    requires AcceptsAll(hs) && Inv(s, ws)
    requires forall i :: 0 <= i < |s.writers| ==>
      s.writers[i].msg.Packet? && |s.writers[i].msg.message.value| <= 65528
    requires Received(input) == s.wire && Ending(input) == None
    ensures ReadRun(STACK_DECODERS, hs, [], input) == Session(SentMessages(s), [], [], Reading)
  {
    var got := SentMessages(s);
    forall k | 0 <= k < |ws| ensures |ws[k]| < TWO_63 {
      SentIsShort(got[k], ws[k]);
    }
    StackRoundTripIff(hs, got, ws, input);
  }

  lemma {:induction false} SentIsShort(m: Msg, w: seq<byte>)
    requires OnWire(STACK_ENCODERS, m) == Ok(w) && m.Packet? && |m.message.value| <= 65528
    ensures |w| < TWO_63
  {
    TwoEncoders(LengthFieldEncoder(4, false), MessageEncoder, m);
  }

  // ----- Who succeeds -----

  /** Whether conn.Write would succeed, for each turn of writer i. */
  function TurnsOf(turns: seq<Turn>, i: nat): seq<bool> {
    if turns == [] then []
    else (if turns[0].writer == i then [turns[0].up] else []) + TurnsOf(turns[1..], i)
  }

  /** Where these turns bring a writer of message m that stood at p. */
  predicate Brought(p: Phase, m: Msg, ups: seq<bool>, p': Phase) {
    if ups == [] || p.Done? then p' == p
    else if p.Encoded? then p' == Done(ups[0])
    else if !m.Packet? then p' == Done(false)
    else if |ups| == 1 then p'.Encoded?
    else p' == Done(ups[1])
  }

  lemma {:induction false} TurnsBring(s: Net, turns: seq<Turn>, i: nat)
    requires i < |s.writers|
    ensures |Run(s, turns).writers| == |s.writers|
    ensures Brought(s.writers[i].phase, s.writers[i].msg, TurnsOf(turns, i), Run(s, turns).writers[i].phase)
    decreases |turns|
  {
    if turns != [] {
      var t := turns[0];
      var s' := if t.writer < |s.writers| then Step(s, t.writer, t.up) else s;
      TurnsBring(s', turns[1..], i);
      if t.writer == i {
        StackAcceptsIff(s.writers[i].msg);
        var ups := TurnsOf(turns, i);
        assert ups[0] == t.up && ups[1..] == TurnsOf(turns[1..], i);
      }
    }
  }

  /** A writer of a packet succeeds exactly if conn.Write does, on its second turn; others never do. */
  lemma {:induction false} SucceedsIffSent(ms: seq<Msg>, turns: seq<Turn>, i: nat)
    requires i < |ms|
    ensures var s, ups := Run(Init(ms), turns), TurnsOf(turns, i);
      && |s.writers| == |ms|
      && (s.writers[i].phase == Done(true) <==> ms[i].Packet? && |ups| >= 2 && ups[1])
      && (s.writers[i].phase == Done(false) <==>
            if ms[i].Packet? then |ups| >= 2 && !ups[1] else |ups| >= 1)
  {
    TurnsBring(Init(ms), turns, i);
  }

  /** The messages of these writers, in this order. */
  function Chosen(ms: seq<Msg>, sent: seq<nat>): (r: seq<Msg>)
    requires forall k :: 0 <= k < |sent| ==> sent[k] < |ms|
    ensures |r| == |sent| && forall k :: 0 <= k < |sent| ==> r[k] == ms[sent[k]]
  {
    seq(|sent|, k requires 0 <= k < |sent| => ms[sent[k]])
  }

  /** `sent` lists exactly the writers, out of n, that have succeeded, each once. */
  predicate SentOnce(s: Net, n: nat) {
    && |s.writers| == n
    && (forall k :: 0 <= k < |s.sent| ==> s.sent[k] < n)
    && (forall j, k :: 0 <= j < k < |s.sent| ==> s.sent[j] != s.sent[k])
    && (forall i: nat :: i < n ==> (i in s.sent <==> s.writers[i].phase == Done(true)))
  }

  lemma {:induction false} RunSendsOnce(ms: seq<Msg>, turns: seq<Turn>) returns (ws: seq<seq<byte>>)
    ensures var s := Run(Init(ms), turns);
      && Inv(s, ws) && SentOnce(s, |ms|)
      && (forall i :: 0 <= i < |ms| ==> s.writers[i].msg == ms[i])
      && SentMessages(s) == Chosen(ms, s.sent)
  {
    assert SentMessages(Init(ms)) == [];
    ws := RunKeepsInv(Init(ms), [], turns);
    RunKeepsMessages(Init(ms), turns);
  }

  /**
   After any interleaving, and however the peer's reads cut the wire, the peer gets the messages
   of exactly the writers whose future succeeded, each once and whole, in the order they were sent.
   */
  lemma {:induction false} PeerReceivesPermutation(
      ms: seq<Msg>, turns: seq<Turn>, hs: seq<Handler>, input: seq<Read>)
    requires AcceptsAll(hs)
    requires forall m :: m in ms ==> m.Packet? && |m.message.value| <= 65528
    requires Received(input) == Run(Init(ms), turns).wire && Ending(input) == None
    ensures var s := Run(Init(ms), turns);
      && SentOnce(s, |ms|)
      && ReadRun(STACK_DECODERS, hs, [], input) == Session(Chosen(ms, s.sent), [], [], Reading)
  {
    var ws := RunSendsOnce(ms, turns);
    var s := Run(Init(ms), turns);
    forall i | 0 <= i < |ms| ensures s.writers[i].msg in ms {
      assert s.writers[i].msg == ms[i];
    }
    SentIsReceived(s, ws, hs, input);
  }
}

/**
 The pure greedy parser that the read loop of channel/context.go has to implement, and
 the proof that how TCP cuts the stream into reads cannot be observed.
 */
module Streaming {
  import opened Bytes
  import opened Values
  import opened Decoders

  // ----- Inbound handlers -----

  /** What one OnMessage returns: a message for the next handler, nil, or an error. */
  datatype Reply = Pass(msg: Msg) | Consume | Fail(error: Error)

  type Handler = Msg -> Reply

  /** The error FireMessage returns, if any. */
  function Fire(hs: seq<Handler>, m: Msg): Option<Error> {
    if hs == [] then None
    else
      match hs[0](m)
      case Fail(e) => Some(e)
      case Consume => None
      case Pass(m') => Fire(hs[1..], m')
  }

  /**
   The messages ms, m first, are what handlers from the first on were given: each but the last was
   passed on as the next one, and the last was answered with r, or left the last handler as r.
   */
  predicate Along(hs: seq<Handler>, ms: seq<Msg>, m: Msg, r: Reply) {
    && 1 <= |ms| <= |hs| + 1 && ms[0] == m
    && (forall i :: 0 <= i < |ms| - 1 ==> PassedOn(hs, ms, i))
    && if |ms| == |hs| + 1 then r == Pass(ms[|hs|]) else r == hs[|ms| - 1](ms[|ms| - 1]) && !r.Pass?
  }

  predicate PassedOn(hs: seq<Handler>, ms: seq<Msg>, i: nat)
    requires i < |hs| && i + 1 < |ms|
  {
    hs[i](ms[i]) == Pass(ms[i + 1])
  }

  lemma {:induction false} AlongRest(hs: seq<Handler>, ms: seq<Msg>, m: Msg, r: Reply)
    requires hs != [] && hs[0](m).Pass?
    ensures Along(hs, [m] + ms, m, r) <==> Along(hs[1..], ms, hs[0](m).msg, r)
  {
    var all := [m] + ms;
    if Along(hs, all, m, r) {
      assert PassedOn(hs, all, 0) || ms == [];
      forall i: nat | i < |ms| - 1 ensures PassedOn(hs[1..], ms, i) {
        assert PassedOn(hs, all, i + 1);
      }
    }
    if Along(hs[1..], ms, hs[0](m).msg, r) {
      forall i: nat | i < |all| - 1 ensures PassedOn(hs, all, i) {
        assert i > 0 ==> PassedOn(hs[1..], ms, i - 1);
      }
    }
  }

  lemma {:induction false} AlongFirst(hs: seq<Handler>, ms: seq<Msg>, m: Msg, r: Reply)
    requires Along(hs, ms, m, r)
    ensures hs != [] && |ms| > 1 ==> hs[0](m) == Pass(ms[1])
    ensures hs != [] && |ms| == 1 ==> r == hs[0](m)
    ensures hs == [] ==> r == Pass(m)
  {
    assert hs != [] && |ms| > 1 ==> PassedOn(hs, ms, 0);
  }

  /** FireMessage returns e exactly if each handler up to one passed its message on and that one failed with e. */
  lemma {:induction false} FireIff(hs: seq<Handler>, m: Msg, e: Error)
    ensures Fire(hs, m) == Some(e) <==> exists ms :: Along(hs, ms, m, Fail(e))
    decreases |hs|
  {
    if hs != [] && hs[0](m).Pass? {
      var m' := hs[0](m).msg;
      FireIff(hs[1..], m', e);
      if ms :| Along(hs[1..], ms, m', Fail(e)) {
        AlongRest(hs, ms, m, Fail(e));
        assert Along(hs, [m] + ms, m, Fail(e));
      }
      if ms :| Along(hs, ms, m, Fail(e)) {
        assert ms == [m] + ms[1..];
        AlongRest(hs, ms[1..], m, Fail(e));
        assert Along(hs[1..], ms[1..], m', Fail(e));
      }
    } else {
      forall ms | Along(hs, ms, m, Fail(e)) ensures hs != [] && hs[0](m) == Fail(e) {
        AlongFirst(hs, ms, m, Fail(e));
      }
      if hs != [] && hs[0](m) == Fail(e) {
        assert Along(hs, [m], m, Fail(e));
      }
    }
  }

  ghost predicate AcceptsAll(hs: seq<Handler>) { forall m :: Fire(hs, m) == None }

  // ----- A chain of decoders -----

  /** The decoders behind the first: each sees the []byte its predecessor made, or is skipped. */
  function ChainRest(ds: seq<Decoder>, m: Msg): Answer {
    if ds == [] then Got(m, 0)
    else if m.Raw? then
      match Step(ds[0], m.bytes)
      case Got(m', _) => ChainRest(ds[1..], m')
      case other => other
    else ChainRest(ds[1..], m)
  }

  /** At least one decoder: the first reads the connection's buffer. */
  datatype Chain = Chain(first: Decoder, later: seq<Decoder>)

  function ChainOf(ds: seq<Decoder>): Chain
    requires ds != []
  {
    Chain(ds[0], ds[1..])
  }

  function ChainStep(c: Chain, s: seq<byte>): (a: Answer)
    ensures a.Got? ==> a.used <= |s|
  {
    match Step(c.first, s)
    case Got(m, k) =>
      (match ChainRest(c.later, m) case Got(m', _) => Got(m', k) case other => other)
    case other => other
  }

  lemma {:induction false} OneLaterDecoder(d: Decoder, m: Msg)
    ensures ChainRest([d], m) == if !m.Raw? then Got(m, 0) else
      match Step(d, m.bytes) case Got(m', _) => Got(m', 0) case other => other
  {
    var later := [d];
    assert later[0] == d && later[1..] == [];
    if m.Raw? && Step(d, m.bytes).Got? {
      assert ChainRest([], Step(d, m.bytes).msg) == Got(Step(d, m.bytes).msg, 0);
    }
  }

  /** A chain is its front, and then its back on what the front has made. */
  lemma {:induction false} ChainSplits(ds: seq<Decoder>, es: seq<Decoder>, m: Msg)
    ensures ChainRest(ds + es, m) ==
      match ChainRest(ds, m) case Got(m', _) => ChainRest(es, m') case other => other
    decreases |ds|
  {
    if ds == [] {
      assert ds + es == es;
      NoUse(es, m);
    } else {
      assert (ds + es)[1..] == ds[1..] + es;
      if !m.Raw? {
        ChainSplits(ds[1..], es, m);
      } else if Step(ds[0], m.bytes).Got? {
        ChainSplits(ds[1..], es, Step(ds[0], m.bytes).msg);
      }
    }
  }

  /** The later decoders use nothing of the connection's buffer. */
  lemma {:induction false} NoUse(ds: seq<Decoder>, m: Msg)
    ensures ChainRest(ds, m).Got? ==> ChainRest(ds, m).used == 0
    decreases |ds|
  {
    if ds != [] {
      if !m.Raw? {
        NoUse(ds[1..], m);
      } else if Step(ds[0], m.bytes).Got? {
        NoUse(ds[1..], Step(ds[0], m.bytes).msg);
      }
    }
  }

  // ----- Parsing a whole stream -----

  datatype End =
    | Open(rest: seq<byte>)         // out of complete messages; `rest` stays buffered
    | DecodeFailed(error: Error)
    | HandlerFailed(error: Error)
    | Stalled                       // a message that used no byte: the loop never ends

  datatype Trace = Trace(fired: seq<Msg>, end: End)

  function Parse(c: Chain, hs: seq<Handler>, s: seq<byte>): Trace
    decreases |s|
  {
    if s == [] then Trace([], Open([]))
    else
      match ChainStep(c, s)
      case More => Trace([], Open(s))
      case Bad(e) => Trace([], DecodeFailed(e))
      case Got(m, k) =>
        match Fire(hs, m)
        case Some(e) => Trace([m], HandlerFailed(e))
        case None =>
          if k == 0 then Trace([m], Stalled) else Prepend(m, Parse(c, hs, s[k..]))
  }

  function Prepend(m: Msg, t: Trace): Trace { Trace([m] + t.fired, t.end) }

  lemma {:induction false} ParseGot(c: Chain, hs: seq<Handler>, s: seq<byte>, m: Msg, k: nat)
    requires AcceptsAll(hs) && s != [] && ChainStep(c, s) == Got(m, k) && k > 0
    ensures k <= |s| && Parse(c, hs, s) == Prepend(m, Parse(c, hs, s[k..]))
  {}

  function StepOf(c: Chain): seq<byte> -> Answer {
    s => ChainStep(c, s)
  }

  /** From cut to cut these steps read one message after the other. */
  predicate Cuts(step: seq<byte> -> Answer, s: seq<byte>, cuts: seq<nat>, fired: seq<Msg>) {
    && |cuts| == |fired| + 1 && cuts[0] == 0
    && (forall i :: 0 <= i < |cuts| ==> cuts[i] <= |s|)
    && (forall i :: 0 <= i < |fired| ==> CutOk(step, s, cuts, fired, i))
  }

  predicate CutOk(step: seq<byte> -> Answer, s: seq<byte>, cuts: seq<nat>, fired: seq<Msg>, i: nat)
    requires i < |fired| && |cuts| == |fired| + 1
  {
    CutAt(step, s, cuts[i], cuts[i + 1], fired[i])
  }

  predicate CutAt(step: seq<byte> -> Answer, s: seq<byte>, from: nat, to: nat, m: Msg) {
    from < |s| && from <= to && step(s[from..]) == Got(m, to - from)
  }

  /** The handlers accept all messages but the last of a parse that one of them ended. */
  predicate Accepted(hs: seq<Handler>, p: Trace) {
    forall i :: 0 <= i < |p.fired| - (if p.end.HandlerFailed? then 1 else 0) ==> Fire(hs, p.fired[i]) == None
  }

  predicate Segments(c: Chain, hs: seq<Handler>, s: seq<byte>, cuts: seq<nat>, p: Trace) {
    Cuts(StepOf(c), s, cuts, p.fired) && Accepted(hs, p) && EndsWith(c, hs, s[cuts[|p.fired|]..], p)
  }

  /** Why the parse ended, with the bytes `rest` behind its last cut. */
  predicate EndsWith(c: Chain, hs: seq<Handler>, rest: seq<byte>, p: Trace) {
    match p.end
    case Open(r) => r == rest && (rest == [] || ChainStep(c, rest) == More)
    case DecodeFailed(e) => rest != [] && ChainStep(c, rest) == Bad(e)
    case HandlerFailed(e) => p.fired != [] && Fire(hs, p.fired[|p.fired| - 1]) == Some(e)
    case Stalled => p.fired != [] && rest != [] && ChainStep(c, rest) == Got(p.fired[|p.fired| - 1], 0)
  }

  function Shifted(k: nat, cuts: seq<nat>): (r: seq<nat>)
    ensures |r| == |cuts| + 1 && r[0] == 0 && forall i :: 0 <= i < |cuts| ==> r[i + 1] == cuts[i] + k
  {
    [0] + seq(|cuts|, i requires 0 <= i < |cuts| => cuts[i] + k)
  }

  lemma {:induction false} CutShifts(step: seq<byte> -> Answer, s: seq<byte>, k: nat, from: nat, to: nat, m: Msg)
    requires k <= |s| && CutAt(step, s[k..], from, to, m)
    ensures CutAt(step, s, from + k, to + k, m)
  {
    assert s[k..][from..] == s[from + k..];
  }

  lemma {:induction false} CutsPrepend(
      step: seq<byte> -> Answer, s: seq<byte>, m: Msg, k: nat, cuts: seq<nat>, fired: seq<Msg>)
    requires s != [] && k <= |s| && step(s) == Got(m, k) && Cuts(step, s[k..], cuts, fired)
    ensures Cuts(step, s, Shifted(k, cuts), [m] + fired)
  {
    var all, ms := Shifted(k, cuts), [m] + fired;
    assert s[0..] == s;
    forall i | 0 <= i < |ms| ensures CutOk(step, s, all, ms, i) {
      if i > 0 {
        assert CutOk(step, s[k..], cuts, fired, i - 1);
        CutShifts(step, s, k, cuts[i - 1], cuts[i], fired[i - 1]);
        assert all[i] == cuts[i - 1] + k && all[i + 1] == cuts[i] + k && ms[i] == fired[i - 1];
      }
    }
  }

  lemma {:induction false} EndsPrepend(c: Chain, hs: seq<Handler>, rest: seq<byte>, m: Msg, p: Trace)
    requires EndsWith(c, hs, rest, p)
    ensures EndsWith(c, hs, rest, Prepend(m, p))
  {
    assert p.fired != [] ==> ([m] + p.fired)[|p.fired|] == p.fired[|p.fired| - 1];
  }

  lemma {:induction false} AcceptedPrepend(hs: seq<Handler>, m: Msg, p: Trace)
    requires Accepted(hs, p) && Fire(hs, m) == None
    ensures Accepted(hs, Prepend(m, p))
  {
    var q := Prepend(m, p);
    forall i | 0 <= i < |q.fired| - (if q.end.HandlerFailed? then 1 else 0) ensures Fire(hs, q.fired[i]) == None {
      assert i > 0 ==> q.fired[i] == p.fired[i - 1];
    }
  }

  /** The parse cuts the stream where the chain says, in full and no further than its end allows. */
  lemma {:induction false} ParseSegments(c: Chain, hs: seq<Handler>, s: seq<byte>) returns (cuts: seq<nat>)
    ensures Segments(c, hs, s, cuts, Parse(c, hs, s))
    decreases |s|
  {
    cuts := [0];
    assert s[0..] == s;
    if s != [] && ChainStep(c, s).Got? {
      var a := ChainStep(c, s);
      cuts := [0, a.used];
      if Fire(hs, a.msg) == None && a.used > 0 {
        var rest := ParseSegments(c, hs, s[a.used..]);
        var p := Parse(c, hs, s[a.used..]);
        cuts := Shifted(a.used, rest);
        CutsPrepend(StepOf(c), s, a.msg, a.used, rest, p.fired);
        AcceptedPrepend(hs, a.msg, p);
        assert s[a.used..][rest[|p.fired|]..] == s[cuts[|p.fired| + 1]..];
        EndsPrepend(c, hs, s[cuts[|p.fired| + 1]..], a.msg, p);
      }
    }
  }

  /** A pipeline without decoders fires the whole buffer, which it then fails to drain. */
  function Drain(ds: seq<Decoder>, hs: seq<Handler>, s: seq<byte>): Trace {
    if ds != [] then Parse(ChainOf(ds), hs, s)
    else if s == [] then Trace([], Open([]))
    else
      match Fire(hs, Raw(s))
      case Some(e) => Trace([Raw(s)], HandlerFailed(e))
      case None => Trace([Raw(s)], Open(s))
  }

  // ----- A connection: the results of successive conn.Read calls -----

  /** A read that ends the stream or fails may bring bytes too: they are lost on the read loop. */
  datatype Read =
    | Data(bytes: seq<byte>)
    | EndOfStream(lost: seq<byte>)
    | ReadError(lost: seq<byte>, error: Error)

  datatype Status = Reading | Closed | Hung

  /** What one run of the read loop has fired, reported and left in the buffer. */
  datatype Session =
    Session(fired: seq<Msg>, reported: seq<Error>, rest: seq<byte>, status: Status)

  /** What the error handlers see of an error: a panic unwinds past them. */
  function Reports(e: Error): seq<Error> {
    if e == Panicked then [] else [e]
  }

  /** How a session stands once the bytes behind it have been parsed to `t`. */
  function Settle(t: Trace): Session {
    match t.end
    case Open(r) => Session(t.fired, [], r, Reading)
    case DecodeFailed(e) => Session(t.fired, Reports(e), [], Closed)
    case HandlerFailed(e) => Session(t.fired, Reports(e) + Reports(e), [], Closed)  // by FireMessage, then ReadLoop
    case Stalled => Session(t.fired, [], [], Hung)
  }

  function AfterFired(fired: seq<Msg>, s: Session): Session { s.(fired := fired + s.fired) }

  function ReadRun(ds: seq<Decoder>, hs: seq<Handler>, buffered: seq<byte>, input: seq<Read>): Session
    decreases |input|
  {
    if input == [] then Session([], [], buffered, Reading)
    else
      match input[0]
      case EndOfStream(_) => Session([], [], buffered, Closed)
      case ReadError(_, e) => Session([], Reports(e), buffered, Closed)
      case Data(c) =>
        if c == [] then ReadRun(ds, hs, buffered, input[1..])
        else
          var t := Drain(ds, hs, buffered + c);
          if t.end.Open? then AfterFired(t.fired, ReadRun(ds, hs, t.end.rest, input[1..]))
          else Settle(t)
  }

  /** The most bytes the buffer ever holds: each read is appended before it is decoded. */
  function Peak(ds: seq<Decoder>, hs: seq<Handler>, buffered: seq<byte>, input: seq<Read>): nat
    decreases |input|
  {
    if input == [] || !input[0].Data? then |buffered|
    else if input[0].bytes == [] then Peak(ds, hs, buffered, input[1..])
    else
      var s := buffered + input[0].bytes;
      var t := Drain(ds, hs, s);
      var later := if t.end.Open? then Peak(ds, hs, t.end.rest, input[1..]) else 0;
      if later > |s| then later else |s|
  }

  /** The bytes that arrive before the connection ends. */
  function Received(input: seq<Read>): seq<byte> {
    if input == [] || !input[0].Data? then [] else input[0].bytes + Received(input[1..])
  }

  /** How the connection ends, if it does: the first read that is not data. */
  function Ending(input: seq<Read>): Option<Read> {
    if input == [] then None
    else if input[0].Data? then Ending(input[1..])
    else Some(input[0])
  }

  /** A session that was still reading, brought to the way the connection ended. */
  function Conclude(s: Session, ending: Option<Read>): Session {
    if s.status != Reading then s
    else
      match ending
      case Some(EndOfStream(_)) => s.(status := Closed)
      case Some(ReadError(_, e)) => s.(status := Closed, reported := s.reported + Reports(e))
      case _ => s
  }

  // ----- Prefix stability -----

  /** A decoder that has answered on some bytes answers the same however many more follow. */
  ghost predicate PrefixStable(d: Decoder) {
    forall s: seq<byte>, t: seq<byte> {:trigger Step(d, s + t)} ::
      !Step(d, s).More? ==> Step(d, s + t) == Step(d, s)
  }

  lemma {:induction false} ChainStable(c: Chain, s: seq<byte>, t: seq<byte>)
    requires PrefixStable(c.first)
    ensures !ChainStep(c, s).More? ==> ChainStep(c, s + t) == ChainStep(c, s)
  {
    assert !Step(c.first, s).More? ==> Step(c.first, s + t) == Step(c.first, s);
  }

  /** What a parse that came to p is once the bytes t have followed. */
  function Resume(p: Trace, c: Chain, hs: seq<Handler>, t: seq<byte>): Trace {
    if p.end.Open? then
      var q := Parse(c, hs, p.end.rest + t);
      Trace(p.fired + q.fired, q.end)
    else p
  }

  lemma {:induction false} ResumePrepend(m: Msg, p: Trace, c: Chain, hs: seq<Handler>, t: seq<byte>)
    ensures Resume(Prepend(m, p), c, hs, t) == Prepend(m, Resume(p, c, hs, t))
  {
    if p.end.Open? {
      var q := Parse(c, hs, p.end.rest + t);
      assert [m] + p.fired + q.fired == [m] + (p.fired + q.fired);
    }
  }

  /** Parsing can stop anywhere and resume on the leftover when more bytes have come. */
  lemma {:induction false} ParseAppend(c: Chain, hs: seq<Handler>, s: seq<byte>, t: seq<byte>)
    requires PrefixStable(c.first)
    ensures Parse(c, hs, s + t) == Resume(Parse(c, hs, s), c, hs, t)
    decreases |s|
  {
    ChainStable(c, s, t);
    if s == [] {
      assert s + t == t;
    } else {
      match ChainStep(c, s)
      case More =>
      case Bad(_) =>
      case Got(m, k) =>
        if Fire(hs, m) == None && k > 0 {
          assert (s + t)[k..] == s[k..] + t;
          ParseAppend(c, hs, s[k..], t);
          ResumePrepend(m, Parse(c, hs, s[k..]), c, hs, t);
        }
    }
  }

  /** The bytes a parse leaves behind hold no further message. */
  lemma {:induction false} LeftoverIsInert(c: Chain, hs: seq<Handler>, s: seq<byte>)
    requires Parse(c, hs, s).end.Open?
    ensures var rest := Parse(c, hs, s).end.rest;
            Parse(c, hs, rest) == Trace([], Open(rest))
    decreases |s|
  {
    if s != [] && ChainStep(c, s).Got? {
      LeftoverIsInert(c, hs, s[ChainStep(c, s).used..]);
    }
  }

  lemma {:induction false} ConcludeResumed(p: Trace, c: Chain, hs: seq<Handler>, t: seq<byte>, ending: Option<Read>)
    ensures Conclude(Settle(Resume(p, c, hs, t)), ending)
         == if p.end.Open?
            then AfterFired(p.fired, Conclude(Settle(Parse(c, hs, p.end.rest + t)), ending))
            else Settle(p)
  {}

  lemma {:induction false} ReadRunIsParse(
      ds: seq<Decoder>, hs: seq<Handler>, buffered: seq<byte>, input: seq<Read>)
    requires ds != [] && PrefixStable(ds[0])
    requires Parse(ChainOf(ds), hs, buffered) == Trace([], Open(buffered))
    ensures ReadRun(ds, hs, buffered, input)
         == Conclude(Settle(Parse(ChainOf(ds), hs, buffered + Received(input))), Ending(input))
    decreases |input|
  {
    if input == [] || !input[0].Data? {
      assert buffered + Received(input) == buffered;
    } else {
      var c := ChainOf(ds);
      var s := buffered + input[0].bytes;
      assert buffered + Received(input) == s + Received(input[1..]);
      if input[0].bytes == [] {
        assert s == buffered;
        ReadRunIsParse(ds, hs, s, input[1..]);
      } else {
        ParseAppend(c, hs, s, Received(input[1..]));
        var t := Parse(c, hs, s);
        ConcludeResumed(t, c, hs, Received(input[1..]), Ending(input));
        if t.end.Open? {
          LeftoverIsInert(c, hs, s);
          ReadRunIsParse(ds, hs, t.end.rest, input[1..]);
        }
      }
    }
  }

  /**
   Chunking invariance: however the stream is cut into reads, the loop fires, reports and keeps
   exactly what the greedy parser makes of the whole stream at once.
   */
  lemma {:induction false} ChunkingInvariance(ds: seq<Decoder>, hs: seq<Handler>, input: seq<Read>)
    requires ds != [] && PrefixStable(ds[0])
    ensures ReadRun(ds, hs, [], input)
         == Conclude(Settle(Parse(ChainOf(ds), hs, Received(input))), Ending(input))
  {
    assert [] + Received(input) == Received(input);
    ReadRunIsParse(ds, hs, [], input);
  }

  /** Everything conn.Read has returned, with an error or without. */
  function Arrived(input: seq<Read>): seq<byte> {
    if input == [] then []
    else
      match input[0]
      case Data(bytes) => bytes + Arrived(input[1..])
      case EndOfStream(lost) => lost
      case ReadError(lost, _) => lost
  }

  function LostBytes(ending: Option<Read>): seq<byte> {
    if ending.Some? && !ending.value.Data? then ending.value.lost else []
  }

  /** Every byte that arrived is parsed exactly when no read brings bytes together with an error. */
  lemma {:induction false} EveryByteParsedIff(input: seq<Read>)
    ensures Received(input) == Arrived(input) <==> LostBytes(Ending(input)) == []
    ensures Received(input) <= Arrived(input)
  {
    if input != [] && input[0].Data? {
      EveryByteParsedIff(input[1..]);
      assert Arrived(input)[|input[0].bytes|..] == Arrived(input[1..]);
      assert Received(input)[|input[0].bytes|..] == Received(input[1..]);
    }
  }

  /**
   How a session ends for those who watch it: a decode error is reported once, a handler's error
   once by FireMessage and once by ReadLoop, a read error once, the end of the stream and a panic
   not at all; and after each of them the connection is closed.
   */
  lemma {:induction false} SessionEnds(ds: seq<Decoder>, hs: seq<Handler>, input: seq<Read>, e: Error)
    requires ds != [] && PrefixStable(ds[0])
    ensures var r := ReadRun(ds, hs, [], input); var t := Parse(ChainOf(ds), hs, Received(input));
      && r.fired == t.fired
      && (t.end == DecodeFailed(e) ==> r.status == Closed && r.reported == if e == Panicked then [] else [e])
      && (t.end == HandlerFailed(e) ==> r.status == Closed && r.reported == if e == Panicked then [] else [e, e])
      && (t.end.Open? ==>
            match Ending(input)
            case None => r.status == Reading && r.reported == [] && r.rest == t.end.rest
            case Some(EndOfStream(_)) => r.status == Closed && r.reported == []
            case Some(ReadError(_, f)) => r.status == Closed && r.reported == if f == Panicked then [] else [f]
            case Some(Data(_)) => true)
  {
    ChunkingInvariance(ds, hs, input);
  }

  /** Two cuts of one stream cannot be told apart. */
  lemma {:induction false} SameStreamSameSession(
      ds: seq<Decoder>, hs: seq<Handler>, input: seq<Read>, input': seq<Read>)
    requires ds != [] && PrefixStable(ds[0])
    requires Received(input) == Received(input') && Ending(input) == Ending(input')
    ensures ReadRun(ds, hs, [], input) == ReadRun(ds, hs, [], input')
  {
    ChunkingInvariance(ds, hs, input);
    ChunkingInvariance(ds, hs, input');
  }

  /**
   A complete first frame that a later decoder answers nil on is put back whole and blocks the
   connection: no bytes that follow make the loop fire anything.
   */
  lemma {:induction false} RefusedFrameBlocks(c: Chain, hs: seq<Handler>, s: seq<byte>, t: seq<byte>)
    requires PrefixStable(c.first)
    requires s != [] && Step(c.first, s).Got? && ChainRest(c.later, Step(c.first, s).msg).More?
    ensures Parse(c, hs, s + t) == Trace([], Open(s + t))
  {
    assert ChainStep(c, s + t).More?;
  }

  // ----- Without decoders -----

  function Flatten(ms: seq<Msg>): seq<byte> {
    if ms == [] then [] else (if ms[0].Raw? then ms[0].bytes else []) + Flatten(ms[1..])
  }

  lemma {:induction false} RawRun(hs: seq<Handler>, buffered: seq<byte>, input: seq<Read>)
    requires AcceptsAll(hs) && input != []
    requires forall r :: r in input ==> r.Data? && r.bytes != []
    ensures var delivered := |Flatten(ReadRun([], hs, buffered, input).fired)|;
            delivered >= |buffered| + |Received(input)| &&
            (|input| >= 2 ==> delivered > |buffered| + |Received(input)|)
    decreases |input|
  {
    var c := input[0].bytes;
    var s := buffered + c;
    assert input[0] in input;
    assert Drain([], hs, s) == Trace([Raw(s)], Open(s));
    var rest := ReadRun([], hs, s, input[1..]);
    assert ([Raw(s)] + rest.fired)[1..] == rest.fired;
    if |input| >= 2 {
      RawRun(hs, s, input[1..]);
    }
  }

  /**
   With no decoder the bytes are delivered once exactly when one read carries them all: from the
   second read on, Compact at reader index 0 has kept the old bytes and they are fired again.
   */
  lemma {:induction false} RawBytesDeliveredOnceIffOneRead(hs: seq<Handler>, input: seq<Read>)
    requires AcceptsAll(hs)
    requires forall r :: r in input ==> r.Data? && r.bytes != []
    ensures Flatten(ReadRun([], hs, [], input).fired) == Received(input) <==> |input| <= 1
  {
    if |input| == 1 {
      var c := input[0].bytes;
      assert [] + c == c && c + [] == c;
      assert input[0] in input;
      assert input[1..] == [];
      assert ReadRun([], hs, [], input).fired == [Raw(c)];
      assert [Raw(c)][1..] == [];
    } else if |input| >= 2 {
      RawRun(hs, [], input);
    }
  }
}

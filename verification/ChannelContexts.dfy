/** The connection of channel/context.go: the read loop, the inbound chain and the write path. */
module ChannelContexts {
  import opened Bytes
  import opened Values
  import opened Buffers
  import opened Decoders
  import opened Encoders
  import opened Streaming

  /** The outbound handlers applied last to first. */
  function Outbound(hs: seq<Handler>, m: Msg): Reply {
    if hs == [] then Pass(m)
    else
      match hs[|hs| - 1](m)
      case Pass(m') => Outbound(hs[..|hs| - 1], m')
      case other => other
  }

  /** How the future of a Write is completed. */
  datatype WriteResult = Succeeded | FailedWith(error: Error) | Crashed

  /** An error fails the future; a panic ends the goroutine before it can. */
  function Failure(e: Error): WriteResult {
    if e == Panicked then Crashed else FailedWith(e)
  }

  /** The bytes one Write puts on an unbroken connection and how its future is completed. */
  function WriteEffect(outbound: seq<Handler>, es: seq<Encoder>, m: Msg, fault: Option<Error>)
    : (seq<byte>, WriteResult)
  {
    match Outbound(outbound, m)
    case Fail(e) => ([], Failure(e))
    case Consume => ([], Succeeded)
    case Pass(m') =>
      match OnWire(es, m')
      case Err(e) => ([], Failure(e))
      case Ok(b) => if fault.Some? then ([], Failure(fault.value)) else (b, Succeeded)
  }

  function Backwards<T>(s: seq<T>): (r: seq<T>)
    ensures |r| == |s| && forall i :: 0 <= i < |s| ==> r[i] == s[|s| - 1 - i]
  {
    if s == [] then [] else [s[|s| - 1]] + Backwards(s[..|s| - 1])
  }

  /** The outbound handlers, from the last on, pass m on until one, or the end, answers r. */
  ghost predicate SentThrough(outbound: seq<Handler>, m: Msg, r: Reply) {
    exists ms :: Along(Backwards(outbound), ms, m, r)
  }

  lemma {:induction false} OutboundIff(hs: seq<Handler>, m: Msg, r: Reply)
    ensures Outbound(hs, m) == r <==> SentThrough(hs, m, r)
    decreases |hs|
  {
    var back := Backwards(hs);
    if hs != [] && back[0](m).Pass? {
      var m' := back[0](m).msg;
      OutboundIff(hs[..|hs| - 1], m', r);
      assert back[1..] == Backwards(hs[..|hs| - 1]);
      if ms :| Along(back[1..], ms, m', r) {
        AlongRest(back, ms, m, r);
        assert Along(back, [m] + ms, m, r);
      }
      if ms :| Along(back, ms, m, r) {
        AlongFirst(back, ms, m, r);
        assert ms == [m] + ms[1..];
        AlongRest(back, ms[1..], m, r);
        assert Along(back[1..], ms[1..], m', r);
      }
    } else {
      forall ms | Along(back, ms, m, r) ensures Outbound(hs, m) == r {
        AlongFirst(back, ms, m, r);
      }
      assert Outbound(hs, m) == r ==> Along(back, [m], m, r);
    }
  }

  /** The outbound handlers let m through as m', and the encoders make b of it. */
  ghost predicate Prepared(outbound: seq<Handler>, es: seq<Encoder>, m: Msg, b: seq<byte>) {
    exists m', bs :: SentThrough(outbound, m, Pass(m')) && Stages(es, bs, m', Ok(b))
  }

  /** A handler stopped m with this error, or an encoder, or the lack of any, did. */
  ghost predicate Refused(outbound: seq<Handler>, es: seq<Encoder>, m: Msg, e: Error) {
    || SentThrough(outbound, m, Fail(e))
    || exists m', bs :: SentThrough(outbound, m, Pass(m')) && Stages(es, bs, m', Err(e))
  }

  lemma {:induction false} PreparedIff(outbound: seq<Handler>, es: seq<Encoder>, m: Msg, b: seq<byte>)
    ensures Prepared(outbound, es, m, b) <==>
      Outbound(outbound, m).Pass? && OnWire(es, Outbound(outbound, m).msg) == Ok(b)
  {
    var r := Outbound(outbound, m);
    if Prepared(outbound, es, m, b) {
      var m', bs :| SentThrough(outbound, m, Pass(m')) && Stages(es, bs, m', Ok(b));
      OutboundIff(outbound, m, Pass(m'));
      OnWireIff(es, m', Ok(b));
    }
    if r.Pass? && OnWire(es, r.msg) == Ok(b) {
      OutboundIff(outbound, m, r);
      OnWireIff(es, r.msg, Ok(b));
      var bs :| Stages(es, bs, r.msg, Ok(b));
      assert SentThrough(outbound, m, Pass(r.msg));
    }
  }

  lemma {:induction false} RefusedIff(outbound: seq<Handler>, es: seq<Encoder>, m: Msg, e: Error)
    ensures Refused(outbound, es, m, e) <==>
      var r := Outbound(outbound, m);
      r == Fail(e) || (r.Pass? && OnWire(es, r.msg) == Err(e))
  {
    var r := Outbound(outbound, m);
    OutboundIff(outbound, m, Fail(e));
    if m', bs :| SentThrough(outbound, m, Pass(m')) && Stages(es, bs, m', Err(e)) {
      OutboundIff(outbound, m, Pass(m'));
      OnWireIff(es, m', Err(e));
    }
    if r.Pass? && OnWire(es, r.msg) == Err(e) {
      OutboundIff(outbound, m, r);
      OnWireIff(es, r.msg, Err(e));
      var bs :| Stages(es, bs, r.msg, Err(e));
      assert SentThrough(outbound, m, Pass(r.msg));
    }
  }

  /**
   What a Write comes to. It succeeds exactly if a handler consumed the message or the connection
   took the bytes it was prepared to; these bytes, and in every other case none, are then on the
   wire. A refusal, or the fault of an unlucky conn.Write, fails the future with its own error.
   */
  lemma {:induction false} WriteOutcome(
      outbound: seq<Handler>, es: seq<Encoder>, m: Msg, fault: Option<Error>)
    ensures var (bytes, result) := WriteEffect(outbound, es, m, fault);
      && (result == Succeeded <==>
            SentThrough(outbound, m, Consume) || (fault == None && exists b :: Prepared(outbound, es, m, b)))
      && (forall b :: Prepared(outbound, es, m, b) && fault == None ==> bytes == b)
      && ((fault != None || !exists b :: Prepared(outbound, es, m, b)) ==> bytes == [])
      && (forall e :: e != Panicked ==>
            (result == FailedWith(e) <==>
               Refused(outbound, es, m, e) || (fault == Some(e) && exists b :: Prepared(outbound, es, m, b))))
  {
    OutboundIff(outbound, m, Consume);
    forall b ensures Prepared(outbound, es, m, b) <==>
      Outbound(outbound, m).Pass? && OnWire(es, Outbound(outbound, m).msg) == Ok(b)
    {
      PreparedIff(outbound, es, m, b);
    }
    forall e ensures Refused(outbound, es, m, e) <==>
      var r := Outbound(outbound, m);
      r == Fail(e) || (r.Pass? && OnWire(es, r.msg) == Err(e))
    {
      RefusedIff(outbound, es, m, e);
    }
  }

  // ----- What the read path does, as relations on snapshots of the connection -----

  /** `index` is how many bytes the buffer holds in front of the unread ones. */
  datatype View =
    View(fired: seq<Msg>, reported: seq<Error>, index: nat, unread: seq<byte>, peak: nat, closed: bool)
  {
    /** How many bytes the buffer holds. */
    function Size(): nat { index + |unread| }
  }

  function ReportedBy(end: End): seq<Error> {
    if end.HandlerFailed? then Reports(end.error) else []
  }

  function ErrorOf(end: End): Option<Error> {
    if end.DecodeFailed? || end.HandlerFailed? then Some(end.error) else None
  }

  /** decodeAndFire on t, the trace of the buffered bytes: all of it fired, its end reached. */
  predicate Decoded(t: Trace, v: View, v': View, err: Option<Error>) {
    && v'.fired == v.fired + t.fired
    && v'.reported == v.reported + ReportedBy(t.end)
    && err == ErrorOf(t.end)
    && (t.end.Open? ==> v'.unread == t.end.rest)
    && v'.closed == v.closed && v'.peak == v.peak && v'.Size() <= v.Size()
  }

  /** One iteration of decodeAndFire's loop on the answer a of the decoder chain. */
  predicate Stepped(a: Answer, hs: seq<Handler>, v: View, v': View, more: bool, err: Option<Error>) {
    match a
    case Bad(e) =>
      && !more && err == Some(e)
      && v' == v.(index := v'.index, unread := v'.unread) && v'.Size() == v.Size()
    case More => !more && err == None && v' == v.(index := 0)
    case Got(m, k) =>
      && err == Fire(hs, m) && more == (err == None) && k <= |v.unread|
      && v' == v.(fired := v.fired + [m], index := v.index + k, unread := v.unread[k..],
                  reported := v.reported + if err == None then [] else Reports(err.value))
  }

  /** The iterations fire exactly the trace of the buffered bytes, one message at a time. */
  lemma {:induction false} SteppedDecodes(c: Chain, hs: seq<Handler>, v: View, v': View, more: bool, err: Option<Error>)
    requires v.unread != [] && Stepped(ChainStep(c, v.unread), hs, v, v', more, err)
    requires Parse(c, hs, v.unread).end != Stalled
    ensures var t, t' := Parse(c, hs, v.unread), Parse(c, hs, v'.unread);
      if more then
        && |v'.unread| < |v.unread|
        && v'.fired + t'.fired == v.fired + t.fired && t'.end == t.end
        && v'.reported == v.reported && v'.closed == v.closed
        && v'.peak == v.peak && v'.Size() == v.Size()
      else Decoded(t, v, v', err)
  {
    if more {
      var m := ChainStep(c, v.unread).msg;
      var t' := Parse(c, hs, v'.unread);
      assert Parse(c, hs, v.unread) == Prepend(m, t');
      Associates(v.fired, [m], t'.fired);
    }
  }

  lemma {:induction false} Associates<T>(a: seq<T>, b: seq<T>, c: seq<T>)
    ensures a + b + c == a + (b + c)
  {}

  /** One iteration of ReadLoop. */
  predicate AfterRead(ds: seq<Decoder>, hs: seq<Handler>, read: Read, v: View, v': View, more: bool) {
    match read
    case EndOfStream(_) => !more && v' == v.(closed := true)
    case ReadError(_, e) => !more && v' == v.(closed := true, reported := v.reported + Reports(e))
    case Data(chunk) =>
      if chunk == [] then more && v' == v
      else
        var t := Drain(ds, hs, v.unread + chunk);
        && more == (ErrorOf(t.end) == None)
        && v'.fired == v.fired + t.fired
        && v'.reported == v.reported + ReportedBy(t.end) + (if more then [] else Reports(ErrorOf(t.end).value))
        && (t.end.Open? ==> v'.unread == t.end.rest)
        && v'.closed == (v.closed || !more)
  }

  function Max(a: nat, b: nat): nat { if a > b then a else b }

  /**
   What one iteration does to the bytes the buffer holds: it grows by the read, and is compacted
   before the next one.
   */
  predicate Measured(read: Read, v: View, v': View, more: bool) {
    && v'.Size() <= v'.peak
    && v'.peak == (if read.Data? then Max(v.peak, v.Size() + |read.bytes|) else v.peak)
    && (v.index == 0 && more ==> v'.index == 0)
  }

  /** The peak so far and that of the reads still to come make up the peak p there was to be. */
  predicate Peaks(p: nat, ds: seq<Decoder>, hs: seq<Handler>, input: seq<Read>, v: View) {
    v.index == 0 && Max(v.peak, Peak(ds, hs, v.unread, input)) == p
  }

  lemma {:induction false} AfterReadPeak(
      ds: seq<Decoder>, hs: seq<Handler>, input: seq<Read>, v: View, v': View, more: bool, p: nat)
    requires input != [] && AfterRead(ds, hs, input[0], v, v', more) && Measured(input[0], v, v', more)
    requires ReadRun(ds, hs, v.unread, input).status != Hung
    requires v.Size() <= v.peak && Peaks(p, ds, hs, input, v)
    ensures if more then Peaks(p, ds, hs, input[1..], v') else v'.peak == p
  {
    DataNeverHangs(ds, hs, v.unread, input);
  }

  /** What has happened and the session r' still to come add up to the session r there was. */
  predicate Underway(r: Session, r': Session, v: View, v': View) {
    && v'.fired + r'.fired == v.fired + r.fired
    && v'.reported + r'.reported == v.reported + r.reported
    && r'.rest == r.rest && r'.status == r.status && v'.closed == v.closed
  }

  lemma {:induction false} DataNeverHangs(ds: seq<Decoder>, hs: seq<Handler>, s: seq<byte>, input: seq<Read>)
    requires input != [] && ReadRun(ds, hs, s, input).status != Hung
    ensures input[0].Data? && input[0].bytes != []
      ==> Drain(ds, hs, s + input[0].bytes).end != Stalled
  {}

  lemma {:induction false} AfterReadSession(
      ds: seq<Decoder>, hs: seq<Handler>, input: seq<Read>, v: View, v': View, more: bool)
    requires input != [] && AfterRead(ds, hs, input[0], v, v', more)
    requires ReadRun(ds, hs, v.unread, input).status != Hung
    ensures var r := ReadRun(ds, hs, v.unread, input);
      if more then Underway(r, ReadRun(ds, hs, v'.unread, input[1..]), v, v')
      else Finished(r, v, v', more)
  {
    if more && input[0].Data? && input[0].bytes != [] {
      var t := Drain(ds, hs, v.unread + input[0].bytes);
      var r' := ReadRun(ds, hs, v'.unread, input[1..]);
      assert ReadRun(ds, hs, v.unread, input) == AfterFired(t.fired, r');
      assert v'.reported == v.reported;
      Associates(v.fired, t.fired, r'.fired);
    }
  }

  /** ReadLoop on the session r: fired and reported, left buffered or closed. */
  predicate Finished(r: Session, v: View, v': View, more: bool) {
    && v'.fired == v.fired + r.fired && v'.reported == v.reported + r.reported
    && more == (r.status == Reading)
    && v'.closed == (v.closed || r.status == Closed)
    && (more ==> v'.unread == r.rest)
  }

  class ChannelContext {
    const decoders: seq<Decoder>
    const encoders: seq<Encoder>
    const inbound: seq<Handler>
    const outbound: seq<Handler>
    const readBuffer: Buffer
    var fired: seq<Msg>         // the messages handed to FireMessage
    var reported: seq<Error>    // the errors handed to FireError
    var written: seq<byte>      // what conn.Write has accepted
    var closed: bool
    ghost var peak: nat         // the most bytes the buffer has held

    ghost predicate Valid()
      reads this, readBuffer
    {
      readBuffer.Valid() && |readBuffer.data| <= peak
    }

    ghost function Now(): View
      requires readBuffer.Valid()
      reads this, readBuffer
    {
      View(fired, reported, readBuffer.readIndex, readBuffer.Unread(), peak, closed)
    }

    constructor (decoders: seq<Decoder>, encoders: seq<Encoder>,
                 inbound: seq<Handler>, outbound: seq<Handler>)
      ensures Valid() && fresh(readBuffer) && readBuffer.data == [] && peak == 0
      ensures this.decoders == decoders && this.encoders == encoders
      ensures this.inbound == inbound && this.outbound == outbound
      ensures fired == [] && reported == [] && written == [] && !closed
    {
      this.decoders, this.encoders := decoders, encoders;
      this.inbound, this.outbound := inbound, outbound;
      var buffer := new Buffer([]);
      readBuffer := buffer;
      fired, reported, written, closed, peak := [], [], [], false, 0;
    }

    method FireMessage(msg: Msg) returns (err: Option<Error>)
      modifies this`fired, this`reported
      ensures err == Fire(inbound, msg)
      ensures fired == old(fired) + [msg]
      ensures reported == old(reported) + if err.Some? then Reports(err.value) else []
    {
      fired := fired + [msg];
      var currentMsg, i := msg, 0;
      while i < |inbound|
        invariant 0 <= i <= |inbound|
        invariant Fire(inbound, msg) == Fire(inbound[i..], currentMsg)
        invariant fired == old(fired) + [msg] && reported == old(reported)
      {
        assert inbound[i..][1..] == inbound[i + 1..];
        match inbound[i](currentMsg)
        case Fail(e) =>
          reported := reported + Reports(e);
          return Some(e);
        case Consume => return None;
        case Pass(m) =>
          currentMsg := m;
          i := i + 1;
      }
      return None;
    }

    /** One pass of the inner loop of decodeAndFire over the whole decoder chain. */
    method DecodeChain() returns (a: Answer)
      requires Valid() && decoders != []
      modifies readBuffer`readIndex
      ensures Valid()
      ensures a == ChainStep(ChainOf(decoders), old(readBuffer.Unread()))
      ensures a.Got? ==> readBuffer.readIndex == old(readBuffer.readIndex) + a.used
    {
      a := Decode(decoders[0], readBuffer);
      if !a.Got? {
        return;
      }
      var msg, i := a.msg, 1;
      while i < |decoders|
        invariant 1 <= i <= |decoders| && Valid()
        invariant readBuffer.readIndex == old(readBuffer.readIndex) + a.used
        invariant ChainRest(decoders[1..], a.msg) == ChainRest(decoders[i..], msg)
      {
        assert decoders[i..][1..] == decoders[i + 1..];
        if msg.Raw? {
          var tempBuf := new Buffer(msg.bytes);
          var next := Decode(decoders[i], tempBuf);
          if !next.Got? {
            return next;
          }
          msg := next.msg;
        }
        i := i + 1;
      }
      return Got(msg, a.used);
    }

    /** A pass that puts the bytes back, compacted, when the chain needs more of them. */
    method NextMessage() returns (a: Answer)
      requires Valid() && decoders != []
      modifies readBuffer
      ensures Valid()
      ensures a == ChainStep(ChainOf(decoders), old(readBuffer.Unread()))
      ensures a.Got? ==> readBuffer.Unread() == old(readBuffer.Unread())[a.used..]
      ensures a.More? ==> readBuffer.readIndex == 0 && readBuffer.data == old(readBuffer.Unread())
      ensures !a.More? ==> readBuffer.data == old(readBuffer.data)
      ensures a.Got? ==> readBuffer.readIndex == old(readBuffer.readIndex) + a.used
      ensures |readBuffer.data| <= |old(readBuffer.data)|
    {
      var mark := readBuffer.readIndex;
      a := DecodeChain();
      if a.More? {
        readBuffer.ResetReaderIndex(mark);
        readBuffer.Compact();
      }
    }

    method DecodeOne() returns (more: bool, err: Option<Error>)
      requires Valid() && decoders != []
      modifies this`fired, this`reported, readBuffer
      ensures Valid()
      ensures Stepped(ChainStep(ChainOf(decoders), old(Now()).unread), inbound, old(Now()), Now(), more, err)
    {
      more, err := false, None;
      var a := NextMessage();
      match a
      case Bad(e) => err := Some(e);
      case More =>
      case Got(msg, _) =>
        err := FireMessage(msg);
        more := err == None;
    }

    /** The loop of decodeAndFire. */
    method DecodeLoop() returns (err: Option<Error>)
      requires Valid() && decoders != []
      requires Parse(ChainOf(decoders), inbound, Now().unread).end != Stalled
      modifies this`fired, this`reported, readBuffer
      ensures Valid()
      ensures Decoded(Parse(ChainOf(decoders), inbound, old(Now()).unread), old(Now()), Now(), err)
      ensures err == None ==> readBuffer.readIndex == 0
    {
      ghost var start, c := Now(), ChainOf(decoders);
      while |readBuffer.Unread()| > 0
        invariant Valid() && reported == start.reported
        invariant closed == start.closed && peak == start.peak && Now().Size() <= start.Size()
        invariant var t := Parse(c, inbound, Now().unread);
          fired + t.fired == start.fired + Parse(c, inbound, start.unread).fired
          && t.end == Parse(c, inbound, start.unread).end
        decreases |readBuffer.Unread()|
      {
        ghost var before := Now();
        var more;
        more, err := DecodeOne();
        SteppedDecodes(c, inbound, before, Now(), more, err);
        if !more {
          return;
        }
      }
      readBuffer.Compact();
      return None;
    }

    /**
     decodeAndFire: fires what Drain says, reports a handler's error, returns the error that
     ended it, and otherwise leaves the buffer holding the undecoded bytes and no others.
     */
    method DecodeAndFire() returns (err: Option<Error>)
      requires Valid()
      requires Drain(decoders, inbound, Now().unread).end != Stalled
      modifies this`fired, this`reported, readBuffer
      ensures Valid()
      ensures Decoded(Drain(decoders, inbound, old(Now()).unread), old(Now()), Now(), err)
      ensures err == None && (decoders != [] || old(Now()).unread != []) ==> readBuffer.readIndex == 0
    {
      if |decoders| == 0 {
        err := None;
        var data := readBuffer.Unread();
        if |data| > 0 {
          readBuffer.Compact();
          err := FireMessage(Raw(data));
        }
        return;
      }
      err := DecodeLoop();
    }

    /** One iteration of ReadLoop: false once it has returned. */
    method Receive(read: Read) returns (more: bool)
      requires Valid()
      requires read.Data? && read.bytes != []
        ==> Drain(decoders, inbound, Now().unread + read.bytes).end != Stalled
      modifies this`fired, this`reported, this`closed, this`peak, readBuffer
      ensures Valid() && AfterRead(decoders, inbound, read, old(Now()), Now(), more)
      ensures Measured(read, old(Now()), Now(), more)
    {
      var err := None;
      match read {
        case EndOfStream(_) => more := false;
        case ReadError(_, e) =>
          err := Some(e);
          more := false;
        case Data(chunk) =>
          if |chunk| > 0 {
            readBuffer.Write(chunk);
            peak := Max(peak, |readBuffer.data|);
            err := DecodeAndFire();
          }
          more := err == None;
      }
      if err != None {
        reported := reported + Reports(err.value);
      }
      if !more {
        closed := true;
      }
    }

    /** ReadLoop over the results of successive conn.Read calls; false once it has returned. */
    method ReadLoop(input: seq<Read>) returns (more: bool)
      requires Valid()
      requires ReadRun(decoders, inbound, Now().unread, input).status != Hung
      modifies this`fired, this`reported, this`closed, this`peak, readBuffer
      ensures Valid()
      ensures old(Now()).index == 0 ==>
        && (more ==> Now().index == 0)
        && peak == Max(old(peak), Peak(decoders, inbound, old(Now()).unread, input))
      ensures Finished(ReadRun(decoders, inbound, old(Now()).unread, input), old(Now()), Now(), more)
    {
      ghost var start := Now();
      ghost var whole := ReadRun(decoders, inbound, start.unread, input);
      ghost var p := Max(peak, Peak(decoders, inbound, start.unread, input));
      assert input[0..] == input;
      var i := 0;
      while i < |input|
        invariant 0 <= i <= |input| && Valid()
        invariant Underway(whole, ReadRun(decoders, inbound, Now().unread, input[i..]), start, Now())
        invariant start.index == 0 ==> Peaks(p, decoders, inbound, input[i..], Now())
      {
        ghost var before := Now();
        DataNeverHangs(decoders, inbound, before.unread, input[i..]);
        more := Receive(input[i]);
        AfterReadSession(decoders, inbound, input[i..], before, Now(), more);
        if start.index == 0 {
          AfterReadPeak(decoders, inbound, input[i..], before, Now(), more, p);
        }
        if !more {
          return;
        }
        assert input[i..][1..] == input[i + 1..];
        i := i + 1;
      }
      return true;
    }

    method RunOutbound(msg: Msg) returns (r: Reply)
      ensures r == Outbound(outbound, msg)
    {
      var currentMsg, i := msg, |outbound|;
      assert outbound[..i] == outbound;
      while i > 0
        invariant 0 <= i <= |outbound|
        invariant Outbound(outbound, msg) == Outbound(outbound[..i], currentMsg)
      {
        i := i - 1;
        assert outbound[..i + 1][..i] == outbound[..i];
        match outbound[i](currentMsg)
        case Fail(e) => return Fail(e);
        case Consume => return Consume;
        case Pass(m) => currentMsg := m;
      }
      return Pass(currentMsg);
    }

    method RunEncoders(msg: Msg) returns (r: Result<Msg, Error>)
      ensures r == EncodeAll(encoders, msg)
    {
      var currentMsg, i := msg, |encoders|;
      assert encoders[..i] == encoders;
      while i > 0
        invariant 0 <= i <= |encoders|
        invariant EncodeAll(encoders, msg) == EncodeAll(encoders[..i], currentMsg)
      {
        i := i - 1;
        assert encoders[..i + 1][..i] == encoders[..i];
        var encoded := RunEncoder(encoders[i], currentMsg);
        match encoded
        case Err(e) => return Err(e);
        case Ok(b) => currentMsg := Raw(b);
      }
      return Ok(currentMsg);
    }

    /** Write: handlers and encoders last to first, then one conn.Write that may fail. */
    method Write(msg: Msg, fault: Option<Error>) returns (result: WriteResult)
      modifies this`written
      ensures var (bytes, r) := WriteEffect(outbound, encoders, msg, fault);
        written == old(written) + bytes && result == r
    {
      var handled := RunOutbound(msg);
      match handled
      case Fail(e) => return Failure(e);
      case Consume => return Succeeded;
      case Pass(m) =>
        var encoded := RunEncoders(m);
        if encoded.Err? {
          return Failure(encoded.error);
        }
        if !encoded.value.Raw? {
          return FailedWith(NotEnoughData);
        }
        if fault.Some? {
          return Failure(fault.value);
        }
        written := written + encoded.value.bytes;
        return Succeeded;
    }
  }
}

/** What the encoders write comes back through the decoders: exactly when, and in any chunking. */
module RoundTrips {
  import opened Bytes
  import opened Values
  import opened Decoders
  import opened Encoders
  import opened Streaming
  import opened FrameLaws

  // ----- Lists of messages, for any codec -----

  function Concat(ws: seq<seq<byte>>): seq<byte> {
    if ws == [] then [] else ws[0] + Concat(ws[1..])
  }

  /** The bytes w are decoded to m and used up, whatever follows them. */
  ghost predicate Delivers(c: Chain, w: seq<byte>, m: Msg) {
    forall t: seq<byte> {:trigger w + t} :: ChainStep(c, w + t) == Got(m, |w|)
  }

  /** The bytes w are not decoded to m, whatever follows them. */
  ghost predicate Loses(c: Chain, w: seq<byte>, m: Msg) {
    forall t: seq<byte> {:trigger w + t} ::
      !(ChainStep(c, w + t).Got? && ChainStep(c, w + t).msg == m)
  }

  /** Messages ms have been put on the wire as ws; each is delivered or lost on its own. */
  ghost predicate Sent(c: Chain, ms: seq<Msg>, ws: seq<seq<byte>>) {
    && |ms| == |ws|
    && forall i :: 0 <= i < |ws| ==>
         ws[i] != [] && (Delivers(c, ws[i], ms[i]) || Loses(c, ws[i], ms[i]))
  }

  lemma {:induction false} ParseDelivered(c: Chain, hs: seq<Handler>, m: Msg, w: seq<byte>, t: seq<byte>)
    requires AcceptsAll(hs) && w != [] && Delivers(c, w, m)
    ensures Parse(c, hs, w + t) == Prepend(m, Parse(c, hs, t))
  {
    assert ChainStep(c, w + t) == Got(m, |w|);
    ParseGot(c, hs, w + t, m, |w|);
    assert (w + t)[|w|..] == t;
  }

  lemma {:induction false} ParseLost(c: Chain, hs: seq<Handler>, m: Msg, w: seq<byte>, t: seq<byte>)
    requires AcceptsAll(hs) && w != [] && Loses(c, w, m)
    ensures var p := Parse(c, hs, w + t); p.fired != [] ==> p.fired[0] != m
    ensures !Delivers(c, w, m)
  {
    var a := ChainStep(c, w + t);
    assert !(a.Got? && a.msg == m);
  }

  ghost predicate AllDelivered(c: Chain, ms: seq<Msg>, ws: seq<seq<byte>>)
    requires |ms| == |ws|
  {
    forall i :: 0 <= i < |ws| ==> Delivers(c, ws[i], ms[i])
  }

  lemma {:induction false} AllDeliveredCons(c: Chain, ms: seq<Msg>, ws: seq<seq<byte>>)
    requires |ms| == |ws| > 0
    ensures AllDelivered(c, ms, ws)
        <==> Delivers(c, ws[0], ms[0]) && AllDelivered(c, ms[1..], ws[1..])
  {
    var ms', ws' := ms[1..], ws[1..];
    assert forall i :: 0 <= i < |ws'| ==> ws'[i] == ws[i + 1] && ms'[i] == ms[i + 1];
    if Delivers(c, ws[0], ms[0]) && AllDelivered(c, ms', ws') {
      forall i | 0 <= i < |ws| ensures Delivers(c, ws[i], ms[i]) {
        assert i > 0 ==> Delivers(c, ws'[i - 1], ms'[i - 1]);
      }
    }
  }

  lemma {:induction false} DeliveredOrLost(c: Chain, ms: seq<Msg>, ws: seq<seq<byte>>)
    requires Sent(c, ms, ws)
    ensures forall i :: 0 <= i < |ws| ==> (Loses(c, ws[i], ms[i]) <==> !Delivers(c, ws[i], ms[i]))
  {
    forall i | 0 <= i < |ws| && Loses(c, ws[i], ms[i]) ensures !Delivers(c, ws[i], ms[i]) {
      assert !(ChainStep(c, ws[i] + []).Got? && ChainStep(c, ws[i] + []).msg == ms[i]);
    }
  }

  /** A list comes back whole, with nothing left over, exactly when each message is delivered. */
  lemma {:induction false} ListRoundTripIff(
      c: Chain, hs: seq<Handler>, ms: seq<Msg>, ws: seq<seq<byte>>)
    requires AcceptsAll(hs) && Sent(c, ms, ws)
    ensures Parse(c, hs, Concat(ws)) == Trace(ms, Open([])) <==> AllDelivered(c, ms, ws)
    decreases |ws|
  {
    if ws != [] {
      ListRoundTripIff(c, hs, ms[1..], ws[1..]);
      AllDeliveredCons(c, ms, ws);
      var rest := Concat(ws[1..]);
      if Delivers(c, ws[0], ms[0]) {
        ParseDelivered(c, hs, ms[0], ws[0], rest);
        var p := Parse(c, hs, rest);
        assert ms == [ms[0]] + ms[1..];
        assert Prepend(ms[0], p).fired[1..] == p.fired;
      } else {
        ParseLost(c, hs, ms[0], ws[0], rest);
      }
    }
  }

  /** The same for a session of the read loop, however the bytes are cut into reads. */
  lemma {:induction false} SessionRoundTripIff(
      ds: seq<Decoder>, hs: seq<Handler>, ms: seq<Msg>, ws: seq<seq<byte>>, input: seq<Read>)
    requires ds != [] && PrefixStable(ds[0]) && AcceptsAll(hs) && Sent(ChainOf(ds), ms, ws)
    requires Received(input) == Concat(ws) && Ending(input) == None
    ensures ReadRun(ds, hs, [], input) == Session(ms, [], [], Reading)
        <==> AllDelivered(ChainOf(ds), ms, ws)
  {
    ChunkingInvariance(ds, hs, input);
    ListRoundTripIff(ChainOf(ds), hs, ms, ws);
  }

  /** Each message went through the encoders es and reached the connection as ws. */
  predicate Encoded(es: seq<Encoder>, ms: seq<Msg>, ws: seq<seq<byte>>) {
    |ms| == |ws| && forall i :: 0 <= i < |ws| ==> OnWire(es, ms[i]) == Ok(ws[i])
  }

  /** What each encoder takes, with the error it answers otherwise. */
  lemma {:induction false} EncodersAccept(width: int, includesHeader: bool, m: Msg)
    requires ValidWidth(width)
    ensures OnWire([LengthFieldEncoder(width, includesHeader)], m).Ok? <==> m.Raw?
    ensures OnWire([LineEncoder], m).Ok? <==> m.Text? || m.Raw?
    ensures OnWire([MessageEncoder], m).Ok? <==> m.Packet?
    ensures !m.Raw? ==> OnWire([LengthFieldEncoder(width, includesHeader)], m) == Err(UnexpectedMessageType)
    ensures !m.Text? && !m.Raw? ==> OnWire([LineEncoder], m) == Err(UnexpectedMessageType)
    ensures !m.Packet? ==> OnWire([MessageEncoder], m) == Err(NotEnoughData)
    ensures m.Raw? ==> OnWire([LineEncoder], m) == OnWire([LineEncoder], Text(m.bytes))
  {
    OneEncoder(LengthFieldEncoder(width, includesHeader), m);
    OneEncoder(LineEncoder, m);
    OneEncoder(MessageEncoder, m);
    if m.Raw? {
      OneEncoder(LineEncoder, Text(m.bytes));
    }
  }

  /** A field width the switch does not know is an error for every payload. */
  lemma {:induction false} BadWidthRefused(width: nat, includesHeader: bool, data: seq<byte>)
    requires !ValidWidth(width)
    ensures OnWire([LengthFieldEncoder(width, includesHeader)], Raw(data)) == Err(InvalidLengthField)
  {
    OneEncoder(LengthFieldEncoder(width, includesHeader), Raw(data));
  }

  // ----- Length fields -----

  function Prepended(max: int, width: int, includesHeader: bool): Framing {
    Framing(max, 0, width, if includesHeader then -width else 0, width)
  }

  function Written(width: nat, includesHeader: bool, data: seq<byte>): nat {
    |data| + if includesHeader then width else 0
  }

  predicate FitsField(max: int, width: nat, includesHeader: bool, data: seq<byte>) {
    |data| <= max && Written(width, includesHeader, data) < Pow256(width)
  }

  /** A length field in front, read and stripped: the announced number of bytes behind it. */
  lemma {:induction false} LeadingFieldFrame(f: Framing, field: seq<byte>, rest: seq<byte>)
    requires Configured(f) && f.offset == 0 && f.strip == f.width == |field|
    requires GetUint(field) < TWO_63 && GetUint(field) + f.adjust < TWO_63
    ensures var n := GetUint(field) + f.adjust;
      LengthFieldStep(f, field + rest) ==
        if n > f.maxFrame then Bad(MessageTooLarge)
        else if |rest| < n then More
        else if n < 0 then Bad(Panicked)
        else Got(Raw(rest[..n]), |field| + n)
  {
    var s := field + rest;
    assert s[0..f.width] == field;
    LengthFieldFrame(f, s, GetUint(field));
    var n := GetUint(field) + f.adjust;
    if 0 <= n <= |rest| {
      assert s[f.width..f.width + n] == rest[..n];
    }
  }

  lemma {:induction false} FieldReadsBack(width: nat, l: nat)
    requires ValidWidth(width) && l < TWO_63
    ensures var v := GetUint(PutUint(width, l));
            v < TWO_63 && if l < Pow256(width) then v == l else v < l
  {
    Pow256Values();
    var p := Pow256(width);
    if l < p {
      GetPutInRange(width, l);
    } else if width == 1 {
      GetPut(1, l, l / 0x100, l % 0x100);
    } else if width == 2 {
      GetPut(2, l, l / 0x1_0000, l % 0x1_0000);
    } else {
      GetPut(4, l, l / TWO_32, l % TWO_32);
    }
  }

  lemma {:induction false} PayloadBehindField(f: Framing, field: seq<byte>, data: seq<byte>, t: seq<byte>)
    requires Configured(f) && f.offset == 0 && f.strip == f.width == |field|
    requires GetUint(field) < TWO_63 && GetUint(field) + f.adjust <= |data| < TWO_63
    ensures var a := LengthFieldStep(f, field + (data + t));
      if GetUint(field) + f.adjust == |data| <= f.maxFrame
      then a == Got(Raw(data), |field| + |data|)
      else a.Got? ==> a.msg.Raw? && |a.msg.bytes| < |data|
  {
    assert (data + t)[..|data|] == data;
    LeadingFieldFrame(f, field, data + t);
  }

  /** A payload comes back exactly when it is within the maximum and its length fits the field;
      otherwise at most a shorter frame is cut from it. */
  lemma {:induction false} LengthFieldPayload(max: nat, width: nat, includesHeader: bool, data: seq<byte>, t: seq<byte>)
    requires max < TWO_62 && ValidWidth(width) && |data| + width < TWO_63
    ensures var a := LengthFieldStep(Prepended(max, width, includesHeader),
                       PutUint(width, Written(width, includesHeader, data)) + (data + t));
      if FitsField(max, width, includesHeader, data)
      then a == Got(Raw(data), width + |data|)
      else a.Got? ==> a.msg.Raw? && |a.msg.bytes| < |data|
  {
    var l := Written(width, includesHeader, data);
    FieldReadsBack(width, l);
    PayloadBehindField(Prepended(max, width, includesHeader), PutUint(width, l), data, t);
  }

  lemma {:induction false} LengthFieldMessage(max: nat, width: nat, includesHeader: bool, m: Msg, w: seq<byte>)
    requires max < TWO_62 && ValidWidth(width) && |w| < TWO_63
    requires OnWire([LengthFieldEncoder(width, includesHeader)], m) == Ok(w)
    ensures m.Raw? && w != []
    ensures var c := Chain(LengthField(Prepended(max, width, includesHeader)), []);
      if FitsField(max, width, includesHeader, m.bytes) then Delivers(c, w, m) else Loses(c, w, m)
  {
    OneEncoder(LengthFieldEncoder(width, includesHeader), m);
    var data := m.bytes;
    var field := PutUint(width, Written(width, includesHeader, data));
    assert w == field + data;
    forall t: seq<byte>
      ensures w + t == field + (data + t)
    {
      assert field + data + t == field + (data + t);
    }
    forall t: seq<byte> {
      LengthFieldPayload(max, width, includesHeader, data, t);
    }
  }

  lemma {:induction false} LengthFieldRoundTripIff(max: nat, width: nat, includesHeader: bool, hs: seq<Handler>,
                                ms: seq<Msg>, ws: seq<seq<byte>>, input: seq<Read>)
    requires max < TWO_62 && AcceptsAll(hs) && ValidWidth(width)
    requires Encoded([LengthFieldEncoder(width, includesHeader)], ms, ws)
    requires forall i :: 0 <= i < |ws| ==> |ws[i]| < TWO_63
    requires Received(input) == Concat(ws) && Ending(input) == None
    ensures ReadRun([LengthField(Prepended(max, width, includesHeader))], hs, [], input)
            == Session(ms, [], [], Reading)
        <==> forall i :: 0 <= i < |ms| ==>
               ms[i].Raw? && FitsField(max, width, includesHeader, ms[i].bytes)
  {
    var ds := [LengthField(Prepended(max, width, includesHeader))];
    var c := ChainOf(ds);
    assert c == Chain(ds[0], []);
    forall i | 0 <= i < |ws|
      ensures ms[i].Raw? && ws[i] != []
      ensures if FitsField(max, width, includesHeader, ms[i].bytes)
              then Delivers(c, ws[i], ms[i]) else Loses(c, ws[i], ms[i])
    {
      LengthFieldMessage(max, width, includesHeader, ms[i], ws[i]);
    }
    DeliveredOrLost(c, ms, ws);
    LengthFieldStable(ds[0].framing);
    SessionRoundTripIff(ds, hs, ms, ws, input);
  }

  // ----- Lines -----

  predicate FitsLine(maxLength: int, text: seq<byte>) {
    LF !in text && |text| + 1 <= maxLength
  }

  lemma {:induction false} LinePayload(maxLength: int, text: seq<byte>, t: seq<byte>)
    ensures var a := LineStep(maxLength, text + [CR, LF] + t);
      if FitsLine(maxLength, text)
      then a == Got(Text(text), |text| + 2)
      else !(a.Got? && a.msg == Text(text))
  {
    var s := text + [CR, LF] + t;
    var i := First([LF], s);
    assert s[|text| + 1..|text| + 2] == [LF];
    assert OccursAt([LF], s, |text| + 1);
    assert s[i..i + 1] == [LF];
    if LF in text {
      var j :| 0 <= j < |text| && text[j] == LF;
      assert s[j..j + 1] == [LF];
      assert OccursAt([LF], s, j);
      assert |s[..i]| < |text|;
    } else {
      assert s[i] == LF && i == |text| + 1;
      assert s[..i] == text + [CR];
      assert TrimCR(s[..i]) == text;
    }
  }

  lemma {:induction false} LineMessage(maxLength: int, m: Msg, w: seq<byte>)
    requires m.Text? && OnWire([LineEncoder], m) == Ok(w)
    ensures w != []
    ensures var c := Chain(Line(maxLength), []);
      if FitsLine(maxLength, m.text) then Delivers(c, w, m) else Loses(c, w, m)
  {
    OneEncoder(LineEncoder, m);
    forall t: seq<byte> {
      LinePayload(maxLength, m.text, t);
    }
  }

  /** A list of strings comes back exactly when none has a '\n' or exceeds maxLength - 1. */
  lemma {:induction false} LineRoundTripIff(maxLength: int, hs: seq<Handler>,
                         ms: seq<Msg>, ws: seq<seq<byte>>, input: seq<Read>)
    requires AcceptsAll(hs) && forall i :: 0 <= i < |ms| ==> ms[i].Text?
    requires Encoded([LineEncoder], ms, ws)
    requires Received(input) == Concat(ws) && Ending(input) == None
    ensures ReadRun([Line(maxLength)], hs, [], input) == Session(ms, [], [], Reading)
        <==> forall i :: 0 <= i < |ms| ==> FitsLine(maxLength, ms[i].text)
  {
    var ds := [Line(maxLength)];
    var c := ChainOf(ds);
    assert c == Chain(ds[0], []);
    forall i | 0 <= i < |ws|
      ensures ws[i] != []
      ensures if FitsLine(maxLength, ms[i].text)
              then Delivers(c, ws[i], ms[i]) else Loses(c, ws[i], ms[i])
    {
      LineMessage(maxLength, ms[i], ws[i]);
    }
    DeliveredOrLost(c, ms, ws);
    LineStable(maxLength);
    SessionRoundTripIff(ds, hs, ms, ws, input);
  }

  // ----- Delimiters -----

  lemma {:induction false} DelimiterPayload(delim: seq<byte>, maxLength: int, data: seq<byte>, t: seq<byte>)
    ensures var a := DelimiterStep(delim, maxLength, data + delim + t);
      if LeftmostCut(Raw(data), delim, maxLength)
      then a == Got(Raw(data), |data| + |delim|)
      else !(a.Got? && a.msg == Raw(data))
  {
    var front := data + delim;
    assert front[|data|..|data| + |delim|] == delim;
    assert OccursAt(delim, front, |data|);
    FirstAppend(delim, front, t);
    var i := First(delim, front + t);
    assert i == First(delim, front) && 0 <= i <= |data|;
    assert (front + t)[..|data|] == data;
  }

  /**
   A list of byte strings, each sent with the delimiter behind it, comes back exactly when the
   first occurrence of the delimiter is that one and the maximum is kept. This covers delimiters
   that overlap themselves or the end of a message.
   */
  lemma {:induction false} DelimiterRoundTripIff(delim: seq<byte>, maxLength: int, hs: seq<Handler>,
                              ms: seq<Msg>, ws: seq<seq<byte>>, input: seq<Read>)
    requires AcceptsAll(hs) && delim != [] && |ms| == |ws|
    requires forall i :: 0 <= i < |ms| ==> ms[i].Raw? && ws[i] == ms[i].bytes + delim
    requires Received(input) == Concat(ws) && Ending(input) == None
    ensures ReadRun([Delimiter(delim, maxLength)], hs, [], input) == Session(ms, [], [], Reading)
        <==> forall i :: 0 <= i < |ms| ==> LeftmostCut(ms[i], delim, maxLength)
  {
    var ds := [Delimiter(delim, maxLength)];
    var c := ChainOf(ds);
    assert c == Chain(ds[0], []);
    forall i | 0 <= i < |ws|
      ensures if LeftmostCut(ms[i], delim, maxLength)
              then Delivers(c, ws[i], ms[i]) else Loses(c, ws[i], ms[i])
    {
      forall t: seq<byte> {
        DelimiterPayload(delim, maxLength, ms[i].bytes, t);
      }
    }
    DeliveredOrLost(c, ms, ws);
    DelimiterStable(delim, maxLength);
    SessionRoundTripIff(ds, hs, ms, ws, input);
  }

  // ----- The request-response stack: messages in length-field frames -----

  const MAX_FRAME := 65536

  const STACK_DECODERS: seq<Decoder> := [LengthField(Prepended(MAX_FRAME, 4, false)), MessageDecoder]
  const STACK_ENCODERS: seq<Encoder> := [LengthFieldEncoder(4, false), MessageEncoder]

  /** The layout of a message: number and type in four bytes each, most significant first, then the value. */
  lemma {:induction false} MessageLayout(m: Message)
    ensures var b := MessageBytes(m);
      && |b| == 8 + |m.value| && b[8..] == m.value
      && Wrap32(GetUint(b[..4])) == m.seqNo && Wrap32(GetUint(b[4..8])) == m.kind
  {
    var b := MessageBytes(m);
    assert b[..4] == PutUint(4, m.seqNo);
    assert b[4..8] == PutUint(4, m.kind);
    SignedFieldRoundTrip(m.seqNo);
    SignedFieldRoundTrip(m.kind);
  }

  lemma {:induction false} MessageReadsBack(m: Message)
    ensures MessageStep(MessageBytes(m)) == Got(Packet(m), |MessageBytes(m)|)
  {
    var b := MessageBytes(m);
    assert b[..4] == PutUint(4, m.seqNo);
    assert b[4..8] == PutUint(4, m.kind);
    assert b[8..] == m.value;
    SignedFieldRoundTrip(m.seqNo);
    SignedFieldRoundTrip(m.kind);
  }

  /** The stack's encoders take every packet and nothing else. */
  lemma {:induction false} StackAcceptsIff(m: Msg)
    ensures OnWire(STACK_ENCODERS, m).Ok? <==> m.Packet?
  {
    TwoEncoders(LengthFieldEncoder(4, false), MessageEncoder, m);
  }

  const STACK_CHAIN := Chain(STACK_DECODERS[0], [MessageDecoder])

  lemma {:induction false} StackChainIsStack()
    ensures ChainOf(STACK_DECODERS) == STACK_CHAIN
  {
    assert STACK_DECODERS[1..] == [MessageDecoder];
  }

  lemma {:induction false} StackStep(m: Message, t: seq<byte>)
    requires |m.value| + 12 < TWO_63
    ensures var b := MessageBytes(m);
      var a := ChainStep(STACK_CHAIN, PutUint(4, |b|) + (b + t));
      if |m.value| <= MAX_FRAME - 8
      then a == Got(Packet(m), 4 + |b|)
      else !(a.Got? && a.msg == Packet(m))
  {
    var b := MessageBytes(m);
    var s := PutUint(4, |b|) + (b + t);
    var a := Step(STACK_DECODERS[0], s);
    if a.Got? {
      OneLaterDecoder(MessageDecoder, a.msg);
    }
    MessageReadsBack(m);
    Pow256Values();
    assert FitsField(MAX_FRAME, 4, false, b) <==> |m.value| <= MAX_FRAME - 8;
    LengthFieldPayload(MAX_FRAME, 4, false, b, t);
  }

  lemma {:induction false} StackMessage(m: Msg, w: seq<byte>)
    requires OnWire(STACK_ENCODERS, m) == Ok(w) && |w| < TWO_63
    ensures m.Packet? && w != []
    ensures var c := STACK_CHAIN;
      if |m.message.value| <= MAX_FRAME - 8 then Delivers(c, w, m) else Loses(c, w, m)
  {
    TwoEncoders(LengthFieldEncoder(4, false), MessageEncoder, m);
    var b := MessageBytes(m.message);
    var field := PutUint(4, |b|);
    assert w == field + b;
    forall t: seq<byte>
      ensures w + t == field + (b + t)
    {
      assert field + b + t == field + (b + t);
    }
    forall t: seq<byte> {
      StackStep(m.message, t);
    }
  }

  /**
   End to end: messages written through the reversed encoders and read in any chunking through
   the decoders come back equal, negative numbers included, exactly when no value is longer
   than 65528 bytes.
   */
  lemma {:induction false} StackRoundTripIff(hs: seq<Handler>, ms: seq<Msg>, ws: seq<seq<byte>>, input: seq<Read>)
    requires AcceptsAll(hs) && Encoded(STACK_ENCODERS, ms, ws)
    requires forall i :: 0 <= i < |ws| ==> |ws[i]| < TWO_63
    requires Received(input) == Concat(ws) && Ending(input) == None
    ensures ReadRun(STACK_DECODERS, hs, [], input) == Session(ms, [], [], Reading)
        <==> forall i :: 0 <= i < |ms| ==> ms[i].Packet? && |ms[i].message.value| <= 65528
  {
    var c := STACK_CHAIN;
    StackChainIsStack();
    forall i | 0 <= i < |ws|
      ensures ms[i].Packet? && ws[i] != []
      ensures if |ms[i].message.value| <= MAX_FRAME - 8
              then Delivers(c, ws[i], ms[i]) else Loses(c, ws[i], ms[i])
    {
      StackMessage(ms[i], ws[i]);
    }
    DeliveredOrLost(c, ms, ws);
    LengthFieldStable(STACK_DECODERS[0].framing);
    SessionRoundTripIff(STACK_DECODERS, hs, ms, ws, input);
  }

  /** The bytes the frame encoder makes of a payload. */
  function Framed(payload: seq<byte>): seq<byte> { PutUint(4, |payload|) + payload }

  /**
   A frame of fewer than eight bytes is refused by the message decoder and stays in front of the
   buffer: whatever follows, nothing more is fired and the buffer keeps growing.
   */
  lemma {:induction false} ShortFrameBlocksStack(hs: seq<Handler>, payload: seq<byte>, t: seq<byte>)
    requires |payload| < 8
    ensures Parse(STACK_CHAIN, hs, Framed(payload) + t) == Trace([], Open(Framed(payload) + t))
  {
    Pow256Values();
    var s := Framed(payload);
    LengthFieldPayload(MAX_FRAME, 4, false, payload, []);
    assert payload + [] == payload;
    OneLaterDecoder(MessageDecoder, Raw(payload));
    LengthFieldStable(STACK_DECODERS[0].framing);
    RefusedFrameBlocks(STACK_CHAIN, hs, s, t);
  }

  /** No bytes that follow make the stack fire, fail or drop anything. */
  ghost predicate Blocked(hs: seq<Handler>, s: seq<byte>) {
    forall t: seq<byte> {:trigger s + t} :: Parse(STACK_CHAIN, hs, s + t) == Trace([], Open(s + t))
  }

  /** A frame of eight bytes or more is answered at once: as a message, or as too large. */
  lemma {:induction false} LongFrameAnswered(payload: seq<byte>)
    requires 8 <= |payload| < TWO_32
    ensures !ChainStep(STACK_CHAIN, Framed(payload)).More?
  {
    Pow256Values();
    var f := Prepended(MAX_FRAME, 4, false);
    FieldReadsBack(4, |payload|);
    LeadingFieldFrame(f, PutUint(4, |payload|), payload);
    if |payload| <= MAX_FRAME {
      assert payload[..|payload|] == payload;
      OneLaterDecoder(MessageDecoder, Raw(payload));
    }
  }

  /** A complete frame blocks the connection for good exactly when it is shorter than eight bytes. */
  lemma {:induction false} FrameBlocksStackIff(hs: seq<Handler>, payload: seq<byte>)
    requires |payload| < TWO_32
    ensures Blocked(hs, Framed(payload)) <==> |payload| < 8
  {
    var s := Framed(payload);
    if |payload| < 8 {
      forall t: seq<byte> {
        ShortFrameBlocksStack(hs, payload, t);
      }
    } else {
      LongFrameAnswered(payload);
      assert s + [] == s;
      assert Parse(STACK_CHAIN, hs, s + []) != Trace([], Open(s));
    }
  }

  /** The stack's read loop ends its decoding on every input. */
  lemma {:induction false} StackNeverHangs(hs: seq<Handler>, buffered: seq<byte>, input: seq<Read>)
    ensures ReadRun(STACK_DECODERS, hs, buffered, input).status != Hung
  {
    StripIsProgress(Prepended(MAX_FRAME, 4, false));
    ProductiveNeverHangs(STACK_DECODERS, hs, buffered, input);
  }

  /** And no number bounds what it buffers, on account of short frames. */
  lemma {:induction false} StackHasNoBound(hs: seq<Handler>)
    ensures !exists n: nat :: LeavesAtMost(STACK_CHAIN, hs, n)
  {
    Pow256Values();
    var payload: seq<byte> := [];
    LengthFieldStable(STACK_DECODERS[0].framing);
    LengthFieldPayload(MAX_FRAME, 4, false, payload, []);
    OneLaterDecoder(MessageDecoder, Raw(payload));
    var s := PutUint(4, 0) + (payload + []);
    assert ChainRest(STACK_CHAIN.later, Step(STACK_CHAIN.first, s).msg).More?;
    RefusalHasNoBound(STACK_CHAIN, hs, s);
  }
}

/** The encoders of channel/codec.go and example/request_response.go, and the encoder chain of Write. */
module Encoders {
  import opened Bytes
  import opened Values
  import opened Decoders

  datatype Encoder =
    | LengthFieldEncoder(width: int, includesHeader: bool)
    | LineEncoder
    | MessageEncoder
    | MessageToByte(encode: Msg -> Result<seq<byte>, Error>)

  // ----- What each encoder writes -----

  function LengthFieldBytes(width: int, includesHeader: bool, data: seq<byte>)
    : Result<seq<byte>, Error>
  {
    if width + |data| < 0 then Err(Panicked)
    else if !ValidWidth(width) then Err(InvalidLengthField)
    else Ok(PutUint(width, |data| + if includesHeader then width else 0) + data)
  }

  function MessageBytes(m: Message): seq<byte> {
    PutUint(4, m.seqNo) + PutUint(4, m.kind) + m.value
  }

  function Encode(e: Encoder, m: Msg): Result<seq<byte>, Error> {
    match e
    case LengthFieldEncoder(w, h) =>
      if m.Raw? then LengthFieldBytes(w, h, m.bytes) else Err(UnexpectedMessageType)
    case LineEncoder =>
      if m.Text? then Ok(m.text + [CR, LF])
      else if m.Raw? then Ok(m.bytes + [CR, LF])
      else Err(UnexpectedMessageType)
    case MessageEncoder => if m.Packet? then Ok(MessageBytes(m.message)) else Err(NotEnoughData)
    case MessageToByte(fn) => fn(m)
  }

  /** The encoders applied last to first, as Write does. */
  function EncodeAll(es: seq<Encoder>, m: Msg): Result<Msg, Error> {
    if es == [] then Ok(m)
    else
      match Encode(es[|es| - 1], m)
      case Ok(b) => EncodeAll(es[..|es| - 1], Raw(b))
      case Err(e) => Err(e)
  }

  /** The bytes Write hands to the connection. */
  function OnWire(es: seq<Encoder>, m: Msg): Result<seq<byte>, Error> {
    match EncodeAll(es, m)
    case Ok(m') => if m'.Raw? then Ok(m'.bytes) else Err(NotEnoughData)
    case Err(e) => Err(e)
  }

  /** What stage i of Write is given: the message, and then what the stage before has made. */
  function StageInput(bs: seq<seq<byte>>, m: Msg, i: nat): Msg
    requires i <= |bs|
  {
    if i == 0 then m else Raw(bs[i - 1])
  }

  predicate StageAt(es: seq<Encoder>, bs: seq<seq<byte>>, m: Msg, i: nat)
    requires i < |bs| <= |es|
  {
    Encode(es[|es| - 1 - i], StageInput(bs, m, i)) == Ok(bs[i])
  }

  /** The encoders, from the last on, make bs one after the other; the next one, or the end, answers r. */
  predicate Stages(es: seq<Encoder>, bs: seq<seq<byte>>, m: Msg, r: Result<seq<byte>, Error>) {
    && |bs| <= |es|
    && (forall i :: 0 <= i < |bs| ==> StageAt(es, bs, m, i))
    && var last := StageInput(bs, m, |bs|);
    if |bs| == |es| then r == if last.Raw? then Ok(last.bytes) else Err(NotEnoughData)
    else r.Err? && Encode(es[|es| - 1 - |bs|], last) == r
  }

  lemma {:induction false} StageShifts(es: seq<Encoder>, b: seq<byte>, bs: seq<seq<byte>>, m: Msg, i: nat)
    requires i < |bs| < |es|
    ensures StageAt(es, [b] + bs, m, i + 1) == StageAt(es[..|es| - 1], bs, Raw(b), i)
  {
    var all, front := [b] + bs, es[..|es| - 1];
    assert all[i + 1] == bs[i] && StageInput(all, m, i + 1) == StageInput(bs, Raw(b), i);
    assert front[|front| - 1 - i] == es[|es| - 1 - (i + 1)];
  }

  lemma {:induction false} StagesRest(
      es: seq<Encoder>, b: seq<byte>, bs: seq<seq<byte>>, m: Msg, r: Result<seq<byte>, Error>)
    requires es != [] && Encode(es[|es| - 1], m) == Ok(b)
    ensures Stages(es, [b] + bs, m, r) <==> Stages(es[..|es| - 1], bs, Raw(b), r)
  {
    if |bs| < |es| {
      var all, front := [b] + bs, es[..|es| - 1];
      assert StageInput(all, m, |all|) == StageInput(bs, Raw(b), |bs|);
      assert |bs| < |front| ==> front[|front| - 1 - |bs|] == es[|es| - 1 - |all|];
      forall i: nat | i < |bs| ensures StageAt(es, all, m, i + 1) == StageAt(front, bs, Raw(b), i) {
        StageShifts(es, b, bs, m, i);
      }
      assert StageAt(es, all, m, 0);
      assert forall i: nat {:trigger StageAt(es, all, m, i)} :: 0 < i < |all| ==>
        StageAt(es, all, m, i) == StageAt(front, bs, Raw(b), i - 1);
      assert forall i: nat {:trigger StageAt(front, bs, Raw(b), i)} :: i < |bs| ==>
        StageAt(es, all, m, i + 1) == StageAt(front, bs, Raw(b), i);
    }
  }

  lemma {:induction false} StagesFirst(es: seq<Encoder>, bs: seq<seq<byte>>, m: Msg, r: Result<seq<byte>, Error>)
    requires Stages(es, bs, m, r) && es != []
    ensures bs != [] ==> Encode(es[|es| - 1], m) == Ok(bs[0])
    ensures bs == [] ==> r.Err? && Encode(es[|es| - 1], m) == r
  {
    assert bs != [] ==> StageAt(es, bs, m, 0);
  }

  /** Write puts on the wire what the encoders, each applied to what the next made, come to. */
  lemma {:induction false} OnWireIff(es: seq<Encoder>, m: Msg, r: Result<seq<byte>, Error>)
    ensures OnWire(es, m) == r <==> exists bs :: Stages(es, bs, m, r)
    decreases |es|
  {
    if es != [] && Encode(es[|es| - 1], m).Ok? {
      var b, front := Encode(es[|es| - 1], m).value, es[..|es| - 1];
      OnWireIff(front, Raw(b), r);
      if bs :| Stages(front, bs, Raw(b), r) {
        StagesRest(es, b, bs, m, r);
        assert Stages(es, [b] + bs, m, r);
      }
      forall bs | Stages(es, bs, m, r) ensures Stages(front, bs[1..], Raw(b), r) {
        StagesFirst(es, bs, m, r);
        assert bs == [b] + bs[1..];
        StagesRest(es, b, bs[1..], m, r);
      }
    } else {
      forall bs | Stages(es, bs, m, r) ensures OnWire(es, m) == r {
        if es != [] {
          StagesFirst(es, bs, m, r);
        }
      }
      assert OnWire(es, m) == r ==> Stages(es, [], m, r);
    }
  }

  lemma {:induction false} OneEncoder(e: Encoder, m: Msg)
    ensures OnWire([e], m) == Encode(e, m)
  {
    var es := [e];
    assert es[|es| - 1] == e && es[..|es| - 1] == [];
    if Encode(e, m).Ok? {
      assert EncodeAll([], Raw(Encode(e, m).value)) == Ok(Raw(Encode(e, m).value));
    }
  }

  /** Write runs the encoder nearest the socket on what the one behind it made. */
  lemma {:induction false} TwoEncoders(frame: Encoder, protocol: Encoder, m: Msg)
    ensures OnWire([frame, protocol], m)
         == (match Encode(protocol, m) case Ok(b) => Encode(frame, Raw(b)) case Err(e) => Err(e))
  {
    assert [frame, protocol][..1] == [frame];
    if Encode(protocol, m).Ok? {
      OneEncoder(frame, Raw(Encode(protocol, m).value));
    }
  }

  // ----- The code that fills the result -----

  /** binary.BigEndian.PutUint8..64 at an offset of the result. */
  method PutUintAt(a: array<byte>, at: nat, width: nat, v: int)
    requires at + width <= a.Length
    modifies a
    ensures a[..] == old(a[..at]) + PutUint(width, v) + old(a[at + width..])
  {
    var i, rest := width, v;
    while i > 0
      invariant 0 <= i <= width
      invariant a[..at] == old(a[..at]) && a[at + width..] == old(a[at + width..])
      invariant PutUint(i, rest) + a[at + i..at + width] == PutUint(width, v)
    {
      ghost var done := a[at + i..at + width];
      i := i - 1;
      a[at + i] := rest % 256;
      assert a[at + i..at + width] == [rest % 256] + done;
      rest := rest / 256;
    }
    assert a[..] == a[..at] + a[at..at + width] + a[at + width..];
  }

  /** copy(result[at:], data) with room to spare. */
  method CopyAt(a: array<byte>, at: nat, data: seq<byte>)
    requires at + |data| <= a.Length
    modifies a
    ensures a[..] == old(a[..at]) + data + old(a[at + |data|..])
  {
    forall i | 0 <= i < |data| {
      a[at + i] := data[i];
    }
  }

  method EncodeLengthField(width: int, includesHeader: bool, data: seq<byte>)
    returns (r: Result<seq<byte>, Error>)
    ensures r == LengthFieldBytes(width, includesHeader, data)
  {
    var length := |data|;
    if includesHeader {
      length := length + width;
    }
    if width + |data| < 0 {
      return Err(Panicked);
    }
    if !ValidWidth(width) {
      return Err(InvalidLengthField);
    }
    var result := new byte[width + |data|];
    PutUintAt(result, 0, width, length);
    assert result[..width] == PutUint(width, length);
    CopyAt(result, width, data);
    assert result[..] == PutUint(width, length) + data;
    return Ok(result[..]);
  }

  method EncodeLine(data: seq<byte>) returns (r: seq<byte>)
    ensures r == data + [CR, LF]
  {
    var result := new byte[|data| + 2];
    CopyAt(result, 0, data);
    result[|data|] := CR;
    result[|data| + 1] := LF;
    return result[..];
  }

  method EncodeMessage(m: Message) returns (r: seq<byte>)
    ensures r == MessageBytes(m)
  {
    var buf := new byte[8 + |m.value|];
    PutUintAt(buf, 0, 4, m.seqNo);
    PutUintAt(buf, 4, 4, m.kind);
    CopyAt(buf, 8, m.value);
    return buf[..];
  }

  method RunEncoder(e: Encoder, m: Msg) returns (r: Result<seq<byte>, Error>)
    ensures r == Encode(e, m)
  {
    match e
    case LengthFieldEncoder(w, h) =>
      if !m.Raw? {
        return Err(UnexpectedMessageType);
      }
      r := EncodeLengthField(w, h, m.bytes);
    case LineEncoder =>
      if !m.Text? && !m.Raw? {
        return Err(UnexpectedMessageType);
      }
      var line := EncodeLine(if m.Text? then m.text else m.bytes);
      r := Ok(line);
    case MessageEncoder =>
      if !m.Packet? {
        return Err(NotEnoughData);
      }
      var packet := EncodeMessage(m.message);
      r := Ok(packet);
    case MessageToByte(fn) => r := fn(m);
  }
}

/**
 The decoders of channel/codec.go and the message decoder of example/request_response.go.

 `Step` says what one call of Decode answers on the unread bytes; `Decode` is the
 imperative code over the buffer, proved to compute it.
 */
module Decoders {
  import opened Bytes
  import opened Values
  import opened Buffers

  /** The answer of one Decode call; `used` is how far the reader index moved. */
  datatype Answer =
    | Got(msg: Msg, used: nat)
    | More                        // (nil, nil): wait for more bytes
    | Bad(error: Error)

  /** The parameters of NewLengthFieldDecoder: Go ints of any sign. */
  datatype Framing = Framing(maxFrame: int, offset: int, width: int, adjust: int, strip: int)
  {
    function HeaderLen(): int { Wrap64(offset + width) }
  }

  datatype Decoder =
    | LengthField(framing: Framing)
    | Line(maxLength: int)
    | Delimiter(delimiter: seq<byte>, maxLength: int)
    | MessageDecoder
    | ByteToMessage(decode: seq<byte> -> Answer)

  predicate ValidWidth(w: int) { w == 1 || w == 2 || w == 4 || w == 8 }

  function Positive(n: int): nat { if n > 0 then n else 0 }

  // ----- First occurrence of a pattern -----

  predicate OccursAt(pat: seq<byte>, s: seq<byte>, i: nat) {
    i + |pat| <= |s| && s[i..i + |pat|] == pat
  }

  /** The index of the first occurrence of pat in s from i on, or -1 when there is none. */
  function FirstFrom(pat: seq<byte>, s: seq<byte>, i: nat): (r: int)
    ensures r == -1 || (i <= r && OccursAt(pat, s, r))
    ensures forall j: nat {:trigger OccursAt(pat, s, j)} ::
      i <= j && (r < 0 || j < r) ==> !OccursAt(pat, s, j)
    decreases |s| - i
  {
    if i + |pat| > |s| then -1
    else if OccursAt(pat, s, i) then i
    else FirstFrom(pat, s, i + 1)
  }

  function First(pat: seq<byte>, s: seq<byte>): (r: int)
    ensures r == -1 || (0 <= r && OccursAt(pat, s, r))
    ensures forall j: nat {:trigger OccursAt(pat, s, j)} ::
      (r < 0 || j < r) ==> !OccursAt(pat, s, j)
  {
    FirstFrom(pat, s, 0)
  }

  // ----- What each decoder answers -----

  /** The frame of `total` bytes at the front of s, less the bytes to strip. */
  function FrameStep(f: Framing, total: int, s: seq<byte>): (a: Answer)
    ensures a.Got? ==> a.used <= |s|
  {
    var from := Positive(f.strip);
    if |s| < total || |s| < from then More
    else
      var n := Wrap64(total - f.strip);
      if n < 0 then Bad(Panicked)
      else if |s| - from < n then More
      else Got(Raw(s[from..from + n]), from + n)
  }

  /** The total frame length the header announces, or the answer when there is none yet. */
  function TotalLength(f: Framing, s: seq<byte>): (r: Result<int, Answer>)
    ensures r.Err? ==> !r.error.Got?
  {
    var from := Positive(f.offset);
    if |s| < f.HeaderLen() || |s| < from then Err(More)
    else if !ValidWidth(f.width) then Err(Bad(InvalidLengthField))
    else if |s| < from + f.width then Err(More)
    else
      var length := Wrap64(Wrap64(GetUint(s[from..from + f.width])) + f.adjust);
      if length > f.maxFrame then Err(Bad(MessageTooLarge))
      else Ok(Wrap64(f.HeaderLen() + length))
  }

  function LengthFieldStep(f: Framing, s: seq<byte>): (a: Answer)
    ensures a.Got? ==> a.used <= |s|
  {
    match TotalLength(f, s)
    case Ok(total) => FrameStep(f, total, s)
    case Err(a) => a
  }

  function DelimiterStep(delim: seq<byte>, maxLength: int, s: seq<byte>): (a: Answer)
    ensures a.Got? ==> a.used <= |s|
  {
    var i := First(delim, s);
    if i >= 0 then
      if i <= maxLength then Got(Raw(s[..i]), i + |delim|) else Bad(MessageTooLarge)
    else
      if |s| - |delim| >= 0 && |s| - |delim| > maxLength then Bad(MessageTooLarge) else More
  }

  const LF: byte := '\n' as int
  const CR: byte := '\r' as int

  function TrimCR(s: seq<byte>): seq<byte> {
    if s != [] && s[|s| - 1] == CR then s[..|s| - 1] else s
  }

  /** A line is what precedes the first '\n', less one '\r' at its end. */
  function LineStep(maxLength: int, s: seq<byte>): (a: Answer)
    ensures a.Got? ==> a.used <= |s|
  {
    match DelimiterStep([LF], maxLength, s)
    case Got(m, used) => Got(Text(TrimCR(m.bytes)), used)
    case other => other
  }

  function MessageStep(s: seq<byte>): (a: Answer)
    ensures a.Got? ==> a.used <= |s|
  {
    if |s| < 8 then More
    else Got(Packet(Message(Wrap32(GetUint(s[..4])), Wrap32(GetUint(s[4..8])), s[8..])), |s|)
  }

  function Step(d: Decoder, s: seq<byte>): (a: Answer)
    ensures a.Got? ==> a.used <= |s|
  {
    match d
    case LengthField(f) => LengthFieldStep(f, s)
    case Line(m) => LineStep(m, s)
    case Delimiter(p, m) => DelimiterStep(p, m, s)
    case MessageDecoder => MessageStep(s)
    case ByteToMessage(fn) =>
      // a decode function cannot move the reader index past the data
      match fn(s) case Got(m, k) => Got(m, if k <= |s| then k else |s|) case other => other
  }

  // ----- The code that runs over the buffer -----

  /** `if n > 0 { buf.Skip(n) }`, which leaves the reader index alone when it fails. */
  method SkipPositive(n: int, buf: Buffer) returns (ok: bool)
    requires buf.Valid()
    modifies buf`readIndex
    ensures buf.Valid() && ok == (|old(buf.Unread())| >= Positive(n))
    ensures !ok ==> buf.readIndex == old(buf.readIndex)
    ensures ok ==> buf.Unread() == old(buf.Unread())[Positive(n)..]
    ensures ok ==> buf.readIndex == old(buf.readIndex) + Positive(n)
  {
    ok := true;
    if n > 0 {
      ok := buf.Skip(n);
    }
  }

  /** The second half of LengthFieldDecoder.Decode: from the reset reader index to the frame. */
  method ReadFrame(f: Framing, totalLength: int, buf: Buffer) returns (a: Answer)
    requires buf.Valid()
    modifies buf`readIndex
    ensures buf.Valid()
    ensures a == FrameStep(f, totalLength, old(buf.Unread()))
    ensures a.Got? ==> buf.readIndex == old(buf.readIndex) + a.used
  {
    ghost var s := buf.Unread();
    var mark := buf.readIndex;
    if |buf.data| - buf.readIndex < totalLength {
      return More;
    }
    var ok := SkipPositive(f.strip, buf);
    if !ok {
      buf.ResetReaderIndex(mark);
      return More;
    }
    var frameLen := Wrap64(totalLength - f.strip);
    if frameLen < 0 {
      return Bad(Panicked);  // make([]byte, n) with n negative
    }
    var frame := buf.ReadBytes(frameLen);
    if frame == None {
      buf.ResetReaderIndex(mark);
      return More;
    }
    ghost var from := Positive(f.strip);
    assert s[from..][..frameLen] == s[from..from + frameLen];
    return Got(Raw(frame.value), buf.readIndex - mark);
  }

  /** The first half: the header is read and the reader index reset to the mark. */
  method ReadHeader(f: Framing, buf: Buffer) returns (r: Result<int, Answer>)
    requires buf.Valid()
    modifies buf`readIndex
    ensures buf.Valid() && r == TotalLength(f, old(buf.Unread()))
    ensures r.Ok? ==> buf.readIndex == old(buf.readIndex)
  {
    ghost var s := buf.Unread();
    var headerLen := f.HeaderLen();
    if |buf.data| - buf.readIndex < headerLen {
      return Err(More);
    }
    var mark := buf.readIndex;
    var ok := SkipPositive(f.offset, buf);
    if !ok {
      buf.ResetReaderIndex(mark);
      return Err(More);
    }
    if !ValidWidth(f.width) {
      return Err(Bad(InvalidLengthField));
    }
    var v := buf.ReadUint(f.width);
    if v == None {
      buf.ResetReaderIndex(mark);
      return Err(More);
    }
    ghost var from := Positive(f.offset);
    assert s[from..][..f.width] == s[from..from + f.width];
    var frameLength := Wrap64(Wrap64(v.value) + f.adjust);
    if frameLength > f.maxFrame {
      return Err(Bad(MessageTooLarge));
    }
    buf.ResetReaderIndex(mark);
    return Ok(Wrap64(headerLen + frameLength));
  }

  method DecodeLengthField(f: Framing, buf: Buffer) returns (a: Answer)
    requires buf.Valid()
    modifies buf`readIndex
    ensures buf.Valid()
    ensures a == LengthFieldStep(f, old(buf.Unread()))
    ensures a.Got? ==> buf.readIndex == old(buf.readIndex) + a.used
  {
    var total := ReadHeader(f, buf);
    match total
    case Ok(n) => a := ReadFrame(f, n, buf);
    case Err(e) => a := e;
  }

  /** The comparison of the delimiter with the bytes at i. */
  method MatchesAt(delim: seq<byte>, data: seq<byte>, i: nat) returns (same: bool)
    requires i + |delim| <= |data|
    ensures same == OccursAt(delim, data, i)
  {
    var j := 0;
    while j < |delim|
      invariant 0 <= j <= |delim|
      invariant data[i..i + j] == delim[..j]
    {
      if data[i + j] != delim[j] {
        assert data[i..i + |delim|][j] == data[i + j];
        return false;
      }
      assert data[i..i + j + 1] == data[i..i + j] + [data[i + j]];
      assert delim[..j + 1] == delim[..j] + [delim[j]];
      j := j + 1;
    }
    return true;
  }

  method DecodeDelimiter(delim: seq<byte>, maxLength: int, buf: Buffer) returns (a: Answer)
    requires buf.Valid()
    modifies buf`readIndex
    ensures buf.Valid()
    ensures a == DelimiterStep(delim, maxLength, old(buf.Unread()))
    ensures a.Got? ==> buf.readIndex == old(buf.readIndex) + a.used
  {
    var data := buf.Unread();
    var i := 0;
    while i <= |data| - |delim|
      invariant 0 <= i
      invariant buf.readIndex == old(buf.readIndex)
      invariant i > 0 ==> i - 1 <= maxLength && i - 1 <= |data| - |delim|
      invariant forall k: nat :: k < i ==> !OccursAt(delim, data, k)
    {
      if i > maxLength {
        return Bad(MessageTooLarge);
      }
      var same := MatchesAt(delim, data, i);
      if same {
        var ok := buf.Skip(i + |delim|);
        return Got(Raw(data[..i]), i + |delim|);
      }
      i := i + 1;
    }
    return More;
  }

  method DecodeLine(maxLength: int, buf: Buffer) returns (a: Answer)
    requires buf.Valid()
    modifies buf`readIndex
    ensures buf.Valid()
    ensures a == LineStep(maxLength, old(buf.Unread()))
    ensures a.Got? ==> buf.readIndex == old(buf.readIndex) + a.used
  {
    var data := buf.Unread();
    var i := 0;
    while i < |data|
      invariant 0 <= i <= |data|
      invariant buf.readIndex == old(buf.readIndex)
      invariant i > 0 ==> i - 1 <= maxLength
      invariant forall k: nat :: k < i ==> !OccursAt([LF], data, k)
    {
      if i > maxLength {
        return Bad(MessageTooLarge);
      }
      if data[i] == LF {
        assert data[i..i + 1] == [LF];
        assert OccursAt([LF], data, i);
        var line := data[..i];
        if |line| > 0 && line[|line| - 1] == CR {
          line := line[..|line| - 1];
        }
        var ok := buf.Skip(i + 1);
        return Got(Text(line), i + 1);
      }
      i := i + 1;
    }
    return More;
  }

  method DecodeMessage(buf: Buffer) returns (a: Answer)
    requires buf.Valid()
    modifies buf`readIndex
    ensures buf.Valid()
    ensures a == MessageStep(old(buf.Unread()))
    ensures a.Got? ==> buf.readIndex == old(buf.readIndex) + a.used
  {
    ghost var s := buf.Unread();
    if |buf.data| - buf.readIndex < 8 {
      return More;
    }
    var seqNo := buf.ReadUint(4);
    assert buf.Unread() == s[4..];
    var kind := buf.ReadUint(4);
    assert s[4..][..4] == s[4..8];
    var value := buf.Unread();
    assert value == s[8..];
    var ok := buf.Skip(|value|);
    return Got(Packet(Message(Wrap32(seqNo.value), Wrap32(kind.value), value)), 8 + |value|);
  }

  /** One call of Decode on any decoder. */
  method Decode(d: Decoder, buf: Buffer) returns (a: Answer)
    requires buf.Valid()
    modifies buf`readIndex
    ensures buf.Valid()
    ensures a == Step(d, old(buf.Unread()))
    ensures a.Got? ==> buf.readIndex == old(buf.readIndex) + a.used
  {
    match d
    case LengthField(f) => a := DecodeLengthField(f, buf);
    case Line(m) => a := DecodeLine(m, buf);
    case Delimiter(p, m) => a := DecodeDelimiter(p, m, buf);
    case MessageDecoder => a := DecodeMessage(buf);
    case ByteToMessage(fn) =>
      a := fn(buf.Unread());
      if a.Got? {
        if a.used > |buf.Unread()| {
          a := Got(a.msg, |buf.Unread()|);
        }
        var ok := buf.Skip(a.used);
      }
  }
}

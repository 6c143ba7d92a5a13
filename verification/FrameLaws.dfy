/** Laws of the frame decoders: stability under more bytes, progress, frames cut and bytes kept. */
module FrameLaws {
  import opened Bytes
  import opened Values
  import opened Decoders
  import opened Streaming

  // ----- Every frame decoder is prefix stable; the message decoder is not -----

  lemma {:induction false} TotalLengthStable(f: Framing, s: seq<byte>, t: seq<byte>)
    ensures TotalLength(f, s) != Err(More) ==> TotalLength(f, s + t) == TotalLength(f, s)
  {
    var from := Positive(f.offset);
    if ValidWidth(f.width) && from + f.width <= |s| {
      assert (s + t)[from..from + f.width] == s[from..from + f.width];
    }
  }

  lemma {:induction false} FrameStepStable(f: Framing, total: int, s: seq<byte>, t: seq<byte>)
    ensures !FrameStep(f, total, s).More? ==> FrameStep(f, total, s + t) == FrameStep(f, total, s)
  {
    var from, n := Positive(f.strip), Wrap64(total - f.strip);
    if 0 <= n && from + n <= |s| {
      assert (s + t)[from..from + n] == s[from..from + n];
    }
  }

  lemma {:induction false} LengthFieldStable(f: Framing)
    ensures PrefixStable(LengthField(f))
  {
    forall s: seq<byte>, t: seq<byte> {:trigger Step(LengthField(f), s + t)}
      ensures !Step(LengthField(f), s).More?
        ==> Step(LengthField(f), s + t) == Step(LengthField(f), s)
    {
      TotalLengthStable(f, s, t);
      if TotalLength(f, s).Ok? {
        FrameStepStable(f, TotalLength(f, s).value, s, t);
      }
    }
  }

  /** Bytes added behind can only add occurrences that end in them. */
  lemma {:induction false} FirstAppend(pat: seq<byte>, s: seq<byte>, t: seq<byte>)
    ensures First(pat, s) >= 0 ==> First(pat, s + t) == First(pat, s)
    ensures First(pat, s) < 0 && First(pat, s + t) >= 0 ==> First(pat, s + t) > |s| - |pat|
  {
    forall i: nat | i + |pat| <= |s| ensures OccursAt(pat, s + t, i) == OccursAt(pat, s, i) {
      assert (s + t)[i..i + |pat|] == s[i..i + |pat|];
    }
    var r, r' := First(pat, s), First(pat, s + t);
    if r >= 0 {
      assert OccursAt(pat, s + t, r);
      assert !(r' < r);
    }
  }

  lemma {:induction false} DelimiterStepStable(delim: seq<byte>, maxLength: int, s: seq<byte>, t: seq<byte>)
    ensures !DelimiterStep(delim, maxLength, s).More?
      ==> DelimiterStep(delim, maxLength, s + t) == DelimiterStep(delim, maxLength, s)
  {
    FirstAppend(delim, s, t);
    var i := First(delim, s);
    if i >= 0 {
      assert (s + t)[..i] == s[..i];
    }
  }

  lemma {:induction false} DelimiterStable(delim: seq<byte>, maxLength: int)
    ensures PrefixStable(Delimiter(delim, maxLength))
  {
    forall s: seq<byte>, t: seq<byte> {:trigger Step(Delimiter(delim, maxLength), s + t)}
      ensures !Step(Delimiter(delim, maxLength), s).More?
        ==> Step(Delimiter(delim, maxLength), s + t) == Step(Delimiter(delim, maxLength), s)
    {
      DelimiterStepStable(delim, maxLength, s, t);
    }
  }

  lemma {:induction false} LineStable(maxLength: int)
    ensures PrefixStable(Line(maxLength))
  {
    forall s: seq<byte>, t: seq<byte> {:trigger Step(Line(maxLength), s + t)}
      ensures !Step(Line(maxLength), s).More?
        ==> Step(Line(maxLength), s + t) == Step(Line(maxLength), s)
    {
      DelimiterStepStable([LF], maxLength, s, t);
    }
  }

  /** The message decoder takes whatever is there, so it needs a frame decoder in front. */
  lemma {:induction false} MessageDecoderNotStable()
    ensures !PrefixStable(MessageDecoder)
  {
    var s: seq<byte> := [0, 0, 0, 0, 0, 0, 0, 0];
    var t: seq<byte> := [0];
    assert Step(MessageDecoder, s).used == 8;
    assert Step(MessageDecoder, s + t).used == 9;
  }

  // ----- Progress: when decodeAndFire is sure to end -----

  /** Every message uses up at least one byte. */
  ghost predicate Productive(d: Decoder) {
    forall s: seq<byte> :: s != [] && Step(d, s).Got? ==> Step(d, s).used > 0
  }

  lemma {:induction false} ProductiveNeverStalls(c: Chain, hs: seq<Handler>, s: seq<byte>)
    requires Productive(c.first)
    ensures Parse(c, hs, s).end != Stalled
    decreases |s|
  {
    if s != [] && ChainStep(c, s).Got? && ChainStep(c, s).used > 0 {
      ProductiveNeverStalls(c, hs, s[ChainStep(c, s).used..]);
    }
  }

  lemma {:induction false} LineProductive(maxLength: int)
    ensures Productive(Line(maxLength))
  {}

  lemma {:induction false} DelimiterProductiveIff(delim: seq<byte>, maxLength: int)
    requires maxLength >= 0
    ensures Productive(Delimiter(delim, maxLength)) <==> delim != []
  {
    if delim == [] {
      assert OccursAt(delim, [0], 0);
      assert Step(Delimiter(delim, maxLength), [0]) == Got(Raw([]), 0);
    }
  }

  // ----- What a well-configured length field decoder cuts -----

  /** A supported field width, no negative offset or strip, and sizes that fit an int. */
  predicate Configured(f: Framing) {
    && ValidWidth(f.width)
    && 0 <= f.offset && 0 <= f.strip < TWO_62
    && f.offset + f.width < TWO_63
    && f.offset + f.width + f.maxFrame < TWO_63
    && -TWO_62 <= f.adjust < TWO_62
  }

  function Zeros(n: nat): (s: seq<byte>)
    ensures |s| == n
  {
    seq(n, _ => 0)
  }

  lemma {:induction false} GetZeros(s: seq<byte>)
    requires forall i :: 0 <= i < |s| ==> s[i] == 0
    ensures GetUint(s) == 0
  {
    if s != [] {
      GetZeros(s[..|s| - 1]);
    }
  }

  /** The frame is exactly the bytes from `strip` to the end the length field announces. */
  lemma {:induction false} LengthFieldFrame(f: Framing, s: seq<byte>, v: nat)
    requires Configured(f) && f.offset + f.width <= |s|
    requires v == GetUint(s[f.offset..f.offset + f.width])
    requires v < TWO_63 && v + f.adjust < TWO_63
    ensures var total := f.offset + f.width + v + f.adjust;
      LengthFieldStep(f, s) ==
        if v + f.adjust > f.maxFrame then Bad(MessageTooLarge)
        else if |s| < total || |s| < f.strip then More
        else if total < f.strip then Bad(Panicked)
        else Got(Raw(s[f.strip..total]), total)
  {}

  function Smallest(f: Framing): int { f.offset + f.width + f.adjust }

  /** No header can make the decoder panic or deliver a message without using a byte. */
  ghost predicate Sound(f: Framing) {
    forall s: seq<byte> {:trigger LengthFieldStep(f, s)} ::
      && LengthFieldStep(f, s) != Bad(Panicked)
      && (LengthFieldStep(f, s).Got? ==> LengthFieldStep(f, s).used > 0)
  }

  /**
   For the fields of up to four bytes: sound exactly when an empty payload still leaves a
   non-empty frame that covers the stripped bytes (or every frame is too large).
   */
  lemma {:induction false} LengthFieldSoundIff(f: Framing)
    requires Configured(f) && f.width < 8
    ensures Sound(f) <==> f.adjust > f.maxFrame || (Smallest(f) >= f.strip && Smallest(f) > 0)
  {
    if f.adjust > f.maxFrame || (Smallest(f) >= f.strip && Smallest(f) > 0) {
      forall s: seq<byte>
        ensures LengthFieldStep(f, s) != Bad(Panicked)
        ensures LengthFieldStep(f, s).Got? ==> LengthFieldStep(f, s).used > 0
      {
        if f.offset + f.width <= |s| {
          Pow256Values();
          LengthFieldFrame(f, s, GetUint(s[f.offset..f.offset + f.width]));
        }
      }
    } else {
      var s := Zeros(f.offset + f.width + f.strip);
      GetZeros(s[f.offset..f.offset + f.width]);
      LengthFieldFrame(f, s, 0);
    }
  }

  /** The frame a header announces to end one byte before it starts. */
  lemma {:induction false} BackwardFrame(f: Framing, s: seq<byte>, signed: int)
    requires Configured(f) && f.width == 8 && f.maxFrame >= 0
    requires |s| >= f.offset + 8 && |s| >= f.strip && -TWO_63 <= signed < TWO_63
    requires signed == -1 - Smallest(f) && Wrap64(GetUint(s[f.offset..f.offset + 8])) == signed
    ensures LengthFieldStep(f, s) == Bad(Panicked)
  {
    assert TotalLength(f, s) == Ok(-1);
  }

  /**
   For the eight-byte field no adjustment and strip are sound: the value is read as a signed
   integer, and the one that puts the end of the frame before its start makes the decoder panic.
   */
  lemma {:induction false} EightByteFieldNeverSound(f: Framing)
    requires Configured(f) && f.width == 8 && f.maxFrame >= 0 && Smallest(f) < TWO_63
    ensures !Sound(f)
  {
    var signed := -1 - Smallest(f);
    var v := if signed >= 0 then signed else signed + TWO_64;
    Pow256Values();
    GetPutInRange(8, v);
    var s := Zeros(f.offset) + PutUint(8, v) + Zeros(f.strip);
    assert s[f.offset..f.offset + 8] == PutUint(8, v);
    BackwardFrame(f, s, signed);
  }

  /** The values a length field of this width can be read as. */
  predicate Representable(width: int, v: int) {
    if width == 8 then -TWO_63 <= v < TWO_63 else 0 <= v && (width >= 0 ==> v < Pow256(width))
  }

  /** Without bytes to strip, the one field value that gives a frame of no bytes at all. */
  lemma {:induction false} EmptyFrame(f: Framing, s: seq<byte>)
    requires Configured(f) && f.strip == 0 && Smallest(f) < TWO_63
    ensures var a := LengthFieldStep(f, s);
      a.Got? && a.used == 0 <==>
        && f.offset + f.width <= |s|
        && Wrap64(GetUint(s[f.offset..f.offset + f.width])) == -Smallest(f)
        && -(f.offset + f.width) <= f.maxFrame
  {
    if f.offset + f.width <= |s| {
      Pow256Values();
      var v := Wrap64(GetUint(s[f.offset..f.offset + f.width]));
      assert Wrap64(v + f.adjust) == -(f.offset + f.width) <==> v == -Smallest(f);
    }
  }

  lemma {:induction false} StripIsProgress(f: Framing)
    requires f.strip > 0
    ensures Productive(LengthField(f))
  {}

  lemma {:induction false} SliceBehind(a: seq<byte>, b: seq<byte>)
    ensures (a + b)[|a|..|a| + |b|] == b
  {}

  lemma {:induction false} FieldReadingAs(width: nat, v: int) returns (field: seq<byte>)
    requires ValidWidth(width) && Representable(width, v)
    ensures |field| == width && Wrap64(GetUint(field)) == v
  {
    Pow256Values();
    var u := if v < 0 then v + TWO_64 else v;
    GetPutInRange(width, u);
    field := PutUint(width, u);
  }

  /** A header whose field reads as v can be written. */
  lemma {:induction false} FieldOf(f: Framing, v: int) returns (s: seq<byte>)
    requires f.offset >= 0 && ValidWidth(f.width) && Representable(f.width, v)
    ensures f.offset + f.width == |s|
    ensures Wrap64(GetUint(s[f.offset..f.offset + f.width])) == v
  {
    var field := FieldReadingAs(f.width, v);
    s := Zeros(f.offset) + field;
    SliceBehind(Zeros(f.offset), field);
  }

  /**
   At every width: each message uses bytes exactly when some are stripped, or no field value
   makes the frame empty, or that one is refused as too large.
   */
  lemma {:induction false} LengthFieldProductiveIff(f: Framing)
    requires Configured(f) && Smallest(f) < TWO_63
    ensures Productive(LengthField(f)) <==>
      f.strip > 0 || !Representable(f.width, -Smallest(f)) || f.maxFrame < -(f.offset + f.width)
  {
    if f.strip > 0 {
      StripIsProgress(f);
    } else if Representable(f.width, -Smallest(f)) && -(f.offset + f.width) <= f.maxFrame {
      var s := FieldOf(f, -Smallest(f));
      EmptyFrame(f, s);
      assert Step(LengthField(f), s).used == 0;
    } else {
      forall s: seq<byte> | s != [] && Step(LengthField(f), s).Got?
        ensures Step(LengthField(f), s).used > 0
      {
        EmptyFrame(f, s);
        Pow256Values();
      }
    }
  }

  /** So the read loop never hangs on a productive first decoder, whatever it reads. */
  lemma {:induction false} ProductiveNeverHangs(
      ds: seq<Decoder>, hs: seq<Handler>, buffered: seq<byte>, input: seq<Read>)
    requires ds == [] || Productive(ds[0])
    ensures ReadRun(ds, hs, buffered, input).status != Hung
    decreases |input|
  {
    if input != [] && input[0].Data? {
      var s := buffered + input[0].bytes;
      if input[0].bytes == [] {
        ProductiveNeverHangs(ds, hs, buffered, input[1..]);
      } else {
        if ds != [] {
          ProductiveNeverStalls(ChainOf(ds), hs, s);
        }
        if Drain(ds, hs, s).end.Open? {
          ProductiveNeverHangs(ds, hs, Drain(ds, hs, s).end.rest, input[1..]);
        }
      }
    }
  }

  /** A header of a width the switch does not know is an error as soon as it is there. */
  lemma {:induction false} BadWidthIsError(f: Framing, s: seq<byte>)
    requires !ValidWidth(f.width) && 0 <= f.offset && f.offset + f.width <= |s| < TWO_63 && f.offset <= |s|
    requires -TWO_63 <= f.offset + f.width
    ensures LengthFieldStep(f, s) == Bad(InvalidLengthField)
  {}

  // ----- What a line is -----

  /**
   A line within the maximum is delivered without its '\n' and without one '\r' in front of that,
   so both endings are taken; a longer one is an error.
   */
  lemma {:induction false} LineEndings(maxLength: int, line: seq<byte>, t: seq<byte>)
    requires LF !in line
    ensures var a := LineStep(maxLength, line + [LF] + t);
      && (|line| > maxLength ==> a == Bad(MessageTooLarge))
      && (|line| <= maxLength && (line == [] || line[|line| - 1] != CR) ==> a == Got(Text(line), |line| + 1))
      && (forall text :: |line| <= maxLength && line == text + [CR] ==> a == Got(Text(text), |line| + 1))
  {
    var s := line + [LF] + t;
    var i := First([LF], s);
    assert s[|line|..|line| + 1] == [LF];
    assert OccursAt([LF], s, |line|);
    assert s[i..i + 1] == [LF];
    assert s[i] == LF && i == |line|;
    assert s[..i] == line;
    forall text | line == text + [CR] ensures TrimCR(line) == text {
      assert line[..|line| - 1] == text;
    }
  }

  // ----- How much stays buffered -----

  /** The decoder never waits for more while it has over n bytes. */
  ghost predicate WaitsBelow(d: Decoder, n: int) {
    forall s: seq<byte> :: Step(d, s).More? ==> |s| <= n
  }

  /** The largest strip with which the length field decoder never waits past its largest frame. */
  predicate StripInReach(f: Framing) {
    if f.width == 8 then f.strip <= f.offset + f.width
    else f.adjust > f.maxFrame || f.strip <= f.offset + f.width + f.maxFrame
  }

  lemma {:induction false} InReachWaitsBelow(f: Framing, s: seq<byte>)
    requires Configured(f) && f.maxFrame >= 0 && StripInReach(f)
    requires LengthFieldStep(f, s).More?
    ensures |s| < f.offset + f.width + f.maxFrame
  {
    Pow256Values();
    if TotalLength(f, s).Ok? {
      assert TotalLength(f, s).value <= f.offset + f.width + f.maxFrame;
    }
  }

  lemma {:induction false} WrapBack(x: int, y: int)
    requires -TWO_63 <= x < TWO_63 && -TWO_63 <= y < TWO_63
    ensures Wrap64(Wrap64(x - y) + y) == x
  {}

  lemma {:induction false} WrappedTotal(f: Framing, s: seq<byte>)
    requires Configured(f) && f.maxFrame >= 0 && f.width == 8 && f.strip > f.offset + 8
    requires f.offset + 8 <= |s|
    requires Wrap64(GetUint(s[f.offset..f.offset + 8])) == Wrap64(f.strip - f.offset - 9 - TWO_63 - f.adjust)
    ensures TotalLength(f, s) == Ok(f.strip - 1 - TWO_63)
  {
    WrapBack(f.strip - f.offset - 9 - TWO_63, f.adjust);
  }

  lemma {:induction false} WrappedFrame(f: Framing, s: seq<byte>)
    requires 0 < f.strip < TWO_62 && |s| < TWO_63
    ensures FrameStep(f, f.strip - 1 - TWO_63, s).More?
  {}

  /** Eight bytes hold a length so negative that taking a longer strip from it wraps around. */
  lemma {:induction false} WrappedLength(f: Framing, s: seq<byte>)
    requires Configured(f) && f.maxFrame >= 0 && f.width == 8 && f.strip > f.offset + 8
    requires f.offset + 8 <= |s| < TWO_63
    requires Wrap64(GetUint(s[f.offset..f.offset + 8])) == Wrap64(f.strip - f.offset - 9 - TWO_63 - f.adjust)
    ensures LengthFieldStep(f, s).More?
  {
    WrappedTotal(f, s);
    WrappedFrame(f, s);
  }

  lemma {:induction false} SliceInFront(a: seq<byte>, b: seq<byte>, i: nat, j: nat)
    requires i <= j <= |a|
    ensures (a + b)[i..j] == a[i..j]
  {}

  lemma {:induction false} OutOfReachWaits(f: Framing) returns (s: seq<byte>)
    requires Configured(f) && f.maxFrame >= 0 && !StripInReach(f)
    ensures LengthFieldStep(f, s).More? && |s| >= f.offset + f.width + f.maxFrame
  {
    if f.width == 8 {
      var field := FieldOf(f, Wrap64(f.strip - f.offset - 9 - TWO_63 - f.adjust));
      s := field + Zeros(f.maxFrame);
      SliceInFront(field, Zeros(f.maxFrame), f.offset, f.offset + 8);
      WrappedLength(f, s);
    } else {
      s := Zeros(f.strip - 1);
      GetZeros(s[f.offset..f.offset + f.width]);
    }
  }

  /** The bound of the length field decoder holds exactly when its strip is within reach. */
  lemma {:induction false} LengthFieldWaitsBelowIff(f: Framing)
    requires Configured(f) && f.maxFrame >= 0
    ensures WaitsBelow(LengthField(f), f.offset + f.width + f.maxFrame - 1) <==> StripInReach(f)
  {
    if StripInReach(f) {
      forall s: seq<byte> | Step(LengthField(f), s).More?
        ensures |s| <= f.offset + f.width + f.maxFrame - 1
      {
        InReachWaitsBelow(f, s);
      }
    } else {
      var s := OutOfReachWaits(f);
      assert Step(LengthField(f), s).More?;
    }
  }

  lemma {:induction false} LineWaitsBelow(maxLength: nat)
    ensures WaitsBelow(Line(maxLength), maxLength + 1)
  {}

  lemma {:induction false} DelimiterWaitsBelow(delim: seq<byte>, maxLength: nat)
    ensures WaitsBelow(Delimiter(delim, maxLength), maxLength + |delim|)
  {}

  /** No frame of the first decoder is answered nil further down the chain. */
  ghost predicate NeverRefuses(c: Chain) {
    forall s: seq<byte> :: Step(c.first, s).Got? ==> !ChainRest(c.later, Step(c.first, s).msg).More?
  }

  lemma {:induction false} ParseLeavesAtMost(c: Chain, hs: seq<Handler>, s: seq<byte>, n: nat)
    requires WaitsBelow(c.first, n) && NeverRefuses(c)
    ensures var p := Parse(c, hs, s); p.end.Open? ==> |p.end.rest| <= n
    decreases |s|
  {
    if s != [] {
      match ChainStep(c, s)
      case More => assert Step(c.first, s).More?;
      case Bad(_) =>
      case Got(_, k) =>
        if k > 0 {
          ParseLeavesAtMost(c, hs, s[k..], n);
        }
    }
  }

  ghost predicate ReadsUpTo(input: seq<Read>, limit: nat) {
    forall r :: r in input && r.Data? ==> |r.bytes| <= limit
  }

  /** Whatever the stream, a parse that waits for more leaves at most n bytes. */
  ghost predicate LeavesAtMost(c: Chain, hs: seq<Handler>, n: nat) {
    forall s: seq<byte> :: Parse(c, hs, s).end.Open? ==> |Parse(c, hs, s).end.rest| <= n
  }

  lemma {:induction false} WaitingBoundsLeftover(c: Chain, hs: seq<Handler>, n: nat)
    requires WaitsBelow(c.first, n) && NeverRefuses(c)
    ensures LeavesAtMost(c, hs, n)
  {
    forall s: seq<byte> ensures Parse(c, hs, s).end.Open? ==> |Parse(c, hs, s).end.rest| <= n {
      ParseLeavesAtMost(c, hs, s, n);
    }
  }

  lemma {:induction false} BuffersWithin(
      ds: seq<Decoder>, hs: seq<Handler>, buffered: seq<byte>, input: seq<Read>, n: nat, limit: nat)
    requires ds != [] && LeavesAtMost(ChainOf(ds), hs, n)
    requires |buffered| <= n && ReadsUpTo(input, limit)
    ensures |ReadRun(ds, hs, buffered, input).rest| <= n
    ensures Peak(ds, hs, buffered, input) <= n + limit
    decreases |input|
  {
    if input != [] && input[0].Data? {
      assert input[0] in input;
      var s := buffered + input[0].bytes;
      if input[0].bytes == [] {
        BuffersWithin(ds, hs, buffered, input[1..], n, limit);
      } else if Parse(ChainOf(ds), hs, s).end.Open? {
        BuffersWithin(ds, hs, Parse(ChainOf(ds), hs, s).end.rest, input[1..], n, limit);
      }
    }
  }

  /**
   Bounded buffering: between reads the buffer holds at most n bytes, and with reads of at most
   `limit` bytes (4096 in the source) never more than n + limit.
   */
  lemma {:induction false} BoundedBuffering(
      ds: seq<Decoder>, hs: seq<Handler>, input: seq<Read>, n: nat, limit: nat)
    requires ds != [] && WaitsBelow(ds[0], n) && NeverRefuses(ChainOf(ds)) && ReadsUpTo(input, limit)
    ensures |ReadRun(ds, hs, [], input).rest| <= n
    ensures Peak(ds, hs, [], input) <= n + limit
  {
    WaitingBoundsLeftover(ChainOf(ds), hs, n);
    BuffersWithin(ds, hs, [], input, n, limit);
  }

  /** One refused frame and any number of bytes behind it stay buffered. */
  lemma {:induction false} RefusalHasNoBound(c: Chain, hs: seq<Handler>, s: seq<byte>)
    requires PrefixStable(c.first)
    requires Step(c.first, s).Got? && ChainRest(c.later, Step(c.first, s).msg).More?
    ensures !exists n: nat :: LeavesAtMost(c, hs, n)
  {
    forall n: nat ensures !LeavesAtMost(c, hs, n) {
      var t := Zeros(1);
      assert Step(c.first, s + t) == Step(c.first, s);
      RefusedFrameBlocks(c, hs, s + t, Zeros(n));
      assert Parse(c, hs, s + t + Zeros(n)).end.rest == s + t + Zeros(n);
    }
  }

  /** A decoder that waits for boundedly many bytes gives a bound exactly if no frame is refused. */
  lemma {:induction false} BoundedIffNeverRefuses(c: Chain, hs: seq<Handler>, n: nat)
    requires PrefixStable(c.first) && WaitsBelow(c.first, n)
    ensures (exists m: nat :: LeavesAtMost(c, hs, m)) <==> NeverRefuses(c)
  {
    if NeverRefuses(c) {
      WaitingBoundsLeftover(c, hs, n);
    } else {
      var s :| Step(c.first, s).Got? && ChainRest(c.later, Step(c.first, s).msg).More?;
      RefusalHasNoBound(c, hs, s);
    }
  }

  // ----- Splitting at the leftmost delimiter -----

  function Join(ms: seq<Msg>, delim: seq<byte>): seq<byte> {
    if ms == [] then [] else (if ms[0].Raw? then ms[0].bytes else []) + delim + Join(ms[1..], delim)
  }

  /** A message that ends at the first delimiter behind it. */
  predicate LeftmostCut(m: Msg, delim: seq<byte>, maxLength: int) {
    m.Raw? && First(delim, m.bytes + delim) == |m.bytes| && |m.bytes| <= maxLength
  }

  lemma {:induction false} DelimiterCutsLeftmost(delim: seq<byte>, maxLength: int, s: seq<byte>)
    requires DelimiterStep(delim, maxLength, s).Got?
    ensures var m := DelimiterStep(delim, maxLength, s).msg;
            LeftmostCut(m, delim, maxLength) &&
            s == m.bytes + delim + s[DelimiterStep(delim, maxLength, s).used..]
  {
    var i := First(delim, s);
    var front := s[..i] + delim;
    assert s == front + s[i + |delim|..];
    assert front[i..i + |delim|] == delim;
    assert OccursAt(delim, front, i);
    FirstAppend(delim, front, s[i + |delim|..]);
  }

  /**
   The fired messages, each followed by the delimiter, and then the leftover are the stream
   itself, cut at leftmost delimiters; no delimiter is left in the leftover. After a failure
   what was fired is a prefix of the stream.
   */
  ghost predicate Splits(p: Trace, delim: seq<byte>, maxLength: int, s: seq<byte>) {
    && (forall m :: m in p.fired ==> LeftmostCut(m, delim, maxLength))
    && Join(p.fired, delim) <= s
    && (p.end.Open? ==> s == Join(p.fired, delim) + p.end.rest && First(delim, p.end.rest) < 0)
  }

  lemma {:induction false} SplitsPrepend(m: Msg, p: Trace, delim: seq<byte>, maxLength: int, s: seq<byte>)
    requires Splits(p, delim, maxLength, s) && LeftmostCut(m, delim, maxLength)
    ensures Splits(Prepend(m, p), delim, maxLength, m.bytes + delim + s)
  {
    var front := m.bytes + delim;
    assert ([m] + p.fired)[1..] == p.fired;
    assert Join([m] + p.fired, delim) == front + Join(p.fired, delim);
    if p.end.Open? {
      assert front + s == front + Join(p.fired, delim) + p.end.rest;
    }
  }

  lemma {:induction false} NothingToSplit(delim: seq<byte>, maxLength: int, hs: seq<Handler>, s: seq<byte>)
    requires delim != [] && (s == [] || !DelimiterStep(delim, maxLength, s).Got?)
    ensures Splits(Parse(Chain(Delimiter(delim, maxLength), []), hs, s), delim, maxLength, s)
  {
    var p := Parse(Chain(Delimiter(delim, maxLength), []), hs, s);
    assert p.fired == [] && Join([], delim) + s == s;
  }

  lemma {:induction false} DelimiterSplitsStream(
      delim: seq<byte>, maxLength: int, hs: seq<Handler>, s: seq<byte>)
    requires delim != [] && AcceptsAll(hs)
    ensures Splits(Parse(Chain(Delimiter(delim, maxLength), []), hs, s), delim, maxLength, s)
    decreases |s|
  {
    var a := DelimiterStep(delim, maxLength, s);
    if s == [] || !a.Got? {
      NothingToSplit(delim, maxLength, hs, s);
    } else {
      var c, s' := Chain(Delimiter(delim, maxLength), []), s[a.used..];
      DelimiterCutsLeftmost(delim, maxLength, s);
      DelimiterSplitsStream(delim, maxLength, hs, s');
      SplitsPrepend(a.msg, Parse(c, hs, s'), delim, maxLength, s');
      ParseGot(c, hs, s, a.msg, a.used);
    }
  }
}

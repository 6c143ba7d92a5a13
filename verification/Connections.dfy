/** The life of one connection with a pipeline, from its context to the end of its read loop. */
module Connections {
  import opened Bytes
  import opened Values
  import opened Decoders
  import opened Encoders
  import opened Streaming
  import opened FrameLaws
  import opened RoundTrips
  import opened ChannelContexts

  /**
   A context is made for the connection and its read loop run on what the reads return; `more`
   says that it is waiting for another one. While it is, the buffer holds the undecoded bytes and
   no others, and at no time has it held more than Peak says.
   */
  method HandleConnection(decoders: seq<Decoder>, encoders: seq<Encoder>, inbound: seq<Handler>,
                          outbound: seq<Handler>, input: seq<Read>)
    returns (ctx: ChannelContext, more: bool)
    requires ReadRun(decoders, inbound, [], input).status != Hung
    ensures fresh(ctx) && ctx.Valid()
    ensures var r := ReadRun(decoders, inbound, [], input);
      && ctx.fired == r.fired && ctx.reported == r.reported
      && more == (r.status == Reading) && ctx.closed == !more
      && (more ==> ctx.readBuffer.data == r.rest)
    ensures ctx.peak == Peak(decoders, inbound, [], input)
  {
    ctx := new ChannelContext(decoders, encoders, inbound, outbound);
    more := ctx.ReadLoop(input);
    assert more ==> ctx.readBuffer.data == ctx.readBuffer.Unread();
  }

  /** The buffer of a connection whose decoder waits for at most n bytes, read in parts of `limit`. */
  method HandleBoundedConnection(decoders: seq<Decoder>, encoders: seq<Encoder>, inbound: seq<Handler>,
                                 outbound: seq<Handler>, input: seq<Read>, ghost n: nat, ghost limit: nat)
    returns (ctx: ChannelContext, more: bool)
    requires ReadRun(decoders, inbound, [], input).status != Hung && ReadsUpTo(input, limit)
    requires decoders != [] && WaitsBelow(decoders[0], n) && NeverRefuses(ChainOf(decoders))
    ensures more ==> |ctx.readBuffer.data| <= n
    ensures ctx.peak <= n + limit
  {
    BoundedBuffering(decoders, inbound, input, n, limit);
    ctx, more := HandleConnection(decoders, encoders, inbound, outbound, input);
  }

  /** A peer of the request-response stack: it gets the messages sent to it, in any chunking. */
  method HandleStackConnection(inbound: seq<Handler>, outbound: seq<Handler>, input: seq<Read>,
                               ghost ms: seq<Msg>, ghost ws: seq<seq<byte>>)
    returns (ctx: ChannelContext, more: bool)
    requires AcceptsAll(inbound) && RoundTrips.Encoded(STACK_ENCODERS, ms, ws)
    requires forall i :: 0 <= i < |ws| ==> |ws[i]| < TWO_63
    requires Received(input) == Concat(ws) && Ending(input) == None
    ensures (forall i :: 0 <= i < |ms| ==> ms[i].Packet? && |ms[i].message.value| <= 65528)
      ==> more && ctx.fired == ms && ctx.reported == [] && ctx.readBuffer.data == []
  {
    StackNeverHangs(inbound, [], input);
    StackRoundTripIff(inbound, ms, ws, input);
    ctx, more := HandleConnection(STACK_DECODERS, STACK_ENCODERS, inbound, outbound, input);
  }
}

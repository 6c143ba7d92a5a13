# Nettix: a verified model of its streaming, request and connection core

Nettix is a Go networking library: connections with a pipeline of named codecs and handlers,
futures, a map whose entries time out, and clients that keep their connections up. This project
models the parts whose correctness depends on every byte stream or every interleaving, and proves
the properties they are for. It has four components.

**Streaming.** `ReadLoop` appends whatever a read returns to a mutable buffer, and `decodeAndFire`
runs a chain of decoders over it with mark, reset and compact. The code is in `Buffers`,
`Decoders`, `Encoders` and `ChannelContexts` as imperative methods. Each is proved against a pure
definition: `Decoders.Step` (one Decode call), `Streaming.Parse` (a greedy parser of a whole
stream) and `Streaming.ReadRun` (a session of reads). `Streaming` proves that chunking cannot be
observed, `FrameLaws` gives the laws of the frame decoders, `RoundTrips` says exactly which
messages survive the encoders and decoders, and `ConcurrentWrites` lets any number of Writes race.
`Connections` runs a whole connection: messages fired, errors reported, and bytes held.

**Completion and correlation.** `Futures`, `Timers` and `Sequencers` hold the classes, proved
against functions of their state, and their own races. `Requests` is the request-response protocol
with one step for each atomic operation of the Go code: Load, CompareAndSwap, Swap, LoadAndDelete,
Delete, each critical section, the timer, and the check and body of its callback, all in any order.
`RequestSafety` proves over its runs that no request is lost and that responses reach theirs,
`RequestOutcomes` says how each future ends and why, and `RequestLimits` that the bound is the exact
one. `CollectionFutures` does the same for the aggregate future, and `TimeoutableMaps` treats the map with its operations taken as atomic.

**Connections.** `PersistentClients` is the claim loop that keeps one goroutine per address,
`Clients` the bounded retry loop, and `ChannelGroups` the set whose counter runs behind it.

**Pipelines.** `Pipelines` edits a backing array with a length in place, as Go slices do, and
proves that this realises edits of a sequence of uniquely named handlers. The request-response
layout is tied to the codec stack of the round-trip theorem.

## What turned out to be false of the code

The code is modelled as it is; where it misses the property one would expect, the exact condition
or a concrete run is proved.

- Without decoders, bytes are delivered once exactly when one read carries them all
  (`Streaming.RawBytesDeliveredOnceIffOneRead`).
- A complete frame is refused by the message decoder, put back, and blocks the connection for good
  exactly when it is shorter than eight bytes (`RoundTrips.FrameBlocksStackIff`).
- The delimiter decoder makes progress exactly when the delimiter is not empty, and the length field
  decoder exactly when some bytes are stripped or no header announces an empty frame
  (`FrameLaws.DelimiterProductiveIff`, `LengthFieldProductiveIff`). No header makes the latter panic
  or deliver without progress exactly when an empty payload still covers the stripped bytes
  (`LengthFieldSoundIff`); with an eight-byte field, a non-negative maximum and sizes below 2^63 one
  always does (`EightByteFieldNeverSound`). Its bound on waiting bytes holds exactly when the strip
  is within reach (`LengthFieldWaitsBelowIff`).
- A successful future stays successful exactly until a caller of Cancel has its next turn
  (`Futures.SuccessLastsIff`).
- The aggregate future succeeds exactly if all members do, in every run, exactly when no member may
  be cancelled: one cancelled member has a run in which it reports success
  (`CollectionFutures.RightIffNoMemberCancellable`). With mixed causes the listener that completes
  it first decides (`CollectionFutures.AggregateIsWinners`).
- The sequencer stays in range exactly when its maximum is below the largest int32, its range is
  all of int32, or the wrap is not reached (`Sequencers.InRangeIff`). Its documentation promises a
  roll-over to the minimum whenever the maximum is exceeded.
- No request is lost while no number is taken again before its last holder is retired
  (`RequestSafety.NoLostRequest`). Some run loses one exactly when there are more requests than numbers
  (`RequestLimits.LosesOneIff`).
- After a stop the second delete of a claim can free another goroutine's claim. Claims are exclusive
  in every run exactly when no address is given to three goroutines
  (`PersistentClients.ClaimsExclusiveIff`). Dialling always is, since only a claim made before the stop
  leads to a dial (`AddressExclusion`).
- A dial can follow a stop: that of a goroutine which stands between the stop check and the dial, and
  exactly of such a one (`PersistentClients.DialsAfterStopIff`, `StopBeforeDial`).
- The size of a connection group is never negative exactly when at most one thread uses the group
  (`ChannelGroups.SizeNonNegativeIff`).
- Every byte that arrives is parsed exactly when no read brings bytes together with an error
  (`Streaming.EveryByteParsedIff`).
- What a chain of decoders keeps waiting is bounded exactly if no frame is refused further down, so
  the request-response stack has no bound (`FrameLaws.BoundedIffNeverRefuses`,
  `RoundTrips.StackHasNoBound`).

## Model

| member | source | states |
|---|---|---|
| `Bytes.GetPut` | channel/codec.go:311-318 | a big-endian field of any width reads back as the value modulo its range: exactly the high bits are lost |
| `Bytes.LeadingByteCounts` | channel/codec.go:96-116 | the first byte of a field is its most significant one, at every width |
| `Bytes.WrapsIntoRange` | channel/codec.go:245-255 | a stored result is in range and differs from what was computed by a multiple of the type's size |
| `Bytes.SignedFieldRoundTrip` | example/request_response.go:43-44 | a signed int32 written as four unsigned bytes and cast back is itself, negative or not |
| `Buffers.Buffer.Write` | channel/codec.go:51-53 | appends, and keeps every byte of the buffer, read or unread |
| `Buffers.Buffer.ReadBytes` | channel/codec.go:61-69 | the first n unread bytes and past them, or nothing at all |
| `Buffers.Buffer.ReadUint` | channel/codec.go:82-119 | the big-endian value of the next bytes, at each width, or nothing and no move |
| `Buffers.Buffer.Compact` | channel/codec.go:136-143 | afterwards the buffer holds exactly the bytes that were unread |
| `Decoders.FirstFrom` | channel/codec.go:404-421 | the first occurrence of a pattern: a match, with none before it, or no match at all |
| `Decoders.MatchesAt` | channel/codec.go:408-414 | the inner loop decides whether the delimiter stands at an index |
| `Decoders.ReadHeader` | channel/codec.go:194-255 | the total length a header announces, 64-bit arithmetic included, and the reader index back at the mark |
| `Decoders.ReadFrame` | channel/codec.go:255-276 | the frame less the stripped bytes; waits, or panics on a negative frame length |
| `Decoders.DecodeLengthField` | channel/codec.go:193-277 | one Decode call answers what the pure step says of the unread bytes and moves the reader index by what it used |
| `Decoders.DecodeLine` | channel/codec.go:339-357 | the text before the first newline less one carriage return, within the maximum |
| `Decoders.DecodeDelimiter` | channel/codec.go:400-423 | the bytes before the first delimiter, within the maximum, by double loop |
| `Decoders.DecodeMessage` | example/request_response.go:53-77 | two signed fields and the rest of the frame as the value; waits below eight bytes |
| `Decoders.Decode` | channel/codec.go:468-470 | every decoder, a user's decode function of the unread bytes included, computes its step |
| `Streaming.ChainSplits` | channel/context.go:307-328 | a chain of decoders behind the first is its front and then its back on what the front made, or the front's answer if that made nothing |
| `Streaming.OneLaterDecoder` | channel/context.go:311-317 | one such decoder reads the bytes made before it, and passes a message that is not bytes by |
| `Streaming.ParseAppend` | channel/context.go:302-338 | parsing can stop anywhere and resume on the leftover when more bytes have come |
| `Streaming.ChunkingInvariance` | channel/context.go:264-338 | with a prefix-stable first decoder, any cut of the stream into reads fires, reports and keeps exactly what the greedy parser makes of the whole stream, however the connection ends |
| `Streaming.SameStreamSameSession` | channel/context.go:264-285 | two cuts of one stream give the same session |
| `Streaming.EveryByteParsedIff` | channel/context.go:267-276 | the bytes parsed are all that arrived exactly when no read brings bytes with an error, and a prefix of them otherwise |
| `Streaming.FireIff` | channel/context.go:226-241 | FireMessage returns an error exactly if each handler before one passed its message on and that one failed with it; a handler that consumes ends the matter |
| `Streaming.ParseSegments` | channel/context.go:302-335 | the fired messages are what the chain reads from cut to cut, from the first byte on; the handlers accepted all but a last failing one, and the bytes behind the last cut show why the parse ended |
| `Streaming.SessionEnds` | channel/context.go:253-285 | a decode error is reported once, a handler's error twice, a read error once, the end of the stream and a panic not at all, and each closes the connection |
| `Streaming.LeftoverIsInert` | channel/context.go:322-327 | what stays buffered holds no further message |
| `Streaming.RefusedFrameBlocks` | channel/context.go:322-327 | a complete frame that a later decoder answers nil on blocks the connection whatever follows |
| `Streaming.RawBytesDeliveredOnceIffOneRead` | channel/context.go:290-300 | without decoders the bytes are delivered once exactly when there is at most one read |
| `FrameLaws.LengthFieldStable` | channel/codec.go:193-277 | an answer of the decoder survives any bytes appended |
| `FrameLaws.DelimiterStable` | channel/codec.go:400-423 | the same for the delimiter decoder, for every delimiter and maximum |
| `FrameLaws.LineStable` | channel/codec.go:339-357 | the same for the line decoder |
| `FrameLaws.MessageDecoderNotStable` | example/request_response.go:68-70 | the message decoder takes whatever is there, so it is not stable and needs a frame decoder in front |
| `FrameLaws.ProductiveNeverStalls` | channel/context.go:302-335 | with a first decoder whose messages use bytes the decode loop ends on every buffer |
| `FrameLaws.DelimiterProductiveIff` | channel/codec.go:415-420 | every message uses bytes exactly when the delimiter is not empty |
| `FrameLaws.LengthFieldProductiveIff` | channel/codec.go:245-276 | at every width each message uses bytes exactly when some are stripped, or no field value makes the frame empty, or that one is refused as too large |
| `FrameLaws.ProductiveNeverHangs` | channel/context.go:264-338 | with such a first decoder, or none, the read loop never hangs, whatever it reads |
| `FrameLaws.LengthFieldFrame` | channel/codec.go:245-276 | for well-formed offset, adjustment and strip the frame is exactly the bytes from strip to the announced end, and each other outcome has its exact condition |
| `FrameLaws.LengthFieldSoundIff` | channel/codec.go:245-276 | fields of up to four bytes: no panic and no empty progress on any input exactly when an empty payload gives a non-empty frame that covers the strip, or every frame is too large |
| `FrameLaws.EightByteFieldNeverSound` | channel/codec.go:234-240 | with eight bytes, a non-negative maximum and a smallest frame below 2^63 some header always announces a frame that ends before it starts |
| `FrameLaws.LengthFieldWaitsBelowIff` | channel/codec.go:247-274 | the decoder waits only below header plus maximum frame length, exactly when the strip is within the largest frame, or within the header for eight bytes, or every frame is too large |
| `FrameLaws.LineEndings` | channel/codec.go:341-354 | a line is delivered without its newline and one carriage return before it, so both endings are taken; a longer one is an error |
| `FrameLaws.BadWidthIsError` | channel/codec.go:241-243 | a header of another width is an error as soon as it is there |
| `FrameLaws.LineWaitsBelow` | channel/codec.go:341-344 | the line decoder waits only up to maxLength + 1 bytes |
| `FrameLaws.DelimiterWaitsBelow` | channel/codec.go:404-407 | the delimiter decoder waits only up to maxLength plus the delimiter |
| `FrameLaws.BuffersWithin` | channel/context.go:264-285 | if no parse leaves more than n bytes waiting, no run of reads does, and its bytes never exceed n plus one read |
| `FrameLaws.BoundedBuffering` | channel/context.go:264-338 | in every run the leftover stays within the decoder's bound and the peak within that plus one read, if later decoders never answer nil on a frame |
| `FrameLaws.BoundedIffNeverRefuses` | channel/context.go:322-327 | for a stable first decoder with a bound, the leftovers of the chain are bounded exactly if no later decoder answers nil on a frame |
| `Connections.HandleBoundedConnection` | channel/server.go:156-161 | the same of the code's buffer: it holds at most n bytes between reads and never more than n plus one read |
| `Connections.HandleConnection` | channel/server.go:156-161 | a new context and its read loop: the session of its reads, the buffer holding the undecoded bytes and no others, and its peak |
| `Connections.HandleStackConnection` | example/request_response.go:117-121 | a connection with the layout's stack fires exactly the messages sent to it and keeps no byte |
| `FrameLaws.DelimiterSplitsStream` | channel/codec.go:400-423 | the fired messages, each followed by the delimiter, and the leftover are the stream, cut at leftmost delimiters, with none left over |
| `Encoders.PutUintAt` | channel/codec.go:311-318 | fills a field of the result and leaves every other byte |
| `Encoders.EncodeLengthField` | channel/codec.go:298-326 | the length, with or without the header, in the given width, then the payload; each error case |
| `Encoders.EncodeLine` | channel/codec.go:368-383 | the text followed by carriage return and newline |
| `Encoders.EncodeMessage` | example/request_response.go:35-48 | sequence number, type and value, laid out in one array |
| `Encoders.OnWireIff` | channel/context.go:168-184 | what Write sends, or the error it fails with, is what the encoders, the last first and each on what the one before made, come to |
| `Encoders.TwoEncoders` | channel/context.go:168-177 | Write runs the encoder nearest the socket last, on what the other one made |
| `RoundTrips.ListRoundTripIff` | channel/context.go:302-338 | for any codec whose messages are each delivered or lost: a list comes back exactly when each of its messages is delivered |
| `RoundTrips.SessionRoundTripIff` | channel/context.go:264-338 | the same through the read loop, in any chunking |
| `RoundTrips.EncodersAccept` | channel/codec.go:298-383 | each encoder takes exactly its types of message, and answers the others with its error |
| `RoundTrips.StackAcceptsIff` | example/request_response.go:35-39 | the stack's encoders take every packet and nothing else |
| `RoundTrips.MessageLayout` | example/request_response.go:41-47 | number, type and value stand at bytes 0, 4 and 8 of a message |
| `RoundTrips.LengthFieldRoundTripIff` | channel/codec.go:193-326 | widths 1, 2, 4 and 8, header counted or not: the payloads come back exactly when each is within the maximum and its written length fits the field |
| `RoundTrips.LineRoundTripIff` | channel/codec.go:339-383 | strings come back exactly when none has a newline or is longer than maxLength - 1; a trailing carriage return is kept |
| `RoundTrips.DelimiterRoundTripIff` | channel/codec.go:400-423 | messages come back exactly when the first delimiter in each message with its delimiter is that one, overlaps included |
| `RoundTrips.StackRoundTripIff` | example/request_response.go:117-121 | messages through the reversed encoders and, in any chunking, the forward decoders come back equal exactly when no value exceeds 65528 bytes |
| `RoundTrips.ShortFrameBlocksStack` | example/request_response.go:54-56 | a frame under eight bytes leaves every later byte undecoded |
| `RoundTrips.FrameBlocksStackIff` | example/request_response.go:54-56 | a complete frame blocks the stack for good exactly when it is under eight bytes |
| `RoundTrips.StackHasNoBound` | example/request_response.go:54-56 | no number bounds what the stack keeps waiting |
| `RoundTrips.StackNeverHangs` | channel/context.go:302-335 | the stack's read loop never hangs, whatever it reads |
| `ChannelContexts.ChannelContext.FireMessage` | channel/context.go:226-241 | the loop computes the answer that `Streaming.FireIff` characterises, and reports an error |
| `ChannelContexts.ChannelContext.DecodeChain` | channel/context.go:303-328 | one pass over the decoders, each later one on a temporary buffer of the bytes before it |
| `ChannelContexts.SteppedDecodes` | channel/context.go:302-335 | each iteration takes one message off the front of the parse and leaves the rest of it |
| `ChannelContexts.ChannelContext.DecodeAndFire` | channel/context.go:288-339 | the loop fires exactly the parse of the buffered bytes, returns the error that ended it, and otherwise leaves the undecoded bytes at the front of the buffer and nothing else |
| `ChannelContexts.ChannelContext.Receive` | channel/context.go:266-284 | one read: end of stream, error, each with its bytes dropped, nothing, or bytes appended and decoded; the buffer grows by the read and is compacted before the next |
| `ChannelContexts.ChannelContext.ReadLoop` | channel/context.go:253-285 | the loop computes the session of its reads, messages fired, errors reported, leftover, closed, and the most bytes its buffer has held |
| `ChannelContexts.AfterReadPeak` | channel/context.go:266-284 | one iteration and the reads still to come add up to the peak of them all |
| `ChannelContexts.AfterReadSession` | channel/context.go:266-284 | one iteration and the session still to come add up to the whole session |
| `ChannelContexts.ChannelContext.RunOutbound` | channel/context.go:156-166 | the loop computes the answer that `ChannelContexts.OutboundIff` characterises |
| `ChannelContexts.OutboundIff` | channel/context.go:156-166 | the outbound handlers, the last first, pass the message on until one consumes or fails it, or it is through |
| `ChannelContexts.ChannelContext.RunEncoders` | channel/context.go:169-177 | the encoders last to first |
| `ChannelContexts.ChannelContext.Write` | channel/context.go:147-196 | what reaches the connection and how the future is completed, as `ChannelContexts.WriteOutcome` says |
| `ChannelContexts.WriteOutcome` | channel/context.go:147-196 | the future succeeds exactly if a handler consumed the message or the connection took the bytes; exactly these are then sent; a refusal or a fault of conn.Write fails it with that error and sends none |
| `ConcurrentWrites.PeerReceivesPermutation` | channel/context.go:147-196 | after any interleaving of Writes and in any chunking the peer gets the messages of exactly the writers that succeeded, each once and whole |
| `ConcurrentWrites.SucceedsIffSent` | channel/context.go:179-192 | a Write of a packet succeeds exactly if its conn.Write does, of anything else never |
| `Futures.Future.SetSuccess` | channel/future.go:82-94 | the critical section as a function of the old state |
| `Futures.Future.SetFailure` | channel/future.go:97-110 | the same with the error |
| `Futures.Future.Cancel` | channel/future.go:113-128 | the compare-and-swap first: the flag is set even when done |
| `Futures.Future.AddListener` | channel/future.go:131-141 | launched at once when done, queued otherwise |
| `Futures.Future.NotifyListeners` | channel/future.go:158-162 | every queued listener launched, in order |
| `Futures.CompletedAndNotifiedOnce` | channel/future.go:82-162 | in every interleaving done closes once, by one call that returned true, with that call's error, and every listener added is launched once, and none before |
| `Futures.DoneIffCompleted` | channel/future.go:82-128 | when all calls have returned the future is done exactly if one of them was to complete it |
| `Futures.DoneIsFinal` | channel/future.go:82-128 | nothing changes a completed future's error or reopens it |
| `Futures.SuccessLastsIff` | channel/future.go:113-128 | from any successful state, success lasts exactly as long as no caller of Cancel has a turn |
| `Timers.TimeoutTask.Cancel` | util/singleton.go:79-89 | sets the flag once and says whether the timer was stopped |
| `Timers.TimeoutTask.Check` | util/singleton.go:65-73 | the callback runs the task exactly when the flag is down |
| `Timers.CancelOrRun` | util/singleton.go:60-89 | in every interleaving the task runs at most once, never after a Cancel that returned true, and never when the flag was set before the check |
| `Timers.RunsIff` | util/singleton.go:60-76 | the task runs exactly if the timer expires and its check comes before any Cancel |
| `Timers.CommittedRuns` | util/singleton.go:65-73 | a task past its check runs, whatever is cancelled by then |
| `Sequencers.RoundRobinInteger.Next` | util/container.go:66-77 | returns the old value and stores its successor |
| `Sequencers.Linearizable` | util/container.go:66-77 | in every interleaving of loads and swaps, ABA included, the i-th successful call returns the i-th value |
| `Sequencers.UnovertakenSucceeds` | util/container.go:67-76 | a swap fails only if another call has succeeded since the load |
| `Sequencers.NthCycles` | util/container.go:68-72 | below the largest int32 the sequence climbs from min to max and repeats |
| `Sequencers.NthIsRemainder` | util/container.go:68-72 | so the i-th value is min plus i modulo the size of the range |
| `Sequencers.NthWraps` | util/container.go:69-70 | at the largest int32 it wraps through the negatives instead |
| `Sequencers.NoReuseWithinPeriod` | util/container.go:64-77 | calls closer than the period return different numbers |
| `Sequencers.InRangeIff` | util/container.go:64-65 | the first n numbers are in range exactly when the wrap cannot happen or is not reached |
| `TimeoutableMaps.TimeoutableMap.PutWithTimeout` | util/timeoutable.go:60-79 | timer first, then the swap, then the replaced entry's timer is cancelled and its value returned, as `TimeoutableMaps.PerformsAsPlainMap` and `StoringArmsIff` say |
| `TimeoutableMaps.TimeoutableMap.PutIfAbsentWithTimeout` | util/timeoutable.go:87-102 | a present value is returned and nothing changes; otherwise stored, then timed, as the same two lemmas say |
| `TimeoutableMaps.TimeoutableMap.RemoveKey` | util/timeoutable.go:129-138 | the entry out, its timer cancelled, its value returned |
| `TimeoutableMaps.TimeoutableMap.CancelKey` | util/timeoutable.go:147-157 | true exactly when there was a task, which is stopped while the entry stays |
| `TimeoutableMaps.TimeoutableMap.ClearAll` | util/timeoutable.go:160-169 | empties the map and stops exactly the timers of its entries, in any order of keys |
| `TimeoutableMaps.TimeoutableMap.ExpireTask` | util/timeoutable.go:104-118 | the callback deletes by key and calls the handler with the captured entry |
| `TimeoutableMaps.PerformKeepsTimers` | util/timeoutable.go:60-169 | every operation keeps armed timers and live entries with a task in bijection |
| `TimeoutableMaps.PerformsAsPlainMap` | util/timeoutable.go:60-169 | every operation does to the values what it does on a plain map, and answers what was there |
| `TimeoutableMaps.StoringArmsIff` | util/timeoutable.go:66-68 | a stored entry gets a timer, armed for it and its key, exactly if its timeout is positive |
| `TimeoutableMaps.TimedIff` | util/timeoutable.go:60-169 | over every history a key has its timer armed exactly if its entry was stored with a positive timeout and no Cancel has answered true for it, and the next Cancel answers just that |
| `TimeoutableMaps.EveryValueHasOneFate` | util/timeoutable.go:60-169 | in every history each stored value is present or was replaced, removed, cleared or expired, once and never two of these |
| `TimeoutableMaps.ExpiryRemovesItsOwn` | util/timeoutable.go:104-118 | the armed timers are exactly the tasks of live entries, so deleting by key removes the entry the timer was started for |
| `TimeoutableMaps.HandlerRunsOnceForTheExpired` | util/timeoutable.go:114-116 | the handler is called once, with what was stored, for each expired value and for no other |
| `TimeoutableMaps.UntimedNeverExpires` | util/timeoutable.go:66-68 | an entry without a timer never expires, whatever follows |
| `TimeoutableMaps.CancelledNeverExpires` | util/timeoutable.go:147-157 | a Cancel that answered true saves its entry from the timeout for good |
| `Requests.NextKeepsInv` | example/request_response.go:128-188 | every atomic step of every thread keeps numbers, map, removals, timers and futures consistent |
| `RequestSafety.FirstRoundIsReachable` | util/container.go:66-77 | a run that issues no more numbers than there are takes none again |
| `RequestSafety.NoLostRequest` | example/request_response.go:128-152 | in every state of a run that takes no number before its last holder is retired, a request that armed its timer is done, once, or its timer, its callback or the thread that removed it will complete it |
| `RequestSafety.AllDoneAtQuiescence` | example/persistent_client.go:79-103 | when no thread can move every future is done and was completed exactly once |
| `RequestSafety.ResponsesCorrelate` | example/request_response.go:172-188 | a successful future holds the message of the one response that removed its entry, with the number the request was issued |
| `RequestSafety.SuccessIsFinal` | example/persistent_client.go:135-155 | no later step, of a duplicate response or any other, changes a successful future or its value |
| `RequestOutcomes.OutcomeHasCause` | channel/future.go:185-188 | in every reachable state a future is done exactly when its time-out ran, its failed Write was reported or its response was handled; an error is the time-out or that Write's fault, and a response that neither forestalled brings success with its message |
| `RequestOutcomes.ResponseSucceeds` | example/request_response.go:179-183 | a message with the number of a pending request ends, at rest, in the success of that request with this message, unless a time-out or a failed Write came first |
| `RequestOutcomes.OthersPassThrough` | example/request_response.go:179-187 | any other message leaves requests and map alone |
| `RequestOutcomes.FaultReachesFuture` | example/request_response.go:144-149 | a Write that meets a fault ends, at rest, in the failure of its request with that fault, unless a time-out or a response came first |
| `RequestOutcomes.FailureComesFromWrite` | example/persistent_client.go:95-100 | a request that failed was timed out or its own Write met the error in the run |
| `RequestOutcomes.AnsweredNeverTimesOut` | util/timeoutable.go:129-135 | once its response is handled a request is never timed out, unless its timer had passed its check |
| `RequestOutcomes.RemovalsRemove` | util/timeoutable.go:104-138 | a response, a failed Write and a time-out each leave nothing under their number |
| `RequestOutcomes.StoredIsFindable` | util/timeoutable.go:60-79 | a stored request can be found under its number until its response or failed Write takes it or a callback of that number deletes it |
| `RequestSafety.OneHolderPerNumber` | util/container.go:66-77 | in every reachable state, of two requests that share a number one has left the map and will not look in it again, and the entry under a number belongs to one that has not |
| `RequestLimits.LostForever` | util/timeoutable.go:70-76 | a request dropped from the map with its timer stopped is not completed in any continuation |
| `RequestLimits.OneTooManyCanLoseOne` | util/timeoutable.go:60-79 | for any number of requests above that of numbers a run exists that loses one for good |
| `RequestLimits.LosesOneIff` | util/timeoutable.go:60-79 | whatever the peer sends, some run loses a request for good exactly when there are more requests than numbers |
| `CollectionFutures.NextKeepsInv` | channel/future.go:222-247 | every step keeps the counter at n less the successful listener runs, and the aggregate explained by its listeners |
| `CollectionFutures.DoneOnceAllEnded` | channel/future.go:235-243 | once all listeners have run the aggregate is done, cancelled members included |
| `CollectionFutures.AggregateIffAllSucceeded` | channel/future.go:222-247 | without cancelled members it succeeds exactly when all members did, and otherwise holds the cause of one that failed |
| `CollectionFutures.AggregateIsWinners` | channel/future.go:235-243 | in every run, cancelled members and mixed causes included, it holds the cause, or nil, of the member whose listener completed it first, and succeeds exactly when that is nil |
| `CollectionFutures.OneCancelMisleads` | channel/future.go:240-242 | for every list of members and each of them, a run that cancels only that one ends with a successful aggregate |
| `CollectionFutures.OneFailureShows` | channel/future.go:240-242 | for every list of members, each of them and each cause, a run that fails that one ends with the aggregate failed with it |
| `CollectionFutures.AllSuccessesShow` | channel/future.go:236-239 | a run in which all members succeed ends with a successful aggregate |
| `CollectionFutures.RightIffNoMemberCancellable` | channel/future.go:222-247 | success of the aggregate means success of all members in every run exactly when no member is among the futures that may be cancelled |
| `CollectionFutures.NilCausesReadAsSuccess` | channel/future.go:240-242 | with no failure that has a cause the aggregate reports success, and the members seen to fail were cancelled |
| `CollectionFutures.CausesReadAsFailure` | channel/future.go:240-242 | failures that all have one make it fail |
| `CollectionFutures.SettledMeansAllEnded` | channel/future.go:131-141 | once members are done and nothing moves, every listener has run |
| `PersistentClients.MoveKeepsInv` | channel/persistent_client.go:57-130 | every step of every goroutine keeps claims and futures consistent |
| `PersistentClients.AddressExclusion` | channel/persistent_client.go:57-130 | over a whole run with a stop at any moment at most one goroutine per address ever dials |
| `PersistentClients.ClaimsAreLiveBeforeStop` | channel/persistent_client.go:59-62 | before the stop the goroutine in the loop is the only one for its address, and its claim is in the map |
| `PersistentClients.FutureCompletedOnce` | channel/persistent_client.go:57-109 | a goroutine that returned has completed its future by one call |
| `PersistentClients.SuccessIffConnected` | channel/persistent_client.go:81-109 | the future succeeds exactly if a dial has returned a connection, in the step after it; that of a goroutine that returned exactly if one ever did |
| `PersistentClients.FailuresHaveCauses` | channel/persistent_client.go:57-92 | turned away only when another goroutine has the address, told of the stop only after it, and before it still at it otherwise |
| `PersistentClients.DialsAgain` | channel/persistent_client.go:70-129 | until the stop a goroutine in the loop dials again within six of its steps |
| `PersistentClients.AtMostOneDialAfterStop` | channel/persistent_client.go:71-81 | after the stop a goroutine begins at most the one dial whose check it has passed |
| `PersistentClients.DialsAfterStopIff` | channel/persistent_client.go:71-81 | after the stop a goroutine can begin another dial exactly if it stands between the check and the dial |
| `PersistentClients.StopBeforeDial` | channel/persistent_client.go:71-81 | for every goroutine a run ends stopped with it standing there, able to dial |
| `PersistentClients.SecondDeleteFreesAnothersClaim` | channel/persistent_client.go:64-68 | for any three goroutines of one address a run has two of them in the loop, by way of the second delete |
| `PersistentClients.ClaimsExclusiveIff` | channel/persistent_client.go:57-130 | every run, after the stop too, keeps at most one goroutine per address in the loop exactly when no address is given to three |
| `Clients.ConnectWithRetry` | channel/client.go:136-183 | the loop dials until its first final round and completes the future with that round's answer |
| `Clients.RetryAccounting` | channel/client.go:136-183 | with a count k the loop has dialed at most k + 1 times when it ends, in one round only, successfully exactly when that round connected |
| `Clients.RoundByRound` | channel/client.go:141-182 | after refusals only, the stop, a connection, a time-out and the last refusal of the count each end the loop at once with their own answer, and nothing else does |
| `Clients.RefusedThroughout` | channel/client.go:165-172 | refused all the time, a count k gives up after k + 1 dials and a negative one never does |
| `ChannelGroups.MembershipFollows` | channel/handler/channel_group.go:24-35 | an Add puts in and a Remove takes out its own connection and no other |
| `ChannelGroups.SizeCountsTheSet` | channel/handler/channel_group.go:24-46 | in every interleaving the counter is the size of the set less what is still to be counted, and the size itself when no call is under way |
| `ChannelGroups.SizeNonNegativeIff` | channel/handler/channel_group.go:24-46 | in every run that keeps the set within an int32 Size is never negative exactly when at most one thread uses the group |
| `Pipelines.IndexOf` | channel/pipeline.go:196-203 | the first handler of the name, with none before it, or none at all |
| `Pipelines.Pipeline.AppendAt` | channel/pipeline.go:69 | Go's append on a prefix: in place while the capacity suffices, else in a new array |
| `Pipelines.Pipeline.InsertAt` | channel/pipeline.go:63-71 | the nested append inserts at the index and keeps names unique |
| `Pipelines.Pipeline.CloseSlot` | channel/pipeline.go:125 | the overlapping copy removes exactly the slot |
| `Pipelines.Pipeline.AddFirst` | channel/pipeline.go:42-52 | the edited sequence, or the panic case and no change |
| `Pipelines.Pipeline.AddLast` | channel/pipeline.go:29-39 | the same at the end |
| `Pipelines.Pipeline.AddBefore` | channel/pipeline.go:55-71 | the same before the named handler |
| `Pipelines.Pipeline.AddAfter` | channel/pipeline.go:74-94 | the same behind it |
| `Pipelines.Pipeline.Replace` | channel/pipeline.go:97-112 | the same in its place, possibly under a new name |
| `Pipelines.Pipeline.Remove` | channel/pipeline.go:115-127 | the sequence without the handler, which is returned |
| `Pipelines.Pipeline.Codecs` | channel/pipeline.go:206-231 | the decoders, or the encoders, in pipeline order |
| `Pipelines.Pipeline.Clone` | channel/pipeline.go:180-192 | an equal sequence in an array of its own |
| `Pipelines.EditClone` | channel/pipeline.go:180-192 | any run of edits on a clone realises the edited sequence and leaves the original alone |
| `Pipelines.EditBoth` | channel/pipeline.go:180-192 | however edits of a pipeline and of its clone alternate, each realises its own edits and none of the other's |
| `Pipelines.PerformKeepsUnique` | channel/pipeline.go:29-127 | every edit keeps names unique |
| `Pipelines.AppliesIff` | channel/pipeline.go:29-127 | an edit goes through without a panic exactly if the handler it names is there and the name it adds is free, or that of the handler it replaces |
| `Pipelines.RemovesExactly` | channel/pipeline.go:115-127 | Remove takes out the handler of that name and leaves the others in order |
| `Pipelines.AddedStandsWhereAsked` | channel/pipeline.go:29-112 | the added handler stands first, last, just before, just behind or in place of the one named, and a replacement leaves the others where they are |
| `Pipelines.RemoveUndoesAdd` | channel/pipeline.go:115-127 | removing what was just added restores the pipeline |
| `Pipelines.RunOfEdits` | channel/pipeline.go:29-127 | over any run names stay unique, and decoders and encoders stay when only other handlers are edited |
| `Pipelines.LayoutIsStack` | example/request_response.go:117-121 | the layout's AddLast calls give exactly the codec stack of the round-trip theorem |

## Left out

- Sockets, TLS, logging, configuration, signals, hashing, UUIDs, deflate, heartbeats, the scheduled executor, Startable states, CacheableMap and the server's accept loop: foreign calls or easy members.
- `conn.Read` supplies bytes, or the end of the stream or an error with or without bytes; `conn.Write` appends the whole message or fails; a dial connects, times out or is refused.
- Real time: a timer is a step that may happen at any moment, and no deadline is proved.
- Handlers are pure functions of the message, and the pipeline is fixed while a connection runs; OnConnected, OnDisconnected and a Close from outside the read loop are not part of the model.
- A Go run-time panic is the error value `Panicked`: no error handler sees it and it completes no future. That it ends the whole process is not part of this model.
- ChannelContexts.ChannelContext.DecodeAndFire: requires that the parse does not stall, and ReadLoop that the session does not hang, since the source loops for ever there; `FrameLaws.ProductiveNeverStalls` and `ProductiveNeverHangs` say when that is met.
- Decoders.Decode: a user's decode function is a pure function of the unread bytes, so one with state of its own is not covered.
- Sequencers.RoundRobinInteger.Next: the method is one call that no other thread interrupts; the interleaved loop is the step machine of `Sequencers.Linearizable`.
- Buffers.Buffer.Write: the bytes are a sequence value, so the backing array a decoder could keep a slice of is not captured.
- RequestSafety.NoLostRequest: the protocol is a step machine on values, one step for each atomic operation, as are the models in Timers, Futures, CollectionFutures, PersistentClients and ChannelGroups; the timeout is positive, user threads do not cancel the futures, and IsSuccess is read in one step.
- RequestSafety.AllDoneAtQuiescence: says nothing of fairness, so nothing bounds how long a compare-and-swap loop retries.
- CollectionFutures.AggregateIffAllSucceeded: the aggregate is completed by its listeners only.
- Futures.CompletedAndNotifiedOnce: a future made by NewFuture; one that starts out failed is not part of this model.
- PersistentClients.AddressExclusion: every goroutine starts with isInitial true, as ConnectAddr is its only caller.
- PersistentClients.AtMostOneDialAfterStop: does not promise that no dial follows the stop, because the check and the dial are two operations in the source.
- PersistentClients.FutureCompletedOnce: user threads do not complete or cancel the futures they are given.
- TimeoutableMaps.EveryValueHasOneFate: operations and expiries are atomic, a timeout handler is set, and the pointer to the stored value that callers get is the entry's number and value.
- RoundTrips.LengthFieldRoundTripIff: frames are shorter than 2^63 bytes and the maximum below 2^62, beyond what memory holds.
- RoundTrips.StackRoundTripIff: frames are shorter than 2^63 bytes; like the other round trips it takes handlers that return no error and a connection that is still open, while `Streaming.ChunkingInvariance` covers failing handlers and every ending.
- Streaming.RawBytesDeliveredOnceIffOneRead: handlers that return no error, and reads that all bring bytes.
- FrameLaws.LengthFieldSoundIff: stated for fields of up to four bytes; `EightByteFieldNeverSound` is the answer for eight.
- ChannelGroups.SizeCountsTheSet: Close of the group, which stores 0 over changes still to be counted, is not part of this model.

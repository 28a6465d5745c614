# Verified model of the Kafka client's network core

A Dafny 4.11 model of the parts of the client that carry hard properties, with proofs.
`dafny verify dfyconfig.toml` checks everything; no file uses an assumption.

## What is modelled

**The broker connection** (`src/network/BrokerConnection.ts`). `Connection.dfy` states the
protocol as a state machine over values: every event handler - connect, with a socket or
without one, a socket's connect, data, error, idle, end and close events, the connection
timeout, disconnect, send, a failed write, a timer tick - is one atomic step, because none of them awaits before its
effects. The state holds the object's fields and, beside them, every promise ever handed out,
the bytes written, the sockets made with those that may still call their listeners, all live
interval timers and the clock. `BrokerConnection.dfy` is the object itself: a class with the
same mutable fields whose handlers, loops included, are proved to do exactly one step and to
keep the invariant. `ConnectionSafety.dfy` proves what every step keeps and what follows for
whole runs; `ConnectionDelivery.dfy` proves where results come from and that responses reach
their requests however the bytes arrive and whatever happens in between;
`ConnectionResidue.dfy` proves what becomes of answers when bytes were kept from before;
`ConnectionSockets.dfy` proves what sockets dropped by disconnect can still do;
`ConnectAwait.dfy` adds the promises of connect calls and says when they end, with and without
a listener for errors (with one, the connection does what `Connection.dfy` says:
`ConnectAwait.HeardIsStep`). `Framing.dfy` is the length-prefixed stream, `ReceiveLoop.dfy` the loop over it on every stream, negative
sizes included. `ConnectionTerms.dfy` has the numbers: the limits of send, the timeouts and the
timers.

`disconnect` leaves a socket's listeners on and `onDisconnect` takes them off the socket the
object holds, so socket events carry their socket. What is assumed of the environment is
`Connection.Allowed`: a socket whose listeners are gone or that has closed emits nothing, it
connects once and before any data, write callbacks belong to writes, timers fire while they
are live and at most 1000 ms apart, the clock does not run backwards, fewer than 2147483647
sends happen while a request or its write is outstanding, and the loop over received bytes
ends (`ReceiveLoop.EndsIff` says when).

**The wire codec** (`BasicTypes`, `Encoder`, `Decoder`, both request headers, `Request`,
`MetadataRequest`, `MetadataResponse`). Bytes are integers 0..255; strings are their UTF-8
bytes. `JsNumber.dfy` defines JavaScript's 32-bit operators bit by bit and proves what they
mean as arithmetic. The varint, compact and array codecs follow the Kafka Protocol Guide,
section "Protocol Primitive Types". A function gives the bytes or the value of each field; the
methods that fill buffers or move a cursor are proved to compute it; round trips are lemmas
about the functions. `Streaming.dfy` models `Encoder` and `Decoder` as classes driven by a
recursive schema: the callbacks given to `writeArray` and `readArray` are the calls for the
element schema; `SchemaLimits.dfy` proves which values do not come back, and
`WireFormat.dfy` says the bytes of every value once more, without the codecs.

**The cluster metadata** (`src/network/ClusterMetadata.ts`). `Sorting.dfy` is JavaScript's
default sort order, `PartitionChanges.dfy` the change detector, `ClusterMetadata.dfy` the
object, the merge of snapshots, runs of calls and listeners.

**Retries and refreshes** (`src/network/NetworkClient.ts`). `Retries.dfy` runs a call against
arbitrary functions that give every answer of the network and, after every await, arbitrary
tables. `MetadataRefresh.dfy` interleaves any number of refresh calls and resumed bodies, and says
when the flag stays up for good.
`RefreshRuns.dfy` proves what a call starts and follows whole refreshes to their table.
`Reconciliation.dfy` says what a refresh makes of the connection table and `NetworkClient.dfy`
has the methods.

**The partitioner** (`src/producer/KafkaProducer.ts`, `calculatePartition` only).

Where the code does not do what one might expect, a lemma gives the input and another the exact
condition: counts above 2^31 - 1, streams on which the receiving loop does not end, id reuse,
bytes kept from an old socket, partition lists that repeat an index, header encoders that
differ, a `connect` event that arrives after `disconnect`, a port that no socket can be made
for, the events of an old socket that settle the requests of a new one, and a connect that
fails while nobody listens.

## Model

| member | source | states |
|---|---|---|
| Bytes.IntOfBytes | src/protocol/types/BasicTypes.ts:25-88 | reading a signed big-endian field of any width gives back every integer that fits it |
| Bytes.IntBytesOf | src/protocol/types/BasicTypes.ts:25-88 | every field content is the encoding of exactly one in-range integer |
| Bytes.UIntOfBytes | src/protocol/types/BasicTypes.ts:93-156 | the same for unsigned fields |
| Bytes.FirstByteWeighsMost | src/protocol/types/BasicTypes.ts:25-156 | big-endian two's complement: the first byte weighs most and carries the sign |
| JsNumber.And0x7F | src/protocol/types/BasicTypes.ts:249-252 | the mask of the varint loops is the remainder modulo 128, for any integer |
| JsNumber.Or0x80 | src/protocol/types/BasicTypes.ts:249-249 | setting the continuation bit of a group adds 128 |
| JsNumber.OrShifted | src/protocol/types/BasicTypes.ts:269-269 | or-ing in a group shifted above the bits read so far adds it, within 31 bits |
| Varint.VarintIsBase128 | src/protocol/types/BasicTypes.ts:236-252 | an encoded count up to 2^31-1 is its minimal base-128 form of 1 to 5 bytes, continuation bits on all but the last |
| Varint.SizeOfLength | src/protocol/types/BasicTypes.ts:236-241 | the sizing loop counts exactly the bytes the writing loop emits, for every count |
| Varint.WriteLength | src/protocol/types/BasicTypes.ts:246-252 | the writing loop puts exactly the varint at its position and leaves what precedes it |
| Varint.ReadLength | src/protocol/types/BasicTypes.ts:263-271 | the do-while loop accumulates what the varint reader specifies, or fails at the end of the buffer |
| Varint.Base128Reads | src/protocol/types/BasicTypes.ts:263-271 | the reader accepts every base-128 form of a count up to 2^31-1, minimal or padded |
| Varint.CountRoundTripsIff | src/protocol/types/BasicTypes.ts:236-271 | at any offset and with any suffix a count reads back exactly if it is at most 2^31-1 |
| BasicTypes.EncodeSized | src/protocol/types/BasicTypes.ts:195-205 | nullable strings and bytes: the buffer filled in place is the counted field, the null marker is the count -1, too long a value is a RangeError |
| BasicTypes.ReadSizedAt | src/protocol/types/BasicTypes.ts:195-220 | a nullable string or byte field reads back at any offset, null apart from empty |
| BasicTypes.EncodeCompactBytes | src/protocol/types/BasicTypes.ts:226-257 | allocate, write the count, copy: the buffer is filled exactly |
| BasicTypes.DecodeCompactString | src/protocol/types/BasicTypes.ts:262-282 | the loop-based reader is the specified one, errors included |
| BasicTypes.DecodeCompactBytes | src/protocol/types/BasicTypes.ts:353-373 | likewise for bytes |
| BasicTypes.CompactRoundTripsIff | src/protocol/types/BasicTypes.ts:226-373 | both compact readers undo the encoders exactly for values below 2^31-1 bytes |
| BasicTypes.EncodeArray | src/protocol/types/BasicTypes.ts:378-407 | encoding the elements first and copying them into one buffer gives count and elements in order, or the element's error |
| BasicTypes.EncodeCompactArray | src/protocol/types/BasicTypes.ts:437-484 | likewise behind a varint count |
| BasicTypes.DecodeArray | src/protocol/types/BasicTypes.ts:412-432 | the element loop reads as many elements as counted, each where the last one ended |
| BasicTypes.DecodeCompactArray | src/protocol/types/BasicTypes.ts:489-519 | likewise behind a varint count |
| BasicTypes.ArraysLift | src/protocol/types/BasicTypes.ts:378-432 | arrays of a self-delimiting codec are a self-delimiting codec, so any nesting reads back |
| BasicTypes.CompactArraysLift | src/protocol/types/BasicTypes.ts:437-519 | the same for compact arrays |
| BasicTypes.CompactArrayRoundTripsIff | src/protocol/types/BasicTypes.ts:437-519 | a compact array of a self-delimiting codec reads back exactly if it has fewer than 2^31-1 elements |
| Streaming.EverySchemaRoundTrips | src/protocol/Encoder.ts:11-207 | for every recursive schema every accepted value comes back from its encoding at any offset, and the reader stops at its end |
| SchemaLimits.SchemaRoundTripsIff | src/protocol/Decoder.ts:35-209 | of every schema exactly the values whose compact counts, at any depth, fit in 31 bits come back |
| WireFormat.EncodesAs | src/protocol/types/BasicTypes.ts:10-519 | for every recursive schema: exactly which values are accepted, by ranges and lengths in numbers, and their bytes, written without the codecs |
| WireFormat.OddCountsAreRead | src/protocol/types/BasicTypes.ts:210-519 | what no encoder writes but the readers take: negative counts of every kind |
| WireFormat.CutContentsAreRead | src/protocol/types/BasicTypes.ts:210-373 | contents that end behind the buffer are cut off there, the offset is not |
| Streaming.Encoder.Write | src/protocol/Encoder.ts:14-159 | every write appends exactly the field's bytes, those of BasicTypes, and keeps the running size; a rejected value leaves what was written before |
| Streaming.Encoder.WriteArray | src/protocol/Encoder.ts:164-178 | count, then elements through the callback: the same bytes as BasicTypes.encodeArray |
| Streaming.Encoder.WriteCompactArray | src/protocol/Encoder.ts:183-207 | the same bytes as BasicTypes.encodeCompactArray |
| Streaming.Encoder.WriteCount | src/protocol/Encoder.ts:195-201 | the byte-by-byte count loop appends exactly the varint |
| Streaming.Encoder.Build | src/protocol/Encoder.ts:228-230 | concatenation to the kept size loses and adds nothing |
| Streaming.Decoder.Read | src/protocol/Decoder.ts:35-165 | every read returns the specified value and leaves the cursor behind the field |
| Streaming.Decoder.ReadArrayOf | src/protocol/Decoder.ts:170-181 | the array loop over the cursor reads what BasicTypes.decodeArray reads |
| Streaming.Decoder.ReadCompactArrayOf | src/protocol/Decoder.ts:186-209 | and BasicTypes.decodeCompactArray |
| Streaming.WriteThenRead | src/protocol/Decoder.ts:6-23 | writing and reading back behind any prefix and before any suffix gives the value and moves the cursor by exactly getSize |
| Headers.EncodeHeader | src/network/protocol/Headers.ts:17-49 | the sized buffer is filled at a running offset with key, version, id and nullable client id, or a RangeError |
| Headers.HeaderRoundTrip | src/network/protocol/Headers.ts:17-79 | every header that can be encoded decodes to itself, whatever follows |
| Headers.HeaderEncodesIff | src/network/protocol/Headers.ts:17-49 | which headers can be encoded, and their length |
| Requests.RequestHeader.Encode | src/protocol/RequestHeader.ts:63-77 | the streaming header appends its fields, with the tag from version 2 on |
| Requests.RequestHeader.Decode | src/protocol/RequestHeader.ts:82-92 | decode assigns every field from where the cursor stands; without a tag the old one stays |
| Requests.RequestHeader.Size | src/protocol/RequestHeader.ts:97-112 | size is the number of bytes encode appends |
| Requests.StreamHeaderRoundTrip | src/protocol/RequestHeader.ts:63-92 | the streaming header reads back and the reader stops at its end |
| Requests.StreamHeaderOnTheWire | src/protocol/RequestHeader.ts:63-77 | the ranges under which the header is encoded and its bytes field by field, the tag from version 2 on |
| Requests.HeadersAgreeIff | src/protocol/RequestHeader.ts:63-77 | the two header encoders agree exactly below version 2 and for a client id that is not the empty string |
| Requests.ToBuffer | src/protocol/requests/Request.ts:20-48 | placeholder, header, body, size patched over the placeholder: exactly one frame |
| Requests.RequestReadsBack | src/protocol/requests/Request.ts:20-48 | a broker that splits the stream gets header and body back, with nothing left over |
| MetadataRequests.WriteString | src/network/protocol/Protocol.ts:30-46 | a nullable string written in place at an offset, and the offset behind it, or a RangeError that leaves the buffer alone |
| MetadataRequests.EncodeRequest | src/network/protocol/requests/MetadataRequest.ts:20-68 | the buffer sized in one pass is filled to its last byte in the other |
| MetadataRequests.RequestOnTheWire | src/network/protocol/requests/MetadataRequest.ts:20-68 | which requests can be encoded, and their bytes: count, names, three flags in order |
| MetadataRequests.RequestRoundTrip | src/network/protocol/requests/MetadataRequest.ts:20-68 | topics, null apart from empty, and flags read back with Protocol's readers |
| MetadataResponses.Parse | src/network/protocol/responses/MetadataResponse.ts:49-205 | the three nested levels of loops on one offset compute the layout's reader, and return m on every buffer that starts with the bytes of m |
| MetadataResponses.ParsePartitionsLoop | src/network/protocol/responses/MetadataResponse.ts:125-179 | the partition loop, with its three inner arrays, reads as many partitions as counted |
| MetadataResponses.ResponseRoundTrip | src/network/protocol/responses/MetadataResponse.ts:49-205 | parsing inverts the layout for every response whose fields fit, whatever follows |
| MetadataResponses.BytesAreParsed | src/network/protocol/responses/MetadataResponse.ts:49-205 | every buffer that starts with the bytes of a response, written with field widths, lengths and contents only, is parsed to it |
| MetadataResponses.BrokerWritten | src/network/protocol/responses/MetadataResponse.ts:62-86 | a broker is int32 node id, text host, int32 port, nullable text rack |
| MetadataResponses.PartitionWritten | src/network/protocol/responses/MetadataResponse.ts:126-178 | a partition is int16 error, int32 index, leader and epoch, and three counted int32 lists: replicas, in-sync, offline |
| MetadataResponses.TopicWritten | src/network/protocol/responses/MetadataResponse.ts:105-192 | a topic is int16 error, text name, one byte, counted partitions, int32 operations |
| MetadataResponses.ResponseWritten | src/network/protocol/responses/MetadataResponse.ts:49-205 | a response is int32 throttle time, counted brokers, nullable cluster id, int32 controller, counted topics, int32 operations |
| MetadataResponses.OddFieldsAreParsed | src/network/protocol/responses/MetadataResponse.ts:66-160 | what no response has but the parser takes: negative lengths and counts, cut texts, any non-zero boolean |
| Framing.Split | src/network/BrokerConnection.ts:387-423 | the leftover of the loop never starts with a complete frame |
| Framing.SplitResumes | src/network/BrokerConnection.ts:380-423 | bytes that come later instead of now change nothing |
| Framing.SplitIgnoresChunking | src/network/BrokerConnection.ts:376-424 | for every cut of a stream into chunks the messages and the leftover are those of one call |
| Framing.ConservedIff | src/network/BrokerConnection.ts:395-410 | messages framed again and leftover are the received bytes exactly if no size was negative |
| Framing.FramesSplitBack | src/network/BrokerConnection.ts:387-423 | any concatenation of frames splits back into its messages |
| ReceiveLoop.EndsIff | src/network/BrokerConnection.ts:387-411 | on every stream the loop ends if and only if it comes back to no position, and then within two turns more than the stream has bytes |
| ReceiveLoop.EndsIffNotMinusFour | src/network/BrokerConnection.ts:389-411 | unless a complete size below -4 is in front of the leftover, the loop ends if and only if that size is not -4 |
| ReceiveLoop.SplitIsReceived | src/network/BrokerConnection.ts:387-423 | on every stream without a complete size of -4 or less in front of the leftover the loop ends with the messages and the leftover of the split |
| ReceiveLoop.JumpBeforeStartThrows | src/network/BrokerConnection.ts:395-410 | a size that leads before the start of the buffer ends the loop with an exception |
| ReceiveLoop.SomeBackwardJumpsEnd | src/network/BrokerConnection.ts:395-410 | a stream with a size of -8 on which the loop ends |
| ReceiveLoop.SomeBackwardJumpsDoNot | src/network/BrokerConnection.ts:395-410 | a stream with a size of -8 on which it does not |
| ReceiveLoop.TurnAdvancesIff | src/network/BrokerConnection.ts:395-410 | a turn moves forward exactly if the size is above -4, and stands still exactly at -4 |
| ReceiveLoop.WhatATurnTakes | src/network/BrokerConnection.ts:395-410 | position and message of a turn for every size, negative ones included |
| ReceiveLoop.LoopCanStandStill | src/network/BrokerConnection.ts:389-411 | four bytes on which the loop stays where it is after any number of turns |
| ConnectionSafety.IdsDistinct | src/network/BrokerConnection.ts:472-475 | ids are pairwise distinct over any 2147483647 consecutive generations |
| ConnectionSafety.EnteredLedgerIff | src/network/BrokerConnection.ts:342-356 | entering a request keeps table and unsettled promises in step exactly if its id is not in use |
| ConnectionSafety.RecentIdsAreFree | src/network/BrokerConnection.ts:472-475 | fewer than 2147483647 sends since every outstanding one leave the next id unused |
| ConnectionSafety.FailWriteLedgerIff | src/network/BrokerConnection.ts:362-368 | a failed write takes out the right entry exactly if its id is not in use by another request |
| ConnectionSafety.StepKeeps | src/network/BrokerConnection.ts:183-554 | every step keeps the invariant, loses no promise and changes no settled outcome |
| ConnectionSafety.UnsettledAreInFlight | src/network/BrokerConnection.ts:262-543 | in every run the unsettled promises are exactly those in the table, each under one id |
| ConnectionSafety.OutcomesAreFinal | src/network/BrokerConnection.ts:262-543 | in every run no promise is lost and none changes its outcome once settled |
| ConnectionSafety.RequestsDoNotOutstay | src/network/BrokerConnection.ts:528-544 | a request is outstanding only while connected with a socket and a live timer, and never longer than its timeout plus 1000 ms |
| ConnectionDelivery.StepResolvesOwn | src/network/BrokerConnection.ts:430-463 | a step resolves a promise only through a whole message with its own id, with that message's payload |
| ConnectionDelivery.RunResolvesOwn | src/network/BrokerConnection.ts:376-467 | in every run, reconnects included, a resolved promise was resolved while it waited, by a message with its own id |
| ConnectionDelivery.EveryOutcomeHasItsCause | src/network/BrokerConnection.ts:221-544 | the exact fate of a waiting promise under every event: what settles it, with which outcome, and that nothing else does |
| ConnectionDelivery.ConnectingMakesSendsPossible | src/network/BrokerConnection.ts:183-357 | from any disconnected state, connecting leads to a connection on which an encodable request waits for its answer |
| ConnectionDelivery.ChunksAreHandledAsOneStream | src/network/BrokerConnection.ts:376-467 | receiving chunks handles the messages of the whole stream in order |
| ConnectionDelivery.ResponsesReachTheirRequests | src/network/BrokerConnection.ts:376-467 | responses in any order, repeated or unknown, framed, joined and cut anyhow: each request gets its first answer, the others still wait |
| ConnectionDelivery.AllAnswered | src/network/BrokerConnection.ts:376-467 | one answer for each outstanding request resolves each with its own payload and empties the table |
| ConnectionDelivery.AnswersArriveAmongEvents | src/network/BrokerConnection.ts:308-467 | with sends, ticks, failed writes of others and anything else in between that does not settle the request itself, its fate is that of the whole stream received |
| ConnectionDelivery.FramedAnswersArrive | src/network/BrokerConnection.ts:308-467 | so framed responses give each request the first answer with its id, whatever happens in between |
| ConnectionResidue.AnswersArriveIff | src/network/BrokerConnection.ts:308-467 | on a connection of any run a waiting request gets its first answer from every list of framed responses, in whatever chunks, if and only if no byte was kept from before |
| ConnectionResidue.AnyResidueSpoils | src/network/BrokerConnection.ts:376-424 | for any bytes a run can leave, and any id, a list of framed responses on which the loop ends and whose first answer the request does not get |
| ConnectionResidue.RunKeepsResidue | src/network/BrokerConnection.ts:380-423 | what every run keeps is the beginning of a message, or a whole stream on which the loop throws |
| ConnectionResidue.KeptByteIsReached | src/network/BrokerConnection.ts:376-523 | a run of six events that ends connected with a byte of the first socket kept |
| ConnectionDelivery.SendWritesItsRequest | src/network/BrokerConnection.ts:318-337 | send writes one frame that reads back as header, with the promise's id, and request data |
| ConnectionTerms.SendDecides | src/network/BrokerConnection.ts:308-370 | send in numbers: waiting, too large or out of range exactly by ranges and sizes; the bytes written, the id, and the entry with clock and timeout |
| ConnectionTerms.RequestOnTheWire | src/network/BrokerConnection.ts:318-337 | a request is encoded, or rejected and why, by its numbers alone; its bytes field by field |
| ConnectionTerms.SendElsewhere | src/network/BrokerConnection.ts:314-316 | without a connection the promise is rejected and nothing else changes |
| ConnectionTerms.TickRejectsIff | src/network/BrokerConnection.ts:528-544 | a tick rejects a waiting promise exactly if its request is older than its timeout |
| ConnectionTerms.TimesOutIff | src/network/BrokerConnection.ts:528-544 | in every run a waiting promise times out exactly by a tick whose clock is more than the timeout past that of its send |
| ConnectionTerms.StepTimers | src/network/BrokerConnection.ts:183-554 | what every step does to the interval and connection timers: a connect starts one beside any that runs, a close stops only the latest |
| ConnectionTerms.IntervalLeaks | src/network/BrokerConnection.ts:221-229 | a run of six events that ends disconnected with an interval running |
| ConnectionTerms.DataKeeps | src/network/BrokerConnection.ts:412-423 | what is kept after data: the rest the loop left, or the whole stream after an exception |
| ConnectionSockets.LateConnectWedges | src/network/BrokerConnection.ts:221-232 | connect, disconnect, then the socket connects: connected without a socket |
| ConnectionSockets.WedgesIff | src/network/BrokerConnection.ts:221-232 | a step leads to that state exactly if a socket connects while the object holds none |
| ConnectionSockets.RunWedgesIff | src/network/BrokerConnection.ts:221-291 | a run gets there if and only if disconnect, or what calls it, dropped a socket that was still connecting and that socket connects before another is made |
| ConnectionSockets.DropsIff | src/network/BrokerConnection.ts:262-291 | exactly disconnect and its callers drop a socket with its listeners on |
| ConnectionSockets.WedgedUntilClosed | src/network/BrokerConnection.ts:183-316 | from there connect returns at once, send is rejected, and exactly the events that close the connection end the state |
| ConnectionSockets.PrematureIff | src/network/BrokerConnection.ts:221-232 | a step leads to CONNECTED on a socket that is still connecting, with the timer of its attempt off, exactly if another socket connects meanwhile |
| ConnectionSockets.RunPrematureIff | src/network/BrokerConnection.ts:221-291 | a run gets there if and only if a socket that disconnect, or what calls it, had dropped connects while the next one is still connecting |
| ConnectionSockets.PrematureUntil | src/network/BrokerConnection.ts:221-291 | exactly what ends that state: the socket connects or closes, or the object drops it |
| ConnectionSockets.OldConnectIsTakenForNew | src/network/BrokerConnection.ts:221-232 | the shortest such run |
| ConnectionSockets.StrandsIff | src/network/BrokerConnection.ts:195-211 | a step leads to CONNECTING without a socket exactly if a connect call can make none |
| ConnectionSockets.StrandedUntil | src/network/BrokerConnection.ts:183-316 | from there no connect call tries again, no timer runs and send is rejected, until the connection is closed or an old socket connects |
| ConnectAwait.EveryEndHasItsCause | src/network/BrokerConnection.ts:183-257 | the exact effect of every event on a waiting connect call: only its own socket's connect fulfils it, and only its own socket's end or, with a listener, its error or timer fail it |
| ConnectAwait.CallBegins | src/network/BrokerConnection.ts:183-211 | what a connect call returns in each state |
| ConnectAwait.JoinedEnds | src/network/BrokerConnection.ts:188-193 | a call that joined an attempt ends with the next connect or the next error, whosever it is, and by nothing else |
| ConnectAwait.WaitersStay | src/network/BrokerConnection.ts:183-257 | every waiting call made a socket or has both listeners on, in every state reached |
| ConnectAwait.ThrownErrorLeaves | src/network/BrokerConnection.ts:481-488 | an error nobody listens to leaves state, socket, table and promises as they are |
| ConnectAwait.ThrownDataLeaves | src/network/BrokerConnection.ts:376-488 | of data with a headerless message: answers before it are delivered, nothing is rejected, the whole stream is kept |
| ConnectAwait.EndsEverIff | src/network/BrokerConnection.ts:183-257 | a waiting connect call can still end if and only if its socket may emit and has not failed, or the timer of its attempt runs |
| ConnectAwait.UnheardConnectEndsIff | src/network/NetworkClient.ts:350-364 | the one connect call on a new connection that nobody listens to, as the client makes it, is fulfilled if and only if its socket connects in the run, and is never rejected |
| ConnectAwait.RefusedConnectHangs | src/network/BrokerConnection.ts:481-488 | a refused connect without a listener: the object stays CONNECTING and nothing can end the promise any more |
| ConnectionSockets.OldSocketsReachIff | src/network/BrokerConnection.ts:236-250 | in every run a waiting request can be settled by another socket's event if and only if disconnect dropped a socket that has not closed since |
| ConnectionSockets.OldCloseRejectsNewRequest | src/network/BrokerConnection.ts:246-250 | such a run: the old socket's close rejects a request written to the new one |
| ConnectionSockets.ReusedIdLosesARequest | src/network/BrokerConnection.ts:342-475 | after 2147483646 further ids the next send takes the id of an outstanding request, whose promise is then in no table |
| BrokerConnection.BrokerConnection.Connect | src/network/BrokerConnection.ts:183-218 | one step of the state machine, invariant kept; for a port outside 0..65535 only the phase changes and the promise is rejected |
| BrokerConnection.BrokerConnection.OnSocketConnected | src/network/BrokerConnection.ts:221-232 | one step: connected, with one more running timer |
| BrokerConnection.BrokerConnection.Disconnect | src/network/BrokerConnection.ts:262-291 | one step: timers stopped, every request rejected, table emptied, socket dropped; nothing when disconnected |
| BrokerConnection.BrokerConnection.OnDisconnect | src/network/BrokerConnection.ts:494-523 | the same without the early return, with the given error, and the listeners taken off the socket |
| BrokerConnection.BrokerConnection.OnSocketError | src/network/BrokerConnection.ts:236-239 | one step: disconnect, whichever socket failed |
| BrokerConnection.BrokerConnection.OnSocketClose | src/network/BrokerConnection.ts:246-250 | one step: onDisconnect unless the socket closed after an error |
| BrokerConnection.BrokerConnection.RejectEach | src/network/BrokerConnection.ts:278-281 | the loop rejects exactly the promises of the table, in whatever order it takes them |
| BrokerConnection.BrokerConnection.Send | src/network/BrokerConnection.ts:308-370 | one step: rejected, or entered under a fresh id and written |
| BrokerConnection.BrokerConnection.BuildRequest | src/network/BrokerConnection.ts:322-337 | the buffer is one frame around header and payload, or the request is too large |
| BrokerConnection.BrokerConnection.OnWriteError | src/network/BrokerConnection.ts:362-368 | one step: the entry deleted, the promise rejected unless settled |
| BrokerConnection.BrokerConnection.HandleResponse | src/network/BrokerConnection.ts:430-467 | the matching request leaves the table and is resolved; a message without a header closes the connection |
| BrokerConnection.BrokerConnection.TakeMessages | src/network/BrokerConnection.ts:387-411 | on every buffer on which it ends the loop handles the messages of its turns in order and stops where they lead, or throws |
| BrokerConnection.BrokerConnection.HandleIncomingData | src/network/BrokerConnection.ts:376-424 | one step: kept bytes joined, messages handled, leftover kept, or everything kept after an exception |
| BrokerConnection.BrokerConnection.SweepTable | src/network/BrokerConnection.ts:532-542 | deleting while iterating removes and rejects exactly the expired requests |
| BrokerConnection.BrokerConnection.CheckTimeouts | src/network/BrokerConnection.ts:528-544 | one step: a tick of a live timer |
| Sorting.OrderAntisymmetric | src/network/ClusterMetadata.ts:253-254 | numbers that precede each other as strings are the same number |
| Sorting.DefaultSort | src/network/ClusterMetadata.ts:253-254 | the default sort yields a sorted permutation, by decimal strings |
| Sorting.TenPrecedesNine | src/network/ClusterMetadata.ts:253-254 | the order is not the numeric one |
| Sorting.SortedIsCanonical | src/network/ClusterMetadata.ts:253-262 | two arrays sorted that way with equal elements are equal |
| PartitionChanges.HasArrayChanged | src/network/ClusterMetadata.ts:248-263 | true exactly if the arrays differ as multisets |
| PartitionChanges.HasPartitionChanges | src/network/ClusterMetadata.ts:198-243 | false exactly if lengths agree and every updated entry matches the last existing one of its index |
| PartitionChanges.UnchangedIffEquivalent | src/network/ClusterMetadata.ts:198-243 | for updated lists with distinct indices: exactly if both lists have the same index set with equal leader, epoch and replica multisets |
| PartitionChanges.ReplacedIsSeenIff | src/network/ClusterMetadata.ts:213-243 | replacing an entry is seen exactly if leader, epoch, or the multiset of replicas, in-sync or offline ones differs |
| PartitionChanges.OtherIndexIsSeen | src/network/ClusterMetadata.ts:202-224 | another number of entries or a new index is always seen |
| PartitionChanges.LastIsCompared | src/network/ClusterMetadata.ts:207-215 | of several entries of an index the last one is compared |
| PartitionChanges.RepeatedIndexHidesAChange | src/network/ClusterMetadata.ts:208-243 | a list that repeats an index can hide that a partition is gone |
| PartitionChanges.RoutesStayIff | src/network/ClusterMetadata.ts:198-243 | an updated list counts as unchanged only where every lookup keeps its answer, if and only if it repeats no index or contradicts itself |
| PartitionChanges.FindIndex | src/network/ClusterMetadata.ts:113-113 | the find loop yields the first entry with the index, if there is one |
| PartitionChanges.EquivalentReflexive | src/network/ClusterMetadata.ts:198-243 | with its two companions: equivalence of lists with distinct indices is an equivalence relation |
| PartitionChanges.EquivalentSymmetric | src/network/ClusterMetadata.ts:198-243 | symmetry, although only one direction is scanned |
| PartitionChanges.EquivalentTransitive | src/network/ClusterMetadata.ts:198-243 | transitivity, used across snapshots |
| ClusterMetadata.ClusterMetadata.UpdateMetadata | src/network/ClusterMetadata.ts:148-193 | the new maps, fields and event of one call, through both loops |
| ClusterMetadata.ClusterMetadata.MergeTopics | src/network/ClusterMetadata.ts:161-179 | topics with errors skipped, changed names reported in order, entries replaced one by one |
| ClusterMetadata.TopicsAreLastErrorFree | src/network/ClusterMetadata.ts:161-179 | after any calls each name has the last error-free entry of all lists joined |
| ClusterMetadata.NamesStay | src/network/ClusterMetadata.ts:161-179 | known names never disappear |
| ClusterMetadata.BrokersAreTheLastList | src/network/ClusterMetadata.ts:154-158 | the broker map is made of the last call's list alone |
| ClusterMetadata.BrokerMapHasLast | src/network/ClusterMetadata.ts:154-158 | exactly the listed nodes, each with its last entry |
| ClusterMetadata.IdsAreTheLast | src/network/ClusterMetadata.ts:181-187 | after any calls cluster id and controller are those of the last one |
| ClusterMetadata.ListenersRouteAlike | src/network/ClusterMetadata.ts:107-193 | over all runs a listener that re-reads only the named topics knows the same names and equivalent partitions and finds the same leaders and errors, if every list repeats no index or contradicts itself |
| ClusterMetadata.MisroutesIff | src/network/ClusterMetadata.ts:107-193 | every other list misroutes: some run of two calls sends listener and live metadata different ways if and only if it repeats an index and does not contradict itself |
| ClusterMetadata.ReportedIffChanged | src/network/ClusterMetadata.ts:161-179 | a name is reported if and only if its entry has no error and is new or not equivalent to what was known, for lists with each name and each index once |
| ClusterMetadata.FieldChangeIsReported | src/network/ClusterMetadata.ts:161-192 | the event of a call that replaces one entry of a topic names it exactly if one of the five fields differs, else there is none |
| ClusterMetadata.ToldIff | src/network/ClusterMetadata.ts:185-192 | the first call always emits the event, a later one exactly if it has a name for it |
| ClusterMetadata.ClusterMetadata.FindLeader | src/network/ClusterMetadata.ts:107-123 | a leader is found exactly if the topic is known and the first entry of the partition has one; which part is missing decides the error |
| ClusterMetadata.RepeatedIndexMisroutes | src/network/ClusterMetadata.ts:107-193 | the smallest such run |
| Retries.SendRequestBounds | src/network/NetworkClient.ts:417-464 | against any network: at most two sends, to the node, and two refreshes; a returned buffer is the last send's; only DisconnectedErrors are retried |
| Retries.LeaderBounds | src/network/NetworkClient.ts:476-499 | at most four sends and five refreshes; a returned buffer is the last send's |
| Retries.LeaderTargets | src/network/NetworkClient.ts:476-499 | the sends of the first try go to the leader named at the call, all later ones to the leader named after the refresh of the topic |
| Retries.SendRetriesIff | src/network/NetworkClient.ts:440-464 | a send is repeated exactly after one of four disconnects, with automatic refresh that succeeds and finds the node connected; actions and result in each case |
| Retries.SendWaitsForConnection | src/network/NetworkClient.ts:425-438 | a node that is not connected is asked exactly after a refresh that connects it |
| Retries.SecondTryIff | src/network/NetworkClient.ts:484-499 | the second try happens exactly if the first failed, for whatever reason, with automatic refresh and a refresh of the topic that succeeds |
| Retries.RequestBoundsAreReached | src/network/NetworkClient.ts:417-464 | a network that takes a request to its bounds |
| Retries.LeaderBoundsAreReached | src/network/NetworkClient.ts:476-499 | a network that takes a request to a leader to its bounds |
| NetworkClient.NetworkClient.SendRequest | src/network/NetworkClient.ts:417-464 | the method ends as specified; it calls itself at most once, which is its termination measure |
| NetworkClient.NetworkClient.SendToPartitionLeader | src/network/NetworkClient.ts:476-499 | the method ends as specified |
| NetworkClient.NetworkClient.UpdateBrokerConnections | src/network/NetworkClient.ts:326-385 | both loops together reconcile the table with the response |
| Reconciliation.ReconciledIsUnique | src/network/NetworkClient.ts:326-385 | held connections, response and connects that succeed determine the table, so interleaved and uninterrupted refreshes agree |
| Reconciliation.ReconciledLinks | src/network/NetworkClient.ts:339-359 | a new connection has id, host and port of the first entry of its node that could be opened |
| MetadataRefresh.ContinueKeeps | src/network/NetworkClient.ts:262-385 | every resumed body keeps the invariant and leaves no other body |
| MetadataRefresh.CallKeeps | src/network/NetworkClient.ts:256-260 | a call during a refresh changes nothing |
| RefreshRuns.CallStarts | src/network/NetworkClient.ts:252-300 | what a call starts, with the exact condition of each case |
| RefreshRuns.SeedConnects | src/network/NetworkClient.ts:282-300 | a seed that connects leads to the request, if that can be encoded |
| RefreshRuns.RejectionEnds | src/network/NetworkClient.ts:296-376 | a rejection ends the body and leaves the table, except that of a connect to a listed broker, after which the body goes on |
| RefreshRuns.FirstRefresh | src/network/NetworkClient.ts:252-385 | from a new client with seeds, for every broker list: call, seed connect, response and one connect for each listed node lead to exactly the listed nodes at their addresses, flag down |
| RefreshRuns.RefreshReconciles | src/network/NetworkClient.ts:252-385 | the same from any table: one connect for each missing node, one close for each that is gone, the others untouched |
| MetadataRefresh.OneRefreshAtATime | src/network/NetworkClient.ts:252-321 | in every interleaving at most one body is active, the flag is up exactly then, connections carry their own node id and the last completed reconciliation still holds |
| MetadataRefresh.EndIsReconciled | src/network/NetworkClient.ts:294-385 | a refresh that ends normally has reconciled the table: keys of the response only, held connections kept |
| MetadataRefresh.InterleavingsAgree | src/network/NetworkClient.ts:294-385 | the table a refresh leaves is the one the uninterrupted update makes of the same response and connects |
| MetadataRefresh.FlagIsReleased | src/network/NetworkClient.ts:318-320 | whatever the answers, and whatever calls come in between, a body whose awaits all end comes to its end and the flag is down right then |
| MetadataRefresh.UpForGoodIff | src/network/NetworkClient.ts:256-320 | the flag stays up for good if and only if some body waits for something that never ends |
| Partitioner.CalculatePartition | src/producer/KafkaProducer.ts:204-222 | the per-turn wrapping loop computes the polynomial in 31 wrapped once; the partition is in 0..9 |
| Partitioner.HashConcat | src/producer/KafkaProducer.ts:213-218 | the hash of a concatenation from the hashes of its parts |
| Partitioner.HashStep | src/producer/KafkaProducer.ts:215-218 | each unit takes the hash times 31, adds itself and wraps to 32 bits |
| Partitioner.PartitionIsLastDigit | src/producer/KafkaProducer.ts:221-221 | for every hash the partition is what its absolute value leaves modulo 10 |
| Partitioner.SmallestHash | src/producer/KafkaProducer.ts:220-221 | a key whose hash is -2^31 still gets a partition |

## Left out

- Sockets, TLS, `EventEmitter`, promise scheduling and real timers: replaced by events, recorded outcomes, live intervals and a clock. `Connection.Step` takes somebody to listen to errors; without a listener `emit('error')` throws, neither `disconnect` nor `reject` is reached, and `ConnectAwait` has what is left of each event (the process is taken to survive the exception). `NetworkClient` puts its listener on after the await of a connect (NetworkClient.ts:353-364) and none on seed brokers, so a connect that fails there, where no other call has joined the attempt, is not rejected: its await does not end (`ConnectAwait.RefusedConnectHangs`), and the refresh flag stays up (`MetadataRefresh.UpForGoodIff`). Listeners are taken not to throw and not to re-enter the object. The `error`, `connect`, `disconnect`, `request`, `response`, `throttle`, `bytesIn` and `bytesOut` events are not recorded, nor is `connectionError`.
- The promise returned by `disconnect`, which is fulfilled at once, and the sockets' own behaviour after `end`.
- `net.connect` is taken to throw for a port outside 0..65535 only; what `tls.connect` does with its other options is not modelled.
- UTF-8: a string is its encoded bytes, so `toString` of invalid bytes is not modelled. Floats and doubles are not modelled.
- The size limits of `Buffer.alloc` and of strings.
- Streams on which the receiving loop does not end: the handler never returns, so there is no step; `ReceiveLoop.EndsIff` gives the condition. What the process does after the exception of `ReceiveLoop.JumpBeforeStartThrows` is not modelled, only the object.
- ConnectionDelivery.ResponsesReachTheirRequests: starts from a connection that kept no bytes, because `disconnect` does not clear `buffer`; `ConnectionResidue.AnswersArriveIff` shows that every kept byte spoils some answer.
- ConnectionDelivery.AllAnswered: payloads are taken to be framed, so each message is shorter than 2^31 bytes.
- The order of map entries: loops over the request and connection tables take the keys in any order; `getAllTopics`, `getAllBrokers` and `findCoordinatorNode` are not modelled.
- BasicTypes.EncodeCompactBytes: stands for both compact encoders, which differ only in how the content is copied.
- Streaming.EverySchemaRoundTrips: for values whose compact counts fit in 31 bits; `SchemaLimits.SchemaRoundTripsIff` shows that exactly the others fail.
- Streaming.Encoder.Write: which error is thrown when both a count and an element are rejected is not stated, and a value of the wrong type, which the TypeScript types rule out, is a TypeMismatch.
- Requests.ToBuffer: the message's own `encode` is given by a schema and a value.
- MetadataRequests.WriteString: requires room for the content when its count can be written, as every caller provides; without it Node writes the whole characters that fit, which bytes do not show.
- MetadataRefresh.FlagIsReleased: as long as awaits end. A connect ends as `ConnectAwait` says; a send ends within its timeout plus 1000 ms while the timer ticks (`ConnectionSafety.RequestsDoNotOutstay`). The two machines are not run together.
- MetadataRefresh.OneRefreshAtATime: without `close`; a closing await that is rejected ends the body as the code does, and then no reconciliation is claimed.
- Retries.SendRequestBounds: the inside of a refresh is one answer; the tables after it are arbitrary.
- NetworkClient.NetworkClient.UpdateBrokerConnections: the uninterrupted run; interleavings are in `MetadataRefresh`. Event handlers put on connections are left out.
- `NetworkClient.connect`, `close`, the refresh timer, `fetchApiVersions` and the version table.
- `ApiVersionsRequest` and `ApiVersionsResponse`, whose two sides do not fit one layout, and `RequestEncoder`, a duplicate of the streaming header.
- Partitioner.CalculatePartition: the random choice for records without a key is a parameter.
- The consumer, the admin client, the rest of the producer, serializers, errors and configuration: simulated or tables.

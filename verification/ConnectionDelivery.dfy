/** Where the results of requests come from, and that every response reaches its request
    however the bytes arrive. */
module ConnectionDelivery {
  import opened Results
  import opened Bytes
  import opened Framing
  import opened ReceiveLoop
  import opened Connection
  import opened ConnectionSafety
  import H = Headers

  /** A message that carries a response header for `id` and then `payload`. */
  predicate Answers(message: bytes, id: int, payload: bytes) {
    H.DecodeResponseHeader(message) == Ok((id, 4)) && |message| >= 4 && payload == message[4..]
  }

  lemma HeaderOfMessage(message: bytes)
    ensures |message| >= 4 ==> H.DecodeResponseHeader(message) == Ok((IntOf(message[..4]), 4))
    ensures |message| < 4 ==> H.DecodeResponseHeader(message) == Err(RangeError)
  {
  }

  // ----------------------------------------------------------------- provenance

  /** The one handler that resolves a promise: for its own id. */
  lemma ResponseResolvesOwn(c: Conn, message: bytes, p: nat, payload: bytes)
    requires Ledger(c) && p < |c.promises| && c.promises[p].Pending?
    requires HandleResponse(c, message).promises[p] == Resolved(payload)
    ensures Answers(message, IdOf(c.births[p]), payload)
  {
  }

  /** Some message of a list resolved the promise. */
  lemma {:induction false} MessagesResolveOwn(c: Conn, messages: seq<bytes>, p: nat, payload: bytes) returns (i: nat)
    requires Invariant(c) && p < |c.promises| && c.promises[p].Pending?
    requires p < |HandleMessages(c, messages).promises| && HandleMessages(c, messages).promises[p] == Resolved(payload)
    ensures i < |messages| && Answers(messages[i], IdOf(c.births[p]), payload)
    decreases |messages|
  {
    var d := HandleResponse(c, messages[0]);
    HandleResponseKeeps(c, messages[0]);
    if d.promises[p].Pending? {
      var j := MessagesResolveOwn(d, messages[1..], p, payload);
      i := j + 1;
    } else {
      HandleMessagesKeeps(d, messages[1..]);
      ResponseResolvesOwn(c, messages[0], p, payload);
      i := 0;
    }
  }

  /** A promise is resolved only by data: by a whole message that carries the id the
      promise's request was sent under, and with that message's payload. */
  lemma StepResolvesOwn(cfg: Config, c: Conn, e: Event, p: nat, payload: bytes) returns (i: nat)
    requires Invariant(c) && Allowed(c, e) && p < |c.promises| && c.promises[p].Pending?
    requires p < |Step(cfg, c, e).promises| && Step(cfg, c, e).promises[p] == Resolved(payload)
    ensures e.Data?
    ensures i < |Received(Kept(c) + e.data).0| && Answers(Received(Kept(c) + e.data).0[i], IdOf(c.births[p]), payload)
  {
    if e.Data? {
      i := MessagesResolveOwn(c, Received(Kept(c) + e.data).0, p, payload);
    } else {
      assert false;
    }
  }

  /** In a whole run: a promise resolved with `payload` was pending before some data
      event whose stream held a message with its own id and that payload. */
  lemma {:induction false} RunResolvesOwn(cfg: Config, c: Conn, es: seq<Event>, p: nat, payload: bytes)
    returns (k: nat, i: nat)
    requires Invariant(c) && AllowedRun(cfg, c, es)
    requires p < |Run(cfg, c, es).promises| && Run(cfg, c, es).promises[p] == Resolved(payload)
    requires p < |c.promises| ==> c.promises[p].Pending?
    ensures k < |es| && es[k].Data?
    ensures var before := Run(cfg, c, es[..k]);
            var messages := Received(Kept(before) + es[k].data).0;
            p < |before.promises| && before.promises[p].Pending?
            && p < |before.births| && p < |Run(cfg, c, es).births| && before.births[p] == Run(cfg, c, es).births[p]
            && i < |messages| && Answers(messages[i], IdOf(before.births[p]), payload)
    decreases |es|
  {
    var d := Step(cfg, c, es[0]);
    StepKeeps(cfg, c, es[0]);
    RunKeeps(cfg, d, es[1..]);
    if p < |c.promises| && !d.promises[p].Pending? {
      i := StepResolvesOwn(cfg, c, es[0], p, payload);
      k := 0;
      assert es[..0] == [];
    } else {
      NewPromisesAreUnresolved(cfg, c, es[0], p);
      var k', i' := RunResolvesOwn(cfg, d, es[1..], p, payload);
      k, i := k' + 1, i';
      assert es[..k] == [es[0]] + es[1..][..k'];
    }
  }

  lemma {:induction false} HandleMessagesLength(c: Conn, messages: seq<bytes>)
    ensures |HandleMessages(c, messages).promises| == |c.promises|
    decreases |messages|
  {
    if messages != [] {
      HandleMessagesLength(HandleResponse(c, messages[0]), messages[1..]);
    }
  }

  /** Only send hands out promises, and never a resolved one. */
  lemma NewPromisesAreUnresolved(cfg: Config, c: Conn, e: Event, p: nat)
    ensures |c.promises| <= p < |Step(cfg, c, e).promises| ==> !Step(cfg, c, e).promises[p].Resolved? && e.SendCall?
  {
    if e.Data? {
      HandleMessagesLength(c, Received(Kept(c) + e.data).0);
    }
  }

  // ------------------------------------------------------------------- delivery

  /** The payload of the first message of the list that carries the id. */
  function FirstAnswer(messages: seq<bytes>, id: int): Option<bytes> {
    if messages == [] then None
    else if |messages[0]| >= 4 && IntOf(messages[0][..4]) == id then Some(messages[0][4..])
    else FirstAnswer(messages[1..], id)
  }

  /** Every message is long enough for a response header. */
  ghost predicate AllHeaded(messages: seq<bytes>) {
    forall i :: 0 <= i < |messages| ==> |messages[i]| >= 4
  }

  /** What a list of messages makes of a connection: requests with an answer leave the
      table and are resolved with their first answer, all else stays as it was. */
  ghost predicate AnsweredBy(c: Conn, d: Conn, messages: seq<bytes>) {
    && d == c.(inFlight := d.inFlight, promises := d.promises, buffer := d.buffer)
    && |d.promises| == |c.promises|
    && (forall id :: id in d.inFlight <==> id in c.inFlight && FirstAnswer(messages, id).None?)
    && (forall id :: id in d.inFlight ==> d.inFlight[id] == c.inFlight[id])
    && (forall id :: id in c.inFlight ==> OutcomeOf(c, d, id, FirstAnswer(messages, id)))
    && (forall p :: 0 <= p < |c.promises| && !c.promises[p].Pending? ==> d.promises[p] == c.promises[p])
  }

  predicate OutcomeOf(c: Conn, d: Conn, id: int, answer: Option<bytes>)
    requires id in c.inFlight
  {
    var p := c.inFlight[id].promise;
    p < |d.promises| && d.promises[p] == if answer.None? then Pending else Resolved(answer.value)
  }

  lemma NothingAfterOne(message: bytes)
    ensures var none: seq<bytes> := []; [message][1..] == none
  {
  }

  lemma OneAnswer(c: Conn, message: bytes)
    requires Ledger(c) && |message| >= 4
    ensures var d := HandleResponse(c, message);
            Ledger(d) && AnsweredBy(c, d, [message])
  {
    var d := HandleResponse(c, message);
    HeaderOfMessage(message);
    var id := IntOf(message[..4]);
    NothingAfterOne(message);
    if id in c.inFlight {
      AnswerLedger(c, id, Resolved(message[4..]));
    }
    forall k | k in c.inFlight ensures OutcomeOf(c, d, k, FirstAnswer([message], k)) {
      assert Owned(c, k);
      if id in c.inFlight {
        assert Owned(c, id);
      }
    }
  }

  function FirstOf(a: Option<bytes>, b: Option<bytes>): Option<bytes> {
    if a.Some? then a else b
  }

  lemma AnsweredTransitive(c: Conn, d: Conn, e: Conn, messages: seq<bytes>)
    requires messages != [] && |messages[0]| >= 4
    requires AnsweredBy(c, d, [messages[0]]) && AnsweredBy(d, e, messages[1..]) && Ledger(c) && Ledger(d)
    ensures AnsweredBy(c, e, messages)
  {
    forall id
      ensures FirstAnswer(messages, id) == FirstOf(FirstAnswer([messages[0]], id), FirstAnswer(messages[1..], id))
    {
      NothingAfterOne(messages[0]);
    }
    forall id | id in c.inFlight ensures OutcomeOf(c, e, id, FirstAnswer(messages, id)) {
      assert Owned(c, id) && OutcomeOf(c, d, id, FirstAnswer([messages[0]], id));
      if id in d.inFlight {
        assert OutcomeOf(d, e, id, FirstAnswer(messages[1..], id));
      } else {
        assert !d.promises[c.inFlight[id].promise].Pending?;
      }
    }
  }

  lemma {:induction false} MessagesAnswer(c: Conn, messages: seq<bytes>)
    requires Ledger(c) && AllHeaded(messages)
    ensures Ledger(HandleMessages(c, messages)) && AnsweredBy(c, HandleMessages(c, messages), messages)
    decreases |messages|
  {
    if messages == [] {
      forall id | id in c.inFlight ensures OutcomeOf(c, c, id, None) {
        assert Owned(c, id);
      }
    } else {
      var d := HandleResponse(c, messages[0]);
      OneAnswer(c, messages[0]);
      MessagesAnswer(d, messages[1..]);
      AnsweredTransitive(c, d, HandleMessages(c, messages), messages);
    }
  }

  // No handler of a message looks at the buffer.

  lemma ResponseIgnoresBuffer(c: Conn, message: bytes, b: Option<bytes>)
    ensures HandleResponse(c.(buffer := b), message) == HandleResponse(c, message).(buffer := b)
  {
  }

  lemma {:induction false} MessagesIgnoreBuffer(c: Conn, messages: seq<bytes>, b: Option<bytes>)
    ensures HandleMessages(c.(buffer := b), messages) == HandleMessages(c, messages).(buffer := b)
    decreases |messages|
  {
    if messages != [] {
      ResponseIgnoresBuffer(c, messages[0], b);
      MessagesIgnoreBuffer(HandleResponse(c, messages[0]), messages[1..], b);
    }
  }

  lemma {:induction false} MessagesCompose(c: Conn, first: seq<bytes>, second: seq<bytes>)
    ensures HandleMessages(HandleMessages(c, first), second) == HandleMessages(c, first + second)
    decreases |first|
  {
    if first == [] {
      assert first + second == second;
    } else {
      assert (first + second)[0] == first[0] && (first + second)[1..] == first[1..] + second;
      MessagesCompose(HandleResponse(c, first[0]), first[1..], second);
    }
  }

  function DataEvents(s: nat, chunks: seq<bytes>): (es: seq<Event>)
    ensures |es| == |chunks|
  {
    seq(|chunks|, i requires 0 <= i < |chunks| => Data(s, chunks[i]))
  }

  lemma KeptAfterData(c: Conn, data: bytes)
    requires !Stuck(Split(Kept(c) + data).1)
    ensures Kept(HandleData(c, data)) == Split(Kept(c) + data).1
    ensures HandleData(c, data) == HandleMessages(c, Split(Kept(c) + data).0).(buffer := HandleData(c, data).buffer)
  {
    var stream := Kept(c) + data;
    SplitIsReceived(stream);
    LeftoverIsSuffix(stream);
    assert stream[0..] == stream;
  }

  /** Chunk by chunk, the connection handles the messages of the whole stream. */
  lemma {:induction false} ChunksAreHandledAsOneStream(cfg: Config, c: Conn, s: nat, chunks: seq<bytes>)
    requires !Stuck(Split(Kept(c) + Flatten(chunks)).1)
    ensures var d := Run(cfg, c, DataEvents(s, chunks));
            var (messages, rest) := SplitChunks(Kept(c), chunks);
            Kept(d) == rest && d == HandleMessages(c, messages).(buffer := d.buffer)
    decreases |chunks|
  {
    var es := DataEvents(s, chunks);
    if chunks != [] {
      var stream := Kept(c) + chunks[0];
      var d := HandleData(c, chunks[0]);
      RestIsWellFormed(Kept(c), chunks[0], Flatten(chunks[1..]));
      KeptAfterData(c, chunks[0]);
      assert es[0] == Data(s, chunks[0]) && es[1..] == DataEvents(s, chunks[1..]);
      ChunksAreHandledAsOneStream(cfg, d, s, chunks[1..]);
      var later := SplitChunks(Kept(d), chunks[1..]).0;
      MessagesIgnoreBuffer(HandleMessages(c, Split(stream).0), later, d.buffer);
      MessagesCompose(c, Split(stream).0, later);
    }
  }

  /** If a stream shows no complete size of -4 or less, neither does its beginning, nor
      what is left of the beginning joined with the rest. */
  lemma RestIsWellFormed(kept: bytes, chunk: bytes, more: bytes)
    requires !Stuck(Split(kept + (chunk + more)).1)
    ensures !Stuck(Split(kept + chunk).1)
    ensures var (first, rest) := Split(kept + chunk);
            !Stuck(Split(rest + more).1)
            && Split(kept + (chunk + more)) == (first + Split(rest + more).0, Split(rest + more).1)
  {
    Assoc(kept, chunk, more);
    SplitResumes(kept + chunk, more);
    if Stuck(Split(kept + chunk).1) {
      StuckStays(kept + chunk, more);
    }
  }

  /** The requests with an answer are resolved with their first one, the others wait, and
      nothing of the stream is left. */
  ghost predicate Delivers(cfg: Config, c: Conn, s: nat, messages: seq<bytes>, chunks: seq<bytes>) {
    var d := Run(cfg, c, DataEvents(s, chunks));
    AnsweredBy(c, d, messages) && Kept(d) == []
  }

  ghost predicate Framed(messages: seq<bytes>, chunks: seq<bytes>) {
    AllHeaded(messages) && FramesOf(messages).Ok? && Flatten(chunks) == FramesOf(messages).value
  }

  /** End to end: any list of responses - in any order, repeated, with ids nobody waits
      for, with ids from before a reconnect - framed, joined and received in any chunks
      on a connection that kept nothing from before. Every request with an answer is
      resolved with its first answer and leaves the table; every other one still waits. */
  lemma ResponsesReachTheirRequests(cfg: Config, c: Conn, s: nat, messages: seq<bytes>, chunks: seq<bytes>)
    requires Ledger(c) && Kept(c) == [] && Framed(messages, chunks)
    ensures Delivers(cfg, c, s, messages, chunks)
  {
    SplitIgnoresChunking([], chunks);
    assert [] + Flatten(chunks) == Flatten(chunks) + [];
    FramesSplitBack(messages, []);
    assert messages + Split([]).0 == messages;
    ChunksAreHandledAsOneStream(cfg, c, s, chunks);
    MessagesAnswer(c, messages);
    var d := Run(cfg, c, DataEvents(s, chunks));
    var e := HandleMessages(c, messages);
    forall id | id in c.inFlight ensures OutcomeOf(c, d, id, FirstAnswer(messages, id)) {
      assert OutcomeOf(c, e, id, FirstAnswer(messages, id));
    }
  }

  /** Message i carries id i, each id once, and payload i. */
  ghost predicate Addressed(ids: seq<int>, payloads: seq<bytes>, messages: seq<bytes>) {
    && |ids| == |payloads| == |messages|
    && (forall i, j :: 0 <= i < j < |ids| ==> ids[i] != ids[j])
    && (forall i :: 0 <= i < |ids| ==> FitsInt(4, ids[i]) && messages[i] == IntBytes(4, ids[i]) + payloads[i])
  }

  lemma AddressedAreHeaded(ids: seq<int>, payloads: seq<bytes>, messages: seq<bytes>)
    requires Addressed(ids, payloads, messages)
    ensures AllHeaded(messages)
  {
  }

  lemma {:induction false} OwnAnswerIsFirst(ids: seq<int>, payloads: seq<bytes>, messages: seq<bytes>, i: nat)
    requires Addressed(ids, payloads, messages) && i < |ids|
    ensures FirstAnswer(messages, ids[i]) == Some(payloads[i])
    decreases |ids|
  {
    IntOfBytes(4, ids[0]);
    assert messages[0][..4] == IntBytes(4, ids[0]) && messages[0][4..] == payloads[0];
    if i > 0 {
      OwnAnswerIsFirst(ids[1..], payloads[1..], messages[1..], i - 1);
    }
  }

  lemma NobodyWaits(c: Conn, d: Conn, messages: seq<bytes>)
    requires AnsweredBy(c, d, messages) && forall id :: id in c.inFlight ==> FirstAnswer(messages, id).Some?
    ensures d.inFlight == map[]
  {
    assert forall id :: id !in d.inFlight;
  }

  /** One answer for each outstanding request, in any order and any chunks: every request
      is resolved with exactly its own payload and the table is empty. */
  lemma AllAnswered(cfg: Config, c: Conn, s: nat, ids: seq<int>, payloads: seq<bytes>, messages: seq<bytes>,
                    chunks: seq<bytes>)
    requires Ledger(c) && Kept(c) == []
    requires Addressed(ids, payloads, messages) && forall id :: id in c.inFlight <==> id in ids
    requires FramesOf(messages).Ok? && Flatten(chunks) == FramesOf(messages).value
    ensures Run(cfg, c, DataEvents(s, chunks)).inFlight == map[]
    ensures forall i :: 0 <= i < |ids| ==>
              OutcomeOf(c, Run(cfg, c, DataEvents(s, chunks)), ids[i], Some(payloads[i]))
  {
    AddressedAreHeaded(ids, payloads, messages);
    ResponsesReachTheirRequests(cfg, c, s, messages, chunks);
    var d := Run(cfg, c, DataEvents(s, chunks));
    forall i | 0 <= i < |ids| ensures FirstAnswer(messages, ids[i]) == Some(payloads[i]) {
      OwnAnswerIsFirst(ids, payloads, messages, i);
    }
    forall id | id in c.inFlight ensures FirstAnswer(messages, id).Some? {
      var i :| 0 <= i < |ids| && ids[i] == id;
    }
    NobodyWaits(c, d, messages);
  }

  // -------------------------------------------------------------------- requests

  /** A broker that splits a stream starting with `written` gets one message, reads back
      the header from it and finds the request data behind the header. */
  ghost predicate ReadsBackAs(written: bytes, header: H.RequestHeader, data: bytes, more: bytes) {
    var encoded := H.HeaderBytes(header);
    encoded.Ok?
    && Split(written + more) == ([encoded.value + data] + Split(more).0, Split(more).1)
    && H.DecodeHeader(encoded.value + data) == Ok(header)
  }

  lemma RequestReadsBack(cfg: Config, id: int, apiKey: int, apiVersion: int, data: bytes, more: bytes)
    requires RequestBytes(cfg, id, apiKey, apiVersion, data).Ok?
    ensures ReadsBackAs(RequestBytes(cfg, id, apiKey, apiVersion, data).value,
                        H.RequestHeader(apiKey, apiVersion, id, cfg.clientId), data, more)
  {
    var header := H.RequestHeader(apiKey, apiVersion, id, cfg.clientId);
    var h := H.HeaderBytes(header).value;
    FrameTaken(h + data, more);
    AtIsSlice(h + data, 0, h);
    H.HeaderRoundTrip(header, h + data);
  }

  lemma EnterWrites(c: Conn, apiKey: int, apiVersion: int, data: bytes, timeout: int, encoded: Result<bytes>)
    requires Ledger(c) && |Enter(c, apiKey, apiVersion, data, timeout, encoded).wire| > |c.wire|
    ensures var d := Enter(c, apiKey, apiVersion, data, timeout, encoded);
            encoded.Ok? && d.wire == c.wire + [encoded.value]
            && |d.births| == |c.promises| + 1 && IdOf(d.births[|c.promises|]) == NextId(c)
  {
  }

  /** What send writes is one frame that reads back as the request, under the id its
      promise waits for. */
  lemma SendWritesItsRequest(cfg: Config, c: Conn, apiKey: int, apiVersion: int, data: bytes, timeout: Option<int>,
                             more: bytes)
    requires Ledger(c)
    requires |Send(cfg, c, apiKey, apiVersion, data, timeout).wire| > |c.wire|
    ensures var d := Send(cfg, c, apiKey, apiVersion, data, timeout);
            |d.wire| == |c.wire| + 1 && d.wire[..|c.wire|] == c.wire && |d.births| == |c.promises| + 1
            && var header := H.RequestHeader(apiKey, apiVersion, IdOf(d.births[|c.promises|]), cfg.clientId);
               ReadsBackAs(d.wire[|c.wire|], header, data, more)
  {
    var encoded := RequestBytes(cfg, NextId(c), apiKey, apiVersion, data);
    EnterWrites(c, apiKey, apiVersion, data, EffectiveTimeout(cfg, timeout), encoded);
    RequestReadsBack(cfg, NextId(c), apiKey, apiVersion, data, more);
  }

  // ----------------------------------------------------------------------- fates

  /** What a list of messages makes of a request waiting under `id`: the first message
      that is its answer or that closes the connection decides. */
  function FateIn(messages: seq<bytes>, id: int): Outcome {
    if messages == [] then Pending
    else if |messages[0]| < 4 then Rejected(ConnectionClosed)
    else if IntOf(messages[0][..4]) == id then Resolved(messages[0][4..])
    else FateIn(messages[1..], id)
  }

  lemma OneMessageDecides(c: Conn, message: bytes, p: nat)
    requires Invariant(c) && p < |c.promises| && c.promises[p].Pending?
    ensures var id := IdOf(c.births[p]);
            HandleResponse(c, message).promises[p]
            == if |message| < 4 then Rejected(ConnectionClosed)
               else if IntOf(message[..4]) == id then Resolved(message[4..])
               else Pending
  {
  }

  lemma {:induction false} MessagesDecide(c: Conn, messages: seq<bytes>, p: nat)
    requires Invariant(c) && p < |c.promises| && c.promises[p].Pending?
    ensures p < |HandleMessages(c, messages).promises|
    ensures HandleMessages(c, messages).promises[p] == FateIn(messages, IdOf(c.births[p]))
    decreases |messages|
  {
    if messages != [] {
      var d := HandleResponse(c, messages[0]);
      OneMessageDecides(c, messages[0], p);
      HandleResponseKeeps(c, messages[0]);
      if d.promises[p].Pending? {
        MessagesDecide(d, messages[1..], p);
      } else {
        HandleMessagesKeeps(d, messages[1..]);
      }
    }
  }

  lemma TickDecides(c: Conn, k: nat, p: nat)
    requires Invariant(c) && p < |c.promises| && c.promises[p].Pending?
    ensures Sweep(c, k).promises[p]
         == if Expired(c.inFlight[IdOf(c.births[p])], c.now) then Rejected(TimedOut) else Pending
  {
    var id := IdOf(c.births[p]);
    var expired := ExpiredIn(c.inFlight, c.now);
    assert Waits(c, p);
    if InTable(expired, p) {
      var k :| k in expired && expired[k].promise == p;
      assert Owned(c, k);
    }
    assert id in expired ==> InTable(expired, p);
  }

  lemma ClosingDecides(c: Conn, why: Failure, p: nat)
    requires Invariant(c) && p < |c.promises| && c.promises[p].Pending?
    ensures CloseDown(c, why).promises[p] == OnDisconnect(c, why).promises[p] == Rejected(why) && c.phase == Connected
  {
  }

  lemma FailedWriteDecides(c: Conn, q: nat, p: nat)
    requires Invariant(c) && p < |c.promises| && c.promises[p].Pending? && q < |c.promises|
    ensures FailWrite(c, q).promises[p] == if q == p then Rejected(WriteFailed) else Pending
  {
  }

  /** The exact fate of a waiting promise under every event: what settles it, with which
      outcome, and that nothing else does. */
  lemma EveryOutcomeHasItsCause(cfg: Config, c: Conn, e: Event, p: nat)
    requires Invariant(c) && Allowed(c, e) && p < |c.promises| && c.promises[p].Pending?
    ensures p < |Step(cfg, c, e).promises|
    ensures Step(cfg, c, e).promises[p] ==
            match e
            case Data(_, data) => FateIn(Received(Kept(c) + data).0, IdOf(c.births[p]))
            case SocketError(_) => Rejected(ConnectionClosed)
            case SocketIdle(_) => Rejected(ConnectionClosed)
            case DisconnectCall => Rejected(ConnectionClosed)
            case SocketEnd(_) => Rejected(BrokerClosed)
            case SocketClose(_, hadError) => if hadError then Pending else Rejected(ConnectionClosed)
            case WriteError(q) => if q == p then Rejected(WriteFailed) else Pending
            case Tick(_) => if Expired(c.inFlight[IdOf(c.births[p])], c.now) then Rejected(TimedOut) else Pending
            case _ => Pending
  {
    assert Waits(c, p);
    match e
    case Data(_, data) => MessagesDecide(c, Received(Kept(c) + data).0, p);
    case SocketError(s) =>
      SettleKeeps(c, s);
      ClosingDecides(Settle(c, s), ConnectionClosed, p);
    case SocketIdle(_) => ClosingDecides(c, ConnectionClosed, p);
    case DisconnectCall => ClosingDecides(c, ConnectionClosed, p);
    case SocketEnd(_) => ClosingDecides(c, BrokerClosed, p);
    case SocketClose(s, hadError) =>
      var d := Settle(c, s).(live := c.live - {s});
      FewerSocketsKeep(c, d);
      ClosingDecides(d, ConnectionClosed, p);
    case ConnectTimeout => assert false;
    case WriteError(q) => FailedWriteDecides(c, q, p);
    case Tick(k) => TickDecides(c, k, p);
    case _ =>
  }

  // ------------------------------------------------- answers among other events

  /** All bytes a run brings in, from whatever socket. */
  function DataOf(es: seq<Event>): bytes {
    if es == [] then []
    else (if es[0].Data? then es[0].data else []) + DataOf(es[1..])
  }

  /** Events other than data that settle a waiting promise. */
  predicate Disturbs(c: Conn, e: Event, p: nat)
    requires p < |c.births|
  {
    match e
    case SocketError(_) => true
    case SocketIdle(_) => true
    case SocketEnd(_) => true
    case SocketClose(_, hadError) => !hadError
    case ConnectTimeout => true
    case DisconnectCall => true
    case WriteError(q) => q == p
    case Tick(_) => IdOf(c.births[p]) in c.inFlight && Expired(c.inFlight[IdOf(c.births[p])], c.now)
    case _ => false
  }

  /** Until it is settled, the promise meets no closing event, no failure of its own write
      and no tick after its timeout. */
  ghost predicate Undisturbed(cfg: Config, c: Conn, es: seq<Event>, p: nat)
    decreases |es|
  {
    es != [] ==>
      && (p < |c.promises| && p < |c.births| && c.promises[p].Pending? ==> !Disturbs(c, es[0], p))
      && Undisturbed(cfg, Step(cfg, c, es[0]), es[1..], p)
  }

  lemma {:induction false} FateAppend(first: seq<bytes>, second: seq<bytes>, id: int)
    ensures FateIn(first + second, id) == if FateIn(first, id).Pending? then FateIn(second, id) else FateIn(first, id)
  {
    if first == [] {
      assert first + second == second;
    } else {
      assert (first + second)[0] == first[0] && (first + second)[1..] == first[1..] + second;
      FateAppend(first[1..], second, id);
    }
  }

  /** A step that does not disturb the promise: data decides by its messages, anything else
      leaves promise and kept bytes alone. */
  lemma UndisturbedStep(cfg: Config, c: Conn, e: Event, p: nat)
    requires Invariant(c) && Allowed(c, e) && p < |c.promises| && c.promises[p].Pending? && !Disturbs(c, e, p)
    requires e.Data? ==> !Stuck(Split(Kept(c) + e.data).1)
    ensures var d := Step(cfg, c, e);
            p < |d.promises| && p < |d.births| && d.births[p] == c.births[p]
            && if e.Data? then
                 d.promises[p] == FateIn(Split(Kept(c) + e.data).0, IdOf(c.births[p]))
                 && Kept(d) == Split(Kept(c) + e.data).1
               else d.promises[p].Pending? && Kept(d) == Kept(c)
  {
    StepKeeps(cfg, c, e);
    EveryOutcomeHasItsCause(cfg, c, e, p);
    if e.Data? {
      KeptAfterData(c, e.data);
      SplitIsReceived(Kept(c) + e.data);
    } else {
      assert Waits(c, p);
    }
  }

  /** Answers arrive among any other events - sends, ticks, clock, failed writes of others,
      whatever does not itself settle the promise: its fate is that of the whole stream
      the run brings in, behind the bytes kept from before. */
  lemma {:induction false} AnswersArriveAmongEvents(cfg: Config, c: Conn, es: seq<Event>, p: nat)
    requires Invariant(c) && AllowedRun(cfg, c, es) && p < |c.promises| && c.promises[p].Pending?
    requires Undisturbed(cfg, c, es, p) && !Takes(Kept(c)) && !Stuck(Split(Kept(c) + DataOf(es)).1)
    ensures p < |Run(cfg, c, es).promises|
    ensures Run(cfg, c, es).promises[p] == FateIn(Split(Kept(c) + DataOf(es)).0, IdOf(c.births[p]))
    decreases |es|
  {
    if es == [] {
      assert Kept(c) + [] == Kept(c);
    } else {
      var d, chunk, more := Step(cfg, c, es[0]), if es[0].Data? then es[0].data else [], DataOf(es[1..]);
      RestIsWellFormed(Kept(c), chunk, more);
      UndisturbedStep(cfg, c, es[0], p);
      StepKeeps(cfg, c, es[0]);
      RunKeeps(cfg, d, es[1..]);
      if es[0].Data? {
        FateAppend(Split(Kept(c) + chunk).0, Split(Kept(d) + more).0, IdOf(c.births[p]));
      } else {
        assert chunk + more == more;
      }
      if d.promises[p].Pending? {
        AnswersArriveAmongEvents(cfg, d, es[1..], p);
      }
    }
  }

  /** In particular, framed responses received so on a connection that kept nothing: each
      request gets the first answer with its id, whatever happens in between. */
  lemma FramedAnswersArrive(cfg: Config, c: Conn, es: seq<Event>, p: nat, messages: seq<bytes>)
    requires Invariant(c) && AllowedRun(cfg, c, es) && p < |c.promises| && c.promises[p].Pending?
    requires Undisturbed(cfg, c, es, p) && Kept(c) == []
    requires FramesOf(messages).Ok? && DataOf(es) == FramesOf(messages).value
    ensures p < |Run(cfg, c, es).promises|
    ensures Run(cfg, c, es).promises[p] == FateIn(messages, IdOf(c.births[p]))
  {
    FramesSplitBack(messages, []);
    assert Kept(c) + DataOf(es) == DataOf(es) + [];
    assert messages + Split([]).0 == messages;
    AnswersArriveAmongEvents(cfg, c, es, p);
  }

  /** From any state without a connection, connecting makes one that send can use: its
      request waits in the table, if it can be encoded. */
  lemma ConnectingMakesSendsPossible(cfg: Config, c: Conn, apiKey: int, apiVersion: int, data: bytes,
                                     timeout: Option<int>)
    requires Invariant(c) && c.phase == Disconnected
    ensures var d := Step(cfg, Step(cfg, c, ConnectCall), SocketConnected(c.sockets));
            IsConnected(d)
            && (Step(cfg, d, SendCall(apiKey, apiVersion, data, timeout)).promises[|c.promises|].Pending?
                <==> RequestBytes(cfg, NextId(c), apiKey, apiVersion, data).Ok?)
  {
    var d := Step(cfg, Step(cfg, c, ConnectCall), SocketConnected(c.sockets));
    assert d.promises == c.promises && NextId(d) == NextId(c);
    SendWaitsIff(cfg, d, apiKey, apiVersion, data, timeout);
  }

  lemma SendWaitsIff(cfg: Config, c: Conn, apiKey: int, apiVersion: int, data: bytes, timeout: Option<int>)
    requires IsConnected(c)
    ensures var d := Send(cfg, c, apiKey, apiVersion, data, timeout);
            |d.promises| == |c.promises| + 1
            && (d.promises[|c.promises|].Pending? <==> RequestBytes(cfg, NextId(c), apiKey, apiVersion, data).Ok?)
  {
  }
}

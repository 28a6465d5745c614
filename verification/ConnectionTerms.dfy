/** The numbers of the protocol: which requests send accepts and what it writes, when a
    waiting request expires, and which timers run. */
module ConnectionTerms {
  import opened Results
  import opened Bytes
  import opened BasicTypes
  import opened ReceiveLoop
  import opened Connection
  import opened ConnectionSafety
  import opened ConnectionDelivery
  import opened ConnectionSockets
  import H = Headers

  // ------------------------------------------------------------------- sending

  /** Key, version and client id fit their fields. */
  predicate FieldsFit(apiKey: int, apiVersion: int, clientId: bytes) {
    -0x8000 <= apiKey <= 0x7FFF && -0x8000 <= apiVersion <= 0x7FFF && |clientId| <= 0x7FFF
  }

  /** The request as it stands on the wire. */
  function Written(clientId: bytes, id: int, apiKey: int, apiVersion: int, data: bytes): bytes {
    IntBytes(4, 10 + |clientId| + |data|)
    + (IntBytes(2, apiKey) + IntBytes(2, apiVersion) + IntBytes(4, id)
       + (if clientId == [] then [255, 255] else IntBytes(2, |clientId|) + clientId)
       + data)
  }

  lemma HeaderOnTheWire(h: H.RequestHeader)
    requires 0 <= h.correlationId < 0x7FFF_FFFF && FieldsFit(h.apiKey, h.apiVersion, h.clientId)
    ensures H.HeaderBytes(h)
         == Ok(IntBytes(2, h.apiKey) + IntBytes(2, h.apiVersion) + IntBytes(4, h.correlationId)
               + (if h.clientId == [] then [255, 255] else IntBytes(2, |h.clientId|) + h.clientId))
  {
    Pow256Values();
    H.HeaderEncodesIff(h);
    SizedNull(2);
  }

  /** A request is encoded, or not, by its numbers alone. */
  lemma RequestOnTheWire(cfg: Config, id: int, apiKey: int, apiVersion: int, data: bytes)
    returns (encoded: Result<bytes>)
    requires 0 <= id < 0x7FFF_FFFF
    ensures encoded == RequestBytes(cfg, id, apiKey, apiVersion, data)
    ensures var size := 14 + |cfg.clientId| + |data|;
            encoded == if !FieldsFit(apiKey, apiVersion, cfg.clientId) then Err(RangeError)
                       else if size > cfg.maxRequestSize then Err(RequestTooLarge)
                       else if size - 4 > 0x7FFF_FFFF then Err(RangeError)
                       else Ok(Written(cfg.clientId, id, apiKey, apiVersion, data))
  {
    encoded := RequestBytes(cfg, id, apiKey, apiVersion, data);
    var h := H.RequestHeader(apiKey, apiVersion, id, cfg.clientId);
    Pow256Values();
    H.HeaderEncodesIff(h);
    if FieldsFit(apiKey, apiVersion, cfg.clientId) {
      HeaderOnTheWire(h);
    }
  }

  /** What a send on an established connection leaves, by the outcome of its encoding. */
  lemma EnterDecides(c: Conn, apiKey: int, apiVersion: int, data: bytes, timeout: int, encoded: Result<bytes>)
    returns (d: Conn)
    requires c.socket.Some?
    ensures d == Enter(c, apiKey, apiVersion, data, timeout, encoded)
    ensures d.counter == (c.counter + 1) % 2147483647
    ensures d.promises == c.promises + [if encoded.Ok? then Pending else Rejected(encoded.error)]
    ensures d.wire == if encoded.Ok? then c.wire + [encoded.value] else c.wire
    ensures d.inFlight == if encoded.Err? then c.inFlight
                          else c.inFlight[d.counter := Request(d.counter, c.now, timeout, apiKey, apiVersion, data,
                                                               |c.promises|, c.socket.value)]
  {
    d := Enter(c, apiKey, apiVersion, data, timeout, encoded);
  }

  /** Send in numbers: on an established connection the promise waits, one frame is written
      and one entry made, with the clock and the timeout that holds, exactly if the fields
      fit, the request is within the limit and its size fits its own field. It is too large
      exactly if the fields fit and it is above the limit. */
  lemma SendDecides(cfg: Config, c: Conn, apiKey: int, apiVersion: int, data: bytes, timeout: Option<int>)
    requires Ledger(c) && c.phase == Connected && c.socket.Some?
    ensures var d := Step(cfg, c, SendCall(apiKey, apiVersion, data, timeout));
            var p, id, size := |c.promises|, (c.counter + 1) % 2147483647, 14 + |cfg.clientId| + |data|;
            var fits := FieldsFit(apiKey, apiVersion, cfg.clientId);
            var lasts := if timeout == None || timeout == Some(0) then cfg.requestTimeout else timeout.value;
            && |d.promises| == p + 1 && d.promises[..p] == c.promises && d.counter == id
            && (d.promises[p] == Pending <==> fits && size <= cfg.maxRequestSize && size - 4 <= 0x7FFF_FFFF)
            && (d.promises[p] == Rejected(RequestTooLarge) <==> fits && size > cfg.maxRequestSize)
            && (d.promises[p] == Rejected(RangeError)
                <==> !fits || (size <= cfg.maxRequestSize && size - 4 > 0x7FFF_FFFF))
            && (if d.promises[p] == Pending then
                  d.wire == c.wire + [Written(cfg.clientId, id, apiKey, apiVersion, data)]
                  && d.inFlight == c.inFlight[id := Request(id, c.now, lasts, apiKey, apiVersion, data, p,
                                                            c.socket.value)]
                else d.wire == c.wire && d.inFlight == c.inFlight)
  {
    var encoded := RequestOnTheWire(cfg, NextId(c), apiKey, apiVersion, data);
    var d := EnterDecides(c, apiKey, apiVersion, data, EffectiveTimeout(cfg, timeout), encoded);
  }

  /** Otherwise the promise is rejected and nothing else happens. */
  lemma SendElsewhere(cfg: Config, c: Conn, apiKey: int, apiVersion: int, data: bytes, timeout: Option<int>)
    requires !(c.phase == Connected && c.socket.Some?)
    ensures Step(cfg, c, SendCall(apiKey, apiVersion, data, timeout))
         == c.(promises := c.promises + [Rejected(NotConnected)], births := c.births + [0])
  {
  }

  // ------------------------------------------------------------------ expiring

  /** A tick rejects a waiting promise exactly if its request is older than its timeout. */
  lemma TickRejectsIff(cfg: Config, c: Conn, k: nat, p: nat)
    requires Invariant(c) && Allowed(c, Tick(k)) && p < |c.promises| && c.promises[p].Pending?
    ensures var request := c.inFlight[IdOf(c.births[p])];
            Step(cfg, c, Tick(k)).promises[p]
            == if c.now - request.sentTime > request.timeout then Rejected(TimedOut) else Pending
  {
    TickDecides(c, k, p);
  }

  /** Entries are only added, for new promises, and taken away; none is changed. */
  ghost predicate EntriesStay(c: Conn, d: Conn) {
    forall id :: id in d.inFlight ==>
      (id in c.inFlight && d.inFlight[id] == c.inFlight[id]) || d.inFlight[id].promise >= |c.promises|
  }

  lemma {:induction false} MessagesKeepEntries(c: Conn, messages: seq<bytes>)
    ensures var d := HandleMessages(c, messages);
            forall id :: id in d.inFlight ==> id in c.inFlight && d.inFlight[id] == c.inFlight[id]
    decreases |messages|
  {
    if messages != [] {
      MessagesKeepEntries(HandleResponse(c, messages[0]), messages[1..]);
    }
  }

  lemma EnterKeepsEntries(c: Conn, apiKey: int, apiVersion: int, data: bytes, timeout: int, encoded: Result<bytes>)
    ensures EntriesStay(c, Enter(c, apiKey, apiVersion, data, timeout, encoded))
  {
  }

  lemma StepKeepsEntries(cfg: Config, c: Conn, e: Event)
    ensures EntriesStay(c, Step(cfg, c, e))
  {
    if e.Data? {
      MessagesKeepEntries(c, Received(Kept(c) + e.data).0);
    } else if e.SendCall? {
      EnterKeepsEntries(c, e.apiKey, e.apiVersion, e.requestData, EffectiveTimeout(cfg, e.timeout),
                        RequestBytes(cfg, NextId(c), e.apiKey, e.apiVersion, e.requestData));
    }
  }

  /** The promise waits in a request sent at `sent` with timeout `lasts`. */
  ghost predicate WaitsWith(c: Conn, p: nat, sent: int, lasts: int) {
    p < |c.births| && p < |c.promises| && c.promises[p].Pending? && IdOf(c.births[p]) in c.inFlight
    && c.inFlight[IdOf(c.births[p])].sentTime == sent && c.inFlight[IdOf(c.births[p])].timeout == lasts
  }

  lemma StillWaitsWith(cfg: Config, c: Conn, e: Event, p: nat, sent: int, lasts: int)
    requires Invariant(c) && Allowed(c, e) && WaitsWith(c, p, sent, lasts)
    requires p < |Step(cfg, c, e).promises| && Step(cfg, c, e).promises[p].Pending?
    ensures WaitsWith(Step(cfg, c, e), p, sent, lasts)
  {
    StepKeeps(cfg, c, e);
    StepKeepsEntries(cfg, c, e);
    assert Waits(Step(cfg, c, e), p);
  }

  lemma SendWaitsWith(cfg: Config, c: Conn, e: Event)
    requires Invariant(c) && e.SendCall? && Allowed(c, e)
    requires |Step(cfg, c, e).promises| > |c.promises| && Step(cfg, c, e).promises[|c.promises|].Pending?
    ensures WaitsWith(Step(cfg, c, e), |c.promises|, c.now,
                      if e.timeout == None || e.timeout == Some(0) then cfg.requestTimeout else e.timeout.value)
  {
    var d, p := Step(cfg, c, e), |c.promises|;
    StepKeeps(cfg, c, e);
    if c.phase == Connected && c.socket.Some? {
      SendDecides(cfg, c, e.apiKey, e.apiVersion, e.requestData, e.timeout);
      assert Waits(d, p);
    } else {
      SendElsewhere(cfg, c, e.apiKey, e.apiVersion, e.requestData, e.timeout);
      assert false;
    }
  }

  lemma WasPending(cfg: Config, c: Conn, e: Event, p: nat)
    requires Invariant(c) && Allowed(c, e) && p < |c.promises|
    ensures p < |Step(cfg, c, e).promises|
    ensures Step(cfg, c, e).promises[p].Pending? ==> c.promises[p].Pending?
  {
    StepKeeps(cfg, c, e);
  }

  /** In a run, a promise that still waits does so under the terms of its send. */
  lemma {:induction false} WaitsSince(cfg: Config, now: int, es: seq<Event>, i: nat, n: nat, lasts: int)
    requires AllowedRun(cfg, Fresh(now), es) && i < n <= |es| && es[i].SendCall?
    requires lasts == if es[i].timeout == None || es[i].timeout == Some(0) then cfg.requestTimeout
                      else es[i].timeout.value
    ensures var p := |State(cfg, now, es, i).promises|;
            p < |State(cfg, now, es, n).promises|
            && (State(cfg, now, es, n).promises[p].Pending? ==>
                  WaitsWith(State(cfg, now, es, n), p, State(cfg, now, es, i).now, lasts))
  {
    var c, d, p := State(cfg, now, es, n - 1), State(cfg, now, es, n), |State(cfg, now, es, i).promises|;
    StateStep(cfg, now, es, n - 1);
    if n - 1 == i {
      SendAppends(cfg, c, es[i]);
      if d.promises[p].Pending? {
        SendWaitsWith(cfg, c, es[i]);
      }
    } else {
      WaitsSince(cfg, now, es, i, n - 1, lasts);
      WasPending(cfg, c, es[n - 1], p);
      if d.promises[p].Pending? {
        StillWaitsWith(cfg, c, es[n - 1], p, State(cfg, now, es, i).now, lasts);
      }
    }
  }

  lemma SendAppends(cfg: Config, c: Conn, e: Event)
    requires e.SendCall? && Ledger(c)
    ensures |Step(cfg, c, e).promises| == |c.promises| + 1
  {
    if c.phase == Connected && c.socket.Some? {
      SendDecides(cfg, c, e.apiKey, e.apiVersion, e.requestData, e.timeout);
    }
  }

  lemma {:induction false} MessagesTimeNothingOut(messages: seq<bytes>, id: int)
    ensures FateIn(messages, id) != Rejected(TimedOut)
  {
    if messages != [] {
      MessagesTimeNothingOut(messages[1..], id);
    }
  }

  /** In every run, a waiting promise is rejected with a timeout exactly by a tick that comes
      more than its timeout after its send, by the clock. */
  lemma TimesOutIff(cfg: Config, now: int, es: seq<Event>, i: nat, k: nat)
    requires AllowedRun(cfg, Fresh(now), es) && i < k < |es| && es[i].SendCall?
    requires var p := |State(cfg, now, es, i).promises|;
             p < |State(cfg, now, es, k).promises| && State(cfg, now, es, k).promises[p].Pending?
    ensures var p := |State(cfg, now, es, i).promises|;
            var lasts := if es[i].timeout == None || es[i].timeout == Some(0) then cfg.requestTimeout
                         else es[i].timeout.value;
            p < |State(cfg, now, es, k + 1).promises|
            && (State(cfg, now, es, k + 1).promises[p] == Rejected(TimedOut)
                <==> es[k].Tick? && State(cfg, now, es, k).now - State(cfg, now, es, i).now > lasts)
  {
    var c, p := State(cfg, now, es, k), |State(cfg, now, es, i).promises|;
    var lasts := if es[i].timeout == None || es[i].timeout == Some(0) then cfg.requestTimeout
                 else es[i].timeout.value;
    StateStep(cfg, now, es, k);
    WaitsSince(cfg, now, es, i, k, lasts);
    OneStepTimesOutIff(cfg, c, es[k], p, State(cfg, now, es, i).now, lasts);
  }

  lemma OneStepTimesOutIff(cfg: Config, c: Conn, e: Event, p: nat, sent: int, lasts: int)
    requires Invariant(c) && Allowed(c, e) && WaitsWith(c, p, sent, lasts)
    ensures p < |Step(cfg, c, e).promises|
    ensures Step(cfg, c, e).promises[p] == Rejected(TimedOut) <==> e.Tick? && c.now - sent > lasts
  {
    EveryOutcomeHasItsCause(cfg, c, e, p);
    if e.Data? {
      MessagesTimeNothingOut(Received(Kept(c) + e.data).0, IdOf(c.births[p]));
    } else if e.Tick? {
      TickRejectsIff(cfg, c, e.interval, p);
    }
  }

  // -------------------------------------------------------------------- timers

  /** Disconnected from, by whatever event. */
  ghost predicate Closes(c: Conn, e: Event) {
    ClosesByEvent(e) || (ClosesByDisconnect(c, e) && c.phase != Disconnected)
  }

  lemma {:induction false} MessagesTimers(c: Conn, messages: seq<bytes>)
    requires c.phase == Disconnected ==> c.timer.None? && !c.connectTimer
    ensures var d := HandleMessages(c, messages);
            if AllHeaded(messages) then
              d.timer == c.timer && d.intervals == c.intervals && d.connectTimer == c.connectTimer
            else d.timer == None && !d.connectTimer
                 && d.intervals == if c.timer.None? then c.intervals else c.intervals - {c.timer.value}
    decreases |messages|
  {
    if messages != [] {
      var d := HandleResponse(c, messages[0]);
      HeaderOfMessage(messages[0]);
      MessagesTimers(d, messages[1..]);
      assert AllHeaded(messages) <==> |messages[0]| >= 4 && AllHeaded(messages[1..]) by {
        assert messages == [messages[0]] + messages[1..];
      }
    }
  }

  lemma EnterTimers(c: Conn, apiKey: int, apiVersion: int, data: bytes, timeout: int, encoded: Result<bytes>)
    ensures var d := Enter(c, apiKey, apiVersion, data, timeout, encoded);
            d.timer == c.timer && d.intervals == c.intervals && d.connectTimer == c.connectTimer
  {
  }

  /** What every step does to the timers: a connect starts an interval beside any that runs,
      a close stops only the latest one, a tick marks its own. */
  lemma StepTimers(cfg: Config, c: Conn, e: Event)
    requires Invariant(c) && Allowed(c, e)
    ensures var d := Step(cfg, c, e);
            if Closes(c, e) then
              d.timer == None && !d.connectTimer
              && d.intervals == if c.timer.None? then c.intervals else c.intervals - {c.timer.value}
            else if e.SocketConnected? then
              d.timer == Some(c.timers) && !d.connectTimer && d.intervals == c.intervals[c.timers := c.now]
            else
              d.timer == c.timer && d.connectTimer == (c.connectTimer || (e.ConnectCall? && c.phase == Disconnected))
              && d.intervals == if e.Tick? then c.intervals[e.interval := c.now] else c.intervals
  {
    if e.Data? {
      MessagesTimers(c, Received(Kept(c) + e.data).0);
    } else if e.SendCall? {
      EnterTimers(c, e.apiKey, e.apiVersion, e.requestData, EffectiveTimeout(cfg, e.timeout),
                  RequestBytes(cfg, NextId(c), e.apiKey, e.apiVersion, e.requestData));
    }
  }

  /** So two connects of one object leave an interval that no disconnect stops. */
  lemma IntervalLeaks(cfg: Config, now: int)
    ensures var es := [ConnectCall, DisconnectCall, ConnectCall, SocketConnected(0), SocketConnected(1),
                       DisconnectCall];
            var c := Run(cfg, Fresh(now), es);
            AllowedRun(cfg, Fresh(now), es)
            && c.phase == Disconnected && c.timer == None && c.intervals == map[0 := now]
  {
  }

  // ------------------------------------------------------------- what is kept

  /** After an exception the whole stream is kept; else what the loop left. */
  lemma DataKeeps(c: Conn, data: bytes)
    requires Ends(Kept(c) + data)
    ensures var stream := Kept(c) + data;
            match Received(stream).1
            case Thrown => Kept(HandleData(c, data)) == stream
            case Left(at) => 0 <= at <= |stream| && Kept(HandleData(c, data)) == stream[at..]
            case Running(_) => false
  {
    var stream := Kept(c) + data;
    LeftInRange(stream, 0, |stream| + 2);
    assert stream[0..] == stream && stream[|stream|..] == [];
  }
}

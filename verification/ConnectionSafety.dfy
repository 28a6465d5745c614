/** What every step of a connection keeps, and what follows for whole runs. */
module ConnectionSafety {
  import opened Results
  import opened Bytes
  import opened ReceiveLoop
  import opened Connection
  import H = Headers

  /** Ids are pairwise distinct over any 2147483647 consecutive generations. */
  lemma IdsDistinct(a: nat, b: nat)
    requires IdOf(a) == IdOf(b) && -ID_COUNT < a - b < ID_COUNT
    ensures a == b
  {
  }

  /** Nothing is forgotten and nothing that is settled changes. */
  ghost predicate Grows(c: Conn, d: Conn) {
    && |c.births| == |c.promises| && |d.births| == |d.promises|
    && c.births <= d.births
    && (forall p :: 0 <= p < |c.promises| && !c.promises[p].Pending? ==> d.promises[p] == c.promises[p])
  }

  lemma GrowsTransitive(c: Conn, d: Conn, e: Conn)
    requires Grows(c, d) && Grows(d, e)
    ensures Grows(c, e)
  {
  }

  // -------------------------------------------------------- closing the connection

  lemma DisconnectKeeps(c: Conn)
    requires Invariant(c)
    ensures Invariant(Disconnect(c)) && Grows(c, Disconnect(c))
  {
  }

  // ------------------------------------------------------------------- responses

  lemma AnswerLedger(c: Conn, id: int, o: Outcome)
    requires Ledger(c) && id in c.inFlight && !o.Pending?
    ensures var d := c.(inFlight := c.inFlight - {id}, promises := SetOutcome(c.promises, c.inFlight[id].promise, o));
            Ledger(d) && Grows(c, d)
  {
  }

  /** Taking entries out of the table keeps the conditions on the entries left. */
  lemma SubTableKeeps(c: Conn, d: Conn)
    requires TableRecentAt(c, c.generated) && Lifecycle(c) && Punctual(c)
    requires d == c.(inFlight := d.inFlight, promises := d.promises)
    requires forall id :: id in d.inFlight ==> id in c.inFlight && d.inFlight[id] == c.inFlight[id]
    ensures TableRecentAt(d, d.generated) && Lifecycle(d) && Punctual(d)
  {
    forall id | id in d.inFlight ensures Watched(d, d.inFlight[id]) {
      assert Watched(c, c.inFlight[id]);
    }
    if c.inFlight == map[] {
      assert forall id :: id in d.inFlight ==> id in c.inFlight;
      assert d.inFlight == map[];
    }
  }

  lemma HandleResponseKeeps(c: Conn, message: bytes)
    requires Invariant(c)
    ensures Invariant(HandleResponse(c, message)) && Grows(c, HandleResponse(c, message))
  {
    var header := H.DecodeResponseHeader(message);
    if header.Err? {
      DisconnectKeeps(c);
    } else if header.value.0 in c.inFlight {
      var id := header.value.0;
      AnswerLedger(c, id, Resolved(message[header.value.1..]));
      SubTableKeeps(c, HandleResponse(c, message));
    }
  }

  lemma {:induction false} HandleMessagesKeeps(c: Conn, messages: seq<bytes>)
    requires Invariant(c)
    ensures Invariant(HandleMessages(c, messages)) && Grows(c, HandleMessages(c, messages))
    decreases |messages|
  {
    if messages != [] {
      var d := HandleResponse(c, messages[0]);
      HandleResponseKeeps(c, messages[0]);
      HandleMessagesKeeps(d, messages[1..]);
      GrowsTransitive(c, d, HandleMessages(d, messages[1..]));
    }
  }

  /** The bytes kept do not matter, nor that fewer sockets may still emit. */
  lemma FewerSocketsKeep(c: Conn, d: Conn)
    requires Invariant(c) && d == c.(buffer := d.buffer, pending := d.pending, live := d.live)
    requires d.pending <= c.pending && d.live <= c.live
    ensures Invariant(d) && Grows(c, d)
  {
  }

  lemma HandleDataKeeps(c: Conn, data: bytes)
    requires Invariant(c)
    ensures Invariant(HandleData(c, data)) && Grows(c, HandleData(c, data))
  {
    var messages := Received(Kept(c) + data).0;
    var d := HandleMessages(c, messages);
    HandleMessagesKeeps(c, messages);
    FewerSocketsKeep(d, HandleData(c, data));
    GrowsTransitive(c, d, HandleData(c, data));
  }

  lemma SettleKeeps(c: Conn, s: nat)
    requires Invariant(c)
    ensures Invariant(Settle(c, s)) && Grows(c, Settle(c, s))
  {
  }

  lemma OnDisconnectKeeps(c: Conn, why: Failure)
    requires Invariant(c)
    ensures Invariant(OnDisconnect(c, why)) && Grows(c, OnDisconnect(c, why))
  {
  }

  lemma SocketCloseKeeps(c: Conn, s: nat, hadError: bool)
    requires Invariant(c)
    ensures var d := Settle(c, s).(live := c.live - {s});
            var e := if hadError then d else OnDisconnect(d, ConnectionClosed);
            Invariant(e) && Grows(c, e)
  {
    var d := Settle(c, s).(live := c.live - {s});
    FewerSocketsKeep(c, d);
    OnDisconnectKeeps(d, ConnectionClosed);
    GrowsTransitive(c, d, OnDisconnect(d, ConnectionClosed));
  }

  lemma SocketErrorKeeps(c: Conn, s: nat)
    requires Invariant(c)
    ensures Invariant(Disconnect(Settle(c, s))) && Grows(c, Disconnect(Settle(c, s)))
  {
    var d := Settle(c, s);
    SettleKeeps(c, s);
    DisconnectKeeps(d);
    GrowsTransitive(c, d, Disconnect(d));
  }

  // -------------------------------------------------------------------- sending

  lemma SendFailsKeeps(c: Conn, why: Failure)
    requires Invariant(c)
    ensures Invariant(SendFails(c, why)) && Grows(c, SendFails(c, why))
  {
  }

  /** Entering a request under `id`, as a send that reaches the table does. */
  function Entered(c: Conn, id: int, r: Request, frame: bytes): Conn {
    c.(counter := id, generated := c.generated + 1, inFlight := c.inFlight[id := r],
       promises := c.promises + [Pending], births := c.births + [c.generated + 1], wire := c.wire + [frame])
  }

  /** The table keeps exactly the unsettled promises if and only if the id is not in use:
      otherwise the older request's promise is lost. */
  lemma EnteredLedgerIff(c: Conn, r: Request, frame: bytes)
    requires Ledger(c) && r.promise == |c.promises| && r.correlationId == NextId(c)
    ensures Ledger(Entered(c, NextId(c), r, frame)) <==> NextId(c) !in c.inFlight
    ensures Grows(c, Entered(c, NextId(c), r, frame))
  {
    var id := NextId(c);
    var d := Entered(c, id, r, frame);
    assert id == IdOf(c.generated + 1);
    if id in c.inFlight {
      var p := c.inFlight[id].promise;
      assert Owned(c, id);
      assert d.promises[p].Pending? && !Waits(d, p);
    } else {
      EnteredKeepsLedger(c, r, frame);
    }
  }

  lemma EnteredKeepsLedger(c: Conn, r: Request, frame: bytes)
    requires Ledger(c) && r.promise == |c.promises| && r.correlationId == NextId(c) && NextId(c) !in c.inFlight
    ensures Ledger(Entered(c, NextId(c), r, frame))
  {
  }

  /** Fewer than 2147483647 sends since every outstanding one leave the next id unused. */
  lemma RecentIdsAreFree(c: Conn)
    requires Ledger(c) && TableRecentAt(c, c.generated + 1)
    ensures NextId(c) !in c.inFlight
  {
  }

  lemma EnteredKeeps(c: Conn, r: Request, frame: bytes)
    requires Invariant(c) && TableRecentAt(c, c.generated + 1) && IsConnected(c)
    requires r.promise == |c.promises| && r.correlationId == NextId(c) && r.sentTime == c.now
    requires c.socket == Some(r.socket)
    ensures Invariant(Entered(c, NextId(c), r, frame)) && Grows(c, Entered(c, NextId(c), r, frame))
  {
    var id := NextId(c);
    var d := Entered(c, id, r, frame);
    RecentIdsAreFree(c);
    EnteredLedgerIff(c, r, frame);
    forall k | k in d.inFlight ensures Watched(d, d.inFlight[k]) && RecentAt(d, d.inFlight[k].promise, d.generated) {
      if k == id {
        assert d.intervals[d.timer.value] - r.sentTime <= 0;
      } else {
        assert Watched(c, c.inFlight[k]) && RecentAt(c, c.inFlight[k].promise, c.generated + 1);
      }
    }
  }

  /** An id that is used up without a request. */
  lemma SkippedIdKeeps(c: Conn)
    requires Invariant(c) && TableRecentAt(c, c.generated + 1)
    ensures Invariant(TakeId(c)) && Grows(c, TakeId(c))
  {
  }

  lemma EnterKeeps(c: Conn, apiKey: int, apiVersion: int, data: bytes, timeout: int, encoded: Result<bytes>)
    requires Invariant(c) && TableRecentAt(c, c.generated + 1) && IsConnected(c)
    ensures var d := Enter(c, apiKey, apiVersion, data, timeout, encoded);
            Invariant(d) && Grows(c, d)
  {
    var id := NextId(c);
    match encoded
    case Err(why) =>
      var d := TakeId(c);
      SkippedIdKeeps(c);
      SendFailsKeeps(d, why);
      GrowsTransitive(c, d, SendFails(d, why));
    case Ok(frame) =>
      var r := Request(id, c.now, timeout, apiKey, apiVersion, data, |c.promises|, c.socket.value);
      assert Enter(c, apiKey, apiVersion, data, timeout, encoded) == Entered(c, id, r, frame);
      EnteredKeeps(c, r, frame);
  }

  lemma SendKeeps(cfg: Config, c: Conn, apiKey: int, apiVersion: int, data: bytes, timeout: Option<int>)
    requires Invariant(c) && TableRecentAt(c, c.generated + 1)
    ensures var d := Send(cfg, c, apiKey, apiVersion, data, timeout);
            Invariant(d) && Grows(c, d)
  {
    if !IsConnected(c) {
      SendFailsKeeps(c, NotConnected);
    } else {
      EnterKeeps(c, apiKey, apiVersion, data, EffectiveTimeout(cfg, timeout),
                 RequestBytes(cfg, NextId(c), apiKey, apiVersion, data));
    }
  }

  // -------------------------------------------------------------- failed writes

  /** A failed write takes the right entry out exactly when its id is not in use by
      another request. */
  lemma FailWriteLedgerIff(c: Conn, p: nat)
    requires Ledger(c) && p < |c.promises| && c.births[p] > 0
    ensures var id := IdOf(c.births[p]);
            Ledger(FailWrite(c, p)) <==> (id in c.inFlight ==> c.inFlight[id].promise == p)
    ensures Grows(c, FailWrite(c, p))
  {
  }

  lemma FailWriteKeeps(c: Conn, p: nat)
    requires Invariant(c) && RecentAt(c, p, c.generated) && c.births[p] > 0
    ensures Invariant(FailWrite(c, p)) && Grows(c, FailWrite(c, p))
  {
    var id := IdOf(c.births[p]);
    if id in c.inFlight {
      var q := c.inFlight[id].promise;
      assert Owned(c, id) && RecentAt(c, q, c.generated);
      IdsDistinct(c.births[p], c.births[q]);
      assert p == q;
    }
    FailWriteLedgerIff(c, p);
    SubTableKeeps(c, FailWrite(c, p));
  }

  // --------------------------------------------------------------------- timers

  lemma SweepKeeps(c: Conn, k: nat)
    requires Invariant(c) && k in c.intervals
    ensures Invariant(Sweep(c, k)) && Grows(c, Sweep(c, k))
  {
  }

  lemma ClockKeeps(c: Conn, t: int)
    requires Invariant(c) && Allowed(c, Clock(t))
    ensures Invariant(c.(now := t)) && Grows(c, c.(now := t))
  {
  }

  // ----------------------------------------------------------------- connecting

  lemma ConnectKeeps(c: Conn)
    requires Invariant(c)
    ensures Invariant(Connect(c)) && Grows(c, Connect(c))
  {
  }

  lemma ConnectWithoutSocketKeeps(c: Conn)
    requires Invariant(c)
    ensures Invariant(ConnectWithoutSocket(c)) && Grows(c, ConnectWithoutSocket(c))
  {
  }

  /** A second 'connect' while requests are outstanding starts a second timer; the first
      one keeps watching them. */
  lemma EstablishKeeps(c: Conn)
    requires Invariant(c)
    ensures Invariant(Establish(c)) && Grows(c, Establish(c))
  {
    var d := Establish(c);
    forall id | id in d.inFlight ensures Owned(d, id) && Watched(d, d.inFlight[id]) {
      assert Owned(c, id);
      var k :| k in c.intervals && c.intervals[k] - c.inFlight[id].sentTime <= Max(c.inFlight[id].timeout, 0);
      assert k in d.intervals && d.intervals[k] == c.intervals[k];
    }
    forall p | 0 <= p < |d.promises| && d.promises[p].Pending? ensures Waits(d, p) {
      assert Waits(c, p);
    }
  }

  lemma SocketConnectedKeeps(c: Conn, s: nat)
    requires Invariant(c)
    ensures Invariant(Establish(Settle(c, s))) && Grows(c, Establish(Settle(c, s)))
  {
    var d := Settle(c, s);
    SettleKeeps(c, s);
    EstablishKeeps(d);
    GrowsTransitive(c, d, Establish(d));
  }

  // ---------------------------------------------------------------- whole runs

  lemma StepKeeps(cfg: Config, c: Conn, e: Event)
    requires Invariant(c) && Allowed(c, e)
    ensures Invariant(Step(cfg, c, e)) && Grows(c, Step(cfg, c, e))
  {
    match e
    case ConnectCall => ConnectKeeps(c);
    case ConnectThrows => ConnectWithoutSocketKeeps(c);
    case SocketConnected(s) => SocketConnectedKeeps(c, s);
    case Data(_, data) => HandleDataKeeps(c, data);
    case SocketError(s) => SocketErrorKeeps(c, s);
    case SocketIdle(_) => DisconnectKeeps(c);
    case SocketEnd(_) => OnDisconnectKeeps(c, BrokerClosed);
    case SocketClose(s, hadError) => SocketCloseKeeps(c, s, hadError);
    case ConnectTimeout => DisconnectKeeps(c);
    case DisconnectCall => DisconnectKeeps(c);
    case SendCall(apiKey, apiVersion, data, timeout) => SendKeeps(cfg, c, apiKey, apiVersion, data, timeout);
    case WriteError(p) => FailWriteKeeps(c, p);
    case Tick(k) => SweepKeeps(c, k);
    case Clock(t) => ClockKeeps(c, t);
  }

  lemma FreshIsValid(now: int)
    ensures Invariant(Fresh(now))
  {
  }

  lemma {:induction false} RunKeeps(cfg: Config, c: Conn, es: seq<Event>)
    requires Invariant(c) && AllowedRun(cfg, c, es)
    ensures Invariant(Run(cfg, c, es)) && Grows(c, Run(cfg, c, es))
    decreases |es|
  {
    if es != [] {
      var d := Step(cfg, c, es[0]);
      StepKeeps(cfg, c, es[0]);
      RunKeeps(cfg, d, es[1..]);
      GrowsTransitive(c, d, Run(cfg, d, es[1..]));
    }
  }

  ghost function Unsettled(c: Conn): set<nat> {
    set p | 0 <= p < |c.promises| && c.promises[p].Pending?
  }

  ghost function Outstanding(c: Conn): set<nat> {
    set id | id in c.inFlight :: c.inFlight[id].promise
  }

  /** In every run of every interleaving of the events, from a fresh connection, the
      unsettled promises are exactly those in the request table, each under one id. */
  lemma UnsettledAreInFlight(cfg: Config, now: int, es: seq<Event>)
    requires AllowedRun(cfg, Fresh(now), es)
    ensures var c := Run(cfg, Fresh(now), es);
            Unsettled(c) == Outstanding(c)
            && forall i, j :: i in c.inFlight && j in c.inFlight && c.inFlight[i].promise == c.inFlight[j].promise ==>
                                i == j
  {
    FreshIsValid(now);
    RunKeeps(cfg, Fresh(now), es);
    var c := Run(cfg, Fresh(now), es);
    forall p | p in Unsettled(c) ensures p in Outstanding(c) {
      assert Waits(c, p);
      assert IdOf(c.births[p]) in c.inFlight;
    }
    forall id | id in c.inFlight
      ensures c.inFlight[id].promise in Unsettled(c) && IdOf(c.births[c.inFlight[id].promise]) == id
    {
      assert Owned(c, id);
    }
  }

  /** A promise is never lost and never changes once it is settled: what a run has made
      of it stays through every longer run. */
  lemma OutcomesAreFinal(cfg: Config, now: int, es: seq<Event>, more: seq<Event>, p: nat)
    requires AllowedRun(cfg, Fresh(now), es) && AllowedRun(cfg, Run(cfg, Fresh(now), es), more)
    requires p < |Run(cfg, Fresh(now), es).promises|
    ensures var before := Run(cfg, Fresh(now), es);
            var after := Run(cfg, before, more);
            p < |after.promises| && (before.promises[p].Pending? || after.promises[p] == before.promises[p])
  {
    FreshIsValid(now);
    RunKeeps(cfg, Fresh(now), es);
    RunKeeps(cfg, Run(cfg, Fresh(now), es), more);
  }

  /** With timers firing at most a second apart, no request outlives its timeout by more
      than a second, and one is outstanding only while the connection is established
      and a sweep timer runs. */
  lemma RequestsDoNotOutstay(cfg: Config, now: int, es: seq<Event>, id: int)
    requires AllowedRun(cfg, Fresh(now), es) && id in Run(cfg, Fresh(now), es).inFlight
    ensures var c := Run(cfg, Fresh(now), es);
            c.now - c.inFlight[id].sentTime <= Max(c.inFlight[id].timeout, 0) + SWEEP_INTERVAL
            && c.phase == Connected && c.socket.Some? && c.timer.Some? && c.timer.value in c.intervals
  {
    FreshIsValid(now);
    RunKeeps(cfg, Fresh(now), es);
    var c := Run(cfg, Fresh(now), es);
    assert Watched(c, c.inFlight[id]);
  }
}

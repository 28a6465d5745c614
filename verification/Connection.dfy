/** The broker connection as a state machine: what each event handler does to the
    connection, to the promises handed out by send, and to the timers. */
module Connection {
  import opened Results
  import opened Bytes
  import opened Framing
  import opened ReceiveLoop
  import H = Headers

  /** Ids run through 0 .. 2147483646. */
  const ID_COUNT: int := 2147483647

  /** Milliseconds between two sweeps of the request table. */
  const SWEEP_INTERVAL: int := 1000

  datatype Phase = Disconnected | Connecting | Connected | Closing

  /** What became of a promise handed out by send. */
  datatype Outcome = Pending | Resolved(payload: bytes) | Rejected(reason: Failure)

  datatype Request = Request(
    correlationId: int,
    sentTime: int,
    timeout: int,
    apiKey: int,
    apiVersion: int,
    requestData: bytes,
    promise: nat,
    socket: nat)

  datatype Config = Config(clientId: bytes, maxRequestSize: int, requestTimeout: int)

  /** The connection object (first two lines), the promises handed out and the id generation
      each one took (0 for none), the writes to sockets, the sockets made so far with
      those that have not connected yet and those that may still call their listeners,
      and the clock with every live interval timer and the time it was started or last
      fired. */
  datatype Conn = Conn(
    phase: Phase, socket: Option<nat>, counter: int, inFlight: map<int, Request>, buffer: Option<bytes>,
    connectTimer: bool, timer: Option<nat>,
    promises: seq<Outcome>, births: seq<nat>, generated: nat,
    wire: seq<bytes>, sockets: nat, pending: set<nat>, live: set<nat>,
    now: int, intervals: map<nat, int>, timers: nat)

  function Fresh(now: int): Conn {
    Conn(Disconnected, None, 0, map[], None, false, None, [], [], 0, [], 0, {}, {}, now, map[], 0)
  }

  /** The things that can happen to a connection. Socket events carry the socket they come
      from: the listeners of an old one stay registered after disconnect. */
  datatype Event =
    | ConnectCall
    | ConnectThrows            // a connect call that can make no socket
    | SocketConnected(s: nat)
    | Data(s: nat, data: bytes)
    | SocketError(s: nat)
    | SocketIdle(s: nat)       // the socket's own timeout
    | SocketEnd(s: nat)
    | SocketClose(s: nat, hadError: bool)
    | ConnectTimeout           // the timer of the connection attempt
    | DisconnectCall
    | SendCall(apiKey: int, apiVersion: int, requestData: bytes, timeout: Option<int>)
    | WriteError(promise: nat) // the write callback of that send, with an error
    | Tick(interval: nat)
    | Clock(time: int)

  // ----------------------------------------------------------------- handlers

  function IdOf(generation: nat): int {
    generation % ID_COUNT
  }

  function NextId(c: Conn): int {
    (c.counter + 1) % ID_COUNT
  }

  function StopTimer(c: Conn): Conn {
    if c.timer.None? then c
    else c.(timer := None, intervals := c.intervals - {c.timer.value})
  }

  /** A running interval is replaced, not cleared: it keeps firing. */
  function StartTimer(c: Conn): Conn {
    c.(timer := Some(c.timers), intervals := c.intervals[c.timers := c.now], timers := c.timers + 1)
  }

  ghost predicate InTable(table: map<int, Request>, p: nat) {
    exists id :: id in table && table[id].promise == p
  }

  ghost function RejectAll(promises: seq<Outcome>, table: map<int, Request>, why: Failure): (r: seq<Outcome>)
    ensures |r| == |promises|
  {
    seq(|promises|, p requires 0 <= p < |promises| => if InTable(table, p) then Rejected(why) else promises[p])
  }

  /** Common to disconnect and onDisconnect. */
  ghost function CloseDown(c: Conn, why: Failure): Conn {
    StopTimer(c).(phase := Disconnected, connectTimer := false, socket := None,
                  inFlight := map[], promises := RejectAll(c.promises, c.inFlight, why))
  }

  ghost function Disconnect(c: Conn): Conn {
    if c.phase == Disconnected then c else CloseDown(c, ConnectionClosed)
  }

  /** The socket the object holds. */
  function Held(c: Conn): set<nat> {
    if c.socket.None? then {} else {c.socket.value}
  }

  /** onDisconnect takes the listeners off the socket the object holds; disconnect leaves
      them. */
  ghost function OnDisconnect(c: Conn, why: Failure): Conn {
    CloseDown(c, why).(live := c.live - Held(c))
  }

  function Connect(c: Conn): Conn {
    if c.phase == Connected || c.phase == Connecting then c
    else c.(phase := Connecting, socket := Some(c.sockets), sockets := c.sockets + 1, connectTimer := true,
            pending := c.pending + {c.sockets}, live := c.live + {c.sockets})
  }

  /** Where net.connect throws, the phase has been set already. */
  function ConnectWithoutSocket(c: Conn): Conn {
    if c.phase == Connected || c.phase == Connecting then c else c.(phase := Connecting)
  }

  function Settle(c: Conn, s: nat): Conn {
    c.(pending := c.pending - {s})
  }

  function Establish(c: Conn): Conn {
    StartTimer(c.(connectTimer := false, phase := Connected))
  }

  function SetOutcome(promises: seq<Outcome>, p: nat, o: Outcome): (r: seq<Outcome>)
    ensures |r| == |promises|
  {
    if p < |promises| then promises[p := o] else promises
  }

  ghost function HandleResponse(c: Conn, message: bytes): Conn {
    match H.DecodeResponseHeader(message)
    case Err(_) => Disconnect(c)
    case Ok((id, size)) =>
      if id !in c.inFlight then c
      else c.(inFlight := c.inFlight - {id},
              promises := SetOutcome(c.promises, c.inFlight[id].promise, Resolved(message[size..])))
  }

  ghost function HandleMessages(c: Conn, messages: seq<bytes>): Conn
    decreases |messages|
  {
    if messages == [] then c else HandleMessages(HandleResponse(c, messages[0]), messages[1..])
  }

  /** The bytes kept from earlier chunks. */
  function Kept(c: Conn): bytes {
    if c.buffer.None? then [] else c.buffer.value
  }

  /** What is kept of a stream when the loop is out: all of it after an exception. */
  function BufferAfter(stream: bytes, end: Position): Option<bytes> {
    if !end.Left? || end.at <= 0 then Some(stream)
    else if end.at < |stream| then Some(stream[end.at..])
    else None
  }

  ghost function HandleData(c: Conn, data: bytes): Conn {
    var stream := Kept(c) + data;
    HandleMessages(c, Received(stream).0).(buffer := BufferAfter(stream, Received(stream).1))
  }

  predicate Expired(r: Request, now: int) {
    now - r.sentTime > r.timeout
  }

  function ExpiredIn(table: map<int, Request>, now: int): map<int, Request> {
    map id | id in table && Expired(table[id], now) :: table[id]
  }

  /** The sweep of the request table by one of the interval timers. */
  ghost function Sweep(c: Conn, interval: nat): Conn {
    var expired := ExpiredIn(c.inFlight, c.now);
    c.(intervals := c.intervals[interval := c.now],
       inFlight := c.inFlight - expired.Keys,
       promises := RejectAll(c.promises, expired, TimedOut))
  }

  predicate IsConnected(c: Conn) {
    c.phase == Connected && c.socket.Some?
  }

  function EffectiveTimeout(cfg: Config, timeout: Option<int>): int {
    if timeout.None? || timeout.value == 0 then cfg.requestTimeout else timeout.value
  }

  /** The bytes of a request: size, header, payload. */
  function RequestBytes(cfg: Config, id: int, apiKey: int, apiVersion: int, data: bytes): Result<bytes> {
    var header :- H.HeaderBytes(H.RequestHeader(apiKey, apiVersion, id, cfg.clientId));
    if 4 + |header| + |data| > cfg.maxRequestSize then Err(RequestTooLarge) else FrameOf(header + data)
  }

  /** A call that fails before the table hands out a promise that is rejected already. */
  function SendFails(c: Conn, why: Failure): Conn {
    c.(promises := c.promises + [Rejected(why)], births := c.births + [0])
  }

  function TakeId(c: Conn): Conn {
    c.(counter := NextId(c), generated := c.generated + 1)
  }

  /** The request enters the table under the id just taken and is written, if it could be
      encoded. */
  function Record(c: Conn, apiKey: int, apiVersion: int, data: bytes, timeout: int, encoded: Result<bytes>): Conn {
    match encoded
    case Err(why) => SendFails(c, why)
    case Ok(frame) =>
      var socket := if c.socket.None? then 0 else c.socket.value;
      var request := Request(c.counter, c.now, timeout, apiKey, apiVersion, data, |c.promises|, socket);
      c.(inFlight := c.inFlight[c.counter := request],
         promises := c.promises + [Pending], births := c.births + [c.generated], wire := c.wire + [frame])
  }

  function Enter(c: Conn, apiKey: int, apiVersion: int, data: bytes, timeout: int, encoded: Result<bytes>): Conn {
    Record(TakeId(c), apiKey, apiVersion, data, timeout, encoded)
  }

  function Send(cfg: Config, c: Conn, apiKey: int, apiVersion: int, data: bytes, timeout: Option<int>): Conn {
    if !IsConnected(c) then SendFails(c, NotConnected)
    else Enter(c, apiKey, apiVersion, data, EffectiveTimeout(cfg, timeout),
               RequestBytes(cfg, NextId(c), apiKey, apiVersion, data))
  }

  /** The callback of a failed write: a promise that is settled already stays as it is. */
  function FailWrite(c: Conn, p: nat): Conn {
    if p >= |c.promises| || p >= |c.births| then c
    else c.(inFlight := c.inFlight - {IdOf(c.births[p])},
            promises := if c.promises[p].Pending? then c.promises[p := Rejected(WriteFailed)] else c.promises)
  }

  ghost function Step(cfg: Config, c: Conn, e: Event): Conn {
    match e
    case ConnectCall => Connect(c)
    case ConnectThrows => ConnectWithoutSocket(c)
    case SocketConnected(s) => Establish(Settle(c, s))
    case Data(_, data) => HandleData(c, data)
    case SocketError(s) => Disconnect(Settle(c, s))
    case SocketIdle(_) => Disconnect(c)
    case SocketEnd(_) => OnDisconnect(c, BrokerClosed)
    case SocketClose(s, hadError) =>
      var d := Settle(c, s).(live := c.live - {s});
      if hadError then d else OnDisconnect(d, ConnectionClosed)
    case ConnectTimeout => Disconnect(c)
    case DisconnectCall => Disconnect(c)
    case SendCall(apiKey, apiVersion, data, timeout) => Send(cfg, c, apiKey, apiVersion, data, timeout)
    case WriteError(p) => FailWrite(c, p)
    case Tick(k) => Sweep(c, k)
    case Clock(t) => c.(now := t)
  }

  ghost function Run(cfg: Config, c: Conn, es: seq<Event>): Conn
    decreases |es|
  {
    if es == [] then c else Run(cfg, Step(cfg, c, es[0]), es[1..])
  }

  // -------------------------------------------------------------- environment

  /** Fewer than ID_COUNT ids were handed out since the id of promise `p`. */
  predicate RecentAt(c: Conn, p: nat, generated: nat) {
    p < |c.births| && generated - c.births[p] < ID_COUNT
  }

  ghost predicate TableRecentAt(c: Conn, generated: nat) {
    forall id :: id in c.inFlight ==> RecentAt(c, c.inFlight[id].promise, generated)
  }

  /** What is assumed of the environment: a socket whose listeners are gone or that has
      closed emits nothing, it connects once and before anything comes in, the receiving
      loop ends, write callbacks belong to writes, timers fire while they are live and at
      most 1000 ms apart, the clock does not run backwards, and fewer than 2147483647 sends
      happen while a request or its write is outstanding. */
  ghost predicate Allowed(c: Conn, e: Event) {
    match e
    case SocketConnected(s) => s in c.live && s in c.pending
    case Data(s, data) => s in c.live && s !in c.pending && Ends(Kept(c) + data)
    case SocketError(s) => s in c.live
    case SocketIdle(s) => s in c.live
    case SocketEnd(s) => s in c.live && s !in c.pending
    case SocketClose(s, _) => s in c.live
    case ConnectTimeout => c.connectTimer
    case SendCall(_, _, _, _) => TableRecentAt(c, c.generated + 1)
    case WriteError(p) => RecentAt(c, p, c.generated) && c.births[p] > 0
    case Tick(k) => k in c.intervals
    case Clock(t) => t >= c.now && forall k :: k in c.intervals ==> t <= c.intervals[k] + SWEEP_INTERVAL
    case _ => true
  }

  ghost predicate AllowedRun(cfg: Config, c: Conn, es: seq<Event>)
    decreases |es|
  {
    es != [] ==> Allowed(c, es[0]) && AllowedRun(cfg, Step(cfg, c, es[0]), es[1..])
  }

  // --------------------------------------------------------------- invariants

  /** An entry of the table belongs to a promise that waits, under the id it was given. */
  predicate Owned(c: Conn, id: int)
    requires id in c.inFlight
  {
    var p := c.inFlight[id].promise;
    c.inFlight[id].correlationId == id && p < |c.promises| && p < |c.births|
    && c.promises[p].Pending? && c.births[p] > 0 && IdOf(c.births[p]) == id
  }

  /** A waiting promise can be found in the table. */
  predicate Waits(c: Conn, p: nat)
    requires p < |c.births|
  {
    c.births[p] > 0 && IdOf(c.births[p]) in c.inFlight && c.inFlight[IdOf(c.births[p])].promise == p
  }

  ghost predicate BirthsOrdered(births: seq<nat>, generated: nat) {
    && (forall p :: 0 <= p < |births| ==> births[p] <= generated)
    && (forall p, q :: 0 <= p < q < |births| && births[p] > 0 && births[q] > 0 ==> births[p] < births[q])
  }

  /** The unsettled promises are exactly the entries of the table, one each. */
  ghost predicate Ledger(c: Conn) {
    && |c.births| == |c.promises|
    && c.counter == IdOf(c.generated)
    && BirthsOrdered(c.births, c.generated)
    && (forall id :: id in c.inFlight ==> Owned(c, id))
    && (forall p :: 0 <= p < |c.promises| && c.promises[p].Pending? ==> Waits(c, p))
  }

  /** Requests are outstanding only on an established connection with a running timer, and
      only on the socket it holds. */
  ghost predicate Lifecycle(c: Conn) {
    && c.phase != Closing
    && (c.inFlight != map[] ==> IsConnected(c))
    && (forall id :: id in c.inFlight ==> c.socket == Some(c.inFlight[id].socket))
    && (c.phase == Connected <==> c.timer.Some?)
    && (c.phase == Disconnected ==> c.socket.None?)
    && (c.connectTimer ==> c.phase == Connecting && c.socket.Some?)
    && (c.timer.Some? ==> c.timer.value in c.intervals)
    && (forall k :: k in c.intervals ==> k < c.timers)
  }

  /** Every socket heard of has been made. */
  ghost predicate SocketsKnown(c: Conn) {
    && (c.socket.Some? ==> c.socket.value < c.sockets)
    && (forall s :: s in c.live || s in c.pending ==> s < c.sockets)
  }

  /** A live timer last looked at the request while it was within its timeout, or before
      it was sent. */
  ghost predicate Watched(c: Conn, r: Request) {
    exists k :: k in c.intervals && c.intervals[k] - r.sentTime <= Max(r.timeout, 0)
  }

  ghost predicate Punctual(c: Conn) {
    && (forall k :: k in c.intervals ==> c.intervals[k] <= c.now <= c.intervals[k] + SWEEP_INTERVAL)
    && (forall id :: id in c.inFlight ==> Watched(c, c.inFlight[id]))
  }

  ghost predicate Invariant(c: Conn) {
    Ledger(c) && TableRecentAt(c, c.generated) && Lifecycle(c) && SocketsKnown(c) && Punctual(c)
  }
}

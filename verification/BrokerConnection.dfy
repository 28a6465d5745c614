/** The connection object itself: its fields, and the handlers that update them in place.
    Every handler keeps the invariant and does to the object what one step of the state
    machine does. */
module BrokerConnection {
  import opened Results
  import opened Bytes
  import opened Framing
  import opened ReceiveLoop
  import opened Connection
  import Safety = ConnectionSafety
  import Delivery = ConnectionDelivery
  import H = Headers

  lemma InTableMore(table: map<int, Request>, remaining: set<int>, id: int, p: nat)
    requires remaining <= table.Keys && id in remaining
    ensures InTable(table - (remaining - {id}), p) <==> InTable(table - remaining, p) || table[id].promise == p
  {
    var before, after := table - remaining, table - (remaining - {id});
    assert id in after;
    if InTable(after, p) {
      var k :| k in after && after[k].promise == p;
      assert k != id ==> k in before;
    }
    if InTable(before, p) {
      var k :| k in before && before[k].promise == p;
      assert k in after;
    }
  }

  /** What net.connect accepts as a port. */
  predicate IsPort(port: int) {
    0 <= port <= 65535
  }

  class BrokerConnection {
    const config: Config
    const port: int

    var phase: Phase
    var socket: Option<nat>
    var correlationIdCounter: int
    var inFlightRequests: map<int, Request>
    var buffer: Option<bytes>
    var connectionTimeout: bool
    var requestTimeoutInterval: Option<nat>

    // The world around the object: its promises, the bytes written, the sockets with those
    // still connecting and those that may call back, the timers, the clock.
    var promises: seq<Outcome>
    var wire: seq<bytes>
    var sockets: nat
    var pending: set<nat>
    var live: set<nat>
    var now: int
    var intervals: map<nat, int>
    var timers: nat
    ghost var births: seq<nat>
    ghost var generated: nat

    ghost function View(): Conn
      reads this
    {
      Conn(phase, socket, correlationIdCounter, inFlightRequests, buffer, connectionTimeout, requestTimeoutInterval,
           promises, births, generated, wire, sockets, pending, live, now, intervals, timers)
    }

    ghost predicate Valid()
      reads this
    {
      Invariant(View())
    }

    constructor (config: Config, port: int, now: int)
      ensures this.config == config && this.port == port && Valid() && View() == Fresh(now)
    {
      this.config, this.port := config, port;
      phase, socket, correlationIdCounter, inFlightRequests, buffer := Disconnected, None, 0, map[], None;
      connectionTimeout, requestTimeoutInterval := false, None;
      promises, wire, sockets, births, generated := [], [], 0, [], 0;
      pending, live := {}, {};
      this.now, intervals, timers := now, map[], 0;
      new;
      Safety.FreshIsValid(now);
    }

    // ---------------------------------------------------------------- promises

    /** A promise takes its first outcome only. */
    method Settle(p: nat, o: Outcome)
      modifies `promises
      ensures promises == if p < |old(promises)| && old(promises)[p].Pending? then SetOutcome(old(promises), p, o)
                          else old(promises)
    {
      if p < |promises| && promises[p].Pending? {
        promises := promises[p := o];
      }
    }

    method RejectEach(table: map<int, Request>, why: Failure)
      requires forall id :: id in table ==> table[id].promise < |promises| && promises[table[id].promise].Pending?
      modifies `promises
      ensures promises == RejectAll(old(promises), table, why)
    {
      ghost var was := promises;
      var remaining := table.Keys;
      while remaining != {}
        invariant remaining <= table.Keys
        invariant promises == RejectAll(was, table - remaining, why)
      {
        Inhabited(remaining);
        var id :| id in remaining;
        forall p: nat {
          InTableMore(table, remaining, id, p);
        }
        Settle(table[id].promise, Rejected(why));
        remaining := remaining - {id};
        assert promises == RejectAll(was, table - remaining, why);
      }
      assert table - remaining == table;
    }

    ghost predicate AllPending()
      reads this
    {
      forall id :: id in inFlightRequests ==>
        inFlightRequests[id].promise < |promises| && promises[inFlightRequests[id].promise].Pending?
    }

    lemma EntriesArePending()
      requires Ledger(View())
      ensures AllPending()
    {
    }

    // --------------------------------------------------------------- lifecycle

    /** The promise of a call that can make no socket is rejected at once. */
    method Connect() returns (thrown: Option<Failure>)
      requires Valid()
      modifies this
      ensures View() == Step(config, old(View()), if IsPort(port) then ConnectCall else ConnectThrows)
      ensures thrown == if old(phase) == Disconnected && !IsPort(port) then Some(RangeError) else None
      ensures Valid()
    {
      if phase == Connected {
        return None;
      }
      if phase == Connecting {
        return None;
      }
      Safety.StepKeeps(config, View(), if IsPort(port) then ConnectCall else ConnectThrows);
      thrown := Attempt();
    }

    /** A new socket with its listeners, and the timer of the attempt; without a port only
        the phase is set. */
    method Attempt() returns (thrown: Option<Failure>)
      modifies `phase, `connectionTimeout, `socket, `sockets, `pending, `live
      ensures phase == Connecting
      ensures thrown == if IsPort(port) then None else Some(RangeError)
      ensures IsPort(port) ==> connectionTimeout && socket == Some(old(sockets)) && sockets == old(sockets) + 1
      ensures IsPort(port) ==> pending == old(pending) + {old(sockets)} && live == old(live) + {old(sockets)}
      ensures !IsPort(port) ==> unchanged(`connectionTimeout, `socket, `sockets, `pending, `live)
    {
      phase := Connecting;
      if !IsPort(port) {
        return Some(RangeError);
      }
      thrown := None;
      socket := Some(sockets);
      pending := pending + {sockets};
      live := live + {sockets};
      sockets := sockets + 1;
      connectionTimeout := true;
    }

    method OnSocketConnected(s: nat)
      requires Valid() && Allowed(View(), SocketConnected(s))
      modifies this
      ensures View() == Step(config, old(View()), SocketConnected(s))
      ensures Valid()
    {
      Safety.SocketConnectedKeeps(View(), s);
      pending := pending - {s};
      if connectionTimeout {
        connectionTimeout := false;
      }
      phase := Connected;
      StartRequestTimeoutTimer();
    }

    method StartRequestTimeoutTimer()
      modifies `requestTimeoutInterval, `intervals, `timers
      ensures View() == StartTimer(old(View()))
    {
      requestTimeoutInterval := Some(timers);
      intervals := intervals[timers := now];
      timers := timers + 1;
    }

    method StopRequestTimeoutTimer()
      modifies `requestTimeoutInterval, `intervals
      ensures requestTimeoutInterval == None
      ensures intervals == if old(requestTimeoutInterval).None? then old(intervals)
                           else old(intervals) - {old(requestTimeoutInterval).value}
    {
      if requestTimeoutInterval.Some? {
        intervals := intervals - {requestTimeoutInterval.value};
        requestTimeoutInterval := None;
      }
    }

    /** The statements disconnect and onDisconnect have in common. */
    method TearDown(why: Failure)
      requires AllPending()
      modifies `connectionTimeout, `requestTimeoutInterval, `intervals, `promises, `inFlightRequests, `socket
      ensures !connectionTimeout && requestTimeoutInterval == None && inFlightRequests == map[] && socket == None
      ensures promises == RejectAll(old(promises), old(inFlightRequests), why)
      ensures intervals == if old(requestTimeoutInterval).None? then old(intervals)
                           else old(intervals) - {old(requestTimeoutInterval).value}
    {
      if connectionTimeout {
        connectionTimeout := false;
      }
      StopRequestTimeoutTimer();
      RejectEach(inFlightRequests, why);
      inFlightRequests := map[];
      if socket.Some? {
        socket := None;
      }
    }

    method Disconnect()
      requires Valid()
      modifies this
      ensures View() == Step(config, old(View()), DisconnectCall)
      ensures Valid()
    {
      Safety.DisconnectKeeps(View());
      EntriesArePending();
      if phase != Disconnected {
        Close();
      }
    }

    method Close()
      requires AllPending()
      modifies `phase, `connectionTimeout, `requestTimeoutInterval, `intervals, `promises, `inFlightRequests, `socket
      ensures phase == Disconnected
      ensures !connectionTimeout && requestTimeoutInterval == None && inFlightRequests == map[] && socket == None
      ensures promises == RejectAll(old(promises), old(inFlightRequests), ConnectionClosed)
      ensures intervals == if old(requestTimeoutInterval).None? then old(intervals)
                           else old(intervals) - {old(requestTimeoutInterval).value}
    {
      phase := Closing;
      TearDown(ConnectionClosed);
      phase := Disconnected;
    }

    /** The listener of a socket's 'error' event. */
    method OnSocketError(s: nat)
      requires Valid() && Allowed(View(), SocketError(s))
      modifies this
      ensures View() == Step(config, old(View()), SocketError(s))
      ensures Valid()
    {
      Safety.SettleKeeps(View(), s);
      pending := pending - {s};
      OnError();
    }

    /** A failed message, the socket's timeout and the connection timeout come here. */
    method OnError()
      requires Valid()
      modifies this
      ensures View() == Connection.Disconnect(old(View()))
      ensures Valid()
    {
      Disconnect();
    }

    method OnDisconnect(error: Failure)
      requires Valid()
      modifies this
      ensures View() == Connection.OnDisconnect(old(View()), error)
      ensures Valid()
    {
      Safety.OnDisconnectKeeps(View(), error);
      EntriesArePending();
      Abandon(error);
    }

    method Abandon(error: Failure)
      requires AllPending()
      modifies `phase, `live, `connectionTimeout, `requestTimeoutInterval, `intervals
      modifies `promises, `inFlightRequests, `socket
      ensures phase == Disconnected && live == old(live) - (if old(socket).None? then {} else {old(socket).value})
      ensures !connectionTimeout && requestTimeoutInterval == None && inFlightRequests == map[] && socket == None
      ensures promises == RejectAll(old(promises), old(inFlightRequests), error)
      ensures intervals == if old(requestTimeoutInterval).None? then old(intervals)
                           else old(intervals) - {old(requestTimeoutInterval).value}
    {
      phase := Disconnected;
      if socket.Some? {
        live := live - {socket.value};
      }
      TearDown(error);
    }

    method OnSocketEnd(s: nat)
      requires Valid() && Allowed(View(), SocketEnd(s))
      modifies this
      ensures View() == Step(config, old(View()), SocketEnd(s))
      ensures Valid()
    {
      OnDisconnect(BrokerClosed);
    }

    method OnSocketClose(s: nat, hadError: bool)
      requires Valid() && Allowed(View(), SocketClose(s, hadError))
      modifies this
      ensures View() == Step(config, old(View()), SocketClose(s, hadError))
      ensures Valid()
    {
      ghost var was := View();
      pending := pending - {s};
      live := live - {s};
      Safety.FewerSocketsKeep(was, View());
      if !hadError {
        OnDisconnect(ConnectionClosed);
      }
    }

    // ------------------------------------------------------------------ sending

    method NextCorrelationId() returns (id: int)
      modifies `correlationIdCounter, `generated
      ensures id == correlationIdCounter && View() == TakeId(old(View()))
    {
      correlationIdCounter := (correlationIdCounter + 1) % ID_COUNT;
      generated := generated + 1;
      id := correlationIdCounter;
    }

    /** Size, header and payload in one buffer. */
    method BuildRequest(id: int, apiKey: int, apiVersion: int, data: bytes) returns (r: Result<bytes>)
      ensures r == RequestBytes(config, id, apiKey, apiVersion, data)
    {
      var encoded := H.EncodeHeader(H.RequestHeader(apiKey, apiVersion, id, config.clientId));
      if encoded.Err? {
        return Err(encoded.error);
      }
      var header := encoded.value;
      var totalSize := 4 + |header| + |data|;
      if totalSize > config.maxRequestSize {
        return Err(RequestTooLarge);
      }
      r := FillRequest(header, data);
    }

    method FillRequest(header: bytes, data: bytes) returns (r: Result<bytes>)
      ensures r == FrameOf(header + data)
    {
      var totalSize := 4 + |header| + |data|;
      var request := new byte[totalSize];
      var size := PutInt(4, totalSize - 4);
      if size.Err? {
        return Err(size.error);
      }
      Blit(request, size.value, 0);
      assert request[..4] == size.value && totalSize - 4 == |header + data|;
      Blit(request, header, 4);
      Blit(request, data, 4 + |header|);
      Assoc(size.value, header, data);
      assert request[..4 + |header| + |data|] == request[..];
      r := Ok(request[..]);
    }

    /** The promise handed out is the one with the highest number. */
    method Fail(why: Failure)
      modifies `promises, `births
      ensures View() == SendFails(old(View()), why)
    {
      promises := promises + [Rejected(why)];
      births := births + [0];
    }

    method RecordRequest(id: int, apiKey: int, apiVersion: int, data: bytes, timeout: int, frame: bytes)
      requires id == correlationIdCounter
      modifies `inFlightRequests, `promises, `births, `wire
      ensures View() == Record(old(View()), apiKey, apiVersion, data, timeout, Ok(frame))
    {
      var written := if socket.None? then 0 else socket.value;
      var request := Request(id, now, timeout, apiKey, apiVersion, data, |promises|, written);
      inFlightRequests := inFlightRequests[id := request];
      promises := promises + [Pending];
      births := births + [generated];
      wire := wire + [frame];
    }

    method Send(apiKey: int, apiVersion: int, data: bytes, timeout: Option<int>)
      requires Valid() && Allowed(View(), SendCall(apiKey, apiVersion, data, timeout))
      modifies this
      ensures View() == Step(config, old(View()), SendCall(apiKey, apiVersion, data, timeout))
      ensures Valid()
    {
      Safety.SendKeeps(config, View(), apiKey, apiVersion, data, timeout);
      if !(phase == Connected && socket.Some?) {
        Fail(NotConnected);
        return;
      }
      var correlationId := NextCorrelationId();
      var encoded := BuildRequest(correlationId, apiKey, apiVersion, data);
      if encoded.Err? {
        Fail(encoded.error);
        return;
      }
      var limit := if timeout.Some? && timeout.value != 0 then timeout.value else config.requestTimeout;
      RecordRequest(correlationId, apiKey, apiVersion, data, limit, encoded.value);
    }

    method ForgetRequest(correlationId: int, p: nat)
      modifies `inFlightRequests, `promises
      ensures inFlightRequests == old(inFlightRequests) - {correlationId}
      ensures promises == if p < |old(promises)| && old(promises)[p].Pending?
                          then old(promises)[p := Rejected(WriteFailed)]
                          else old(promises)
    {
      inFlightRequests := inFlightRequests - {correlationId};
      Settle(p, Rejected(WriteFailed));
    }

    /** The callback of a write that failed; it holds on to the id and the promise of its
        own send. */
    method OnWriteError(correlationId: int, p: nat)
      requires Valid() && Allowed(View(), WriteError(p)) && correlationId == IdOf(births[p])
      modifies this
      ensures View() == Step(config, old(View()), WriteError(p))
      ensures Valid()
    {
      Safety.FailWriteKeeps(View(), p);
      ForgetRequest(correlationId, p);
    }

    // ---------------------------------------------------------------- receiving

    method HandleResponse(message: bytes)
      requires Valid()
      modifies this
      ensures View() == Connection.HandleResponse(old(View()), message) && buffer == old(buffer)
      ensures Valid()
    {
      Safety.HandleResponseKeeps(View(), message);
      EntriesArePending();
      var header := H.DecodeResponseHeader(message);
      if header.Err? {
        OnError();
        return;
      }
      var (id, size) := header.value;
      if id !in inFlightRequests {
        return;
      }
      var request := inFlightRequests[id];
      inFlightRequests := inFlightRequests - {id};
      Settle(request.promise, Resolved(message[size..]));
    }

    /** Reads the size at the position: the next position, or how the loop ends. */
    method LookAt(processed: int) returns (turn: Position)
      requires buffer.Some? && processed < |buffer.value|
      ensures turn == Turn(buffer.value, processed)
      ensures turn.Running? ==> turn.at <= |buffer.value| && |buffer.value| >= 4
    {
      if |buffer.value| - processed < 4 {
        return Left(processed);
      }
      if processed < 0 {
        return Thrown;
      }
      var messageSize := IntOf(buffer.value[processed..processed + 4]);
      SizeAt(buffer.value, processed);
      if |buffer.value| - processed - 4 < messageSize {
        return Left(processed);
      }
      return Running(processed + 4 + messageSize);
    }

    /** The loop over the buffer: where it is left, or the exception of reading a size
        before the start. */
    method TakeMessages() returns (r: Result<nat>)
      requires Valid() && buffer.Some? && Ends(buffer.value)
      modifies this
      ensures View() == HandleMessages(old(View()), Received(old(buffer).value).0)
      ensures Valid()
      ensures buffer == old(buffer)
      ensures var end := Received(buffer.value).1;
              r.Ok? == end.Left?
              && (r.Ok? ==> r.value == end.at <= |buffer.value|) && (r.Err? ==> r.error == RangeError)
    {
      ghost var stream, end := buffer.value, Received(buffer.value).1;
      ghost var final := HandleMessages(View(), Received(stream).0);
      var processed: int := 0;
      ghost var turns: nat := |stream| + 2;
      while processed < |buffer.value|
        invariant Valid() && buffer == Some(stream) && processed <= |stream| && (processed >= 0 || |stream| >= 4)
        invariant Progress(View(), stream, processed, turns, final, end)
        decreases turns
      {
        TurnIn(View(), stream, processed, turns, final, end);
        var turn := LookAt(processed);
        if turn.Thrown? {
          return Err(RangeError);
        }
        if turn.Left? {
          break;
        }
        var message := Slice(buffer.value, processed + 4, turn.at);
        HandleResponse(message);
        processed := turn.at;
        turns := turns - 1;
      }
      TurnIn(View(), stream, processed, turns, final, end);
      LeftInRange(stream, processed, turns);
      r := Ok(processed);
    }

    /** The exception leaves the messages handled so far handled and the buffer as it is. */
    method HandleIncomingData(s: nat, data: bytes) returns (r: Result<()>)
      requires Valid() && Allowed(View(), Data(s, data))
      modifies this
      ensures View() == Step(config, old(View()), Data(s, data))
      ensures Valid()
      ensures r == if Received(Kept(old(View())) + data).1.Left? then Ok(()) else Err(RangeError)
    {
      ghost var was := View();
      ghost var stream := Kept(was) + data;
      Safety.HandleDataKeeps(was, data);
      Safety.FewerSocketsKeep(was, was.(buffer := Some(stream)));
      Delivery.MessagesIgnoreBuffer(was, Received(stream).0, Some(stream));
      WalkIsDone(stream);
      if buffer.Some? {
        buffer := Some(buffer.value + data);
      } else {
        assert [] + data == data;
        buffer := Some(data);
      }
      var processed := TakeMessages();
      if processed.Err? {
        return Err(processed.error);
      }
      KeepRest(processed.value);
      r := Ok(());
    }

    method KeepRest(processed: nat)
      requires buffer.Some? && processed <= |buffer.value|
      modifies `buffer
      ensures buffer == BufferAfter(old(buffer).value, Left(processed))
    {
      if processed == 0 {
        return;
      } else if processed < |buffer.value| {
        buffer := Some(buffer.value[processed..]);
      } else {
        buffer := None;
      }
    }

    // -------------------------------------------------------------------- timers

    /** The loop of a sweep: expired requests are deleted and rejected one by one. */
    method SweepTable(interval: nat)
      requires AllPending()
      modifies `intervals, `inFlightRequests, `promises
      ensures intervals == old(intervals)[interval := now]
      ensures inFlightRequests == old(inFlightRequests) - ExpiredIn(old(inFlightRequests), now).Keys
      ensures promises == RejectAll(old(promises), ExpiredIn(old(inFlightRequests), now), TimedOut)
    {
      ghost var table, was := inFlightRequests, promises;
      ghost var expired := ExpiredIn(table, now);
      intervals := intervals[interval := now];
      var remaining := inFlightRequests.Keys;
      while remaining != {}
        invariant remaining <= table.Keys && intervals == old(intervals)[interval := now]
        invariant inFlightRequests == table - (expired.Keys - remaining)
        invariant promises == RejectAll(was, expired - remaining, TimedOut)
      {
        Inhabited(remaining);
        var id :| id in remaining;
        var request := inFlightRequests[id];
        var age := now - request.sentTime;
        SweptMore(expired, remaining, id, |promises|);
        if age > request.timeout {
          inFlightRequests := inFlightRequests - {id};
          Settle(request.promise, Rejected(TimedOut));
        }
        remaining := remaining - {id};
      }
      assert expired - remaining == expired && expired.Keys - remaining == expired.Keys;
    }

    /** What the interval timer `interval` runs. */
    method CheckTimeouts(interval: nat)
      requires Valid() && Allowed(View(), Tick(interval))
      modifies this
      ensures View() == Step(config, old(View()), Tick(interval))
      ensures Valid()
    {
      Safety.SweepKeeps(View(), interval);
      EntriesArePending();
      SweepTable(interval);
    }
  }

  /** The loop is at `processed` with `turns` turns in hand: handling what it still takes
      leads to `final`, and it gets to `end`. */
  ghost predicate Progress(c: Conn, stream: bytes, processed: int, turns: nat, final: Conn, end: Position) {
    && !end.Running?
    && Walk(stream, processed, turns).1 == end
    && HandleMessages(c, Walk(stream, processed, turns).0) == final
  }

  lemma WalkIsDone(stream: bytes)
    ensures Received(stream).1.Running? <==> !Ends(stream)
  {
  }

  /** A turn is either the end, or takes a message and makes progress. */
  lemma TurnIn(c: Conn, stream: bytes, processed: int, turns: nat, final: Conn, end: Position)
    requires Progress(c, stream, processed, turns, final, end)
    ensures turns > 0
    ensures !Turn(stream, processed).Running? ==> c == final && end == Turn(stream, processed)
    ensures Turn(stream, processed).Running? ==>
              Progress(Connection.HandleResponse(c, MessageAt(stream, processed)), stream, Turn(stream, processed).at,
                       turns - 1, final, end)
  {
  }

  lemma SizeAt(stream: bytes, processed: nat)
    requires processed + 4 <= |stream|
    ensures IntOf(stream[processed..processed + 4]) == SizeOf(stream[processed..])
  {
    assert stream[processed..][..4] == stream[processed..processed + 4];
  }

  lemma SweptMore(expired: map<int, Request>, remaining: set<int>, id: int, count: nat)
    requires id in remaining
    ensures forall p :: 0 <= p < count ==>
              (InTable(expired - (remaining - {id}), p) <==>
               InTable(expired - remaining, p) || (id in expired && expired[id].promise == p))
  {
    var rest := remaining * expired.Keys;
    assert expired - remaining == expired - rest;
    assert expired - (remaining - {id}) == expired - (rest - {id});
    if id in expired {
      forall p: nat | p < count {
        InTableMore(expired, rest, id, p);
      }
    } else {
      assert rest - {id} == rest;
    }
  }
}

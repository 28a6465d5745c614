/** When the promise of a connect call ends. An 'error' that nobody listens to is thrown
    where it is emitted: neither disconnect nor reject, which come after it, is reached. */
module ConnectAwait {
  import opened Results
  import opened Bytes
  import opened ReceiveLoop
  import opened Connection
  import opened ConnectionDelivery
  import opened ConnectionSockets

  datatype Ending = Waiting | Fulfilled | Failed

  /** The connection, whether somebody listens to its errors, the promises of the connect
      calls, the call each socket was made by, the calls that joined an attempt and still
      have a 'connect' or an 'error' listener of their own, and the sockets that failed. */
  datatype Line = Line(
    conn: Conn, listener: bool, calls: seq<Ending>, madeBy: map<nat, nat>,
    onConnect: set<nat>, onError: set<nat>, broken: set<nat>)

  datatype Signal = Listen | Happens(e: Event)

  function NewLine(now: int): Line {
    Line(Fresh(now), false, [], map[], {}, {}, {})
  }

  // -------------------------------------------------------------------- steps

  /** The promises among these take their end, if they still wait. */
  function EndAll(calls: seq<Ending>, which: set<nat>, end: Ending): (r: seq<Ending>)
    ensures |r| == |calls|
  {
    seq(|calls|, k requires 0 <= k < |calls| => if k in which && calls[k].Waiting? then end else calls[k])
  }

  function MakerOf(l: Line, s: nat): set<nat> {
    if s in l.madeBy then {l.madeBy[s]} else {}
  }

  predicate Heard(l: Line) {
    l.listener || l.onError != {}
  }

  /** The events whose listeners call onError. */
  ghost predicate EmitsError(c: Conn, e: Event) {
    ClosesByDisconnect(c, e) && !e.DisconnectCall?
  }

  /** The call whose promise is rejected behind onError. */
  function Rejects(l: Line, e: Event): set<nat> {
    match e
    case SocketError(s) => MakerOf(l, s)
    case ConnectTimeout => if l.conn.socket.Some? then MakerOf(l, l.conn.socket.value) else {}
    case _ => {}
  }

  function BeforeHeaderless(messages: seq<bytes>): seq<bytes> {
    if messages == [] || |messages[0]| < 4 then [] else [messages[0]] + BeforeHeaderless(messages[1..])
  }

  /** What is left of an event whose 'error' is thrown. */
  ghost function Unheard(c: Conn, e: Event): Conn {
    match e
    case SocketError(s) => Settle(c, s)
    case ConnectTimeout => c.(connectTimer := false)
    case Data(_, data) =>
      var stream := Kept(c) + data;
      HandleMessages(c, BeforeHeaderless(Received(stream).0)).(buffer := Some(stream))
    case _ => c
  }

  function Breaks(e: Event): set<nat> {
    if e.SocketError? then {e.s} else {}
  }

  /** A call while connected ends at once, one while connecting listens for the end of the
      attempt, any other starts an attempt. */
  function Calls(l: Line, e: Event): Line {
    var k := |l.calls|;
    if l.conn.phase == Connected then l.(calls := l.calls + [Fulfilled])
    else if l.conn.phase == Connecting then
      l.(calls := l.calls + [Waiting], onConnect := l.onConnect + {k}, onError := l.onError + {k})
    else if e.ConnectThrows? then l.(calls := l.calls + [Failed])
    else l.(calls := l.calls + [Waiting], madeBy := l.madeBy[l.conn.sockets := k])
  }

  ghost function Next(cfg: Config, l: Line, e: Event): Line {
    var conn := Step(cfg, l.conn, e);
    if EmitsError(l.conn, e) then
      if Heard(l) then
        l.(conn := conn, calls := EndAll(l.calls, l.onError + Rejects(l, e), Failed), onError := {},
           broken := l.broken + Breaks(e))
      else l.(conn := Unheard(l.conn, e), broken := l.broken + Breaks(e))
    else match e
      case ConnectCall => Calls(l, e).(conn := conn)
      case ConnectThrows => Calls(l, e).(conn := conn)
      case SocketConnected(s) =>
        l.(conn := conn, calls := EndAll(l.calls, l.onConnect + MakerOf(l, s), Fulfilled), onConnect := {})
      case SocketEnd(s) => l.(conn := conn, calls := EndAll(l.calls, MakerOf(l, s), Failed))
      case _ => l.(conn := conn)
  }

  ghost function StepLine(cfg: Config, l: Line, signal: Signal): Line {
    match signal
    case Listen => l.(listener := true)
    case Happens(e) => Next(cfg, l, e)
  }

  ghost function RunLine(cfg: Config, l: Line, signals: seq<Signal>): Line
    decreases |signals|
  {
    if signals == [] then l else RunLine(cfg, StepLine(cfg, l, signals[0]), signals[1..])
  }

  /** A socket that failed only closes. */
  ghost predicate AllowedSignal(l: Line, signal: Signal) {
    signal.Happens? ==>
      Allowed(l.conn, signal.e)
      && (SocketOf(signal.e).Some? && SocketOf(signal.e).value in l.broken ==> signal.e.SocketClose?)
  }

  ghost predicate AllowedSignals(cfg: Config, l: Line, signals: seq<Signal>)
    decreases |signals|
  {
    signals != [] ==> AllowedSignal(l, signals[0]) && AllowedSignals(cfg, StepLine(cfg, l, signals[0]), signals[1..])
  }

  // --------------------------------------------------------------- invariants

  /** A socket is known before its call is, a call makes one socket at most, and those that
      joined made none. */
  ghost predicate Attempts(l: Line) {
    && (forall s :: s in l.madeBy ==> s < l.conn.sockets && l.madeBy[s] < |l.calls|)
    && (forall s, t :: s in l.madeBy && t in l.madeBy && l.madeBy[s] == l.madeBy[t] ==> s == t)
    && (forall s :: s in l.madeBy ==> l.madeBy[s] !in l.onConnect && l.madeBy[s] !in l.onError)
    && (forall k :: k in l.onConnect || k in l.onError ==> k < |l.calls|)
  }

  lemma {:induction false} MessagesLeave(c: Conn, messages: seq<bytes>)
    ensures var d := HandleMessages(c, messages);
            d.live == c.live && d.pending == c.pending && d.sockets == c.sockets
            && (d.connectTimer ==> c.connectTimer && d.socket == c.socket)
    decreases |messages|
  {
    if messages != [] {
      MessagesLeave(HandleResponse(c, messages[0]), messages[1..]);
    }
  }

  lemma EnterLeaves(c: Conn, apiKey: int, apiVersion: int, data: bytes, timeout: int, encoded: Result<bytes>)
    ensures var d := Enter(c, apiKey, apiVersion, data, timeout, encoded);
            d.live == c.live && d.pending == c.pending && d.sockets == c.sockets
            && d.connectTimer == c.connectTimer && d.socket == c.socket
  {
  }

  /** The event starts an attempt on a new socket. */
  predicate Opens(c: Conn, e: Event) {
    e.ConnectCall? && c.phase != Connected && c.phase != Connecting
  }

  /** What a step can do to the sockets and to the timer of an attempt. */
  ghost predicate Leaves(c: Conn, d: Conn, e: Event) {
    && d.sockets == (if Opens(c, e) then c.sockets + 1 else c.sockets)
    && d.live <= (if Opens(c, e) then c.live + {c.sockets} else c.live)
    && (forall s :: s in c.pending ==> s in d.pending || e == SocketConnected(s) || e == SocketError(s) || s !in d.live)
    && (d.connectTimer ==> if Opens(c, e) then d.socket == Some(c.sockets) else c.connectTimer && d.socket == c.socket)
  }

  lemma StepLeaves(cfg: Config, c: Conn, e: Event)
    ensures Leaves(c, Step(cfg, c, e), e)
  {
    if e.Data? {
      MessagesLeave(c, Received(Kept(c) + e.data).0);
    } else if e.SendCall? {
      EnterLeaves(c, e.apiKey, e.apiVersion, e.requestData, EffectiveTimeout(cfg, e.timeout),
                  RequestBytes(cfg, NextId(c), e.apiKey, e.apiVersion, e.requestData));
    }
  }

  lemma NextLeaves(cfg: Config, l: Line, e: Event)
    ensures Leaves(l.conn, Next(cfg, l, e).conn, e)
  {
    StepLeaves(cfg, l.conn, e);
    if e.Data? {
      MessagesLeave(l.conn, BeforeHeaderless(Received(Kept(l.conn) + e.data).0));
    }
  }

  lemma AttemptKeeps(l: Line, m: Line)
    requires Attempts(l) && m.madeBy == l.madeBy[l.conn.sockets := |l.calls|] && |m.calls| == |l.calls| + 1
    requires m.conn.sockets == l.conn.sockets + 1 && m.onConnect == l.onConnect && m.onError == l.onError
    ensures Attempts(m)
  {
  }

  lemma JoinKeeps(l: Line, m: Line)
    requires Attempts(l) && m.madeBy == l.madeBy && |m.calls| == |l.calls| + 1 && m.conn.sockets == l.conn.sockets
    requires m.onConnect <= l.onConnect + {|l.calls|} && m.onError <= l.onError + {|l.calls|}
    ensures Attempts(m)
  {
  }

  lemma CallsKeep(l: Line, e: Event, conn: Conn)
    requires Attempts(l) && (e.ConnectCall? || e.ConnectThrows?)
    requires conn.sockets == if Opens(l.conn, e) then l.conn.sockets + 1 else l.conn.sockets
    ensures Attempts(Calls(l, e).(conn := conn))
  {
    if Opens(l.conn, e) {
      AttemptKeeps(l, Calls(l, e).(conn := conn));
    } else {
      JoinKeeps(l, Calls(l, e).(conn := conn));
    }
  }

  lemma CallsGrow(l: Line, e: Event, conn: Conn)
    requires Attempts(l)
    ensures MoreCalls(l, Calls(l, e).(conn := conn))
  {
  }

  ghost predicate MoreCalls(l: Line, m: Line) {
    |l.calls| <= |m.calls| && forall s :: s in l.madeBy ==> s in m.madeBy && m.madeBy[s] == l.madeBy[s]
  }

  /** No other event makes a call or a socket. */
  lemma OthersKeep(l: Line, m: Line)
    requires Attempts(l) && m.madeBy == l.madeBy && |m.calls| == |l.calls| && m.conn.sockets == l.conn.sockets
    requires m.onConnect <= l.onConnect && m.onError <= l.onError
    ensures Attempts(m) && MoreCalls(l, m)
  {
  }

  lemma OthersLeave(cfg: Config, l: Line, e: Event) returns (m: Line)
    requires !e.ConnectCall? && !e.ConnectThrows?
    ensures m == Next(cfg, l, e) && m.madeBy == l.madeBy && |m.calls| == |l.calls| && m.conn.sockets == l.conn.sockets
    ensures m.onConnect <= l.onConnect && m.onError <= l.onError
  {
    NextLeaves(cfg, l, e);
    m := Next(cfg, l, e);
  }

  lemma StepLineKeeps(cfg: Config, l: Line, signal: Signal)
    requires Attempts(l)
    ensures Attempts(StepLine(cfg, l, signal)) && MoreCalls(l, StepLine(cfg, l, signal))
  {
    match signal
    case Listen => OthersKeep(l, l.(listener := true));
    case Happens(e) =>
      if e.ConnectCall? || e.ConnectThrows? {
        StepLeaves(cfg, l.conn, e);
        CallsKeep(l, e, Step(cfg, l.conn, e));
        CallsGrow(l, e, Step(cfg, l.conn, e));
      } else {
        var m := OthersLeave(cfg, l, e);
        OthersKeep(l, m);
      }
  }

  // ------------------------------------------------------- the end of a promise

  /** The promise of the call that made socket `s` waits. */
  predicate Awaits(l: Line, s: nat) {
    s in l.madeBy && l.madeBy[s] < |l.calls| && l.calls[l.madeBy[s]].Waiting?
  }

  /** With somebody listening the connection does what one step of the state machine does. */
  lemma HeardIsStep(cfg: Config, l: Line, e: Event)
    requires EmitsError(l.conn, e) ==> Heard(l)
    ensures Next(cfg, l, e).conn == Step(cfg, l.conn, e)
  {
  }

  /** What each signal does to a waiting connect call: its socket's connect fulfils it; its
      socket's end, and with somebody listening its socket's error and the timer of its
      attempt, fail it; nothing else ends it - no idle timeout, no close, no disconnect. */
  lemma EveryEndHasItsCause(cfg: Config, l: Line, signal: Signal, s: nat)
    requires Attempts(l) && Awaits(l, s)
    ensures var after := StepLine(cfg, l, signal).calls;
            |after| > l.madeBy[s]
            && after[l.madeBy[s]]
               == match signal
                  case Listen => Waiting
                  case Happens(e) =>
                    if e == SocketConnected(s) then Fulfilled
                    else if e == SocketEnd(s) then Failed
                    else if Heard(l) && (e == SocketError(s) || (e.ConnectTimeout? && l.conn.socket == Some(s)))
                    then Failed else Waiting
  {
  }

  /** The call made a socket, or it joined an attempt and both its listeners are on. */
  ghost predicate Listens(l: Line, k: nat) {
    (exists s :: s in l.madeBy && l.madeBy[s] == k) || (k in l.onConnect && k in l.onError)
  }

  /** Every waiting call is of one of these kinds. */
  ghost predicate WaitersListen(l: Line) {
    forall k :: 0 <= k < |l.calls| && l.calls[k].Waiting? ==> Listens(l, k)
  }

  lemma CallListens(l: Line, e: Event, conn: Conn)
    requires Attempts(l) && WaitersListen(l) && (e.ConnectCall? || e.ConnectThrows?)
    ensures WaitersListen(Calls(l, e).(conn := conn))
  {
    var m := Calls(l, e).(conn := conn);
    forall k | 0 <= k < |m.calls| && m.calls[k].Waiting? ensures Listens(m, k) {
      if k < |l.calls| {
        assert Listens(l, k);
        if s :| s in l.madeBy && l.madeBy[s] == k {
          assert s in m.madeBy && m.madeBy[s] == k;
        }
      } else if l.conn.phase != Connecting {
        assert m.madeBy[l.conn.sockets] == k;
      }
    }
  }

  lemma WaitersStay(cfg: Config, l: Line, signal: Signal)
    requires Attempts(l) && WaitersListen(l)
    ensures WaitersListen(StepLine(cfg, l, signal))
  {
    var m := StepLine(cfg, l, signal);
    if signal.Happens? && (signal.e.ConnectCall? || signal.e.ConnectThrows?) {
      CallListens(l, signal.e, Step(cfg, l.conn, signal.e));
    } else {
      forall k | 0 <= k < |m.calls| && m.calls[k].Waiting? ensures Listens(m, k) {
        assert l.calls[k].Waiting? && Listens(l, k);
      }
    }
  }

  /** What a connect call returns: fulfilled at once while connected; joined to the attempt
      while connecting; else an attempt of its own, or a rejection where no socket can be
      made. */
  lemma CallBegins(cfg: Config, l: Line, e: Event)
    requires e.ConnectCall? || e.ConnectThrows?
    ensures var m, k := StepLine(cfg, l, Happens(e)), |l.calls|;
            |m.calls| == k + 1 && m.calls[..k] == l.calls
            && if l.conn.phase == Connected then m.calls[k] == Fulfilled && m.madeBy == l.madeBy
               else if l.conn.phase == Connecting then
                 m.calls[k] == Waiting && m.madeBy == l.madeBy && k in m.onConnect && k in m.onError
               else if e.ConnectThrows? then m.calls[k] == Failed && m.madeBy == l.madeBy
               else m.calls[k] == Waiting && m.madeBy == l.madeBy[l.conn.sockets := k]
                    && m.conn.socket == Some(l.conn.sockets)
  {
  }

  /** A call that joined an attempt ends with the next connect of whatever socket or the next
      error of whatever cause, and by nothing else. */
  lemma JoinedEnds(cfg: Config, l: Line, signal: Signal, k: nat)
    requires Attempts(l) && k < |l.calls| && l.calls[k].Waiting? && k in l.onConnect && k in l.onError
    ensures var after := StepLine(cfg, l, signal).calls;
            |after| > k
            && after[k] == match signal
                           case Listen => Waiting
                           case Happens(e) =>
                             if e.SocketConnected? then Fulfilled
                             else if e.SocketError? || e.SocketIdle? || e.ConnectTimeout?
                                     || (e.Data? && !AllHeaded(Received(Kept(l.conn) + e.data).0))
                             then Failed else Waiting
  {
  }

  /** What is left of a thrown error: the state, the socket, the table and the timers stay;
      only the timer of the attempt has fired, and the socket that failed connects no more. */
  lemma ThrownErrorLeaves(cfg: Config, l: Line, e: Event)
    requires EmitsError(l.conn, e) && !Heard(l) && !e.Data?
    ensures Next(cfg, l, e).conn == l.conn.(connectTimer := l.conn.connectTimer && !e.ConnectTimeout?,
                                            pending := l.conn.pending - (if e.SocketError? then {e.s} else {}))
    ensures Next(cfg, l, e).calls == l.calls
  {
    assert l.conn.pending - {} == l.conn.pending;
  }

  lemma {:induction false} FateBeforeHeaderless(messages: seq<bytes>, id: int)
    ensures FateIn(BeforeHeaderless(messages), id)
         == if FateIn(messages, id).Resolved? then FateIn(messages, id) else Pending
  {
    if messages != [] && |messages[0]| >= 4 {
      var rest := BeforeHeaderless(messages[1..]);
      assert ([messages[0]] + rest)[1..] == rest;
      FateBeforeHeaderless(messages[1..], id);
    }
  }

  /** Data with a message that has no header: the answers before it are delivered, nothing is
      rejected, and the whole stream is kept. */
  lemma ThrownDataLeaves(cfg: Config, l: Line, s: nat, data: bytes, p: nat)
    requires EmitsError(l.conn, Data(s, data)) && !Heard(l) && Invariant(l.conn)
    requires p < |l.conn.promises| && l.conn.promises[p].Pending?
    ensures var d, messages := Next(cfg, l, Data(s, data)).conn, Received(Kept(l.conn) + data).0;
            && Kept(d) == Kept(l.conn) + data
            && p < |d.promises|
            && d.promises[p] == if FateIn(messages, IdOf(l.conn.births[p])).Resolved?
                                then FateIn(messages, IdOf(l.conn.births[p])) else Pending
  {
    var messages := Received(Kept(l.conn) + data).0;
    MessagesDecide(l.conn, BeforeHeaderless(messages), p);
    FateBeforeHeaderless(messages, IdOf(l.conn.births[p]));
  }

  /** Something that is still to come can end the promise. */
  predicate CanEnd(l: Line, s: nat) {
    (s in l.conn.live && s !in l.broken) || (l.conn.connectTimer && l.conn.socket == Some(s))
  }

  lemma HopelessStays(cfg: Config, l: Line, signal: Signal, s: nat)
    requires Attempts(l) && Awaits(l, s) && !CanEnd(l, s) && AllowedSignal(l, signal)
    ensures var m := StepLine(cfg, l, signal); Attempts(m) && Awaits(m, s) && !CanEnd(m, s)
  {
    StepLineKeeps(cfg, l, signal);
    EveryEndHasItsCause(cfg, l, signal, s);
    if signal.Happens? {
      NextLeaves(cfg, l, signal.e);
    }
  }

  lemma {:induction false} NeverEnds(cfg: Config, l: Line, signals: seq<Signal>, s: nat)
    requires Attempts(l) && Awaits(l, s) && !CanEnd(l, s) && AllowedSignals(cfg, l, signals)
    ensures Awaits(RunLine(cfg, l, signals), s)
    decreases |signals|
  {
    if signals != [] {
      HopelessStays(cfg, l, signals[0], s);
      NeverEnds(cfg, StepLine(cfg, l, signals[0]), signals[1..], s);
    }
  }

  lemma OneSignal(cfg: Config, l: Line, signal: Signal)
    ensures RunLine(cfg, l, [signal]) == StepLine(cfg, l, signal)
    ensures AllowedSignals(cfg, l, [signal]) <==> AllowedSignal(l, signal)
  {
    var none: seq<Signal> := [];
    assert [signal][1..] == none;
    assert RunLine(cfg, StepLine(cfg, l, signal), none) == StepLine(cfg, l, signal);
  }

  lemma SomeEnd(cfg: Config, l: Line, s: nat) returns (signals: seq<Signal>)
    requires Attempts(l) && Awaits(l, s) && CanEnd(l, s)
    ensures AllowedSignals(cfg, l, signals) && !Awaits(RunLine(cfg, l, signals), s)
  {
    if s in l.conn.live && s !in l.broken {
      var e := if s in l.conn.pending then SocketConnected(s) else SocketEnd(s);
      signals := [Happens(e)];
      OneSignal(cfg, l, Happens(e));
      EveryEndHasItsCause(cfg, l, Happens(e), s);
    } else {
      var m := StepLine(cfg, l, Listen);
      signals := [Listen, Happens(ConnectTimeout)];
      OneSignal(cfg, m, Happens(ConnectTimeout));
      EveryEndHasItsCause(cfg, m, Happens(ConnectTimeout), s);
      assert signals[1..] == [Happens(ConnectTimeout)];
    }
  }

  /** A waiting connect call can ever end if and only if its socket may still emit and has
      not failed, or the timer of its attempt still runs. */
  lemma EndsEverIff(cfg: Config, l: Line, s: nat)
    requires Attempts(l) && Awaits(l, s)
    ensures (exists signals :: AllowedSignals(cfg, l, signals) && !Awaits(RunLine(cfg, l, signals), s))
            <==> CanEnd(l, s)
  {
    if CanEnd(l, s) {
      var signals := SomeEnd(cfg, l, s);
    }
    if signals :| AllowedSignals(cfg, l, signals) && !Awaits(RunLine(cfg, l, signals), s) {
      if !CanEnd(l, s) {
        NeverEnds(cfg, l, signals, s);
      }
    }
  }

  // -------------------------------------------- a connection nobody listens to

  /** Neither a listener nor another connect call comes in. */
  predicate Alone(signals: seq<Signal>) {
    forall i :: 0 <= i < |signals| ==>
      signals[i].Happens? && !signals[i].e.ConnectCall? && !signals[i].e.ConnectThrows?
  }

  /** One call was made, on one socket, and nobody listens. */
  ghost predicate OneAttempt(l: Line) {
    && !Heard(l) && l.onConnect == {} && l.madeBy == map[0 := 0] && |l.calls| == 1 && l.conn.sockets == 1
    && (l.calls[0].Waiting? ==> 0 in l.conn.pending || 0 in l.broken || 0 !in l.conn.live)
  }

  lemma AloneStep(cfg: Config, l: Line, signal: Signal)
    requires OneAttempt(l) && Alone([signal]) && AllowedSignal(l, signal)
    ensures var m := StepLine(cfg, l, signal);
            OneAttempt(m) && m.calls == if signal == Happens(SocketConnected(0)) && l.calls[0].Waiting? then [Fulfilled]
                                        else l.calls
  {
    assert [signal][0] == signal;
    NextLeaves(cfg, l, signal.e);
  }

  lemma {:induction false} AloneRun(cfg: Config, l: Line, signals: seq<Signal>)
    requires OneAttempt(l) && Alone(signals) && AllowedSignals(cfg, l, signals)
    ensures RunLine(cfg, l, signals).calls
         == if l.calls[0].Waiting? && Happens(SocketConnected(0)) in signals then [Fulfilled] else l.calls
    decreases |signals|
  {
    if signals != [] {
      AloneStep(cfg, l, signals[0]);
      AloneRun(cfg, StepLine(cfg, l, signals[0]), signals[1..]);
    }
  }

  /** The one connect call on a new connection that nobody listens to, as the client makes
      it, is fulfilled if and only if the socket connects, and never rejected: where the
      broker cannot be reached it waits for ever. */
  lemma UnheardConnectEndsIff(cfg: Config, now: int, signals: seq<Signal>)
    requires AllowedSignals(cfg, NewLine(now), [Happens(ConnectCall)] + signals) && Alone(signals)
    ensures RunLine(cfg, NewLine(now), [Happens(ConnectCall)] + signals).calls
         == [if Happens(SocketConnected(0)) in signals then Fulfilled else Waiting]
  {
    var all := [Happens(ConnectCall)] + signals;
    assert all[0] == Happens(ConnectCall) && all[1..] == signals;
    AloneRun(cfg, StepLine(cfg, NewLine(now), Happens(ConnectCall)), signals);
  }

  /** A refused connect: nothing can end the promise any more, and the object goes on
      saying CONNECTING. */
  lemma RefusedConnectHangs(cfg: Config, now: int)
    ensures var signals := [Happens(ConnectCall), Happens(SocketError(0)), Happens(SocketClose(0, true)),
                            Happens(ConnectTimeout)];
            var l := RunLine(cfg, NewLine(now), signals);
            AllowedSignals(cfg, NewLine(now), signals) && Awaits(l, 0) && !CanEnd(l, 0) && l.conn.phase == Connecting
  {
    var l := StepLine(cfg, NewLine(now), Happens(ConnectCall));
    RefusedFrom(cfg, l);
  }

  lemma RefusedFrom(cfg: Config, l: Line)
    requires !Heard(l) && l.calls == [Waiting] && l.madeBy == map[0 := 0] && l.broken == {}
    requires l.conn.phase == Connecting && l.conn.socket == Some(0) && 0 in l.conn.live && l.conn.connectTimer
    ensures var signals := [Happens(SocketError(0)), Happens(SocketClose(0, true)), Happens(ConnectTimeout)];
            var m := RunLine(cfg, l, signals);
            AllowedSignals(cfg, l, signals) && Awaits(m, 0) && !CanEnd(m, 0) && m.conn.phase == Connecting
  {
  }
}

/** Old sockets: disconnect drops a socket without taking its listeners off. When that
    leaves the object connected without a socket, and when an old socket's events reach
    the requests of a new one. */
module ConnectionSockets {
  import opened Results
  import opened Bytes
  import opened ReceiveLoop
  import opened Connection
  import opened ConnectionSafety
  import opened ConnectionDelivery
  import H = Headers

  /** The object says CONNECTED but has no socket. */
  predicate Wedged(c: Conn) {
    c.phase == Connected && c.socket.None?
  }

  // ----------------------------------------------------------------- one step

  /** Messages leave the sockets alone, except that one without a header disconnects. */
  lemma {:induction false} MessagesSockets(c: Conn, messages: seq<bytes>)
    requires c.phase == Disconnected ==> c.socket.None?
    ensures var d := HandleMessages(c, messages);
            d.live == c.live && d.pending == c.pending
            && if AllHeaded(messages) then d.phase == c.phase && d.socket == c.socket
               else d.phase == Disconnected && d.socket.None?
    decreases |messages|
  {
    if messages != [] {
      var d := HandleResponse(c, messages[0]);
      HeaderOfMessage(messages[0]);
      MessagesSockets(d, messages[1..]);
      assert AllHeaded(messages) <==> |messages[0]| >= 4 && AllHeaded(messages[1..]) by {
        assert messages == [messages[0]] + messages[1..];
      }
    }
  }

  /** Closing through disconnect, which drops the socket but not its listeners. */
  ghost predicate ClosesByDisconnect(c: Conn, e: Event) {
    match e
    case DisconnectCall => true
    case ConnectTimeout => true
    case SocketError(_) => true
    case SocketIdle(_) => true
    case Data(_, data) => !AllHeaded(Received(Kept(c) + data).0)
    case _ => false
  }

  /** Closing through onDisconnect, which takes the listeners off the socket it drops. */
  predicate ClosesByEvent(e: Event) {
    e.SocketEnd? || (e.SocketClose? && !e.hadError)
  }

  /** What every step does to the socket held and to the phase. */
  lemma StepSockets(cfg: Config, c: Conn, e: Event)
    requires Invariant(c) && Allowed(c, e)
    ensures var d := Step(cfg, c, e);
            if ClosesByDisconnect(c, e) || ClosesByEvent(e) then d.phase == Disconnected && d.socket.None?
            else if e.ConnectCall? && c.phase == Disconnected then d.phase == Connecting && d.socket == Some(c.sockets)
            else if e.ConnectThrows? && c.phase == Disconnected then d.phase == Connecting && d.socket.None?
            else if e.SocketConnected? then d.phase == Connected && d.socket == c.socket
            else d.phase == c.phase && d.socket == c.socket
  {
    if e.Data? {
      MessagesSockets(c, Received(Kept(c) + e.data).0);
    } else if e.SendCall? {
      EnterSockets(c, e.apiKey, e.apiVersion, e.requestData, EffectiveTimeout(cfg, e.timeout),
                   RequestBytes(cfg, NextId(c), e.apiKey, e.apiVersion, e.requestData));
    }
  }

  lemma EnterSockets(c: Conn, apiKey: int, apiVersion: int, data: bytes, timeout: int, encoded: Result<bytes>)
    ensures var d := Enter(c, apiKey, apiVersion, data, timeout, encoded);
            d.phase == c.phase && d.socket == c.socket && d.live == c.live && d.pending == c.pending
  {
  }

  /** Which sockets may still emit, and which of them have not connected. */
  lemma StepListeners(cfg: Config, c: Conn, e: Event)
    requires Invariant(c) && Allowed(c, e)
    ensures var d := Step(cfg, c, e);
            d.live == (if e.ConnectCall? && c.phase == Disconnected then c.live + {c.sockets}
                       else if e.SocketClose? && e.hadError then c.live - {e.s}
                       else if e.SocketClose? then c.live - {e.s} - Held(c)
                       else if e.SocketEnd? then c.live - Held(c)
                       else c.live)
            && d.pending == (if e.ConnectCall? && c.phase == Disconnected then c.pending + {c.sockets}
                             else if e.SocketConnected? || e.SocketError? || e.SocketClose? then c.pending - {e.s}
                             else c.pending)
  {
    if e.Data? {
      MessagesSockets(c, Received(Kept(c) + e.data).0);
    } else if e.SendCall? {
      EnterSockets(c, e.apiKey, e.apiVersion, e.requestData, EffectiveTimeout(cfg, e.timeout),
                   RequestBytes(cfg, NextId(c), e.apiKey, e.apiVersion, e.requestData));
    }
  }

  /** A step leads to the wedged state exactly when a socket connects while the object
      holds none. */
  lemma WedgesIff(cfg: Config, c: Conn, e: Event)
    requires Invariant(c) && Allowed(c, e) && !Wedged(c)
    ensures Wedged(Step(cfg, c, e)) <==> e.SocketConnected? && c.socket.None?
  {
    StepSockets(cfg, c, e);
  }

  /** From there no call to connect and no send helps: connect returns at once, send is
      rejected, and exactly the events that close the connection end the state. */
  lemma WedgedUntilClosed(cfg: Config, c: Conn, e: Event)
    requires Invariant(c) && Allowed(c, e) && Wedged(c)
    ensures Step(cfg, c, ConnectCall) == c
    ensures forall k, v, data, t :: Step(cfg, c, SendCall(k, v, data, t)) == SendFails(c, NotConnected)
    ensures !Wedged(Step(cfg, c, e)) <==> ClosesByDisconnect(c, e) || ClosesByEvent(e)
  {
    StepSockets(cfg, c, e);
  }

  /** The object says CONNECTED of a socket that is still connecting: the timer of its
      attempt is off and requests are written to it. */
  predicate Premature(c: Conn) {
    c.phase == Connected && c.socket.Some? && c.socket.value in c.pending
  }

  /** A step leads there exactly when another socket connects. */
  lemma PrematureIff(cfg: Config, c: Conn, e: Event)
    requires Invariant(c) && Allowed(c, e) && !Premature(c)
    ensures var d := Step(cfg, c, e);
            Premature(d) <==> e.SocketConnected? && c.socket.Some? && e.s != c.socket.value
                              && c.socket.value in c.pending
    ensures Premature(Step(cfg, c, e)) ==> !Step(cfg, c, e).connectTimer
  {
    StepSockets(cfg, c, e);
    StepListeners(cfg, c, e);
    StepKeeps(cfg, c, e);
  }

  /** It ends when the socket connects, fails or closes, or the object drops it. */
  lemma PrematureUntil(cfg: Config, c: Conn, e: Event)
    requires Invariant(c) && Allowed(c, e) && Premature(c)
    ensures !Premature(Step(cfg, c, e))
            <==> ClosesByDisconnect(c, e) || ClosesByEvent(e)
                 || ((e.SocketConnected? || e.SocketClose?) && e.s == c.socket.value)
  {
    StepSockets(cfg, c, e);
    StepListeners(cfg, c, e);
  }

  /** The object says CONNECTING but no socket was made. */
  predicate Stranded(c: Conn) {
    c.phase == Connecting && c.socket.None?
  }

  /** A step leads there exactly when a connect call can make no socket. */
  lemma StrandsIff(cfg: Config, c: Conn, e: Event)
    requires Invariant(c) && Allowed(c, e) && !Stranded(c)
    ensures Stranded(Step(cfg, c, e)) <==> e.ConnectThrows? && c.phase == Disconnected
  {
    StepSockets(cfg, c, e);
  }

  /** No later connect call tries again and no timer ends the attempt: it takes a close, or
      the late connect of an old socket. */
  lemma StrandedUntil(cfg: Config, c: Conn, e: Event)
    requires Invariant(c) && Allowed(c, e) && Stranded(c)
    ensures Step(cfg, c, ConnectCall) == Step(cfg, c, ConnectThrows) == c && !Allowed(c, ConnectTimeout)
    ensures forall k, v, data, t :: Step(cfg, c, SendCall(k, v, data, t)) == SendFails(c, NotConnected)
    ensures !Stranded(Step(cfg, c, e)) <==> ClosesByDisconnect(c, e) || ClosesByEvent(e) || e.SocketConnected?
  {
    StepSockets(cfg, c, e);
  }

  // --------------------------------------------------------------- whole runs

  /** The state before event `n` of a run from a fresh connection. */
  ghost function State(cfg: Config, now: int, es: seq<Event>, n: nat): Conn
    requires n <= |es|
  {
    Run(cfg, Fresh(now), es[..n])
  }

  lemma {:induction false} RunSnoc(cfg: Config, c: Conn, es: seq<Event>, n: nat)
    requires n < |es| && AllowedRun(cfg, c, es)
    ensures Allowed(Run(cfg, c, es[..n]), es[n]) && AllowedRun(cfg, c, es[..n])
    ensures Run(cfg, c, es[..n + 1]) == Step(cfg, Run(cfg, c, es[..n]), es[n])
    decreases n
  {
    if n == 0 {
      assert es[..0] == [] && es[..1] == [es[0]];
      var none: seq<Event> := [];
      assert es[..1][1..] == none;
      assert Run(cfg, c, es[..1]) == Run(cfg, Step(cfg, c, es[0]), none);
    } else {
      assert es[..n][1..] == es[1..][..n - 1] && es[..n + 1][1..] == es[1..][..n];
      RunSnoc(cfg, Step(cfg, c, es[0]), es[1..], n - 1);
    }
  }

  lemma StateStep(cfg: Config, now: int, es: seq<Event>, n: nat)
    requires n < |es| && AllowedRun(cfg, Fresh(now), es)
    ensures Invariant(State(cfg, now, es, n)) && Allowed(State(cfg, now, es, n), es[n])
    ensures State(cfg, now, es, n + 1) == Step(cfg, State(cfg, now, es, n), es[n])
  {
    RunSnoc(cfg, Fresh(now), es, n);
    FreshIsValid(now);
    RunKeeps(cfg, Fresh(now), es[..n]);
  }

  /** The event takes socket `s` from the object and leaves its listeners on. */
  ghost predicate Drops(cfg: Config, c: Conn, e: Event, s: nat) {
    c.socket == Some(s) && Step(cfg, c, e).socket.None? && s in Step(cfg, c, e).live
  }

  /** Exactly disconnect and what calls it drop a socket so. */
  lemma DropsIff(cfg: Config, c: Conn, e: Event, s: nat)
    requires Invariant(c) && Allowed(c, e) && c.socket == Some(s) && s in c.live
    ensures Drops(cfg, c, e, s) <==> ClosesByDisconnect(c, e)
  {
    StepSockets(cfg, c, e);
    StepListeners(cfg, c, e);
  }

  lemma OldSocketsWereThere(cfg: Config, c: Conn, e: Event, s: nat)
    requires Invariant(c) && Allowed(c, e)
    requires var d := Step(cfg, c, e); s in d.live && d.socket != Some(s)
    ensures s in c.live && (c.socket != Some(s) || Drops(cfg, c, e, s))
    ensures s in Step(cfg, c, e).pending ==> s in c.pending
  {
    StepSockets(cfg, c, e);
    StepListeners(cfg, c, e);
  }

  /** A socket that may still emit but is not the one the object holds was dropped by
      disconnect earlier in the run; if it has not connected yet, it had not then. */
  lemma {:induction false} WasDropped(cfg: Config, now: int, es: seq<Event>, n: nat, s: nat) returns (i: nat)
    requires n <= |es| && AllowedRun(cfg, Fresh(now), es)
    requires s in State(cfg, now, es, n).live && State(cfg, now, es, n).socket != Some(s)
    ensures i < n && Drops(cfg, State(cfg, now, es, i), es[i], s)
    ensures s in State(cfg, now, es, n).pending ==> s in State(cfg, now, es, i + 1).pending
  {
    if n == 0 {
      assert false;
    } else {
      var c := State(cfg, now, es, n - 1);
      StateStep(cfg, now, es, n - 1);
      OldSocketsWereThere(cfg, c, es[n - 1], s);
      if c.socket == Some(s) {
        i := n - 1;
      } else {
        i := WasDropped(cfg, now, es, n - 1, s);
      }
    }
  }

  // -------------------------------------------------------- the late connect

  /** Event `i` drops socket `s` while it is still connecting, and event `k` is that
      socket's connect, with no new socket made in between. */
  ghost predicate ConnectsLate(cfg: Config, now: int, es: seq<Event>, i: nat, k: nat, s: nat)
    requires i < k < |es|
  {
    && Drops(cfg, State(cfg, now, es, i), es[i], s) && s in State(cfg, now, es, i + 1).pending
    && es[k] == SocketConnected(s) && State(cfg, now, es, k).socket.None?
  }

  /** A run comes to be connected without a socket if and only if disconnect, or what calls
      it, dropped a socket that was still connecting and that socket connected before
      another was made. */
  lemma RunWedgesIff(cfg: Config, now: int, es: seq<Event>)
    requires AllowedRun(cfg, Fresh(now), es)
    ensures (exists n :: 0 <= n <= |es| && Wedged(State(cfg, now, es, n)))
            <==> (exists i: nat, k: nat, s: nat :: i < k < |es| && ConnectsLate(cfg, now, es, i, k, s))
  {
    if n :| 0 <= n <= |es| && Wedged(State(cfg, now, es, n)) {
      var i, k, s := WedgedByLateConnect(cfg, now, es, n);
      assert ConnectsLate(cfg, now, es, i, k, s);
    }
    if i: nat, k: nat, s: nat :| i < k < |es| && ConnectsLate(cfg, now, es, i, k, s) {
      LateConnectLeadsThere(cfg, now, es, k);
    }
  }

  lemma LateConnectLeadsThere(cfg: Config, now: int, es: seq<Event>, k: nat)
    requires AllowedRun(cfg, Fresh(now), es) && k < |es|
    requires es[k].SocketConnected? && State(cfg, now, es, k).socket.None?
    ensures Wedged(State(cfg, now, es, k + 1))
  {
    StateStep(cfg, now, es, k);
    StepSockets(cfg, State(cfg, now, es, k), es[k]);
  }

  lemma {:induction false} WedgedByLateConnect(cfg: Config, now: int, es: seq<Event>, n: nat)
    returns (i: nat, k: nat, s: nat)
    requires AllowedRun(cfg, Fresh(now), es) && n <= |es| && Wedged(State(cfg, now, es, n))
    ensures i < k < |es| && ConnectsLate(cfg, now, es, i, k, s)
  {
    if n == 0 {
      assert false;
    } else {
      k := n - 1;
      var c := State(cfg, now, es, k);
      StateStep(cfg, now, es, k);
      if Wedged(c) {
        i, k, s := WedgedByLateConnect(cfg, now, es, k);
      } else {
        WedgesIff(cfg, c, es[k]);
        s := es[k].s;
        i := WasDropped(cfg, now, es, k, s);
      }
    }
  }

  /** The shortest such run. */
  lemma LateConnectWedges(cfg: Config, now: int)
    ensures AllowedRun(cfg, Fresh(now), [ConnectCall, DisconnectCall, SocketConnected(0)])
    ensures Wedged(Run(cfg, Fresh(now), [ConnectCall, DisconnectCall, SocketConnected(0)]))
  {
  }

  /** Event `i` drops socket `s`, and event `k` is that socket's connect while the object
      holds another one that is still connecting. */
  ghost predicate ConnectsOver(cfg: Config, now: int, es: seq<Event>, i: nat, k: nat, s: nat)
    requires i < k < |es|
  {
    var c := State(cfg, now, es, k);
    && Drops(cfg, State(cfg, now, es, i), es[i], s) && es[k] == SocketConnected(s)
    && c.socket.Some? && c.socket.value != s && c.socket.value in c.pending
  }

  /** A run comes to say CONNECTED of a socket that is still connecting if and only if a
      socket that disconnect, or what calls it, had dropped connects meanwhile. */
  lemma RunPrematureIff(cfg: Config, now: int, es: seq<Event>)
    requires AllowedRun(cfg, Fresh(now), es)
    ensures (exists n :: 0 <= n <= |es| && Premature(State(cfg, now, es, n)))
            <==> (exists i: nat, k: nat, s: nat :: i < k < |es| && ConnectsOver(cfg, now, es, i, k, s))
  {
    if n :| 0 <= n <= |es| && Premature(State(cfg, now, es, n)) {
      var i, k, s := PrematureByOldSocket(cfg, now, es, n);
      assert ConnectsOver(cfg, now, es, i, k, s);
    }
    if i: nat, k: nat, s: nat :| i < k < |es| && ConnectsOver(cfg, now, es, i, k, s) {
      OldConnectLeadsThere(cfg, now, es, i, k, s);
    }
  }

  lemma OldConnectLeadsThere(cfg: Config, now: int, es: seq<Event>, i: nat, k: nat, s: nat)
    requires AllowedRun(cfg, Fresh(now), es) && i < k < |es| && ConnectsOver(cfg, now, es, i, k, s)
    ensures Premature(State(cfg, now, es, k + 1))
  {
    StateStep(cfg, now, es, k);
    StepSockets(cfg, State(cfg, now, es, k), es[k]);
    StepListeners(cfg, State(cfg, now, es, k), es[k]);
  }

  lemma {:induction false} PrematureByOldSocket(cfg: Config, now: int, es: seq<Event>, n: nat)
    returns (i: nat, k: nat, s: nat)
    requires AllowedRun(cfg, Fresh(now), es) && n <= |es| && Premature(State(cfg, now, es, n))
    ensures i < k < |es| && ConnectsOver(cfg, now, es, i, k, s)
  {
    if n == 0 {
      assert false;
    } else {
      k := n - 1;
      var c := State(cfg, now, es, k);
      StateStep(cfg, now, es, k);
      if Premature(c) {
        i, k, s := PrematureByOldSocket(cfg, now, es, k);
      } else {
        PrematureIff(cfg, c, es[k]);
        s := es[k].s;
        i := WasDropped(cfg, now, es, k, s);
      }
    }
  }

  /** The shortest such run. */
  lemma OldConnectIsTakenForNew(cfg: Config, now: int)
    ensures var es := [ConnectCall, DisconnectCall, ConnectCall, SocketConnected(0)];
            var c := Run(cfg, Fresh(now), es);
            AllowedRun(cfg, Fresh(now), es) && Premature(c) && c.socket == Some(1)
  {
  }

  // ------------------------------------------------- events of an old socket

  function SocketOf(e: Event): Option<nat> {
    match e
    case SocketConnected(s) => Some(s)
    case Data(s, _) => Some(s)
    case SocketError(s) => Some(s)
    case SocketIdle(s) => Some(s)
    case SocketEnd(s) => Some(s)
    case SocketClose(s, _) => Some(s)
    case _ => None
  }

  /** The event comes from another socket than the one the request was written to, and
      settles its promise. */
  ghost predicate SettlesFromOther(cfg: Config, c: Conn, e: Event, p: nat) {
    && p < |c.births| && IdOf(c.births[p]) in c.inFlight
    && SocketOf(e).Some? && SocketOf(e).value != c.inFlight[IdOf(c.births[p])].socket
    && p < |Step(cfg, c, e).promises| && !Step(cfg, c, e).promises[p].Pending?
  }

  /** A waiting request can be settled by another socket's event exactly if another socket
      may still emit at all: its close is enough. */
  lemma OtherSocketReachesIff(cfg: Config, c: Conn, p: nat)
    requires Invariant(c) && p < |c.promises| && c.promises[p].Pending?
    ensures (exists e :: Allowed(c, e) && SettlesFromOther(cfg, c, e, p))
            <==> (exists s :: s in c.live && c.socket != Some(s))
  {
    assert Waits(c, p);
    if e :| Allowed(c, e) && SettlesFromOther(cfg, c, e, p) {
      assert SocketOf(e).value in c.live;
    }
    if s :| s in c.live && c.socket != Some(s) {
      var e := SocketClose(s, false);
      EveryOutcomeHasItsCause(cfg, c, e, p);
      assert Allowed(c, e) && SettlesFromOther(cfg, c, e, p);
    }
  }

  ghost predicate ClosedAfter(es: seq<Event>, i: nat, s: nat) {
    exists j :: i < j < |es| && es[j].SocketClose? && es[j].s == s
  }

  /** Event `i` drops the socket by disconnect, and it has not closed since. */
  ghost predicate Lingers(cfg: Config, now: int, es: seq<Event>, i: nat, s: nat) {
    i < |es| && Drops(cfg, State(cfg, now, es, i), es[i], s) && !ClosedAfter(es, i, s)
  }

  lemma SocketCount(cfg: Config, c: Conn, e: Event)
    ensures Step(cfg, c, e).sockets >= c.sockets
  {
    if e.Data? {
      MessagesSocketCount(c, Received(Kept(c) + e.data).0);
    }
  }

  lemma {:induction false} MessagesSocketCount(c: Conn, messages: seq<bytes>)
    ensures HandleMessages(c, messages).sockets == c.sockets
    decreases |messages|
  {
    if messages != [] {
      MessagesSocketCount(HandleResponse(c, messages[0]), messages[1..]);
    }
  }

  lemma {:induction false} StaysLive(cfg: Config, now: int, es: seq<Event>, i: nat, n: nat, s: nat)
    requires AllowedRun(cfg, Fresh(now), es) && i < n <= |es|
    requires Drops(cfg, State(cfg, now, es, i), es[i], s) && !ClosedAfter(es, i, s)
    ensures var c := State(cfg, now, es, n); s in c.live && c.socket != Some(s) && s < c.sockets
  {
    StateStep(cfg, now, es, n - 1);
    var c := State(cfg, now, es, n - 1);
    SocketCount(cfg, c, es[n - 1]);
    if i < n - 1 {
      StaysLive(cfg, now, es, i, n - 1, s);
      OldStaysLive(cfg, c, es[n - 1], s);
    }
  }

  lemma OldStaysLive(cfg: Config, c: Conn, e: Event, s: nat)
    requires Invariant(c) && Allowed(c, e) && s in c.live && c.socket != Some(s) && s < c.sockets
    requires !(e.SocketClose? && e.s == s)
    ensures s in Step(cfg, c, e).live && Step(cfg, c, e).socket != Some(s)
  {
    StepSockets(cfg, c, e);
    StepListeners(cfg, c, e);
  }

  lemma {:induction false} ClosedIsNotLive(cfg: Config, now: int, es: seq<Event>, j: nat, n: nat, s: nat)
    requires AllowedRun(cfg, Fresh(now), es) && j < n <= |es| && es[j].SocketClose? && es[j].s == s
    ensures var c := State(cfg, now, es, n); s !in c.live && s < c.sockets
  {
    StateStep(cfg, now, es, n - 1);
    var c := State(cfg, now, es, n - 1);
    StepListeners(cfg, c, es[n - 1]);
    SocketCount(cfg, c, es[n - 1]);
    if j < n - 1 {
      ClosedIsNotLive(cfg, now, es, j, n - 1, s);
    }
  }

  /** Exactly the sockets that disconnect dropped and that have not closed since reach the
      requests of a later one. */
  lemma OldSocketsReachIff(cfg: Config, now: int, es: seq<Event>, p: nat)
    requires AllowedRun(cfg, Fresh(now), es)
    requires p < |Run(cfg, Fresh(now), es).promises| && Run(cfg, Fresh(now), es).promises[p].Pending?
    ensures (exists e :: Allowed(Run(cfg, Fresh(now), es), e) && SettlesFromOther(cfg, Run(cfg, Fresh(now), es), e, p))
            <==> (exists i: nat, s: nat :: Lingers(cfg, now, es, i, s))
  {
    var c := Run(cfg, Fresh(now), es);
    assert es[..|es|] == es;
    FreshIsValid(now);
    RunKeeps(cfg, Fresh(now), es);
    OtherSocketReachesIff(cfg, c, p);
    if s :| s in c.live && c.socket != Some(s) {
      var i := WasDropped(cfg, now, es, |es|, s);
      if j :| i < j < |es| && es[j].SocketClose? && es[j].s == s {
        ClosedIsNotLive(cfg, now, es, j, |es|, s);
      }
      assert Lingers(cfg, now, es, i, s);
    }
    if i: nat, s: nat :| Lingers(cfg, now, es, i, s) {
      StaysLive(cfg, now, es, i, |es|, s);
    }
  }

  /** Such a run: the close of the socket dropped by disconnect rejects a request written to
      the new socket. */
  lemma OldCloseRejectsNewRequest(cfg: Config, now: int, apiKey: int, apiVersion: int, data: bytes,
                                  timeout: Option<int>)
    requires RequestBytes(cfg, 1, apiKey, apiVersion, data).Ok?
    ensures var es := [ConnectCall, SocketConnected(0), DisconnectCall, ConnectCall, SocketConnected(1)];
            var c := Run(cfg, Fresh(now), es);
            var d := Step(cfg, c, SendCall(apiKey, apiVersion, data, timeout));
            AllowedRun(cfg, Fresh(now), es) && Allowed(c, SendCall(apiKey, apiVersion, data, timeout))
            && d.promises == [Pending] && 1 in d.inFlight && d.inFlight[1].socket == 1
            && Allowed(d, SocketClose(0, false))
            && Step(cfg, d, SocketClose(0, false)).promises == [Rejected(ConnectionClosed)]
  {
    TwiceConnected(cfg, now);
    var es := [ConnectCall, SocketConnected(0), DisconnectCall, ConnectCall, SocketConnected(1)];
    var d := FirstSend(cfg, Run(cfg, Fresh(now), es), apiKey, apiVersion, data, timeout);
    OldCloseRejects(cfg, d);
  }

  lemma FirstSend(cfg: Config, c: Conn, apiKey: int, apiVersion: int, data: bytes, timeout: Option<int>)
    returns (d: Conn)
    requires IsConnected(c) && c.counter == 0 && c.inFlight == map[] && c.promises == []
    requires RequestBytes(cfg, 1, apiKey, apiVersion, data).Ok?
    ensures d == Step(cfg, c, SendCall(apiKey, apiVersion, data, timeout))
    ensures d.promises == [Pending] && d.inFlight.Keys == {1} && d.inFlight[1].promise == 0
    ensures d.inFlight[1].socket == c.socket.value && d.live == c.live
  {
    d := Step(cfg, c, SendCall(apiKey, apiVersion, data, timeout));
    EnterFirst(c, apiKey, apiVersion, data, EffectiveTimeout(cfg, timeout),
               RequestBytes(cfg, 1, apiKey, apiVersion, data));
  }

  lemma OldCloseRejects(cfg: Config, d: Conn)
    requires d.promises == [Pending] && d.inFlight.Keys == {1} && d.inFlight[1].promise == 0
    ensures Step(cfg, d, SocketClose(0, false)).promises == [Rejected(ConnectionClosed)]
  {
  }

  lemma TwiceConnected(cfg: Config, now: int)
    ensures var es := [ConnectCall, SocketConnected(0), DisconnectCall, ConnectCall, SocketConnected(1)];
            var c := Run(cfg, Fresh(now), es);
            AllowedRun(cfg, Fresh(now), es) && IsConnected(c) && c.socket == Some(1) && 0 in c.live
            && c.counter == 0 && c.inFlight == map[] && c.promises == []
  {
  }

  lemma EnterFirst(c: Conn, apiKey: int, apiVersion: int, data: bytes, timeout: int, encoded: Result<bytes>)
    requires c.counter == 0 && c.inFlight == map[] && c.promises == [] && encoded.Ok? && c.socket.Some?
    ensures var d := Enter(c, apiKey, apiVersion, data, timeout, encoded);
            d.promises == [Pending] && d.inFlight.Keys == {1} && d.inFlight[1].promise == 0
            && d.inFlight[1].socket == c.socket.value && d.live == c.live
  {
  }

  // ----------------------------------------------------------------- id reuse

  /** A send that takes an id and fails: the key does not fit its field. */
  const BAD_SEND: Event := SendCall(0x8000, 0, [], None)

  lemma BadSendTakesId(cfg: Config, c: Conn) returns (d: Conn)
    requires IsConnected(c)
    ensures d == Step(cfg, c, BAD_SEND)
    ensures IsConnected(d) && d.inFlight == c.inFlight && c.promises <= d.promises
    ensures d.generated == c.generated + 1 && (c.counter == IdOf(c.generated) ==> d.counter == IdOf(d.generated))
  {
    d := Step(cfg, c, BAD_SEND);
    H.HeaderEncodesIff(H.RequestHeader(0x8000, 0, NextId(c), cfg.clientId));
    Pow256Values();
    assert d == SendFails(TakeId(c), RangeError);
  }

  lemma {:induction false} BadSends(cfg: Config, c: Conn, n: nat) returns (d: Conn)
    requires IsConnected(c) && c.counter == IdOf(c.generated)
    ensures d == Run(cfg, c, seq(n, _ => BAD_SEND))
    ensures IsConnected(d) && d.inFlight == c.inFlight && c.promises <= d.promises
    ensures d.generated == c.generated + n && d.counter == IdOf(d.generated)
    decreases n
  {
    if n == 0 {
      d := c;
    } else {
      var next := BadSendTakesId(cfg, c);
      d := BadSends(cfg, next, n - 1);
      assert seq(n, _ => BAD_SEND)[1..] == seq(n - 1, _ => BAD_SEND);
    }
  }

  lemma SameIdAgain(c: Conn, d: Conn)
    requires c.counter == IdOf(c.generated) && d.counter == IdOf(d.generated) && d.generated == c.generated + ID_COUNT
    ensures NextId(d) == NextId(c)
  {
  }

  /** One request left outstanding while 2147483646 further ids are taken: its id is the
      next one again, and the send that takes it loses the request's promise - it waits
      and is in no table. */
  lemma ReusedIdLosesARequest(cfg: Config, c: Conn, apiKey: int, apiVersion: int, data: bytes, timeout: Option<int>)
    requires Ledger(c) && IsConnected(c) && RequestBytes(cfg, NextId(c), apiKey, apiVersion, data).Ok?
    ensures var send := SendCall(apiKey, apiVersion, data, timeout);
            var d := Run(cfg, Step(cfg, c, send), seq(ID_COUNT - 1, _ => BAD_SEND));
            var e := Step(cfg, d, send);
            var p := |c.promises|;
            NextId(d) == NextId(c) && NextId(d) in d.inFlight && d.inFlight[NextId(d)].promise == p
            && p < |e.promises| && e.promises[p].Pending? && !InTable(e.inFlight, p)
  {
    var first := GoodSend(cfg, c, apiKey, apiVersion, data, timeout);
    var d := BadSends(cfg, first, ID_COUNT - 1);
    SameIdAgain(c, d);
    var e := GoodSend(cfg, d, apiKey, apiVersion, data, timeout);
    OnlyAtItsId(c, first, e);
  }

  lemma GoodSend(cfg: Config, c: Conn, apiKey: int, apiVersion: int, data: bytes, timeout: Option<int>)
    returns (d: Conn)
    requires IsConnected(c) && c.counter == IdOf(c.generated)
    requires RequestBytes(cfg, NextId(c), apiKey, apiVersion, data).Ok?
    ensures d == Step(cfg, c, SendCall(apiKey, apiVersion, data, timeout))
    ensures IsConnected(d) && d.generated == c.generated + 1 && d.counter == IdOf(d.generated)
    ensures d.promises == c.promises + [Pending]
    ensures NextId(c) in d.inFlight && d.inFlight[NextId(c)].promise == |c.promises|
    ensures d.inFlight == c.inFlight[NextId(c) := d.inFlight[NextId(c)]]
  {
    d := Step(cfg, c, SendCall(apiKey, apiVersion, data, timeout));
    EnterOverwrites(c, apiKey, apiVersion, data, EffectiveTimeout(cfg, timeout),
                    RequestBytes(cfg, NextId(c), apiKey, apiVersion, data));
  }

  lemma EnterOverwrites(c: Conn, apiKey: int, apiVersion: int, data: bytes, timeout: int, encoded: Result<bytes>)
    requires encoded.Ok? && IsConnected(c) && c.counter == IdOf(c.generated)
    ensures var d := Enter(c, apiKey, apiVersion, data, timeout, encoded);
            IsConnected(d) && d.generated == c.generated + 1 && d.counter == IdOf(d.generated) == NextId(c)
            && d.promises == c.promises + [Pending] && NextId(c) in d.inFlight
            && d.inFlight == c.inFlight[NextId(c) := d.inFlight[NextId(c)]]
            && d.inFlight[NextId(c)].promise == |c.promises|
  {
  }

  lemma OnlyAtItsId(c: Conn, first: Conn, e: Conn)
    requires Ledger(c) && NextId(c) in first.inFlight && NextId(c) in e.inFlight
    requires first.inFlight == c.inFlight[NextId(c) := first.inFlight[NextId(c)]]
    requires e.inFlight == first.inFlight[NextId(c) := e.inFlight[NextId(c)]]
    requires e.inFlight[NextId(c)].promise > |c.promises|
    ensures !InTable(e.inFlight, |c.promises|)
  {
    forall id | id in e.inFlight ensures e.inFlight[id].promise != |c.promises| {
      if id != NextId(c) {
        assert Owned(c, id);
      }
    }
  }
}

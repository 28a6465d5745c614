/** Sending with retries: what the client does when a node cannot be reached, against any
    behaviour of the network. */
module Retries {
  import opened Results
  import opened Bytes

  /** What the client's tables say at one moment: which nodes have an established
      connection, and who leads a partition. */
  datatype World = World(connected: int -> bool, leader: (bytes, int) -> Result<int>)

  /** Any network and any other activity of the client, as seen from one call. The call is
      suspended at each await and the tables may be different afterwards; awaits are
      counted, and each has an answer. */
  datatype Network = Network(world: nat -> World, refresh: nat -> Result<()>, reply: nat -> Result<bytes>)

  datatype Action = Refreshed(topic: Option<bytes>) | Sent(node: int, reply: Result<bytes>)

  /** How a call ends: its result, the awaits up to then, and what it did. */
  datatype Ending = Ending(result: Result<bytes>, awaits: nat, trace: seq<Action>)

  /** The failures that are DisconnectedErrors. */
  predicate IsDisconnected(e: Failure) {
    e == NotConnected || e == ConnectionClosed || e == BrokerClosed || e == NoConnection
  }

  /** A call continues after it did something. */
  function After(trace: seq<Action>, rest: Ending): Ending {
    Ending(rest.result, rest.awaits, trace + rest.trace)
  }

  /** Nothing is awaited between the second look at the tables and the call of itself, so
      that call finds the node connected. */
  function SendRequest(auto: bool, net: Network, t: nat, node: int): Ending
    decreases if net.world(t).connected(node) then 0 else 1
  {
    if !net.world(t).connected(node) then
      if auto then
        match net.refresh(t)
        case Err(e) => Ending(Err(e), t + 1, [Refreshed(None)])
        case Ok(_) =>
          if !net.world(t + 1).connected(node) then Ending(Err(NoConnection), t + 1, [Refreshed(None)])
          else After([Refreshed(None)], SendRequest(auto, net, t + 1, node))
      else Ending(Err(NoConnection), t, [])
    else
      var sent := Sent(node, net.reply(t));
      match net.reply(t)
      case Ok(_) => Ending(net.reply(t), t + 1, [sent])
      case Err(e) =>
        if IsDisconnected(e) && auto then After([sent], SendAgain(net, t + 1, node, e))
        else Ending(Err(e), t + 1, [sent])
  }

  /** The one retry after a connection error. */
  function SendAgain(net: Network, t: nat, node: int, why: Failure): Ending {
    match net.refresh(t)
    case Err(e) => Ending(Err(e), t + 1, [Refreshed(None)])
    case Ok(_) =>
      if !net.world(t + 1).connected(node) then Ending(Err(why), t + 1, [Refreshed(None)])
      else Ending(net.reply(t + 1), t + 2, [Refreshed(None), Sent(node, net.reply(t + 1))])
  }

  /** Looks the leader up and sends: the body of the try block, and of the second try. */
  function TryLeader(auto: bool, net: Network, t: nat, topic: bytes, partition: int): Ending {
    match net.world(t).leader(topic, partition)
    case Err(e) => Ending(Err(e), t, [])
    case Ok(leader) => SendRequest(auto, net, t, leader)
  }

  /** The catch block after a first try that failed: a refresh of the topic and, if that
      succeeds, the second try. */
  function CatchAndTry(first: Ending, refresh: Result<()>, topic: bytes, second: Ending): Ending {
    match refresh
    case Err(e) => Ending(Err(e), first.awaits + 1, first.trace + [Refreshed(Some(topic))])
    case Ok(_) => After(first.trace + [Refreshed(Some(topic))], second)
  }

  function SendToPartitionLeader(auto: bool, net: Network, t: nat, topic: bytes, partition: int): Ending {
    var first := TryLeader(auto, net, t, topic, partition);
    if first.result.Ok? || !auto then first
    else CatchAndTry(first, net.refresh(first.awaits), topic, TryLeader(auto, net, first.awaits + 1, topic, partition))
  }

  // ------------------------------------------------------------------- bounds

  function Sends(trace: seq<Action>): nat {
    if trace == [] then 0 else (if trace[0].Sent? then 1 else 0) + Sends(trace[1..])
  }

  function Refreshes(trace: seq<Action>): nat {
    if trace == [] then 0 else (if trace[0].Refreshed? then 1 else 0) + Refreshes(trace[1..])
  }

  lemma {:induction false} CountsAdd(a: seq<Action>, b: seq<Action>)
    ensures Sends(a + b) == Sends(a) + Sends(b) && Refreshes(a + b) == Refreshes(a) + Refreshes(b)
  {
    if a == [] {
      assert a + b == b;
    } else {
      assert (a + b)[1..] == a[1..] + b;
      CountsAdd(a[1..], b);
    }
  }

  lemma CountsOfOne(x: Action)
    ensures Sends([x]) == (if x.Sent? then 1 else 0) && Refreshes([x]) == (if x.Refreshed? then 1 else 0)
  {
  }

  /** Every action is a refresh for all topics or a send to that node. */
  ghost predicate OnlyTo(trace: seq<Action>, node: int) {
    forall i :: 0 <= i < |trace| ==> if trace[i].Sent? then trace[i].node == node else trace[i] == Refreshed(None)
  }

  /** A buffer is returned only by a send that is the last action, the result of a last
      send is returned, and every earlier send failed. */
  ghost predicate FromLastSend(end: Ending) {
    && (forall i :: 0 <= i < |end.trace| - 1 && end.trace[i].Sent? ==> end.trace[i].reply.Err?)
    && (end.result.Ok? ==> end.trace != [] && end.trace[|end.trace| - 1].Sent?)
    && (end.trace != [] && end.trace[|end.trace| - 1].Sent? ==> end.result == end.trace[|end.trace| - 1].reply)
  }

  /** A send is followed by more only if it failed with a DisconnectedError. */
  ghost predicate RetriesDisconnects(trace: seq<Action>) {
    forall i :: 0 <= i < |trace| - 1 && trace[i].Sent? ==> trace[i].reply.Err? && IsDisconnected(trace[i].reply.error)
  }

  lemma AgainBounds(net: Network, t: nat, node: int, why: Failure)
    ensures var end := SendAgain(net, t, node, why);
            Sends(end.trace) <= 1 && Refreshes(end.trace) == 1
            && OnlyTo(end.trace, node) && FromLastSend(end) && RetriesDisconnects(end.trace)
  {
    var again := Sent(node, net.reply(t + 1));
    CountsOfOne(Refreshed(None));
    CountsOfOne(again);
    CountsAdd([Refreshed(None)], [again]);
    assert [Refreshed(None)] + [again] == [Refreshed(None), again];
  }

  lemma ConnectedBounds(auto: bool, net: Network, t: nat, node: int)
    requires net.world(t).connected(node)
    ensures var end := SendRequest(auto, net, t, node);
            1 <= Sends(end.trace) <= 2 && Refreshes(end.trace) <= (if auto then 1 else 0)
            && (!auto ==> Sends(end.trace) == 1)
            && OnlyTo(end.trace, node) && FromLastSend(end) && RetriesDisconnects(end.trace)
  {
    var sent := Sent(node, net.reply(t));
    CountsOfOne(sent);
    if net.reply(t).Err? && IsDisconnected(net.reply(t).error) && auto {
      var rest := SendAgain(net, t + 1, node, net.reply(t).error);
      AgainBounds(net, t + 1, node, net.reply(t).error);
      CountsAdd([sent], rest.trace);
    }
  }

  /** Against any network, a request is sent at most twice, to its own node, with at most
      two refreshes; a buffer that is returned is that of the last send, and no send is
      repeated unless it failed with a DisconnectedError. Without automatic refresh there
      is at most one send and nothing else. */
  lemma SendRequestBounds(auto: bool, net: Network, t: nat, node: int)
    ensures var end := SendRequest(auto, net, t, node);
            Sends(end.trace) <= 2 && Refreshes(end.trace) <= (if auto then 2 else 0)
            && (!auto ==> Sends(end.trace) <= 1)
            && OnlyTo(end.trace, node) && FromLastSend(end) && RetriesDisconnects(end.trace)
  {
    CountsOfOne(Refreshed(None));
    if net.world(t).connected(node) {
      ConnectedBounds(auto, net, t, node);
    } else if auto && net.refresh(t).Ok? && net.world(t + 1).connected(node) {
      ConnectedBounds(auto, net, t + 1, node);
      CountsAdd([Refreshed(None)], SendRequest(auto, net, t + 1, node).trace);
    }
  }

  lemma TryLeaderBounds(auto: bool, net: Network, t: nat, topic: bytes, partition: int)
    ensures var end := TryLeader(auto, net, t, topic, partition);
            Sends(end.trace) <= 2 && Refreshes(end.trace) <= (if auto then 2 else 0)
            && (!auto ==> Sends(end.trace) <= 1) && FromLastSend(end)
  {
    var leader := net.world(t).leader(topic, partition);
    if leader.Ok? {
      SendRequestBounds(auto, net, t, leader.value);
    }
  }

  lemma CatchBounds(first: Ending, refresh: Result<()>, topic: bytes, second: Ending)
    requires FromLastSend(first) && first.result.Err? && FromLastSend(second)
    ensures var end := CatchAndTry(first, refresh, topic, second);
            FromLastSend(end)
            && Sends(end.trace) == Sends(first.trace) + (if refresh.Ok? then Sends(second.trace) else 0)
            && Refreshes(end.trace) == Refreshes(first.trace) + 1 + (if refresh.Ok? then Refreshes(second.trace) else 0)
  {
    var refreshed := Refreshed(Some(topic));
    CountsOfOne(refreshed);
    CountsAdd(first.trace, [refreshed]);
    CountsAdd(first.trace + [refreshed], second.trace);
  }

  /** Against any network, a request to a partition leader is sent at most four times with
      at most five refreshes, and a buffer that is returned is that of the last send. */
  lemma LeaderBounds(auto: bool, net: Network, t: nat, topic: bytes, partition: int)
    ensures var end := SendToPartitionLeader(auto, net, t, topic, partition);
            Sends(end.trace) <= (if auto then 4 else 1) && Refreshes(end.trace) <= (if auto then 5 else 0)
            && FromLastSend(end)
  {
    var first := TryLeader(auto, net, t, topic, partition);
    TryLeaderBounds(auto, net, t, topic, partition);
    if first.result.Err? && auto {
      TryLeaderBounds(auto, net, first.awaits + 1, topic, partition);
      CatchBounds(first, net.refresh(first.awaits), topic, TryLeader(auto, net, first.awaits + 1, topic, partition));
    }
  }

  /** When a send on a connected node is repeated: after one of the four disconnects, with
      automatic refresh, if that succeeds and finds the node connected; and what is returned
      in each case. */
  lemma SendRetriesIff(auto: bool, net: Network, t: nat, node: int)
    requires net.world(t).connected(node)
    ensures var end := SendRequest(auto, net, t, node);
            var retries := auto && net.reply(t).Err?
                           && net.reply(t).error in {NotConnected, ConnectionClosed, BrokerClosed, NoConnection};
            var again := retries && net.refresh(t + 1).Ok? && net.world(t + 2).connected(node);
            && end.trace == [Sent(node, net.reply(t))] + (if retries then [Refreshed(None)] else [])
                            + (if again then [Sent(node, net.reply(t + 2))] else [])
            && end.result == (if again then net.reply(t + 2)
                              else if retries && net.refresh(t + 1).Err? then Err(net.refresh(t + 1).error)
                              else net.reply(t))
            && end.awaits == t + (if again then 3 else if retries then 2 else 1)
  {
  }

  /** A node that is not connected is asked exactly if a refresh comes first and connects it;
      then everything goes on from there. */
  lemma SendWaitsForConnection(auto: bool, net: Network, t: nat, node: int)
    requires !net.world(t).connected(node)
    ensures var end := SendRequest(auto, net, t, node);
            if !auto then end == Ending(Err(NoConnection), t, [])
            else if net.refresh(t).Err? then end == Ending(Err(net.refresh(t).error), t + 1, [Refreshed(None)])
            else if !net.world(t + 1).connected(node) then end == Ending(Err(NoConnection), t + 1, [Refreshed(None)])
            else var rest := SendRequest(auto, net, t + 1, node);
                 end.trace == [Refreshed(None)] + rest.trace && end.result == rest.result && end.awaits == rest.awaits
  {
  }

  /** The second try of a request to a leader happens exactly if the first one failed - for
      whatever reason, an unknown topic or a missing leader included - with automatic
      refresh, and the refresh of the topic succeeds. */
  lemma SecondTryIff(auto: bool, net: Network, t: nat, topic: bytes, partition: int)
    ensures var first, end := TryLeader(auto, net, t, topic, partition),
                              SendToPartitionLeader(auto, net, t, topic, partition);
            var second := TryLeader(auto, net, first.awaits + 1, topic, partition);
            && (net.world(t).leader(topic, partition).Err? ==>
                  first == Ending(Err(net.world(t).leader(topic, partition).error), t, []))
            && (if first.result.Ok? || !auto then end == first
                else if net.refresh(first.awaits).Err? then
                  end.trace == first.trace + [Refreshed(Some(topic))]
                  && end.result == Err(net.refresh(first.awaits).error)
                else
                  end.trace == first.trace + [Refreshed(Some(topic))] + second.trace
                  && end.result == second.result && end.awaits == second.awaits)
  {
  }

  /** Every action is a refresh for all topics or a send to the leader; without one there
      is none. */
  ghost predicate ToLeader(trace: seq<Action>, leader: Result<int>) {
    match leader
    case Err(_) => trace == []
    case Ok(node) => OnlyTo(trace, node)
  }

  lemma TryTargets(auto: bool, net: Network, t: nat, topic: bytes, partition: int)
    ensures ToLeader(TryLeader(auto, net, t, topic, partition).trace, net.world(t).leader(topic, partition))
  {
    var leader := net.world(t).leader(topic, partition);
    if leader.Ok? {
      SendRequestBounds(auto, net, t, leader.value);
    }
  }

  /** The sends of the first try go to the leader named when the call was made; after them
      comes the refresh of the topic, and all further sends go to the leader named then. */
  lemma LeaderTargets(auto: bool, net: Network, t: nat, topic: bytes, partition: int)
    ensures var first, trace := TryLeader(auto, net, t, topic, partition),
                                SendToPartitionLeader(auto, net, t, topic, partition).trace;
            var n := |first.trace|;
            |trace| >= n && ToLeader(trace[..n], net.world(t).leader(topic, partition))
            && (|trace| > n ==> auto && first.result.Err? && trace[n] == Refreshed(Some(topic)))
            && (|trace| > n + 1 ==>
                  net.refresh(first.awaits).Ok?
                  && ToLeader(trace[n + 1..], net.world(first.awaits + 1).leader(topic, partition)))
  {
    var first := TryLeader(auto, net, t, topic, partition);
    var second := TryLeader(auto, net, first.awaits + 1, topic, partition);
    TryTargets(auto, net, t, topic, partition);
    TryTargets(auto, net, first.awaits + 1, topic, partition);
    var trace := SendToPartitionLeader(auto, net, t, topic, partition).trace;
    var n := |first.trace|;
    assert trace[..n] == first.trace;
    if |trace| > n + 1 {
      assert trace[n + 1..] == second.trace;
    }
  }

  // ------------------------------------------------------- the bounds are reached

  /** The node drops out after each send and comes back with each refresh; the send at
      await `last` succeeds. */
  function Flapping(last: nat): Network {
    Network(t => World(n => t == 1 || t == 3 || t == 6 || t == 8, (topic, partition) => Ok(7)),
            t => Ok(()),
            t => if t == last then Ok([]) else Err(ConnectionClosed))
  }

  lemma FlappingRequest(last: nat, t: nat)
    requires (t == 0 || t == 5) && last > t + 1
    ensures var r, failed := Refreshed(None), Sent(7, Err(ConnectionClosed));
            var reply := if last == t + 3 then Ok([]) else Err(ConnectionClosed);
            SendRequest(true, Flapping(last), t, 7) == Ending(reply, t + 4, [r, failed, r, Sent(7, reply)])
  {
  }

  lemma FlappingCounts(x: Action, y: Action, z: Action, w: Action)
    requires x.Refreshed? && y.Sent? && z.Refreshed? && w.Sent?
    ensures Sends([x, y, z, w]) == 2 && Refreshes([x, y, z, w]) == 2
  {
    CountsOfOne(x);
    CountsOfOne(y);
    CountsOfOne(z);
    CountsOfOne(w);
    CountsAdd([x], [y]);
    CountsAdd([z], [w]);
    CountsAdd([x] + [y], [z] + [w]);
    assert [x, y, z, w] == [x] + [y] + ([z] + [w]);
  }

  /** There is a network that takes a request to its bounds and lets it succeed. */
  lemma RequestBoundsAreReached()
    ensures var end := SendRequest(true, Flapping(3), 0, 7);
            end.result.Ok? && Sends(end.trace) == 2 && Refreshes(end.trace) == 2
  {
    var r, failed, done := Refreshed(None), Sent(7, Err(ConnectionClosed)), Sent(7, Ok([]));
    FlappingRequest(3, 0);
    FlappingCounts(r, failed, r, done);
  }

  lemma FlappingTry(t: nat, topic: bytes, partition: int) returns (end: Ending)
    requires t == 0 || t == 5
    ensures end == TryLeader(true, Flapping(8), t, topic, partition)
    ensures end.awaits == t + 4 && end.result == (if t == 5 then Ok([]) else Err(ConnectionClosed))
    ensures Sends(end.trace) == 2 && Refreshes(end.trace) == 2 && FromLastSend(end)
  {
    var r, failed, done := Refreshed(None), Sent(7, Err(ConnectionClosed)), Sent(7, Ok([]));
    end := TryLeader(true, Flapping(8), t, topic, partition);
    FlappingRequest(8, t);
    FlappingCounts(r, failed, r, failed);
    FlappingCounts(r, failed, r, done);
  }

  /** And one that takes a request to a partition leader to its bounds. */
  lemma LeaderBoundsAreReached(topic: bytes, partition: int)
    ensures var end := SendToPartitionLeader(true, Flapping(8), 0, topic, partition);
            end.result.Ok? && Sends(end.trace) == 4 && Refreshes(end.trace) == 5
  {
    var first := FlappingTry(0, topic, partition);
    var second := FlappingTry(5, topic, partition);
    CatchBounds(first, Ok(()), topic, second);
  }
}

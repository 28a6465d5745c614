/** The client: its table of broker connections, updated in place, and its sends. */
module NetworkClient {
  import opened Results
  import opened Bytes
  import opened MetadataResponses
  import opened Reconciliation
  import Retries

  class NetworkClient {
    const autoRefreshMetadata: bool

    var connections: Table

    // One call's view of everything else: the awaits so far, what was done, and what each
    // await finds.
    const network: Retries.Network
    var awaits: nat
    var trace: seq<Retries.Action>

    constructor (autoRefreshMetadata: bool, network: Retries.Network)
      ensures this.autoRefreshMetadata == autoRefreshMetadata && this.network == network
      ensures connections == map[] && awaits == 0 && trace == []
    {
      this.autoRefreshMetadata := autoRefreshMetadata;
      this.network := network;
      connections, awaits, trace := map[], 0, [];
    }

    // -------------------------------------------------------------- connections

    /** `answers` says which connections can be opened. */
    method UpdateBrokerConnections(brokers: seq<Broker>, answers: seq<bool>)
      requires |answers| == |brokers|
      modifies `connections
      ensures Reconciled(old(connections), brokers, answers, connections)
      ensures old(Labelled(connections)) ==> Labelled(connections)
    {
      var currentNodeIds := OpenMissing(brokers, answers);
      CloseGone(brokers, answers, currentNodeIds, old(connections));
    }

    method OpenMissing(brokers: seq<Broker>, answers: seq<bool>) returns (currentNodeIds: set<int>)
      requires |answers| == |brokers|
      modifies `connections
      ensures currentNodeIds == NodeIds(brokers)
      ensures Grown(old(connections), brokers, answers, connections)
      ensures old(Labelled(connections)) ==> Labelled(connections)
    {
      ghost var held := connections;
      currentNodeIds := {};
      GrownAtFirst(held, brokers);
      for i := 0 to |brokers|
        invariant currentNodeIds == NodeIds(brokers[..i])
        invariant Grown(held, brokers, answers[..i], connections)
        invariant Labelled(held) ==> Labelled(connections)
      {
        TryGrows(held, brokers, answers[..i], connections, answers[i]);
        NodeIdsStep(brokers, i);
        assert answers[..i + 1] == answers[..i] + [answers[i]];
        var broker := brokers[i];
        currentNodeIds := currentNodeIds + {broker.nodeId};
        if broker.nodeId in connections {
          continue;
        }
        var connection := LinkTo(broker);
        if answers[i] {
          connections := connections[broker.nodeId := connection];
        }
      }
      assert answers[..|brokers|] == answers && brokers[..|brokers|] == brokers;
    }

    method CloseGone(brokers: seq<Broker>, answers: seq<bool>, currentNodeIds: set<int>, ghost held: Table)
      requires currentNodeIds == NodeIds(brokers) && Grown(held, brokers, answers, connections)
      modifies `connections
      ensures Reconciled(held, brokers, answers, connections)
      ensures old(Labelled(connections)) ==> Labelled(connections)
    {
      ghost var was := connections;
      GrownShrinks(held, brokers, answers, connections);
      var remaining := connections.Keys;
      while remaining != {}
        invariant Shrinking(held, brokers, answers, connections)
        invariant connections.Keys - currentNodeIds <= remaining
        invariant Labelled(was) ==> Labelled(connections)
      {
        Inhabited(remaining);
        var nodeId :| nodeId in remaining;
        if nodeId !in currentNodeIds {
          CloseShrinks(held, brokers, answers, connections, nodeId);
          connections := connections - {nodeId};
        }
        remaining := remaining - {nodeId};
      }
      ShrunkIsReconciled(held, brokers, answers, connections);
    }

    // -------------------------------------------------------------------- sends

    method RefreshMetadata(topic: Option<bytes>) returns (r: Result<()>)
      modifies `awaits, `trace
      ensures r == network.refresh(old(awaits)) && awaits == old(awaits) + 1
      ensures trace == old(trace) + [Retries.Refreshed(topic)]
    {
      r := network.refresh(awaits);
      trace := trace + [Retries.Refreshed(topic)];
      awaits := awaits + 1;
    }

    method SendOn(nodeId: int) returns (r: Result<bytes>)
      modifies `awaits, `trace
      ensures r == network.reply(old(awaits)) && awaits == old(awaits) + 1
      ensures trace == old(trace) + [Retries.Sent(nodeId, r)]
    {
      r := network.reply(awaits);
      trace := trace + [Retries.Sent(nodeId, r)];
      awaits := awaits + 1;
    }

    /** The call ended as the specification says, starting at await `t` after `before`. */
    ghost predicate EndedAs(end: Retries.Ending, before: seq<Retries.Action>, result: Result<bytes>)
      reads this
    {
      result == end.result && awaits == end.awaits && trace == before + end.trace
    }

    method SendRequest(nodeId: int) returns (result: Result<bytes>)
      modifies `awaits, `trace
      ensures EndedAs(Retries.SendRequest(autoRefreshMetadata, network, old(awaits), nodeId), old(trace), result)
      decreases if network.world(awaits).connected(nodeId) then 0 else 1
    {
      if !network.world(awaits).connected(nodeId) {
        if !autoRefreshMetadata {
          return Err(NoConnection);
        }
        var refreshed := RefreshMetadata(None);
        if refreshed.Err? {
          return Err(refreshed.error);
        }
        if !network.world(awaits).connected(nodeId) {
          return Err(NoConnection);
        }
        result := SendRequest(nodeId);
        return;
      }
      result := SendOn(nodeId);
      if result.Err? && Retries.IsDisconnected(result.error) && autoRefreshMetadata {
        result := SendAgain(nodeId, result.error);
      }
    }

    /** The catch block: refresh, look again, send once more. */
    method SendAgain(nodeId: int, error: Failure) returns (result: Result<bytes>)
      modifies `awaits, `trace
      ensures EndedAs(Retries.SendAgain(network, old(awaits), nodeId, error), old(trace), result)
    {
      var refreshed := RefreshMetadata(None);
      if refreshed.Err? {
        return Err(refreshed.error);
      }
      if !network.world(awaits).connected(nodeId) {
        return Err(error);
      }
      result := SendOn(nodeId);
    }

    method TryLeader(topic: bytes, partition: int) returns (result: Result<bytes>)
      modifies `awaits, `trace
      ensures EndedAs(Retries.TryLeader(autoRefreshMetadata, network, old(awaits), topic, partition),
                      old(trace), result)
    {
      var leaderId := network.world(awaits).leader(topic, partition);
      if leaderId.Err? {
        return Err(leaderId.error);
      }
      result := SendRequest(leaderId.value);
    }

    method SendToPartitionLeader(topic: bytes, partition: int) returns (result: Result<bytes>)
      modifies `awaits, `trace
      ensures EndedAs(Retries.SendToPartitionLeader(autoRefreshMetadata, network, old(awaits), topic, partition),
                      old(trace), result)
    {
      result := TryLeader(topic, partition);
      if result.Err? && autoRefreshMetadata {
        var refreshed := RefreshMetadata(Some(topic));
        if refreshed.Err? {
          return Err(refreshed.error);
        }
        result := TryLeader(topic, partition);
      }
    }
  }

  lemma NodeIdsStep(brokers: seq<Broker>, i: nat)
    requires i < |brokers|
    ensures NodeIds(brokers[..i + 1]) == NodeIds(brokers[..i]) + {brokers[i].nodeId}
  {
  }
}

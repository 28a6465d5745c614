/** What a metadata refresh makes of the table of broker connections. */
module Reconciliation {
  import opened Results
  import opened Bytes
  import opened MetadataResponses

  /** A connection in the table, with the node id set on it. */
  datatype Link = Link(nodeId: int, host: bytes, port: int)

  type Table = map<int, Link>

  function LinkTo(b: Broker): Link {
    Link(b.nodeId, b.host, b.port)
  }

  function NodeIds(brokers: seq<Broker>): set<int> {
    set i | 0 <= i < |brokers| :: brokers[i].nodeId
  }

  /** Entry `i` is the first one for node `n` whose connection could be opened. */
  ghost predicate FirstReached(brokers: seq<Broker>, reached: seq<bool>, n: int, i: int) {
    && 0 <= i < |reached| && i < |brokers| && reached[i] && brokers[i].nodeId == n
    && forall j :: 0 <= j < i ==> !(reached[j] && brokers[j].nodeId == n)
  }

  ghost predicate Reached(brokers: seq<Broker>, reached: seq<bool>, n: int) {
    exists i :: FirstReached(brokers, reached, n, i)
  }

  /** Node `n` has in the table what the entries tried so far make of it: the connection
      held before, or else one to its first entry that could be opened. */
  ghost predicate Settled(held: Table, brokers: seq<Broker>, reached: seq<bool>, table: Table, n: int) {
    && (n in table <==> n in held || Reached(brokers, reached, n))
    && (n in held ==> n in table && table[n] == held[n])
    && (n !in held ==>
          forall i :: FirstReached(brokers, reached, n, i) ==> n in table && table[n] == LinkTo(brokers[i]))
  }

  /** After the entries in `reached`, before any connection is closed. */
  ghost predicate Grown(held: Table, brokers: seq<Broker>, reached: seq<bool>, table: Table) {
    forall n :: Settled(held, brokers, reached, table, n)
  }

  /** While the connections to nodes that are gone are being closed. */
  ghost predicate Shrinking(held: Table, brokers: seq<Broker>, reached: seq<bool>, table: Table) {
    && (forall n :: n in NodeIds(brokers) ==> Settled(held, brokers, reached, table, n))
    && (forall n :: n in table && n !in NodeIds(brokers) ==> n in held && table[n] == held[n])
  }

  /** The table a completed refresh leaves: nodes of the response only; every connection
      held to one of them is the same as before; and a node that had none has one to its
      first entry that could be opened, if there is such an entry. */
  ghost predicate Reconciled(held: Table, brokers: seq<Broker>, reached: seq<bool>, table: Table) {
    && table.Keys <= NodeIds(brokers)
    && forall n :: n in NodeIds(brokers) ==> Settled(held, brokers, reached, table, n)
  }

  /** Every connection is kept under its own node id. */
  ghost predicate Labelled(table: Table) {
    forall n :: n in table ==> table[n].nodeId == n
  }

  lemma ReachedIsListed(brokers: seq<Broker>, reached: seq<bool>, n: int)
    requires Reached(brokers, reached, n)
    ensures n in NodeIds(brokers)
  {
  }

  lemma GrownAtFirst(held: Table, brokers: seq<Broker>)
    ensures Grown(held, brokers, [], held)
  {
  }

  lemma FirstReachedMore(brokers: seq<Broker>, reached: seq<bool>, ok: bool, n: int, i: int)
    requires |reached| < |brokers|
    ensures FirstReached(brokers, reached + [ok], n, i) <==>
            FirstReached(brokers, reached, n, i)
            || (i == |reached| && ok && brokers[i].nodeId == n && !Reached(brokers, reached, n))
  {
    var more := reached + [ok];
    assert forall j :: 0 <= j < |reached| ==> more[j] == reached[j];
    if i == |reached| && ok && brokers[i].nodeId == n && !Reached(brokers, reached, n) {
      forall j | 0 <= j < i ensures !(more[j] && brokers[j].nodeId == n) {
        NotReachedBefore(brokers, reached, n, j);
      }
    }
  }

  lemma NotReachedBefore(brokers: seq<Broker>, reached: seq<bool>, n: int, j: nat)
    requires |reached| < |brokers| && !Reached(brokers, reached, n) && j < |reached|
    ensures !(reached[j] && brokers[j].nodeId == n)
  {
    if reached[j] && brokers[j].nodeId == n {
      var i := FirstBefore(brokers, reached, n, j);
    }
  }

  lemma {:induction false} FirstBefore(brokers: seq<Broker>, reached: seq<bool>, n: int, j: nat) returns (i: int)
    requires |reached| < |brokers| && j < |reached| && reached[j] && brokers[j].nodeId == n
    ensures FirstReached(brokers, reached, n, i)
    decreases j
  {
    if k :| 0 <= k < j && reached[k] && brokers[k].nodeId == n {
      i := FirstBefore(brokers, reached, n, k);
    } else {
      i := j;
    }
  }

  lemma ReachedMore(brokers: seq<Broker>, reached: seq<bool>, ok: bool, n: int)
    requires |reached| < |brokers|
    ensures Reached(brokers, reached + [ok], n) <==>
            Reached(brokers, reached, n) || (ok && brokers[|reached|].nodeId == n)
  {
    forall i ensures FirstReached(brokers, reached + [ok], n, i) <==>
                     FirstReached(brokers, reached, n, i)
                     || (i == |reached| && ok && brokers[i].nodeId == n && !Reached(brokers, reached, n))
    {
      FirstReachedMore(brokers, reached, ok, n, i);
    }
    if !Reached(brokers, reached, n) && ok && brokers[|reached|].nodeId == n {
      assert FirstReached(brokers, reached + [ok], n, |reached|);
    }
    if Reached(brokers, reached, n) {
      var i :| FirstReached(brokers, reached, n, i);
      assert FirstReached(brokers, reached + [ok], n, i);
    }
  }

  /** One entry of the response: skipped if its node is in the table, otherwise reached or
      not. */
  function Try(table: Table, b: Broker, ok: bool): Table {
    if b.nodeId in table || !ok then table else table[b.nodeId := LinkTo(b)]
  }

  lemma TrySettles(held: Table, brokers: seq<Broker>, reached: seq<bool>, table: Table, ok: bool, n: int)
    requires |reached| < |brokers| && Settled(held, brokers, reached, table, n)
    requires Settled(held, brokers, reached, table, brokers[|reached|].nodeId)
    ensures Settled(held, brokers, reached + [ok], Try(table, brokers[|reached|], ok), n)
  {
    ReachedMore(brokers, reached, ok, n);
    forall i ensures FirstReached(brokers, reached + [ok], n, i) <==>
                     FirstReached(brokers, reached, n, i)
                     || (i == |reached| && ok && brokers[i].nodeId == n && !Reached(brokers, reached, n))
    {
      FirstReachedMore(brokers, reached, ok, n, i);
    }
  }

  lemma TryGrows(held: Table, brokers: seq<Broker>, reached: seq<bool>, table: Table, ok: bool)
    requires |reached| < |brokers| && Grown(held, brokers, reached, table)
    ensures Grown(held, brokers, reached + [ok], Try(table, brokers[|reached|], ok))
    ensures Labelled(table) ==> Labelled(Try(table, brokers[|reached|], ok))
  {
    forall n ensures Settled(held, brokers, reached + [ok], Try(table, brokers[|reached|], ok), n) {
      TrySettles(held, brokers, reached, table, ok, n);
    }
  }

  lemma GrownShrinks(held: Table, brokers: seq<Broker>, reached: seq<bool>, table: Table)
    requires Grown(held, brokers, reached, table)
    ensures Shrinking(held, brokers, reached, table)
  {
    forall n | n in table && n !in NodeIds(brokers) ensures n in held && table[n] == held[n] {
      assert Settled(held, brokers, reached, table, n);
      if Reached(brokers, reached, n) {
        ReachedIsListed(brokers, reached, n);
      }
    }
  }

  lemma CloseShrinks(held: Table, brokers: seq<Broker>, reached: seq<bool>, table: Table, gone: int)
    requires Shrinking(held, brokers, reached, table) && gone !in NodeIds(brokers)
    ensures Shrinking(held, brokers, reached, table - {gone})
    ensures Labelled(table) ==> Labelled(table - {gone})
  {
  }

  lemma ShrunkIsReconciled(held: Table, brokers: seq<Broker>, reached: seq<bool>, table: Table)
    requires Shrinking(held, brokers, reached, table) && table.Keys - NodeIds(brokers) == {}
    ensures Reconciled(held, brokers, reached, table)
  {
    forall n | n in table ensures n in NodeIds(brokers) {
      assert n !in table.Keys - NodeIds(brokers);
    }
  }

  /** A new connection has node id, host and port of the first entry of its node that could
      be opened; one held before is the same. */
  lemma ReconciledLinks(held: Table, brokers: seq<Broker>, reached: seq<bool>, table: Table, n: int, i: int)
    requires Reconciled(held, brokers, reached, table) && FirstReached(brokers, reached, n, i)
    ensures n in table
    ensures if n in held then table[n] == held[n]
            else table[n].nodeId == n && table[n].host == brokers[i].host && table[n].port == brokers[i].port
  {
    ReachedIsListed(brokers, reached, n);
    assert Settled(held, brokers, reached, table, n);
  }

  /** What was held, the response, and which connections could be opened determine the
      table. */
  lemma ReconciledIsUnique(held: Table, brokers: seq<Broker>, reached: seq<bool>, a: Table, b: Table)
    requires Reconciled(held, brokers, reached, a) && Reconciled(held, brokers, reached, b)
    ensures a == b
  {
  }
}

/** What a call to refresh starts, how its body moves on, and whole refreshes: from the call
    to the table that lists exactly the nodes of the response. */
module RefreshRuns {
  import opened Results
  import opened Bytes
  import opened MetadataResponses
  import opened Reconciliation
  import opened MetadataRefresh

  // ----------------------------------------------------------------- one step

  /** What a call starts while no refresh runs: a body that awaits the response if there is
      a broker to ask and the request can be encoded, one that awaits a seed broker's
      connect if there is only that, and else nothing. */
  lemma CallStarts(c: Client, specific: bool, encodable: bool)
    requires Invariant(c) && !c.refreshing
    ensures var d := Step(c, Call(specific, encodable));
            && d.connections == c.connections && d.seeds == c.seeds && d.last == c.last && d.calls == c.calls + 1
            && d.bodies == (if specific || c.connections != map[] then
                              if encodable then map[c.calls := Awaiting] else map[]
                            else if c.seeds > 0 then map[c.calls := Connecting(encodable)] else map[])
            && (d.refreshing <==> (encodable && (specific || c.connections != map[]))
                                  || (!specific && c.connections == map[] && c.seeds > 0))
  {
  }

  /** A seed broker that connects leads to the request, if that can be encoded. */
  lemma SeedConnects(c: Client, b: nat, brokers: seq<Broker>, pick: int)
    requires Invariant(c) && b in c.bodies && c.bodies[b].Connecting?
    ensures Step(c, Resume(b, Fulfilled(brokers), pick))
         == if c.bodies[b].encodable then c.(bodies := map[b := Awaiting])
            else c.(refreshing := false, bodies := map[])
  {
    assert c.bodies.Keys == {b};
  }

  lemma {:induction false} OpenNextKeepsTable(c: Client, b: nat, held: Table, brokers: seq<Broker>, reached: seq<bool>,
                                              pick: int)
    ensures OpenNext(c, b, held, brokers, reached, pick).connections == c.connections
    decreases |brokers| - |reached|
  {
    if |reached| < |brokers| && brokers[|reached|].nodeId in c.connections {
      OpenNextKeepsTable(c, b, held, brokers, reached + [false], pick);
    }
  }

  /** A rejection ends the body at once and leaves the table, except that of a connect to a
      listed broker, which leaves the table and goes on. */
  lemma RejectionEnds(c: Client, b: nat, pick: int)
    requires Invariant(c) && b in c.bodies
    ensures var d := Step(c, Resume(b, Rejected, pick));
            d.connections == c.connections
            && if c.bodies[b].Opening? then
                 d == OpenNext(c, b, c.bodies[b].held, c.bodies[b].brokers, c.bodies[b].reached + [false], pick)
               else d == c.(refreshing := false, bodies := map[])
  {
    assert c.bodies.Keys == {b};
    assert StageFits(c, c.bodies[b]);
    if c.bodies[b].Opening? {
      OpenNextKeepsTable(c, b, c.bodies[b].held, c.bodies[b].brokers, c.bodies[b].reached + [false], pick);
    }
  }

  // --------------------------------------------------------------- whole refreshes

  /** Every await of the body ends well, `n` times. */
  function Oks(b: nat, n: nat): seq<Event> {
    seq(n, _ => Resume(b, Fulfilled([]), 0))
  }

  lemma OneMore(c: Client, b: nat, n: nat)
    requires n > 0
    ensures Run(c, Oks(b, n)) == Run(Step(c, Resume(b, Fulfilled([]), 0)), Oks(b, n - 1))
  {
    assert Oks(b, n)[1..] == Oks(b, n - 1);
  }

  /** Ended with this table. */
  ghost predicate EndedWith(c: Client, table: Table) {
    c.bodies == map[] && !c.refreshing && c.connections == table
  }

  /** One node that is gone is closed. */
  lemma OneFewer(table: Table, ids: set<int>, one: int)
    requires one in table && one !in ids
    ensures var gone, rest := table.Keys - ids, (table - {one}).Keys - ids;
            rest == gone - {one} && |rest| == |gone| - 1 && table - {one} - rest == table - gone
  {
    var gone, rest := table.Keys - ids, (table - {one}).Keys - ids;
    assert rest == gone - {one};
    assert gone == rest + {one};
  }

  lemma NoneGone(table: Table)
    ensures table - {} == table
  {
  }

  lemma NextCloses(c: Client, b: nat, held: Table, brokers: seq<Broker>, reached: seq<bool>, n: nat)
    returns (one: int, e: Client)
    requires c.bodies.Keys <= {b} && c.connections.Keys - NodeIds(brokers) != {} && n > 0
    ensures one in c.connections && one !in NodeIds(brokers)
    ensures e.bodies.Keys <= {b} && e.connections == c.connections - {one}
    ensures Run(CloseNext(c, b, held, brokers, reached, 0), Oks(b, n))
         == Run(CloseNext(e, b, held, brokers, reached, 0), Oks(b, n - 1))
  {
    var d := CloseNext(c, b, held, brokers, reached, 0);
    one := d.bodies[b].gone;
    e := d.(connections := c.connections - {one});
    OneMore(d, b, n);
  }

  lemma NothingCloses(c: Client, b: nat, held: Table, brokers: seq<Broker>, reached: seq<bool>) returns (d: Client)
    requires c.bodies.Keys <= {b} && c.connections.Keys - NodeIds(brokers) == {}
    ensures d == Run(CloseNext(c, b, held, brokers, reached, 0), Oks(b, 0)) && EndedWith(d, c.connections)
  {
    d := CloseNext(c, b, held, brokers, reached, 0);
  }

  /** One close for each node that is not listed. */
  lemma {:induction false} ClosingRuns(c: Client, b: nat, held: Table, brokers: seq<Broker>, reached: seq<bool>,
                                       gone: set<int>, d: Client)
    requires c.bodies.Keys <= {b} && gone == c.connections.Keys - NodeIds(brokers)
    requires d == Run(CloseNext(c, b, held, brokers, reached, 0), Oks(b, |gone|))
    ensures EndedWith(d, c.connections - gone)
    decreases |gone|
  {
    if gone == {} {
      NoneGone(c.connections);
      var end := NothingCloses(c, b, held, brokers, reached);
    } else {
      var one, e := NextCloses(c, b, held, brokers, reached, |gone|);
      OneFewer(c.connections, NodeIds(brokers), one);
      ClosingRuns(e, b, held, brokers, reached, gone - {one}, d);
    }
  }

  /** The table once the entries from number `k` on have been opened. */
  function Opened(table: Table, brokers: seq<Broker>, k: nat): Table
    requires k <= |brokers|
    decreases |brokers| - k
  {
    if k == |brokers| then table else Opened(Try(table, brokers[k], true), brokers, k + 1)
  }

  /** How many connects that takes. */
  function Opens(table: Table, brokers: seq<Broker>, k: nat): nat
    requires k <= |brokers|
    decreases |brokers| - k
  {
    if k == |brokers| then 0
    else (if brokers[k].nodeId in table then 0 else 1) + Opens(Try(table, brokers[k], true), brokers, k + 1)
  }

  lemma TryStep(table: Table, brokers: seq<Broker>, k: nat) returns (next: Table)
    requires k < |brokers|
    ensures next == Try(table, brokers[k], true) && (brokers[k].nodeId in table ==> next == table)
    ensures Opened(table, brokers, k) == Opened(next, brokers, k + 1)
    ensures Opens(table, brokers, k) == Opens(next, brokers, k + 1) + if brokers[k].nodeId in table then 0 else 1
  {
    next := Try(table, brokers[k], true);
  }

  lemma NextOpens(c: Client, b: nat, held: Table, brokers: seq<Broker>, reached: seq<bool>, n: nat) returns (e: Client)
    requires c.bodies.Keys <= {b} && |reached| < |brokers| && brokers[|reached|].nodeId !in c.connections && n > 0
    ensures e.bodies.Keys <= {b} && e.connections == Try(c.connections, brokers[|reached|], true)
    ensures Run(OpenNext(c, b, held, brokers, reached, 0), Oks(b, n))
         == Run(OpenNext(e, b, held, brokers, reached + [true], 0), Oks(b, n - 1))
  {
    var d := OpenNext(c, b, held, brokers, reached, 0);
    assert d.bodies == c.bodies[b := Opening(held, brokers, reached)];
    e := d.(connections := Try(c.connections, brokers[|reached|], true));
    OneMore(d, b, n);
  }

  /** The connects lead to the closing of what the table has then. */
  lemma {:induction false} OpeningRuns(c: Client, b: nat, held: Table, brokers: seq<Broker>, reached: seq<bool>,
                                       m: nat, n: nat)
    returns (d: Client, r: seq<bool>, last: Client)
    requires c.bodies.Keys <= {b} && |reached| <= |brokers|
    requires m == Opens(c.connections, brokers, |reached|) + n
    ensures d.bodies.Keys <= {b} && d.connections == Opened(c.connections, brokers, |reached|)
    ensures last == Run(OpenNext(c, b, held, brokers, reached, 0), Oks(b, m))
    ensures last == Run(CloseNext(d, b, held, brokers, r, 0), Oks(b, n))
    decreases |brokers| - |reached|
  {
    var k := |reached|;
    if k == |brokers| {
      d, r, last := c, reached, Run(CloseNext(c, b, held, brokers, reached, 0), Oks(b, n));
    } else {
      var next := TryStep(c.connections, brokers, k);
      if brokers[k].nodeId in c.connections {
        d, r, last := OpeningRuns(c, b, held, brokers, reached + [false], m, n);
      } else {
        var e := NextOpens(c, b, held, brokers, reached, m);
        d, r, last := OpeningRuns(e, b, held, brokers, reached + [true], m - 1, n);
      }
    }
  }

  /** Entry `i` is the first one from number `k` on with its node. */
  ghost predicate FirstFrom(brokers: seq<Broker>, k: nat, i: nat) {
    k <= i < |brokers| && forall j :: k <= j < i ==> brokers[j].nodeId != brokers[i].nodeId
  }

  ghost function ListedFrom(brokers: seq<Broker>, k: nat): set<int>
    requires k <= |brokers|
    decreases |brokers| - k
  {
    if k == |brokers| then {} else {brokers[k].nodeId} + ListedFrom(brokers, k + 1)
  }

  lemma {:induction false} InListed(brokers: seq<Broker>, k: nat, n: int)
    requires k <= |brokers|
    ensures n in ListedFrom(brokers, k) <==> exists i :: k <= i < |brokers| && brokers[i].nodeId == n
    decreases |brokers| - k
  {
    if k < |brokers| {
      InListed(brokers, k + 1, n);
    }
  }

  lemma AllListed(brokers: seq<Broker>)
    ensures ListedFrom(brokers, 0) == NodeIds(brokers)
  {
    forall n ensures n in ListedFrom(brokers, 0) <==> n in NodeIds(brokers) {
      InListed(brokers, 0, n);
    }
  }

  lemma TryAdds(table: Table, b: Broker) returns (next: Table)
    ensures next == Try(table, b, true) && next.Keys == table.Keys + {b.nodeId}
  {
    next := Try(table, b, true);
  }

  lemma OneJoins(known: set<int>, more: set<int>, rest: set<int>, n: int)
    requires more == known + {n}
    ensures more + rest == known + ({n} + rest)
  {
  }

  lemma {:induction false} OpenedKeys(table: Table, brokers: seq<Broker>, k: nat)
    requires k <= |brokers|
    ensures Opened(table, brokers, k).Keys == table.Keys + ListedFrom(brokers, k)
    decreases |brokers| - k
  {
    if k < |brokers| {
      var next := TryAdds(table, brokers[k]);
      OpenedKeys(next, brokers, k + 1);
      OneJoins(table.Keys, next.Keys, ListedFrom(brokers, k + 1), brokers[k].nodeId);
    }
  }

  lemma OneMissing(known: set<int>, more: set<int>, rest: set<int>, n: int)
    requires more == known + {n}
    ensures |({n} + rest) - known| == (if n in known then 0 else 1) + |rest - more|
  {
    if n in known {
      assert ({n} + rest) - known == rest - more;
    } else {
      assert ({n} + rest) - known == (rest - more) + {n};
    }
  }

  /** Each missing node takes one connect. */
  lemma {:induction false} OpensAre(table: Table, brokers: seq<Broker>, k: nat)
    requires k <= |brokers|
    ensures Opens(table, brokers, k) == |ListedFrom(brokers, k) - table.Keys|
    decreases |brokers| - k
  {
    if k < |brokers| {
      var next := TryAdds(table, brokers[k]);
      OpensAre(next, brokers, k + 1);
      OneMissing(table.Keys, next.Keys, ListedFrom(brokers, k + 1), brokers[k].nodeId);
    }
  }

  /** A connection that was there stays; a new one has the address of the first entry of its
      node. */
  lemma {:induction false} OpenedLinks(table: Table, brokers: seq<Broker>, k: nat, i: nat)
    requires k <= |brokers|
    ensures var r := Opened(table, brokers, k);
            (forall n :: n in table ==> n in r && r[n] == table[n])
            && (FirstFrom(brokers, k, i) && brokers[i].nodeId !in table ==>
                  brokers[i].nodeId in r && r[brokers[i].nodeId].nodeId == brokers[i].nodeId
                  && r[brokers[i].nodeId].host == brokers[i].host && r[brokers[i].nodeId].port == brokers[i].port)
    decreases |brokers| - k
  {
    if k < |brokers| {
      OpenedLinks(Try(table, brokers[k], true), brokers, k + 1, i);
      if FirstFrom(brokers, k, i) && i != k {
        assert FirstFrom(brokers, k + 1, i);
      }
    }
  }

  /** The table lists exactly the nodes: those held before with their connection, the others
      with the address of their first entry. */
  ghost predicate Lists(held: Table, brokers: seq<Broker>, table: Table) {
    && table.Keys == NodeIds(brokers)
    && (forall n :: n in held && n in table ==> table[n] == held[n])
    && (forall i: nat :: FirstFrom(brokers, 0, i) && brokers[i].nodeId !in held ==>
          var n := brokers[i].nodeId;
          n in table && table[n].nodeId == n && table[n].host == brokers[i].host && table[n].port == brokers[i].port)
  }

  lemma FirstIsListed(brokers: seq<Broker>, i: nat)
    requires i < |brokers|
    ensures brokers[i].nodeId in NodeIds(brokers)
  {
  }

  lemma OpenedLists(held: Table, brokers: seq<Broker>, all: Table, table: Table)
    requires all == Opened(held, brokers, 0) && all.Keys == held.Keys + NodeIds(brokers)
    requires table == all - (all.Keys - NodeIds(brokers))
    ensures Lists(held, brokers, table)
  {
    OpenedLinks(held, brokers, 0, 0);
    assert table.Keys == NodeIds(brokers);
    forall i: nat | FirstFrom(brokers, 0, i) && brokers[i].nodeId !in held
      ensures var n := brokers[i].nodeId;
              n in table && table[n].nodeId == n && table[n].host == brokers[i].host && table[n].port == brokers[i].port
    {
      OpenedLinks(held, brokers, 0, i);
      FirstIsListed(brokers, i);
    }
  }

  /** How many awaits the opening and closing take. */
  ghost function Awaits(held: Table, brokers: seq<Broker>): nat {
    |NodeIds(brokers) - held.Keys| + |held.Keys - NodeIds(brokers)|
  }

  lemma GoneAreHeld(held: Table, ids: set<int>)
    ensures held.Keys + ids - ids == held.Keys - ids
  {
  }

  lemma FinalTable(held: Table, brokers: seq<Broker>) returns (gone: set<int>, table: Table)
    ensures gone == Opened(held, brokers, 0).Keys - NodeIds(brokers) && table == Opened(held, brokers, 0) - gone
    ensures Lists(held, brokers, table) && Opens(held, brokers, 0) + |gone| == Awaits(held, brokers)
  {
    var all := Opened(held, brokers, 0);
    gone, table := all.Keys - NodeIds(brokers), all - (all.Keys - NodeIds(brokers));
    OpensAre(held, brokers, 0);
    OpenedKeys(held, brokers, 0);
    AllListed(brokers);
    GoneAreHeld(held, NodeIds(brokers));
    OpenedLists(held, brokers, all, table);
  }

  lemma EndsAt(c: Client, b: nat, held: Table, brokers: seq<Broker>, reached: seq<bool>, gone: set<int>, n: nat)
    returns (d: Client)
    requires c.bodies.Keys <= {b} && |reached| <= |brokers|
    requires gone == Opened(c.connections, brokers, |reached|).Keys - NodeIds(brokers)
    requires n == Opens(c.connections, brokers, |reached|) + |gone|
    ensures d == Run(OpenNext(c, b, held, brokers, reached, 0), Oks(b, n))
    ensures d.bodies == map[] && !d.refreshing && d.connections == Opened(c.connections, brokers, |reached|) - gone
  {
    var e, r, last := OpeningRuns(c, b, held, brokers, reached, n, |gone|);
    d := last;
    ClosingRuns(e, b, held, brokers, r, gone, d);
  }

  lemma OpeningEnds(c: Client, b: nat, brokers: seq<Broker>, none: seq<bool>) returns (d: Client)
    requires c.bodies.Keys <= {b} && none == []
    ensures d == Run(OpenNext(c, b, c.connections, brokers, none, 0), Oks(b, Awaits(c.connections, brokers)))
    ensures d.bodies == map[] && !d.refreshing && Lists(c.connections, brokers, d.connections)
  {
    var gone, table := FinalTable(c.connections, brokers);
    d := EndsAt(c, b, c.connections, brokers, none, gone, Awaits(c.connections, brokers));
  }

  /** From the response on: one connect for every node that is not held, one close for every
      held one that is not listed, and the table lists the nodes with the flag down. */
  lemma ResponseReconciles(c: Client, b: nat, brokers: seq<Broker>) returns (d: Client)
    requires Invariant(c) && b in c.bodies && c.bodies[b] == Awaiting
    ensures d == Run(c, [Resume(b, Fulfilled(brokers), 0)] + Oks(b, Awaits(c.connections, brokers)))
    ensures d.bodies == map[] && !d.refreshing && Lists(c.connections, brokers, d.connections)
  {
    var tail := Oks(b, Awaits(c.connections, brokers));
    var es := [Resume(b, Fulfilled(brokers), 0)] + tail;
    assert es[0] == Resume(b, Fulfilled(brokers), 0) && es[1..] == tail;
    AloneRuns(c, b);
    d := OpeningEnds(c.(last := None), b, brokers, []);
    assert Step(c, es[0]) == OpenNext(c.(last := None), b, c.connections, brokers, [], 0);
  }

  lemma RunCons(c: Client, e: Event, es: seq<Event>)
    ensures Run(c, [e] + es) == Run(Step(c, e), es)
  {
    assert ([e] + es)[1..] == es;
  }

  /** A call while connections are held: the response of a broker that is connected settles
      the table. */
  lemma RefreshReconciles(c: Client, brokers: seq<Broker>)
    requires Invariant(c) && !c.refreshing && c.connections != map[]
    ensures var n := Awaits(c.connections, brokers);
            var d := Run(c, [Call(false, true), Resume(c.calls, Fulfilled(brokers), 0)] + Oks(c.calls, n));
            d.bodies == map[] && !d.refreshing && Lists(c.connections, brokers, d.connections)
  {
    var first := Step(c, Call(false, true));
    CallStarts(c, false, true);
    CallKeeps(c, false, true);
    var tail := [Resume(c.calls, Fulfilled(brokers), 0)] + Oks(c.calls, Awaits(c.connections, brokers));
    var d := ResponseReconciles(first, c.calls, brokers);
    RunCons(c, Call(false, true), tail);
    assert [Call(false, true)] + tail
        == [Call(false, true), Resume(c.calls, Fulfilled(brokers), 0)] + Oks(c.calls, Awaits(c.connections, brokers));
  }

  lemma FirstAwaits(brokers: seq<Broker>)
    ensures Awaits(map[], brokers) == |NodeIds(brokers)|
  {
    var none: Table := map[];
    assert NodeIds(brokers) - none.Keys == NodeIds(brokers) && none.Keys - NodeIds(brokers) == {};
  }

  /** The first refresh of a client with seed brokers: call, the seed connects, the response,
      and one connect for every listed node. Then the table has exactly the listed nodes,
      each with the address of its first entry, and the flag is down. */
  lemma FirstRefresh(seeds: nat, brokers: seq<Broker>)
    requires seeds > 0
    ensures var d := Run(New(seeds), [Call(false, true), Resume(0, Fulfilled([]), 0), Resume(0, Fulfilled(brokers), 0)]
                                     + Oks(0, |NodeIds(brokers)|));
            d.bodies == map[] && !d.refreshing && d.connections.Keys == NodeIds(brokers)
            && forall i: nat :: FirstFrom(brokers, 0, i) ==>
                 var n := brokers[i].nodeId;
                 n in d.connections && d.connections[n] == Link(n, brokers[i].host, brokers[i].port)
  {
    var c, n := New(seeds), |NodeIds(brokers)|;
    var c1 := Step(c, Call(false, true));
    CallStarts(c, false, true);
    CallKeeps(c, false, true);
    var c2 := Step(c1, Resume(0, Fulfilled([]), 0));
    SeedConnects(c1, 0, [], 0);
    ContinueKeeps(c1, 0, Fulfilled([]), 0);
    var d := ResponseReconciles(c2, 0, brokers);
    FirstAwaits(brokers);
    var tail := [Resume(0, Fulfilled(brokers), 0)] + Oks(0, n);
    RunCons(c1, Resume(0, Fulfilled([]), 0), tail);
    RunCons(c, Call(false, true), [Resume(0, Fulfilled([]), 0)] + tail);
    assert [Call(false, true)] + ([Resume(0, Fulfilled([]), 0)] + tail)
        == [Call(false, true), Resume(0, Fulfilled([]), 0), Resume(0, Fulfilled(brokers), 0)] + Oks(0, n);
  }
}

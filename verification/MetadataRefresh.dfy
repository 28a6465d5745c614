/** Concurrent metadata refreshes: a call runs until it awaits, other calls and other
    resumed bodies run in between. */
module MetadataRefresh {
  import opened Results
  import opened Bytes
  import opened MetadataResponses
  import opened Reconciliation

  /** What a suspended body waits for: a seed broker to connect, the response, one broker
      of the response to connect (the one after those in `reached`), one connection to a
      node that is gone to close. `held` is the table when the response came. */
  datatype Stage =
    | Connecting(encodable: bool)
    | Awaiting
    | Opening(held: Table, brokers: seq<Broker>, reached: seq<bool>)
    | Closing(held: Table, brokers: seq<Broker>, reached: seq<bool>, gone: int)

  /** How an await ends; the response is parsed and merged into the metadata before
      anything else can run, so a response that cannot be is a rejection. */
  datatype Answer = Rejected | Fulfilled(brokers: seq<Broker>)

  /** The last reconciliation that ran to its end, until the next one starts. */
  datatype Record = Record(held: Table, brokers: seq<Broker>, reached: seq<bool>)

  /** The client's fields, the suspended bodies by the number of their call, the calls
      made, and a record of the last completed reconciliation. */
  datatype Client = Client(connections: Table, seeds: nat, refreshing: bool, bodies: map<nat, Stage>, calls: nat,
                           last: Option<Record>)

  /** A call names a broker to ask or not, and its request can be encoded or not; a body
      whose await has ended is resumed, and `pick` is the node that is gone which the table
      yields next. */
  datatype Event = Call(specific: bool, encodable: bool) | Resume(body: nat, answer: Answer, pick: int)

  function New(seeds: nat): Client {
    Client(map[], seeds, false, map[], 0, None)
  }

  function Suspend(c: Client, b: nat, stage: Stage): Client {
    c.(bodies := c.bodies[b := stage])
  }

  /** The finally block. */
  function Finish(c: Client, b: nat): Client {
    c.(refreshing := false, bodies := c.bodies - {b})
  }

  /** One of the nodes, `pick` if it is one. */
  ghost function OneOf(s: set<int>, pick: int): int
    requires s != {}
    ensures OneOf(s, pick) in s && (pick in s ==> OneOf(s, pick) == pick)
  {
    Inhabited(s);
    if pick in s then pick else var x :| x in s; x
  }

  /** From here on the nodes that are gone are closed one by one. */
  ghost function CloseNext(c: Client, b: nat, held: Table, brokers: seq<Broker>, reached: seq<bool>, pick: int): Client
  {
    var gone := c.connections.Keys - NodeIds(brokers);
    if gone == {} then Finish(c, b).(last := Some(Record(held, brokers, reached)))
    else Suspend(c, b, Closing(held, brokers, reached, OneOf(gone, pick)))
  }

  /** Runs over the entries whose nodes are in the table, up to the next to be opened. */
  ghost function OpenNext(c: Client, b: nat, held: Table, brokers: seq<Broker>, reached: seq<bool>, pick: int): Client
    decreases |brokers| - |reached|
  {
    if |reached| >= |brokers| then CloseNext(c, b, held, brokers, reached, pick)
    else if brokers[|reached|].nodeId in c.connections then OpenNext(c, b, held, brokers, reached + [false], pick)
    else Suspend(c, b, Opening(held, brokers, reached))
  }

  /** A request is encoded when it is sent: at once to a broker at hand, but to a seed
      broker only after its connect was awaited. */
  function Start(c: Client, specific: bool, encodable: bool): Client {
    var b := c.calls;
    var d := c.(calls := c.calls + 1);
    if c.refreshing then d
    else if specific || c.connections != map[] then
      if encodable then Suspend(d.(refreshing := true), b, Awaiting) else d
    else if c.seeds > 0 then Suspend(d.(refreshing := true), b, Connecting(encodable))
    else d
  }

  ghost function Continue(c: Client, b: nat, answer: Answer, pick: int): Client
    requires b in c.bodies
  {
    match c.bodies[b]
    case Connecting(encodable) =>
      if answer.Rejected? || !encodable then Finish(c, b) else Suspend(c, b, Awaiting)
    case Awaiting =>
      if answer.Rejected? then Finish(c, b)
      else OpenNext(c.(last := None), b, c.connections, answer.brokers, [], pick)
    case Opening(held, brokers, reached) =>
      if |reached| >= |brokers| then c
      else
        var ok := answer.Fulfilled?;
        OpenNext(c.(connections := Try(c.connections, brokers[|reached|], ok)), b, held, brokers, reached + [ok], pick)
    case Closing(held, brokers, reached, gone) =>
      if answer.Rejected? then Finish(c, b)
      else CloseNext(c.(connections := c.connections - {gone}), b, held, brokers, reached, pick)
  }

  ghost function Step(c: Client, e: Event): Client {
    match e
    case Call(specific, encodable) => Start(c, specific, encodable)
    case Resume(b, answer, pick) => if b in c.bodies then Continue(c, b, answer, pick) else c
  }

  ghost function Run(c: Client, es: seq<Event>): Client
    decreases |es|
  {
    if es == [] then c else Run(Step(c, es[0]), es[1..])
  }

  // -------------------------------------------------------------- invariants

  /** The flag is up exactly while one body runs, and never two do. */
  ghost predicate OneBody(c: Client) {
    && (c.refreshing <==> c.bodies != map[])
    && (forall a, b :: a in c.bodies && b in c.bodies ==> a == b)
    && (forall b :: b in c.bodies ==> b < c.calls)
  }

  ghost predicate StageFits(c: Client, stage: Stage) {
    match stage
    case Opening(held, brokers, reached) =>
      |reached| < |brokers| && Grown(held, brokers, reached, c.connections) && c.last.None?
    case Closing(held, brokers, reached, gone) =>
      |reached| == |brokers| && Shrinking(held, brokers, reached, c.connections) && c.last.None?
      && gone in c.connections && gone !in NodeIds(brokers)
    case _ => true
  }

  ghost predicate LastHolds(c: Client) {
    c.last.Some? ==> Reconciled(c.last.value.held, c.last.value.brokers, c.last.value.reached, c.connections)
  }

  ghost predicate Invariant(c: Client) {
    && OneBody(c)
    && Labelled(c.connections)
    && (forall b :: b in c.bodies ==> StageFits(c, c.bodies[b]))
    && LastHolds(c)
  }

  /** What one run of a body's code starts from: it is the only body. */
  ghost predicate Running(c: Client, b: nat) {
    c.refreshing && b < c.calls && Labelled(c.connections) && c.bodies.Keys <= {b}
  }

  lemma SuspendKeeps(c: Client, b: nat, stage: Stage)
    requires Running(c, b) && StageFits(c, stage) && LastHolds(c)
    ensures Invariant(Suspend(c, b, stage)) && Suspend(c, b, stage).bodies.Keys <= {b}
  {
    var d := Suspend(c, b, stage);
    assert d.bodies[b] == stage;
    assert forall a :: a in d.bodies ==> a in c.bodies.Keys || a == b;
  }

  lemma FinishKeeps(c: Client, b: nat)
    requires Running(c, b) && LastHolds(c)
    ensures Invariant(Finish(c, b)) && Finish(c, b).bodies == map[]
  {
  }

  lemma CloseNextKeeps(c: Client, b: nat, held: Table, brokers: seq<Broker>, reached: seq<bool>, pick: int)
    requires Running(c, b) && c.last.None? && |reached| == |brokers| && Shrinking(held, brokers, reached, c.connections)
    ensures Invariant(CloseNext(c, b, held, brokers, reached, pick))
    ensures CloseNext(c, b, held, brokers, reached, pick).bodies.Keys <= {b}
  {
    var gone := c.connections.Keys - NodeIds(brokers);
    if gone == {} {
      ShrunkIsReconciled(held, brokers, reached, c.connections);
      FinishKeeps(c.(last := Some(Record(held, brokers, reached))), b);
    } else {
      SuspendKeeps(c, b, Closing(held, brokers, reached, OneOf(gone, pick)));
    }
  }

  lemma {:induction false} OpenNextKeeps(c: Client, b: nat, held: Table, brokers: seq<Broker>, reached: seq<bool>,
                                         pick: int)
    requires Running(c, b) && c.last.None? && |reached| <= |brokers| && Grown(held, brokers, reached, c.connections)
    ensures Invariant(OpenNext(c, b, held, brokers, reached, pick))
    ensures OpenNext(c, b, held, brokers, reached, pick).bodies.Keys <= {b}
    decreases |brokers| - |reached|
  {
    if |reached| == |brokers| {
      GrownShrinks(held, brokers, reached, c.connections);
      CloseNextKeeps(c, b, held, brokers, reached, pick);
    } else if brokers[|reached|].nodeId in c.connections {
      TryGrows(held, brokers, reached, c.connections, false);
      OpenNextKeeps(c, b, held, brokers, reached + [false], pick);
    } else {
      SuspendKeeps(c, b, Opening(held, brokers, reached));
    }
  }

  lemma AloneRuns(c: Client, b: nat)
    requires Invariant(c) && b in c.bodies
    ensures Running(c, b)
  {
  }

  lemma ContinueKeeps(c: Client, b: nat, answer: Answer, pick: int)
    requires Invariant(c) && b in c.bodies
    ensures Invariant(Continue(c, b, answer, pick)) && Continue(c, b, answer, pick).bodies.Keys <= {b}
  {
    AloneRuns(c, b);
    assert StageFits(c, c.bodies[b]);
    match c.bodies[b]
    case Connecting(encodable) =>
      if answer.Rejected? || !encodable {
        FinishKeeps(c, b);
      } else {
        SuspendKeeps(c, b, Awaiting);
      }
    case Awaiting =>
      if answer.Rejected? {
        FinishKeeps(c, b);
      } else {
        GrownAtFirst(c.connections, answer.brokers);
        OpenNextKeeps(c.(last := None), b, c.connections, answer.brokers, [], pick);
      }
    case Opening(held, brokers, reached) =>
      var ok := answer.Fulfilled?;
      TryGrows(held, brokers, reached, c.connections, ok);
      var table := Try(c.connections, brokers[|reached|], ok);
      OpenNextKeeps(c.(connections := table), b, held, brokers, reached + [ok], pick);
    case Closing(held, brokers, reached, gone) =>
      if answer.Rejected? {
        FinishKeeps(c, b);
      } else {
        CloseShrinks(held, brokers, reached, c.connections, gone);
        CloseNextKeeps(c.(connections := c.connections - {gone}), b, held, brokers, reached, pick);
      }
  }

  /** While a refresh runs, a call changes nothing but the number of calls. */
  lemma CallKeeps(c: Client, specific: bool, encodable: bool)
    requires Invariant(c)
    ensures Invariant(Start(c, specific, encodable))
    ensures c.refreshing ==> Start(c, specific, encodable) == c.(calls := c.calls + 1)
  {
    var d := c.(calls := c.calls + 1);
    forall b | b in d.bodies ensures StageFits(d, d.bodies[b]) {
      assert StageFits(c, c.bodies[b]);
    }
    if !c.refreshing {
      SuspendKeeps(d.(refreshing := true), c.calls, Awaiting);
      SuspendKeeps(d.(refreshing := true), c.calls, Connecting(encodable));
    }
  }

  lemma StepKeeps(c: Client, e: Event)
    requires Invariant(c)
    ensures Invariant(Step(c, e))
    ensures forall b :: b in c.bodies && Step(c, e).refreshing ==> b in Step(c, e).bodies
  {
    match e
    case Call(specific, encodable) => CallKeeps(c, specific, encodable);
    case Resume(b, answer, pick) =>
      if b in c.bodies {
        ContinueKeeps(c, b, answer, pick);
        assert OneBody(Step(c, e));
      }
  }

  lemma {:induction false} RunKeeps(c: Client, es: seq<Event>)
    requires Invariant(c)
    ensures Invariant(Run(c, es))
    decreases |es|
  {
    if es != [] {
      StepKeeps(c, es[0]);
      RunKeeps(Step(c, es[0]), es[1..]);
    }
  }

  /** For every interleaving of calls and resumed bodies: at most one body is active, the
      flag is up exactly while one is, every connection is kept under its own node id, and
      the table is what the last completed reconciliation calls for. */
  lemma OneRefreshAtATime(seeds: nat, es: seq<Event>)
    ensures var c := Run(New(seeds), es);
            (forall a, b :: a in c.bodies && b in c.bodies ==> a == b)
            && (c.refreshing <==> c.bodies != map[])
            && Labelled(c.connections) && LastHolds(c)
  {
    RunKeeps(New(seeds), es);
  }

  // -------------------------------------------------------------- completion

  /** The run of code ended the body, so it is on record with this response. */
  ghost predicate Completes(d: Client, b: nat, held: Table, brokers: seq<Broker>, reached: seq<bool>) {
    b !in d.bodies ==>
      d.last.Some? && d.last.value.held == held && d.last.value.brokers == brokers
      && |d.last.value.reached| == |brokers| && reached <= d.last.value.reached
  }

  lemma {:induction false} OpenNextCompletes(c: Client, b: nat, held: Table, brokers: seq<Broker>, reached: seq<bool>,
                                             pick: int)
    requires |reached| <= |brokers|
    ensures Completes(OpenNext(c, b, held, brokers, reached, pick), b, held, brokers, reached)
    decreases |brokers| - |reached|
  {
    if |reached| < |brokers| && brokers[|reached|].nodeId in c.connections {
      OpenNextCompletes(c, b, held, brokers, reached + [false], pick);
      assert reached <= reached + [false];
    }
  }

  /** A body that got its response and ends without a rejection has reconciled the table:
      with the connections held when the response came, against that response. */
  lemma EndIsReconciled(c: Client, b: nat, answer: Answer, pick: int)
    requires Invariant(c) && b in c.bodies && b !in Continue(c, b, answer, pick).bodies
    requires c.bodies[b].Awaiting? || c.bodies[b].Closing? ==> answer.Fulfilled?
    requires !c.bodies[b].Connecting?
    ensures var d := Continue(c, b, answer, pick);
            var held := if c.bodies[b].Awaiting? then c.connections else c.bodies[b].held;
            var brokers := if c.bodies[b].Awaiting? then answer.brokers else c.bodies[b].brokers;
            d.last.Some? && d.last.value.held == held && d.last.value.brokers == brokers
            && Reconciled(held, brokers, d.last.value.reached, d.connections)
  {
    ContinueKeeps(c, b, answer, pick);
    assert StageFits(c, c.bodies[b]);
    match c.bodies[b]
    case Connecting(encodable) =>
    case Awaiting => OpenNextCompletes(c.(last := None), b, c.connections, answer.brokers, [], pick);
    case Opening(held, brokers, reached) =>
      var ok := answer.Fulfilled?;
      var table := Try(c.connections, brokers[|reached|], ok);
      OpenNextCompletes(c.(connections := table), b, held, brokers, reached + [ok], pick);
    case Closing(held, brokers, reached, gone) =>
  }

  /** Interleaved or not makes no difference: any table reconciled from the same held
      connections and response, with the same connects succeeding, is this one. */
  lemma InterleavingsAgree(c: Client, b: nat, answer: Answer, pick: int, table: Table)
    requires Invariant(c) && b in c.bodies && b !in Continue(c, b, answer, pick).bodies
    requires c.bodies[b].Awaiting? || c.bodies[b].Closing? ==> answer.Fulfilled?
    requires !c.bodies[b].Connecting?
    requires var held := if c.bodies[b].Awaiting? then c.connections else c.bodies[b].held;
             var brokers := if c.bodies[b].Awaiting? then answer.brokers else c.bodies[b].brokers;
             var last := Continue(c, b, answer, pick).last;
             last.Some? ==> Reconciled(held, brokers, last.value.reached, table)
    ensures Continue(c, b, answer, pick).connections == table
  {
    EndIsReconciled(c, b, answer, pick);
    var d := Continue(c, b, answer, pick);
    ReconciledIsUnique(d.last.value.held, d.last.value.brokers, d.last.value.reached, d.connections, table);
  }

  // ---------------------------------------------------------------- release

  /** How far a suspended body is from its end. */
  ghost function Phase(stage: Stage): nat {
    match stage
    case Connecting(_) => 3
    case Awaiting => 2
    case Opening(_, _, _) => 1
    case Closing(_, _, _, _) => 0
  }

  ghost function Remaining(c: Client, stage: Stage): nat {
    match stage
    case Opening(_, brokers, reached) => if |reached| < |brokers| then |brokers| - |reached| else 0
    case Closing(_, brokers, _, _) => |c.connections.Keys - NodeIds(brokers)|
    case _ => 0
  }

  /** The body has ended, or it is suspended again and closer to its end. */
  ghost predicate Nearer(d: Client, b: nat, phase: nat, remaining: nat) {
    b !in d.bodies
    || Phase(d.bodies[b]) < phase
    || (Phase(d.bodies[b]) == phase && Remaining(d, d.bodies[b]) < remaining)
  }

  lemma {:induction false} OpenNextNears(c: Client, b: nat, held: Table, brokers: seq<Broker>, reached: seq<bool>,
                                         pick: int)
    ensures Nearer(OpenNext(c, b, held, brokers, reached, pick), b, 1, Max(|brokers| - |reached|, 0) + 1)
    decreases |brokers| - |reached|
  {
    if |reached| < |brokers| && brokers[|reached|].nodeId in c.connections {
      OpenNextNears(c, b, held, brokers, reached + [false], pick);
    }
  }

  lemma FewerGone(table: Table, ids: set<int>, gone: int)
    requires gone in table && gone !in ids
    ensures |(table - {gone}).Keys - ids| < |table.Keys - ids|
  {
    assert (table - {gone}).Keys - ids == (table.Keys - ids) - {gone};
  }

  lemma ContinueNears(c: Client, b: nat, answer: Answer, pick: int)
    requires Invariant(c) && b in c.bodies
    ensures Nearer(Continue(c, b, answer, pick), b, Phase(c.bodies[b]), Remaining(c, c.bodies[b]))
  {
    assert StageFits(c, c.bodies[b]);
    match c.bodies[b]
    case Connecting(encodable) =>
    case Awaiting =>
      if answer.Fulfilled? {
        OpenNextNears(c.(last := None), b, c.connections, answer.brokers, [], pick);
      }
    case Opening(held, brokers, reached) =>
      var ok := answer.Fulfilled?;
      var table := Try(c.connections, brokers[|reached|], ok);
      OpenNextNears(c.(connections := table), b, held, brokers, reached + [ok], pick);
    case Closing(held, brokers, reached, gone) =>
      FewerGone(c.connections, NodeIds(brokers), gone);
  }

  /** The state after `n` of the events, from number `k` on. */
  ghost function Ran(c: Client, events: nat -> Event, k: nat, n: nat): Client
    decreases n
  {
    if n == 0 then c else Ran(Step(c, events(k)), events, k + 1, n - 1)
  }

  lemma {:induction false} RanTwice(c: Client, events: nat -> Event, k: nat, m: nat, n: nat)
    ensures Ran(Ran(c, events, k, m), events, k + m, n) == Ran(c, events, k, m + n)
    decreases m
  {
    if m > 0 {
      RanTwice(Step(c, events(k)), events, k + 1, m - 1, n);
    }
  }

  predicate Resumes(e: Event, b: nat) {
    e.Resume? && e.body == b
  }

  ghost predicate ResumedFrom(events: nat -> Event, b: nat, k: nat) {
    exists j: nat :: j >= k && Resumes(events(j), b)
  }

  /** Every await of the body ends some time. */
  ghost predicate KeepsResuming(events: nat -> Event, b: nat) {
    forall k: nat :: ResumedFrom(events, b, k)
  }

  lemma {:induction false} NextResume(events: nat -> Event, b: nat, k: nat, j: nat) returns (i: nat)
    requires k <= j && Resumes(events(j), b)
    ensures k <= i <= j && Resumes(events(i), b) && forall m: nat :: k <= m < i ==> !Resumes(events(m), b)
    decreases j - k
  {
    if Resumes(events(k), b) {
      i := k;
    } else {
      i := NextResume(events, b, k + 1, j);
    }
  }

  /** Until its await ends, nothing happens to the only body, whatever is called. */
  lemma {:induction false} NothingHappens(c: Client, b: nat, events: nat -> Event, k: nat, n: nat)
    requires Invariant(c) && b in c.bodies && forall m: nat :: k <= m < k + n ==> !Resumes(events(m), b)
    ensures var d := Ran(c, events, k, n); d == c.(calls := d.calls) && Invariant(d)
    decreases n
  {
    if n > 0 {
      var e := events(k);
      assert !Resumes(e, b);
      if e.Call? {
        CallKeeps(c, e.specific, e.encodable);
      }
      NothingHappens(Step(c, e), b, events, k + 1, n - 1);
    }
  }

  lemma EndedIsReleased(d: Client, b: nat)
    requires Invariant(d) && d.bodies.Keys <= {b} && b !in d.bodies
    ensures !d.refreshing
  {
  }

  /** The next resumption of the body, with everything before it. */
  lemma OneAnswer(c: Client, b: nat, events: nat -> Event, k: nat) returns (d: Client, n: nat)
    requires Invariant(c) && b in c.bodies && KeepsResuming(events, b)
    ensures n > 0 && d == Ran(c, events, k, n) && Invariant(d) && d.bodies.Keys <= {b}
    ensures Nearer(d, b, Phase(c.bodies[b]), Remaining(c, c.bodies[b]))
  {
    assert ResumedFrom(events, b, k);
    var j: nat :| j >= k && Resumes(events(j), b);
    var i := NextResume(events, b, k, j);
    NothingHappens(c, b, events, k, i - k);
    var before := Ran(c, events, k, i - k);
    var e := events(i);
    d, n := Step(before, e), i - k + 1;
    RanTwice(c, events, k, i - k, 1);
    assert Ran(before, events, i, 1) == Ran(d, events, i + 1, 0);
    ContinueKeeps(before, b, e.answer, e.pick);
    ContinueNears(before, b, e.answer, e.pick);
  }

  /** The flag is always released: whatever the answers, and whatever calls come in between,
      a body whose awaits end has ended after finitely many events, and the flag is down
      right then. */
  lemma {:induction false} FlagIsReleased(c: Client, b: nat, events: nat -> Event, k: nat) returns (n: nat)
    requires Invariant(c) && b in c.bodies && KeepsResuming(events, b)
    ensures !Ran(c, events, k, n).refreshing && b !in Ran(c, events, k, n).bodies
    decreases Phase(c.bodies[b]), Remaining(c, c.bodies[b])
  {
    var d, m := OneAnswer(c, b, events, k);
    n := m;
    if b in d.bodies {
      var later := FlagIsReleased(d, b, events, k + m);
      RanTwice(c, events, k, m, later);
      n := m + later;
    } else {
      EndedIsReleased(d, b);
    }
  }

  ghost predicate UpFrom(c: Client, events: nat -> Event, k: nat, n: nat) {
    forall m: nat :: m >= n ==> Ran(c, events, k, m).refreshing
  }

  /** After `n` events a body is suspended that is not resumed from then on. */
  ghost predicate Abandoned(c: Client, events: nat -> Event, k: nat, n: nat, b: nat) {
    b in Ran(c, events, k, n).bodies && !ResumedFrom(events, b, k + n)
  }

  lemma RanSnoc(c: Client, events: nat -> Event, k: nat, n: nat)
    ensures Ran(c, events, k, n + 1) == Step(Ran(c, events, k, n), events(k + n))
  {
    RanTwice(c, events, k, n, 1);
    var d := Ran(c, events, k, n);
    assert Ran(d, events, k + n, 1) == Ran(Step(d, events(k + n)), events, k + n + 1, 0);
  }

  lemma {:induction false} RanKeeps(c: Client, events: nat -> Event, k: nat, n: nat)
    requires Invariant(c)
    ensures Invariant(Ran(c, events, k, n))
  {
    if n > 0 {
      RanKeeps(c, events, k, n - 1);
      RanSnoc(c, events, k, n - 1);
      StepKeeps(Ran(c, events, k, n - 1), events(k + n - 1));
    }
  }

  /** While the flag is up the same body goes on. */
  lemma {:induction false} SameBody(c: Client, events: nat -> Event, k: nat, n: nat, m: nat, b: nat)
    requires Invariant(c) && UpFrom(c, events, k, n) && n <= m && b in Ran(c, events, k, n).bodies
    ensures b in Ran(c, events, k, m).bodies
    decreases m
  {
    if n < m {
      SameBody(c, events, k, n, m - 1, b);
      RanKeeps(c, events, k, m - 1);
      RanSnoc(c, events, k, m - 1);
      StepKeeps(Ran(c, events, k, m - 1), events(k + m - 1));
    }
  }

  lemma AbandonedStaysUp(c: Client, events: nat -> Event, k: nat, n: nat, b: nat)
    requires Invariant(c) && Abandoned(c, events, k, n, b)
    ensures UpFrom(c, events, k, n)
  {
    RanKeeps(c, events, k, n);
    var d := Ran(c, events, k, n);
    forall m: nat | m >= n ensures Ran(c, events, k, m).refreshing {
      RanTwice(c, events, k, n, m - n);
      NothingHappens(d, b, events, k + n, m - n);
    }
  }

  lemma UpIsNotResumed(c: Client, events: nat -> Event, k: nat, n: nat, b: nat)
    requires UpFrom(c, events, k, n) && Invariant(Ran(c, events, k, n)) && b in Ran(c, events, k, n).bodies
    ensures !KeepsResuming(events, b)
  {
    if KeepsResuming(events, b) {
      var i := FlagIsReleased(Ran(c, events, k, n), b, events, k + n);
      RanTwice(c, events, k, n, i);
    }
  }

  lemma UpForGoodIsAbandoned(c: Client, events: nat -> Event, k: nat, n: nat) returns (m: nat, b: nat)
    requires Invariant(c) && UpFrom(c, events, k, n)
    ensures Abandoned(c, events, k, m, b)
  {
    RanKeeps(c, events, k, n);
    var d := Ran(c, events, k, n);
    assert d.refreshing && d.bodies != map[];
    b :| b in d.bodies;
    UpIsNotResumed(c, events, k, n, b);
    var j: nat :| !ResumedFrom(events, b, j);
    m := n + j;
    SameBody(c, events, k, n, m, b);
  }

  /** The flag stays up for good, and every later call to refresh returns at once, if and
      only if the await of a body never ends. */
  lemma UpForGoodIff(c: Client, events: nat -> Event, k: nat)
    requires Invariant(c)
    ensures (exists n: nat :: UpFrom(c, events, k, n)) <==> (exists n: nat, b: nat :: Abandoned(c, events, k, n, b))
  {
    if n: nat :| UpFrom(c, events, k, n) {
      var m, b := UpForGoodIsAbandoned(c, events, k, n);
    }
    if n: nat, b: nat :| Abandoned(c, events, k, n, b) {
      AbandonedStaysUp(c, events, k, n, b);
    }
  }
}

/** The cluster metadata: merging metadata snapshots, telling listeners which topics
    changed, and looking up leaders. */
module ClusterMetadata {
  import opened Results
  import opened Bytes
  import opened MetadataResponses
  import opened PartitionChanges

  type Topics = map<bytes, TopicMetadata>

  /** The value of the object's fields. */
  datatype Cluster = Cluster(topics: Topics, brokers: map<int, Broker>, clusterId: Option<bytes>, controllerId: int,
                             initialized: bool)

  /** The arguments of one updateMetadata call. */
  datatype Snapshot = Snapshot(brokers: seq<Broker>, topics: seq<TopicMetadata>, clusterId: Option<bytes>,
                               controllerId: int)

  const UNKNOWN: Cluster := Cluster(map[], map[], None, -1, false)

  // ----------------------------------------------------------- one snapshot

  /** Entries are set one after the other. */
  function BrokerMap(brokers: seq<Broker>): map<int, Broker> {
    if brokers == [] then map[]
    else BrokerMap(brokers[..|brokers| - 1])[brokers[|brokers| - 1].nodeId := brokers[|brokers| - 1]]
  }

  function Merge(topics: Topics, t: TopicMetadata): Topics {
    if t.errorCode != 0 then topics else topics[t.name := t]
  }

  function MergeAll(topics: Topics, ts: seq<TopicMetadata>): Topics
    decreases |ts|
  {
    if ts == [] then topics else MergeAll(Merge(topics, ts[0]), ts[1..])
  }

  ghost predicate Changes(topics: Topics, t: TopicMetadata) {
    t.errorCode == 0 && (t.name in topics ==> !Unchanged(topics[t.name].partitions, t.partitions))
  }

  /** The names reported as updated. */
  ghost function Reported(topics: Topics, ts: seq<TopicMetadata>): seq<bytes>
    decreases |ts|
  {
    if ts == [] then []
    else (if Changes(topics, ts[0]) then [ts[0].name] else []) + Reported(Merge(topics, ts[0]), ts[1..])
  }

  function Update(c: Cluster, s: Snapshot): Cluster {
    Cluster(MergeAll(c.topics, s.topics), BrokerMap(s.brokers), s.clusterId, s.controllerId, true)
  }

  /** The names of the 'update' event, if one is emitted. */
  ghost function Notice(c: Cluster, s: Snapshot): Option<seq<bytes>> {
    var names := Reported(c.topics, s.topics);
    if names != [] || !c.initialized then Some(names) else None
  }

  /** The answer of a known topic. */
  function LeaderOf(ps: seq<PartitionMetadata>, partition: int): Result<int> {
    match Find(ps, partition)
    case None => Err(UnknownPartition)
    case Some(p) => if p.leaderId < 0 then Err(NoLeader) else Ok(p.leaderId)
  }

  function FindLeaderIn(topics: Topics, topic: bytes, partition: int): Result<int> {
    if topic !in topics then Err(UnknownTopic) else LeaderOf(topics[topic].partitions, partition)
  }

  lemma {:induction false} MergeAllStep(topics: Topics, ts: seq<TopicMetadata>, i: nat)
    requires i < |ts|
    ensures MergeAll(topics, ts[..i + 1]) == Merge(MergeAll(topics, ts[..i]), ts[i])
    ensures Reported(topics, ts[..i + 1]) ==
            Reported(topics, ts[..i]) + if Changes(MergeAll(topics, ts[..i]), ts[i]) then [ts[i].name] else []
    decreases i
  {
    if i == 0 {
      assert ts[..1][1..] == ts[..0];
      assert ts[..1] == [ts[0]];
    } else {
      assert ts[..i + 1][1..] == ts[1..][..i] && ts[..i][1..] == ts[1..][..i - 1];
      MergeAllStep(Merge(topics, ts[0]), ts[1..], i - 1);
    }
  }

  class ClusterMetadata {
    var topics: Topics
    var brokers: map<int, Broker>
    var clusterId: Option<bytes>
    var controllerId: int
    var isMetadataInitialized: bool

    /** The 'update' events emitted so far. */
    var events: seq<seq<bytes>>

    function View(): Cluster
      reads this
    {
      Cluster(topics, brokers, clusterId, controllerId, isMetadataInitialized)
    }

    constructor ()
      ensures View() == UNKNOWN && events == []
    {
      topics, brokers, clusterId, controllerId := map[], map[], None, -1;
      isMetadataInitialized, events := false, [];
    }

    method SetBrokers(brokers: seq<Broker>)
      modifies `brokers
      ensures this.brokers == BrokerMap(brokers)
    {
      this.brokers := map[];
      for i := 0 to |brokers|
        invariant this.brokers == BrokerMap(brokers[..i])
      {
        assert brokers[..i + 1][..i] == brokers[..i];
        this.brokers := this.brokers[brokers[i].nodeId := brokers[i]];
      }
      assert brokers[..|brokers|] == brokers;
    }

    method HasChanged(t: TopicMetadata) returns (changed: bool)
      requires t.errorCode == 0
      ensures changed == Changes(topics, t)
    {
      if t.name !in topics || |topics[t.name].partitions| != |t.partitions| {
        return true;
      }
      changed := HasPartitionChanges(topics[t.name].partitions, t.partitions);
    }

    method MergeTopics(topics: seq<TopicMetadata>) returns (updatedTopics: seq<bytes>)
      modifies `topics
      ensures this.topics == MergeAll(old(this.topics), topics)
      ensures updatedTopics == Reported(old(this.topics), topics)
    {
      updatedTopics := [];
      ghost var was := this.topics;
      for i := 0 to |topics|
        invariant this.topics == MergeAll(was, topics[..i])
        invariant updatedTopics == Reported(was, topics[..i])
      {
        MergeAllStep(was, topics, i);
        var topic := topics[i];
        if topic.errorCode != 0 {
          continue;
        }
        var changed := HasChanged(topic);
        if changed {
          updatedTopics := updatedTopics + [topic.name];
        }
        this.topics := this.topics[topic.name := topic];
      }
      assert topics[..|topics|] == topics;
    }

    method UpdateMetadata(brokers: seq<Broker>, topics: seq<TopicMetadata>, clusterId: Option<bytes>, controllerId: int)
      modifies this
      ensures var s := Snapshot(brokers, topics, clusterId, controllerId);
              View() == Update(old(View()), s)
              && events == old(events) + match Notice(old(View()), s) case None => [] case Some(names) => [names]
    {
      SetBrokers(brokers);
      var updatedTopics := MergeTopics(topics);
      this.clusterId := clusterId;
      this.controllerId := controllerId;
      var wasInitialized := isMetadataInitialized;
      isMetadataInitialized := true;
      if |updatedTopics| > 0 || !wasInitialized {
        events := events + [updatedTopics];
      }
    }

    /** A leader is found exactly if the topic is known and the first entry of the
        partition has one; what is missing decides the error. */
    method FindLeader(topic: bytes, partition: int) returns (r: Result<int>)
      ensures r == Err(UnknownTopic) <==> topic !in topics
      ensures r == Err(UnknownPartition) <==> topic in topics && !HasIndex(topics[topic].partitions, partition)
      ensures r == Err(NoLeader) <==>
              topic in topics
              && exists i :: FirstAt(topics[topic].partitions, partition, i) && topics[topic].partitions[i].leaderId < 0
      ensures r.Ok? <==>
              topic in topics
              && exists i :: FirstAt(topics[topic].partitions, partition, i)
                             && topics[topic].partitions[i].leaderId >= 0
      ensures r.Ok? ==>
                forall i :: FirstAt(topics[topic].partitions, partition, i) ==>
                              topics[topic].partitions[i].leaderId == r.value
      ensures r == FindLeaderIn(topics, topic, partition)
    {
      if topic !in topics {
        return Err(UnknownTopic);
      }
      var partitions := topics[topic].partitions;
      var i := FindIndex(partitions, partition);
      FindIsAnEntry(partitions, partition);
      if i < 0 {
        return Err(UnknownPartition);
      }
      FindIsFirst(partitions, partition, i);
      if partitions[i].leaderId < 0 {
        return Err(NoLeader);
      }
      return Ok(partitions[i].leaderId);
    }
  }

  // ----------------------------------------------------------------- runs

  function RunUpdates(c: Cluster, ss: seq<Snapshot>): Cluster
    decreases |ss|
  {
    if ss == [] then c else RunUpdates(Update(c, ss[0]), ss[1..])
  }

  function TopicLists(ss: seq<Snapshot>): seq<TopicMetadata> {
    if ss == [] then [] else ss[0].topics + TopicLists(ss[1..])
  }

  /** The last entry for the name that carries no error. */
  function LastErrorFree(ts: seq<TopicMetadata>, name: bytes): Option<TopicMetadata> {
    if ts == [] then None
    else
      var later := LastErrorFree(ts[1..], name);
      if later.Some? then later
      else if ts[0].name == name && ts[0].errorCode == 0 then Some(ts[0])
      else None
  }

  lemma {:induction false} MergeAllKeepsLast(topics: Topics, ts: seq<TopicMetadata>, name: bytes)
    ensures var merged := MergeAll(topics, ts);
            match LastErrorFree(ts, name)
            case Some(t) => name in merged && merged[name] == t
            case None => (name in merged <==> name in topics) && (name in topics ==> merged[name] == topics[name])
    decreases |ts|
  {
    if ts != [] {
      MergeAllKeepsLast(Merge(topics, ts[0]), ts[1..], name);
    }
  }

  lemma {:induction false} MergeAllAppend(topics: Topics, a: seq<TopicMetadata>, b: seq<TopicMetadata>)
    ensures MergeAll(topics, a + b) == MergeAll(MergeAll(topics, a), b)
    decreases |a|
  {
    if a == [] {
      assert a + b == b;
    } else {
      assert (a + b)[1..] == a[1..] + b;
      MergeAllAppend(Merge(topics, a[0]), a[1..], b);
    }
  }

  lemma {:induction false} RunMerges(c: Cluster, ss: seq<Snapshot>)
    ensures RunUpdates(c, ss).topics == MergeAll(c.topics, TopicLists(ss))
    decreases |ss|
  {
    if ss != [] {
      RunMerges(Update(c, ss[0]), ss[1..]);
      MergeAllAppend(c.topics, ss[0].topics, TopicLists(ss[1..]));
    }
  }

  /** After any calls: each name has the last error-free entry of all topic lists joined,
      and a name without one is unknown. */
  lemma TopicsAreLastErrorFree(ss: seq<Snapshot>, name: bytes)
    ensures var topics := RunUpdates(UNKNOWN, ss).topics;
            match LastErrorFree(TopicLists(ss), name)
            case Some(t) => name in topics && topics[name] == t && t.name == name && t.errorCode == 0
            case None => name !in topics
  {
    RunMerges(UNKNOWN, ss);
    MergeAllKeepsLast(map[], TopicLists(ss), name);
    LastErrorFreeIsOne(TopicLists(ss), name);
  }

  lemma {:induction false} LastErrorFreeIsOne(ts: seq<TopicMetadata>, name: bytes)
    ensures var t := LastErrorFree(ts, name);
            t.Some? ==> t.value in ts && t.value.name == name && t.value.errorCode == 0
    ensures LastErrorFree(ts, name).None? ==> forall t :: t in ts ==> t.name != name || t.errorCode != 0
  {
    if ts != [] {
      LastErrorFreeIsOne(ts[1..], name);
      assert forall t :: t in ts <==> t == ts[0] || t in ts[1..];
    }
  }

  /** A name that is known stays known. */
  lemma NamesStay(c: Cluster, ss: seq<Snapshot>, name: bytes)
    requires name in c.topics
    ensures name in RunUpdates(c, ss).topics
  {
    RunMerges(c, ss);
    MergeAllKeepsLast(c.topics, TopicLists(ss), name);
  }

  /** Entry `i` is the last one for the node. */
  ghost predicate LastFor(brokers: seq<Broker>, nodeId: int, i: int) {
    0 <= i < |brokers| && brokers[i].nodeId == nodeId && forall j :: i < j < |brokers| ==> brokers[j].nodeId != nodeId
  }

  lemma LastForStep(brokers: seq<Broker>, nodeId: int, i: int)
    requires brokers != [] && brokers[|brokers| - 1].nodeId != nodeId
    ensures LastFor(brokers, nodeId, i) <==> LastFor(brokers[..|brokers| - 1], nodeId, i)
  {
  }

  /** In the broker map each node has its last entry, and only nodes with one are there. */
  lemma {:induction false} BrokerMapHasLast(brokers: seq<Broker>, nodeId: int)
    ensures nodeId in BrokerMap(brokers) <==> exists i :: LastFor(brokers, nodeId, i)
    ensures forall i :: LastFor(brokers, nodeId, i) ==>
              nodeId in BrokerMap(brokers) && BrokerMap(brokers)[nodeId] == brokers[i]
  {
    if brokers != [] {
      var n := |brokers| - 1;
      if brokers[n].nodeId == nodeId {
        assert LastFor(brokers, nodeId, n);
      } else {
        BrokerMapHasLast(brokers[..n], nodeId);
        forall i ensures LastFor(brokers, nodeId, i) <==> LastFor(brokers[..n], nodeId, i) {
          LastForStep(brokers, nodeId, i);
        }
      }
    }
  }

  /** The broker map is exactly the last call's list. */
  lemma {:induction false} BrokersAreTheLastList(c: Cluster, ss: seq<Snapshot>)
    requires ss != []
    ensures RunUpdates(c, ss).brokers == BrokerMap(ss[|ss| - 1].brokers)
    decreases |ss|
  {
    if |ss| == 1 {
      assert RunUpdates(c, ss) == RunUpdates(Update(c, ss[0]), []);
    } else {
      BrokersAreTheLastList(Update(c, ss[0]), ss[1..]);
    }
  }

  // -------------------------------------------------------------- listeners

  /** A listener keeps a copy of the topics and re-reads those an event names. */
  function Reread(copy: Topics, names: seq<bytes>, live: Topics): Topics
    decreases |names|
  {
    if names == [] then copy
    else Reread(if names[0] in live then copy[names[0] := live[names[0]]] else copy - {names[0]}, names[1..], live)
  }

  ghost function Listen(c: Cluster, copy: Topics, s: Snapshot): Topics {
    match Notice(c, s)
    case None => copy
    case Some(names) => Reread(copy, names, Update(c, s).topics)
  }

  /** The listener's copy after a run. */
  ghost function Follow(c: Cluster, copy: Topics, ss: seq<Snapshot>): Topics
    decreases |ss|
  {
    if ss == [] then copy else Follow(Update(c, ss[0]), Listen(c, copy, ss[0]), ss[1..])
  }

  ghost predicate DistinctTopics(ts: seq<TopicMetadata>) {
    forall t :: t in ts && t.errorCode == 0 ==> Distinct(t.partitions)
  }

  /** No list can be mistaken for unchanged when it is not: see `RoutesStayIff`. */
  ghost predicate JudgeableTopics(ts: seq<TopicMetadata>) {
    forall t :: t in ts && t.errorCode == 0 ==> Judgeable(t.partitions)
  }

  /** The lists are identical, or describe the same partitions without repeating any. */
  ghost predicate Alike(a: seq<PartitionMetadata>, b: seq<PartitionMetadata>) {
    a == b || (Distinct(b) && Equivalent(a, b))
  }

  /** The copy has the topic exactly if the live map has it, with partitions alike. */
  ghost predicate AgreeOn(copy: Topics, live: Topics, name: bytes) {
    && (name in copy <==> name in live)
    && (name in live ==> Alike(copy[name].partitions, live[name].partitions))
  }

  lemma {:induction false} RereadOne(copy: Topics, names: seq<bytes>, live: Topics, name: bytes)
    ensures var r := Reread(copy, names, live);
            if name in names then (name in r <==> name in live) && (name in live ==> r[name] == live[name])
            else (name in r <==> name in copy) && (name in copy ==> r[name] == copy[name])
    decreases |names|
  {
    if names != [] {
      var next := if names[0] in live then copy[names[0] := live[names[0]]] else copy - {names[0]};
      RereadOne(next, names[1..], live, name);
      assert name in names <==> name == names[0] || name in names[1..];
    }
  }

  lemma {:induction false} ReportedAreKnown(topics: Topics, ts: seq<TopicMetadata>, name: bytes)
    ensures name in Reported(topics, ts) ==> name in MergeAll(topics, ts)
    decreases |ts|
  {
    if ts != [] {
      ReportedAreKnown(Merge(topics, ts[0]), ts[1..], name);
      MergeAllKeepsLast(Merge(topics, ts[0]), ts[1..], name);
    }
  }

  lemma AlikeThenUnchanged(a: seq<PartitionMetadata>, b: seq<PartitionMetadata>, c: seq<PartitionMetadata>)
    requires Alike(a, b) && Unchanged(b, c) && Judgeable(c)
    ensures Alike(a, c)
  {
    UnchangedIsConsistent(b, c);
    UnchangedIsEquivalent(b, c);
    if a != b {
      EquivalentTransitive(a, b, c);
    }
  }

  /** A topic that no event names has stayed alike through every entry of the list. */
  lemma {:induction false} UnreportedStayAlike(copy: Topics, topics: Topics, ts: seq<TopicMetadata>, name: bytes)
    requires JudgeableTopics(ts) && name !in Reported(topics, ts) && AgreeOn(copy, topics, name)
    ensures AgreeOn(copy, MergeAll(topics, ts), name)
    decreases |ts|
  {
    if ts != [] {
      NotReportedLater(topics, ts, name);
      if ts[0].errorCode == 0 && ts[0].name == name {
        AlikeThenUnchanged(copy[name].partitions, topics[name].partitions, ts[0].partitions);
      }
      UnreportedStayAlike(copy, Merge(topics, ts[0]), ts[1..], name);
    }
  }

  lemma NotReportedLater(topics: Topics, ts: seq<TopicMetadata>, name: bytes)
    requires ts != [] && name !in Reported(topics, ts)
    ensures name !in Reported(Merge(topics, ts[0]), ts[1..])
    ensures Changes(topics, ts[0]) ==> ts[0].name != name
  {
  }

  /** One call keeps copy and live map in agreement. */
  lemma ListenAgrees(c: Cluster, copy: Topics, s: Snapshot, name: bytes)
    requires AgreeOn(copy, c.topics, name) && JudgeableTopics(s.topics)
    ensures AgreeOn(Listen(c, copy, s), Update(c, s).topics, name)
  {
    var names := Reported(c.topics, s.topics);
    ReportedAreKnown(c.topics, s.topics, name);
    RereadOne(copy, names, MergeAll(c.topics, s.topics), name);
    if name !in names {
      UnreportedStayAlike(copy, c.topics, s.topics, name);
    }
  }

  ghost predicate AllJudgeable(ss: seq<Snapshot>) {
    forall i :: 0 <= i < |ss| ==> JudgeableTopics(ss[i].topics)
  }

  lemma {:induction false} FollowAgrees(c: Cluster, copy: Topics, ss: seq<Snapshot>, name: bytes)
    requires AgreeOn(copy, c.topics, name) && AllJudgeable(ss)
    ensures AgreeOn(Follow(c, copy, ss), RunUpdates(c, ss).topics, name)
    decreases |ss|
  {
    if ss != [] {
      ListenAgrees(c, copy, ss[0], name);
      FollowAgrees(Update(c, ss[0]), Listen(c, copy, ss[0]), ss[1..], name);
    }
  }

  lemma AgreeingRouteAlike(copy: Topics, live: Topics, topic: bytes, partition: int)
    requires AgreeOn(copy, live, topic)
    ensures FindLeaderIn(copy, topic, partition) == FindLeaderIn(live, topic, partition)
  {
    if topic in live && copy[topic].partitions != live[topic].partitions {
      EquivalentFindSame(copy[topic].partitions, live[topic].partitions, partition);
    }
  }

  /** Notifications are complete: after any calls, a listener that re-reads only the topics
      named by the events knows the same names with partitions alike, and finds the same
      leader, or fails alike, for every partition of every topic - provided every list
      either repeats no index or contradicts itself. */
  lemma ListenersRouteAlike(ss: seq<Snapshot>, topic: bytes, partition: int)
    requires AllJudgeable(ss)
    ensures var copy, live := Follow(UNKNOWN, map[], ss), RunUpdates(UNKNOWN, ss).topics;
            AgreeOn(copy, live, topic) && FindLeaderIn(copy, topic, partition) == FindLeaderIn(live, topic, partition)
  {
    FollowAgrees(UNKNOWN, map[], ss, topic);
    AgreeingRouteAlike(Follow(UNKNOWN, map[], ss), RunUpdates(UNKNOWN, ss).topics, topic, partition);
  }

  /** Two calls, each with one version of the same topic. */
  function TwoCalls(t: TopicMetadata, existing: seq<PartitionMetadata>): seq<Snapshot> {
    [Snapshot([], [t.(partitions := existing)], None, 0), Snapshot([], [t], None, 0)]
  }

  ghost predicate RoutesAlike(ss: seq<Snapshot>, topic: bytes, partition: int) {
    FindLeaderIn(Follow(UNKNOWN, map[], ss), topic, partition)
    == FindLeaderIn(RunUpdates(UNKNOWN, ss).topics, topic, partition)
  }

  /** The listener after the two calls: the old version if the new one went unnoticed. */
  lemma FollowTwoCalls(t: TopicMetadata, existing: seq<PartitionMetadata>)
    requires t.errorCode == 0
    ensures var live := RunUpdates(UNKNOWN, TwoCalls(t, existing)).topics;
            var copy := Follow(UNKNOWN, map[], TwoCalls(t, existing));
            t.name in live && live[t.name] == t
            && t.name in copy
            && copy[t.name] == if Unchanged(existing, t.partitions) then t.(partitions := existing) else t
  {
    var first := t.(partitions := existing);
    var ss := TwoCalls(t, existing);
    var none: seq<Snapshot> := [];
    var c1 := Update(UNKNOWN, ss[0]);
    var copy1 := Listen(UNKNOWN, map[], ss[0]);
    assert ss[1..] == [ss[1]] && ss[1..][1..] == none;
    OneTopic(UNKNOWN, first);
    RereadOne(map[], [t.name], c1.topics, t.name);
    OneTopic(c1, t);
    RereadOne(copy1, [t.name], Update(c1, ss[1]).topics, t.name);
    assert RunUpdates(c1, ss[1..]) == RunUpdates(Update(c1, ss[1]), none);
    assert Follow(c1, copy1, ss[1..]) == Follow(Update(c1, ss[1]), Listen(c1, copy1, ss[1]), none);
  }

  lemma TwoCallsRouteAlikeIff(t: TopicMetadata, existing: seq<PartitionMetadata>, partition: int)
    requires t.errorCode == 0
    ensures RoutesAlike(TwoCalls(t, existing), t.name, partition) <==>
            (Unchanged(existing, t.partitions) ==> LeaderOf(existing, partition) == LeaderOf(t.partitions, partition))
  {
    FollowTwoCalls(t, existing);
  }

  lemma MisroutingPair(u: seq<PartitionMetadata>) returns (existing: seq<PartitionMetadata>, partition: int)
    requires !Judgeable(u)
    ensures Unchanged(existing, u) && LeaderOf(existing, partition) != LeaderOf(u, partition)
  {
    var i, j := RepeatedAt(u);
    DisplacedIsUnchanged(u, i, j);
    DisplacedRoutesApart(u, i);
    existing, partition := Displaced(u, i), Above(u);
  }

  /** The proviso is exact: a list misroutes listeners in some run of two calls if and only
      if it repeats an index and its entries do not contradict each other. */
  lemma MisroutesIff(t: TopicMetadata)
    requires t.errorCode == 0
    ensures (exists existing, partition :: !RoutesAlike(TwoCalls(t, existing), t.name, partition))
            <==> !Distinct(t.partitions) && Unchanged(t.partitions, t.partitions)
  {
    var u := t.partitions;
    if Judgeable(u) {
      forall existing, partition ensures RoutesAlike(TwoCalls(t, existing), t.name, partition) {
        TwoCallsRouteAlikeIff(t, existing, partition);
        if Unchanged(existing, u) {
          JudgeableRoutes(existing, u, partition);
        }
      }
    } else {
      var existing, partition := MisroutingPair(u);
      TwoCallsRouteAlikeIff(t, existing, partition);
      assert !RoutesAlike(TwoCalls(t, existing), t.name, partition);
    }
  }

  // ------------------------------------------------------------ no more than needed

  ghost predicate NamesOnce(ts: seq<TopicMetadata>) {
    forall i, j :: 0 <= i < j < |ts| ==> ts[i].name != ts[j].name
  }

  lemma {:induction false} ReportedIsListed(topics: Topics, ts: seq<TopicMetadata>, name: bytes)
    requires forall i :: 0 <= i < |ts| ==> ts[i].name != name
    ensures name !in Reported(topics, ts)
    decreases |ts|
  {
    if ts != [] {
      ReportedIsListed(Merge(topics, ts[0]), ts[1..], name);
    }
  }

  /** Notifications are exact: in a list that has each name once and no repeated indices,
      a name is reported if and only if its entry has no error and is new or not
      equivalent to what was known. */
  lemma {:induction false} ReportedIffChanged(topics: Topics, ts: seq<TopicMetadata>, i: nat)
    requires NamesOnce(ts) && DistinctTopics(ts) && i < |ts|
    ensures var t := ts[i];
            t.name in Reported(topics, ts) <==>
            t.errorCode == 0
            && (t.name in topics ==>
                !(Distinct(topics[t.name].partitions) && Equivalent(topics[t.name].partitions, t.partitions)))
    decreases |ts|
  {
    var next := Merge(topics, ts[0]);
    if i == 0 {
      ReportedIsListed(next, ts[1..], ts[0].name);
      if ts[0].errorCode == 0 && ts[0].name in topics {
        UnchangedIffEquivalent(topics[ts[0].name].partitions, ts[0].partitions);
      }
    } else {
      ReportedIffChanged(next, ts[1..], i - 1);
      assert ts[0].name != ts[i].name;
    }
  }

  /** A known topic listed again with one entry replaced is named by the event exactly if a
      field of that entry differs; the event is emitted, once metadata has come before,
      exactly if there is a name for it. */
  lemma FieldChangeIsReported(c: Cluster, t: TopicMetadata, i: nat, q: PartitionMetadata)
    requires t.errorCode == 0 && t.name in c.topics && c.initialized
    requires var ps := c.topics[t.name].partitions;
             Distinct(ps) && i < |ps| && q.partitionIndex == ps[i].partitionIndex && t.partitions == ps[i := q]
    ensures var p := c.topics[t.name].partitions[i];
            Notice(c, Snapshot([], [t], None, 0))
            == if p.leaderId != q.leaderId || p.leaderEpoch != q.leaderEpoch
                  || multiset(p.replicaNodes) != multiset(q.replicaNodes)
                  || multiset(p.isrNodes) != multiset(q.isrNodes)
                  || multiset(p.offlineReplicas) != multiset(q.offlineReplicas)
               then Some([t.name]) else None
  {
    ReplacedIsSeenIff(c.topics[t.name].partitions, i, q);
    OneTopic(c, t);
  }

  /** After any calls, id and controller are those of the last one. */
  lemma {:induction false} IdsAreTheLast(c: Cluster, ss: seq<Snapshot>)
    requires ss != []
    ensures var d := RunUpdates(c, ss);
            d.clusterId == ss[|ss| - 1].clusterId && d.controllerId == ss[|ss| - 1].controllerId && d.initialized
    decreases |ss|
  {
    if |ss| == 1 {
      assert RunUpdates(c, ss) == RunUpdates(Update(c, ss[0]), []);
    } else {
      IdsAreTheLast(Update(c, ss[0]), ss[1..]);
    }
  }

  /** The first call is always told, with whatever names there are; a later one exactly if it
      has a name to tell. */
  lemma ToldIff(ss: seq<Snapshot>, s: Snapshot)
    ensures var c := RunUpdates(UNKNOWN, ss);
            Notice(c, s) == if ss == [] || Reported(c.topics, s.topics) != [] then Some(Reported(c.topics, s.topics))
                            else None
  {
    if ss == [] {
      assert RunUpdates(UNKNOWN, ss) == UNKNOWN;
    } else {
      IdsAreTheLast(UNKNOWN, ss);
    }
  }

  /** One call with one topic, whose map holds that topic afterwards. */
  lemma OneTopic(c: Cluster, t: TopicMetadata)
    requires t.errorCode == 0
    ensures var s := Snapshot([], [t], None, 0);
            Update(c, s).topics == c.topics[t.name := t]
            && Reported(c.topics, s.topics) == if Changes(c.topics, t) then [t.name] else []
  {
    var none: seq<TopicMetadata> := [];
    assert [t][1..] == none;
    assert MergeAll(c.topics, [t]) == MergeAll(Merge(c.topics, t), none);
    assert Reported(c.topics, [t])
        == (if Changes(c.topics, t) then [t.name] else []) + Reported(Merge(c.topics, t), none);
  }

  /** Without the proviso it fails: when a list that repeats partition 0 replaces the
      partitions 0 and 1, no event is emitted, and the listener still routes partition 1,
      which the live metadata no longer knows. */
  lemma RepeatedIndexMisroutes(t: TopicMetadata, p: PartitionMetadata)
    requires t.errorCode == 0 && p.leaderId >= 0
    ensures var p0, p1 := p.(partitionIndex := 0), p.(partitionIndex := 1);
            var s1 := Snapshot([], [t.(partitions := [p0, p1])], None, 0);
            var s2 := Snapshot([], [t.(partitions := [p0, p0])], None, 0);
            var c1 := Update(UNKNOWN, s1);
            var copy := Listen(UNKNOWN, map[], s1);
            Notice(c1, s2) == None
            && FindLeaderIn(Listen(c1, copy, s2), t.name, 1) == Ok(p.leaderId)
            && FindLeaderIn(Update(c1, s2).topics, t.name, 1) == Err(UnknownPartition)
  {
    var p0, p1 := p.(partitionIndex := 0), p.(partitionIndex := 1);
    var t1, t2 := t.(partitions := [p0, p1]), t.(partitions := [p0, p0]);
    var s1, s2 := Snapshot([], [t1], None, 0), Snapshot([], [t2], None, 0);
    var c1 := Update(UNKNOWN, s1);
    OneTopic(UNKNOWN, t1);
    RereadOne(map[], [t.name], c1.topics, t.name);
    OneTopic(c1, t2);
    RepeatedIndexHidesAChange(p);
    FindsOne(p0, p1);
    FindsOne(p0, p0);
  }

  lemma FindsOne(p: PartitionMetadata, q: PartitionMetadata)
    requires p.partitionIndex == 0
    ensures Find([p, q], 1) == if q.partitionIndex == 1 then Some(q) else None
  {
    assert [p, q][1..] == [q];
    var none: seq<PartitionMetadata> := [];
    assert [q][1..] == none && Find(none, 1) == None;
    assert Find([q], 1) == if q.partitionIndex == 1 then Some(q) else Find(none, 1);
    assert Find([p, q], 1) == Find([q], 1);
  }
}

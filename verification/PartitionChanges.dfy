/** The change detector of the cluster metadata: when two partition lists count as equal. */
module PartitionChanges {
  import opened Results
  import opened MetadataResponses
  import opened Sorting

  // ------------------------------------------------------------------- arrays

  /** True exactly when the arrays differ as multisets. */
  method HasArrayChanged(a: seq<int>, b: seq<int>) returns (changed: bool)
    ensures changed <==> multiset(a) != multiset(b)
  {
    if |a| != |b| {
      SameElements'(a, b);
      return true;
    }
    var sortedA := DefaultSort(a);
    var sortedB := DefaultSort(b);
    SameElements'(sortedA, a);
    SameElements'(sortedB, b);
    for i := 0 to |sortedA|
      invariant sortedA[..i] == sortedB[..i]
    {
      if sortedA[i] != sortedB[i] {
        if multiset(a) == multiset(b) {
          SortedIsCanonical(sortedA, sortedB);
        }
        return true;
      }
    }
    assert sortedA[..|sortedA|] == sortedA && sortedB[..|sortedA|] == sortedB;
    return false;
  }

  lemma SameElements'(s: seq<int>, t: seq<int>)
    ensures multiset(s) == multiset(t) ==> |s| == |t|
  {
    if multiset(s) == multiset(t) {
      SameElements(s, t);
    }
  }

  // --------------------------------------------------------------- partitions

  /** What the detector compares of two entries for the same index. */
  ghost predicate Same(a: PartitionMetadata, b: PartitionMetadata) {
    && a.leaderId == b.leaderId
    && a.leaderEpoch == b.leaderEpoch
    && multiset(a.replicaNodes) == multiset(b.replicaNodes)
    && multiset(a.isrNodes) == multiset(b.isrNodes)
    && multiset(a.offlineReplicas) == multiset(b.offlineReplicas)
  }

  /** The map the detector builds: the last entry of each index. */
  function LastByIndex(ps: seq<PartitionMetadata>): map<int, PartitionMetadata> {
    if ps == [] then map[]
    else LastByIndex(ps[..|ps| - 1])[ps[|ps| - 1].partitionIndex := ps[|ps| - 1]]
  }

  ghost predicate FoundSame(known: map<int, PartitionMetadata>, p: PartitionMetadata) {
    p.partitionIndex in known && Same(known[p.partitionIndex], p)
  }

  /** No change is reported. */
  ghost predicate Unchanged(existing: seq<PartitionMetadata>, updated: seq<PartitionMetadata>) {
    |existing| == |updated| && forall i :: 0 <= i < |updated| ==> FoundSame(LastByIndex(existing), updated[i])
  }

  method PartitionDiffers(existing: PartitionMetadata, updated: PartitionMetadata) returns (differs: bool)
    ensures differs <==> !Same(existing, updated)
  {
    if existing.leaderId != updated.leaderId || existing.leaderEpoch != updated.leaderEpoch {
      return true;
    }
    differs := HasArrayChanged(existing.replicaNodes, updated.replicaNodes);
    if differs {
      return;
    }
    differs := HasArrayChanged(existing.isrNodes, updated.isrNodes);
    if differs {
      return;
    }
    differs := HasArrayChanged(existing.offlineReplicas, updated.offlineReplicas);
  }

  method HasPartitionChanges(existing: seq<PartitionMetadata>, updated: seq<PartitionMetadata>) returns (changed: bool)
    ensures changed <==> !Unchanged(existing, updated)
  {
    if |existing| != |updated| {
      return true;
    }
    var existingMap: map<int, PartitionMetadata> := map[];
    for i := 0 to |existing|
      invariant existingMap == LastByIndex(existing[..i])
    {
      assert existing[..i + 1][..i] == existing[..i];
      existingMap := existingMap[existing[i].partitionIndex := existing[i]];
    }
    assert existing[..|existing|] == existing;
    for i := 0 to |updated|
      invariant forall j :: 0 <= j < i ==> FoundSame(existingMap, updated[j])
    {
      if updated[i].partitionIndex !in existingMap {
        return true;
      }
      var differs := PartitionDiffers(existingMap[updated[i].partitionIndex], updated[i]);
      if differs {
        return true;
      }
    }
    return false;
  }

  // ------------------------------------------------------ what unchanged means

  ghost predicate Distinct(ps: seq<PartitionMetadata>) {
    forall i, j :: 0 <= i < j < |ps| ==> ps[i].partitionIndex != ps[j].partitionIndex
  }

  ghost predicate HasIndex(ps: seq<PartitionMetadata>, index: int) {
    exists i :: 0 <= i < |ps| && ps[i].partitionIndex == index
  }

  ghost function IndexSet(ps: seq<PartitionMetadata>): set<int> {
    if ps == [] then {} else IndexSet(ps[..|ps| - 1]) + {ps[|ps| - 1].partitionIndex}
  }

  /** Both lists describe the same indices, and entries of the same index agree. */
  ghost predicate Equivalent(a: seq<PartitionMetadata>, b: seq<PartitionMetadata>) {
    && IndexSet(a) == IndexSet(b)
    && forall i, j :: 0 <= i < |a| && 0 <= j < |b| && a[i].partitionIndex == b[j].partitionIndex ==> Same(a[i], b[j])
  }

  lemma {:induction false} InIndexSet(ps: seq<PartitionMetadata>, index: int)
    ensures index in IndexSet(ps) <==> HasIndex(ps, index)
  {
    if ps != [] {
      var n := |ps| - 1;
      InIndexSet(ps[..n], index);
      if HasIndex(ps[..n], index) {
        var i :| 0 <= i < n && ps[..n][i].partitionIndex == index;
        assert ps[i].partitionIndex == index;
      }
      if HasIndex(ps, index) && ps[n].partitionIndex != index {
        var i :| 0 <= i < |ps| && ps[i].partitionIndex == index;
        assert ps[..n][i].partitionIndex == index;
      }
    }
  }

  /** There are as many indices as entries exactly if no index repeats. */
  lemma {:induction false} IndexCount(ps: seq<PartitionMetadata>)
    ensures |IndexSet(ps)| <= |ps|
    ensures |IndexSet(ps)| == |ps| <==> Distinct(ps)
  {
    if ps != [] {
      var n := |ps| - 1;
      IndexCount(ps[..n]);
      InIndexSet(ps[..n], ps[n].partitionIndex);
      DistinctStep(ps);
    }
  }

  lemma DistinctStep(ps: seq<PartitionMetadata>)
    requires ps != []
    ensures var n := |ps| - 1; Distinct(ps) <==> Distinct(ps[..n]) && !HasIndex(ps[..n], ps[n].partitionIndex)
  {
  }

  lemma {:induction false} LastIsAnEntry(ps: seq<PartitionMetadata>, index: int) returns (i: int)
    ensures index in LastByIndex(ps) <==> index in IndexSet(ps)
    ensures index in LastByIndex(ps) ==>
              0 <= i < |ps| && ps[i].partitionIndex == index && LastByIndex(ps)[index] == ps[i]
  {
    i := -1;
    if ps != [] {
      var n := |ps| - 1;
      i := LastIsAnEntry(ps[..n], index);
      if ps[n].partitionIndex == index {
        i := n;
      }
    }
  }

  lemma OnlyEntry(ps: seq<PartitionMetadata>, i: nat)
    requires Distinct(ps) && i < |ps|
    ensures ps[i].partitionIndex in LastByIndex(ps) && LastByIndex(ps)[ps[i].partitionIndex] == ps[i]
  {
  }

  lemma SubsetOfSameSize(a: set<int>, b: set<int>)
    requires a <= b && |a| >= |b|
    ensures a == b
  {
    assert b == a + (b - a);
    assert |b| == |a| + |b - a|;
  }

  // ------------------------------------------------------------ the detector

  lemma UnchangedCovers(existing: seq<PartitionMetadata>, updated: seq<PartitionMetadata>)
    requires Unchanged(existing, updated)
    ensures IndexSet(updated) <= IndexSet(existing)
  {
    forall index | index in IndexSet(updated) ensures index in IndexSet(existing) {
      InIndexSet(updated, index);
      var i :| 0 <= i < |updated| && updated[i].partitionIndex == index;
      assert FoundSame(LastByIndex(existing), updated[i]);
      var j := LastIsAnEntry(existing, index);
    }
  }

  lemma UnchangedIsEquivalent(existing: seq<PartitionMetadata>, updated: seq<PartitionMetadata>)
    requires Unchanged(existing, updated) && Distinct(updated)
    ensures Distinct(existing) && Equivalent(existing, updated)
  {
    UnchangedCovers(existing, updated);
    IndexCount(existing);
    IndexCount(updated);
    SubsetOfSameSize(IndexSet(updated), IndexSet(existing));
    forall i, j | 0 <= i < |existing| && 0 <= j < |updated| && existing[i].partitionIndex == updated[j].partitionIndex
      ensures Same(existing[i], updated[j])
    {
      assert FoundSame(LastByIndex(existing), updated[j]);
      OnlyEntry(existing, i);
    }
  }

  lemma EquivalentIsUnchanged(existing: seq<PartitionMetadata>, updated: seq<PartitionMetadata>)
    requires Distinct(existing) && Distinct(updated) && Equivalent(existing, updated)
    ensures Unchanged(existing, updated)
  {
    IndexCount(existing);
    IndexCount(updated);
    forall i | 0 <= i < |updated| ensures FoundSame(LastByIndex(existing), updated[i]) {
      InIndexSet(updated, updated[i].partitionIndex);
      var j := LastIsAnEntry(existing, updated[i].partitionIndex);
    }
  }

  /** Where an entry of a list without repeated indices is replaced by one for the same index,
      a change is seen exactly if leader or epoch differ, or the replicas, the in-sync or the
      offline ones other than in order. The error code does not count. */
  lemma ReplacedIsSeenIff(ps: seq<PartitionMetadata>, i: nat, q: PartitionMetadata)
    requires Distinct(ps) && i < |ps| && q.partitionIndex == ps[i].partitionIndex
    ensures !Unchanged(ps, ps[i := q])
            <==> q.leaderId != ps[i].leaderId
                 || q.leaderEpoch != ps[i].leaderEpoch
                 || multiset(q.replicaNodes) != multiset(ps[i].replicaNodes)
                 || multiset(q.isrNodes) != multiset(ps[i].isrNodes)
                 || multiset(q.offlineReplicas) != multiset(ps[i].offlineReplicas)
  {
    forall j | 0 <= j < |ps|
      ensures ps[j].partitionIndex in LastByIndex(ps) && LastByIndex(ps)[ps[j].partitionIndex] == ps[j]
    {
      OnlyEntry(ps, j);
    }
    var updated := ps[i := q];
    assert FoundSame(LastByIndex(ps), updated[i]) <==> Same(ps[i], q);
    forall j | 0 <= j < |ps| && j != i ensures FoundSame(LastByIndex(ps), updated[j]) {
      assert updated[j] == ps[j];
    }
  }

  /** An entry added, taken away, or given another index is always seen. */
  lemma OtherIndexIsSeen(ps: seq<PartitionMetadata>, updated: seq<PartitionMetadata>)
    requires Distinct(updated)
    requires |updated| != |ps| || exists i :: 0 <= i < |updated| && !HasIndex(ps, updated[i].partitionIndex)
    ensures !Unchanged(ps, updated)
  {
    if Unchanged(ps, updated) {
      var i :| 0 <= i < |updated| && !HasIndex(ps, updated[i].partitionIndex);
      assert FoundSame(LastByIndex(ps), updated[i]);
      InIndexSet(ps, updated[i].partitionIndex);
      var j := LastIsAnEntry(ps, updated[i].partitionIndex);
    }
  }

  /** Of several entries of an index the last one is compared. */
  lemma LastIsCompared(p: PartitionMetadata, q: PartitionMetadata)
    requires p.partitionIndex == q.partitionIndex
    ensures Unchanged([p, q], [q, q])
    ensures p.leaderId != q.leaderId ==> !Unchanged([p, q], [p, p])
  {
    assert [p, q][..1] == [p] && LastByIndex([p, q]) == LastByIndex([p])[q.partitionIndex := q];
    assert forall i :: 0 <= i < 2 ==> FoundSame(LastByIndex([p, q]), [q, q][i]);
    assert [p, p][0] == p;
  }

  /** Only one direction is scanned, yet for an updated list without repeated indices no
      change is reported exactly when both lists describe the same partitions. */
  lemma UnchangedIffEquivalent(existing: seq<PartitionMetadata>, updated: seq<PartitionMetadata>)
    requires Distinct(updated)
    ensures Unchanged(existing, updated) <==> Distinct(existing) && Equivalent(existing, updated)
  {
    if Unchanged(existing, updated) {
      UnchangedIsEquivalent(existing, updated);
    }
    if Distinct(existing) && Equivalent(existing, updated) {
      EquivalentIsUnchanged(existing, updated);
    }
  }

  /** With a repeated index the scan can miss a partition that is gone: two entries for
      index 0 replace the entries 0 and 1 and count as unchanged. */
  lemma RepeatedIndexHidesAChange(p: PartitionMetadata)
    ensures var p0, p1 := p.(partitionIndex := 0), p.(partitionIndex := 1);
            Unchanged([p0, p1], [p0, p0]) && !Equivalent([p0, p1], [p0, p0]) && !Distinct([p0, p0])
  {
    var p0, p1 := p.(partitionIndex := 0), p.(partitionIndex := 1);
    var existing, updated := [p0, p1], [p0, p0];
    assert existing[..1] == [p0] && LastByIndex(existing) == LastByIndex([p0])[1 := p1];
    OnlyEntry([p0], 0);
    assert [p0][0] == p0;
    assert forall i :: 0 <= i < 2 ==> FoundSame(LastByIndex(existing), updated[i]);
    assert existing[1].partitionIndex == 1;
    InIndexSet(existing, 1);
    InIndexSet(updated, 1);
  }

  lemma UnchangedIsConsistent(existing: seq<PartitionMetadata>, updated: seq<PartitionMetadata>)
    requires Unchanged(existing, updated)
    ensures Unchanged(updated, updated)
  {
    forall i | 0 <= i < |updated| ensures FoundSame(LastByIndex(updated), updated[i]) {
      InIndexSet(updated, updated[i].partitionIndex);
      var j := LastIsAnEntry(updated, updated[i].partitionIndex);
      assert FoundSame(LastByIndex(existing), updated[i]) && FoundSame(LastByIndex(existing), updated[j]);
    }
  }

  // -------------------------------------------------- an equivalence relation

  lemma EquivalentReflexive(a: seq<PartitionMetadata>)
    requires Distinct(a)
    ensures Equivalent(a, a)
  {
  }

  lemma EquivalentSymmetric(a: seq<PartitionMetadata>, b: seq<PartitionMetadata>)
    requires Equivalent(a, b)
    ensures Equivalent(b, a)
  {
  }

  lemma EquivalentTransitive(a: seq<PartitionMetadata>, b: seq<PartitionMetadata>, c: seq<PartitionMetadata>)
    requires Equivalent(a, b) && Equivalent(b, c)
    ensures Equivalent(a, c)
  {
    forall i, k | 0 <= i < |a| && 0 <= k < |c| && a[i].partitionIndex == c[k].partitionIndex ensures Same(a[i], c[k]) {
      InIndexSet(a, a[i].partitionIndex);
      InIndexSet(b, a[i].partitionIndex);
      var j :| 0 <= j < |b| && b[j].partitionIndex == a[i].partitionIndex;
      assert Same(a[i], b[j]) && Same(b[j], c[k]);
    }
  }

  // ------------------------------------------------------------------- lookup

  /** `partitions.find(p => p.partitionIndex === partition)`. */
  function Find(ps: seq<PartitionMetadata>, index: int): Option<PartitionMetadata> {
    if ps == [] then None
    else if ps[0].partitionIndex == index then Some(ps[0])
    else Find(ps[1..], index)
  }

  lemma {:induction false} FindIsAnEntry(ps: seq<PartitionMetadata>, index: int)
    ensures Find(ps, index).Some? <==> HasIndex(ps, index)
    ensures Find(ps, index).Some? ==>
              exists i :: 0 <= i < |ps| && ps[i].partitionIndex == index && Find(ps, index) == Some(ps[i])
  {
    if ps != [] && ps[0].partitionIndex != index {
      FindIsAnEntry(ps[1..], index);
      if HasIndex(ps, index) {
        var i :| 0 <= i < |ps| && ps[i].partitionIndex == index;
        assert ps[1..][i - 1].partitionIndex == index;
      }
      if Find(ps[1..], index).Some? {
        var i :| 0 <= i < |ps[1..]| && ps[1..][i].partitionIndex == index && Find(ps[1..], index) == Some(ps[1..][i]);
        assert ps[i + 1] == ps[1..][i];
      }
    }
  }

  lemma EquivalentFindSame(a: seq<PartitionMetadata>, b: seq<PartitionMetadata>, index: int)
    requires Equivalent(a, b)
    ensures Find(a, index).Some? <==> Find(b, index).Some?
    ensures Find(a, index).Some? ==> Same(Find(a, index).value, Find(b, index).value)
  {
    FindIsAnEntry(a, index);
    FindIsAnEntry(b, index);
    InIndexSet(a, index);
    InIndexSet(b, index);
    if Find(a, index).Some? {
      var i :| 0 <= i < |a| && a[i].partitionIndex == index && Find(a, index) == Some(a[i]);
      var j :| 0 <= j < |b| && b[j].partitionIndex == index && Find(b, index) == Some(b[j]);
      assert Same(a[i], b[j]);
    }
  }

  /** Entry `i` is the first one with the index. */
  ghost predicate FirstAt(ps: seq<PartitionMetadata>, index: int, i: int) {
    0 <= i < |ps| && ps[i].partitionIndex == index && forall j :: 0 <= j < i ==> ps[j].partitionIndex != index
  }

  lemma {:induction false} FindIsFirst(ps: seq<PartitionMetadata>, index: int, i: int)
    requires FirstAt(ps, index, i)
    ensures Find(ps, index) == Some(ps[i])
    decreases |ps|
  {
    if i > 0 {
      FindIsFirst(ps[1..], index, i - 1);
    }
  }

  /** The loop behind `find`. */
  method FindIndex(ps: seq<PartitionMetadata>, index: int) returns (i: int)
    ensures if HasIndex(ps, index) then FirstAt(ps, index, i) else i == -1
  {
    for k := 0 to |ps|
      invariant forall j :: 0 <= j < k ==> ps[j].partitionIndex != index
    {
      if ps[k].partitionIndex == index {
        return k;
      }
    }
    return -1;
  }

  // ------------------------------------------------------------------ routing

  /** A lookup of the index answers the same leader, or finds nothing, on both lists. */
  ghost predicate SameRoute(a: seq<PartitionMetadata>, b: seq<PartitionMetadata>, index: int) {
    && (Find(a, index).Some? <==> Find(b, index).Some?)
    && (Find(a, index).Some? ==> Find(a, index).value.leaderId == Find(b, index).value.leaderId)
  }

  /** The list is safe to be taken for unchanged: no index repeats, or its entries
      contradict each other, so that it is never taken for unchanged. */
  ghost predicate Judgeable(updated: seq<PartitionMetadata>) {
    Distinct(updated) || !Unchanged(updated, updated)
  }

  lemma JudgeableRoutes(existing: seq<PartitionMetadata>, updated: seq<PartitionMetadata>, index: int)
    requires Judgeable(updated) && Unchanged(existing, updated)
    ensures Distinct(updated) && Equivalent(existing, updated) && SameRoute(existing, updated, index)
  {
    UnchangedIsConsistent(existing, updated);
    UnchangedIsEquivalent(existing, updated);
    EquivalentFindSame(existing, updated, index);
  }

  /** Above every index of the list. */
  function Above(ps: seq<PartitionMetadata>): (n: int)
    ensures forall i :: 0 <= i < |ps| ==> ps[i].partitionIndex < n
  {
    if ps == [] then 0
    else
      var n, last := Above(ps[..|ps| - 1]), ps[|ps| - 1];
      assert forall i :: 0 <= i < |ps| - 1 ==> ps[i] == ps[..|ps| - 1][i];
      if last.partitionIndex < n then n else last.partitionIndex + 1
  }

  /** The list before entry `i` took the place of another partition. */
  function Displaced(ps: seq<PartitionMetadata>, i: nat): seq<PartitionMetadata>
    requires i < |ps|
  {
    ps[i := ps[i].(partitionIndex := Above(ps))]
  }

  /** Changing the index of an entry that a later one overrides changes no other entry of
      the map. */
  lemma {:induction false} LastOfDisplaced(ps: seq<PartitionMetadata>, i: nat, j: nat, x: PartitionMetadata, index: int)
    requires i < j < |ps| && ps[i].partitionIndex == ps[j].partitionIndex && x.partitionIndex != index
    ensures var m, d := LastByIndex(ps), LastByIndex(ps[i := x]);
            (index in d <==> index in m) && (index in m ==> d[index] == m[index])
    decreases |ps|
  {
    var n := |ps| - 1;
    assert ps[i := x][..n] == ps[..n][i := x];
    if j < n {
      LastOfDisplaced(ps[..n], i, j, x, index);
    } else if ps[n].partitionIndex != index {
      LastElsewhere(ps[..n], i, x, index);
    }
  }

  lemma {:induction false} LastElsewhere(ps: seq<PartitionMetadata>, i: nat, x: PartitionMetadata, index: int)
    requires i < |ps| && ps[i].partitionIndex != index && x.partitionIndex != index
    ensures var m, d := LastByIndex(ps), LastByIndex(ps[i := x]);
            (index in d <==> index in m) && (index in m ==> d[index] == m[index])
    decreases |ps|
  {
    var n := |ps| - 1;
    if i < n {
      assert ps[i := x][..n] == ps[..n][i := x];
      LastElsewhere(ps[..n], i, x, index);
    } else {
      assert ps[i := x][..n] == ps[..n];
    }
  }

  lemma DisplacedIsUnchanged(ps: seq<PartitionMetadata>, i: nat, j: nat)
    requires i < j < |ps| && ps[i].partitionIndex == ps[j].partitionIndex && Unchanged(ps, ps)
    ensures Unchanged(Displaced(ps, i), ps)
  {
    var x := ps[i].(partitionIndex := Above(ps));
    forall k | 0 <= k < |ps| ensures FoundSame(LastByIndex(Displaced(ps, i)), ps[k]) {
      assert FoundSame(LastByIndex(ps), ps[k]);
      LastOfDisplaced(ps, i, j, x, ps[k].partitionIndex);
    }
  }

  lemma DisplacedRoutesApart(ps: seq<PartitionMetadata>, i: nat)
    requires i < |ps|
    ensures Find(Displaced(ps, i), Above(ps)).Some? && Find(ps, Above(ps)).None?
  {
    FindIsAnEntry(ps, Above(ps));
    FindIsAnEntry(Displaced(ps, i), Above(ps));
    assert Displaced(ps, i)[i].partitionIndex == Above(ps);
  }

  /** For which updated lists does "no change" mean that every lookup still answers the
      same? Exactly for those without a repeated index, and those that contradict
      themselves and are never taken for unchanged. */
  lemma RoutesStayIff(updated: seq<PartitionMetadata>)
    ensures (forall existing, index :: Unchanged(existing, updated) ==> SameRoute(existing, updated, index))
            <==> Distinct(updated) || !Unchanged(updated, updated)
  {
    if Judgeable(updated) {
      forall existing, index | Unchanged(existing, updated) ensures SameRoute(existing, updated, index) {
        JudgeableRoutes(existing, updated, index);
      }
    } else {
      var i, j := RepeatedAt(updated);
      DisplacedIsUnchanged(updated, i, j);
      DisplacedRoutesApart(updated, i);
      assert Unchanged(Displaced(updated, i), updated) && !SameRoute(Displaced(updated, i), updated, Above(updated));
    }
  }

  lemma RepeatedAt(ps: seq<PartitionMetadata>) returns (i: nat, j: nat)
    requires !Distinct(ps)
    ensures i < j < |ps| && ps[i].partitionIndex == ps[j].partitionIndex
  {
    i, j :| i < j < |ps| && ps[i].partitionIndex == ps[j].partitionIndex;
  }
}

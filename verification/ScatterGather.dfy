/** Fusing per-shard answers by distance, services/distributed_coordinator.py. */
module ScatterGather {
  import opened Prelude
  import opened StableSort

  type VectorId = string
  type Payload(==, !new)

  /** One result row; a missing distance counts as 0. */
  datatype Row = Row(id: Option<VectorId>, distance: Option<real>, payload: Payload)

  function Dist(r: Row): real {
    if r.distance.Some? then r.distance.value else 0.0
  }

  // ---------------------------------------------------------------- fusion by distance

  /** The "best" dictionary: its keys in insertion order, and its rows. */
  datatype Best = Best(order: seq<VectorId>, rows: map<VectorId, Row>)

  function Offer(b: Best, r: Row): Best {
    if r.id == None then b
    else if r.id.value !in b.rows then Best(b.order + [r.id.value], b.rows[r.id.value := r])
    else if Dist(r) < Dist(b.rows[r.id.value]) then b.(rows := b.rows[r.id.value := r])
    else b
  }

  function Collect(rows: seq<Row>): Best {
    if rows == [] then Best([], map[]) else Offer(Collect(rows[..|rows| - 1]), rows[|rows| - 1])
  }

  ghost predicate BestValid(b: Best) {
    Distinct(b.order) && ToSet(b.order) == b.rows.Keys
  }

  function Values(b: Best): (s: seq<Row>)
    requires forall id :: id in b.order ==> id in b.rows
    ensures |s| == |b.order| && forall i :: 0 <= i < |s| ==> s[i] == b.rows[b.order[i]]
  {
    seq(|b.order|, i requires 0 <= i < |b.order| => b.rows[b.order[i]])
  }

  /** The dictionary holds, for every id met, a row of that id with the smallest distance met. */
  lemma {:induction false} CollectBest(rows: seq<Row>)
    ensures BestValid(Collect(rows))
    ensures forall id :: id in Collect(rows).rows ==>
              Collect(rows).rows[id] in rows && Collect(rows).rows[id].id == Some(id)
    ensures forall r :: r in rows && r.id.Some? ==>
              r.id.value in Collect(rows).rows && Dist(Collect(rows).rows[r.id.value]) <= Dist(r)
  {
    if rows == [] {
    } else {
      var init, r := rows[..|rows| - 1], rows[|rows| - 1];
      CollectBest(init);
      assert rows == init + [r];
      var b := Collect(init);
      if r.id.Some? && r.id.value !in b.rows {
        assert r.id.value !in ToSet(b.order);
        assert ToSet(b.order + [r.id.value]) == ToSet(b.order) + {r.id.value};
      }
    }
  }

  /** Row i has the id, no row with that id is nearer, and none as near comes before it. */
  ghost predicate FirstNearest(rows: seq<Row>, id: VectorId, i: nat) {
    && i < |rows| && rows[i].id == Some(id)
    && (forall j :: 0 <= j < |rows| && rows[j].id == Some(id) ==>
          Dist(rows[i]) <= Dist(rows[j]) && (j < i ==> Dist(rows[i]) < Dist(rows[j])))
  }

  /** Of several rows with an id the first nearest one is kept. */
  lemma {:induction false} CollectFirstNearest(rows: seq<Row>, id: VectorId) returns (i: nat)
    requires id in Collect(rows).rows
    ensures FirstNearest(rows, id, i) && Collect(rows).rows[id] == rows[i]
  {
    var init, r := rows[..|rows| - 1], rows[|rows| - 1];
    var b := Collect(init);
    CollectBest(init);
    if r.id == Some(id) && (id !in b.rows || Dist(r) < Dist(b.rows[id])) {
      i := |init|;
      assert forall j :: 0 <= j < |init| && init[j].id == Some(id) ==> init[j] in init;
    } else {
      i := CollectFirstNearest(init, id);
    }
  }

  /** A row's distance as the source reads it. */
  ghost predicate AtDistance(r: Row, d: real) {
    r.distance == Some(d) || (r.distance == None && d == 0.0)
  }

  /** In terms of the distances: whatever other row has the id, it is no nearer, and farther if it comes
      before. */
  lemma KeptIsNearest(rows: seq<Row>, id: VectorId, j: nat, d: real, e: real)
    requires j < |rows| && rows[j].id == Some(id) && AtDistance(rows[j], d)
    requires id in Collect(rows).rows && AtDistance(Collect(rows).rows[id], e)
    ensures e <= d
    ensures exists i :: 0 <= i < |rows| && rows[i] == Collect(rows).rows[id] && (j < i ==> e < d)
  {
    var i := CollectFirstNearest(rows, id);
  }

  /** The ids in the order they are first met. */
  lemma {:induction false} CollectOrder(rows: seq<Row>, more: seq<Row>)
    ensures Collect(rows).order <= Collect(rows + more).order
    ensures forall id :: id in Collect(rows).order <==> exists i :: 0 <= i < |rows| && rows[i].id == Some(id)
  {
    CollectBest(rows);
    assert forall id :: id in Collect(rows).order <==> id in ToSet(Collect(rows).order);
    forall id
      ensures id in Collect(rows).rows <==> exists i :: 0 <= i < |rows| && rows[i].id == Some(id)
    {
      if i :| 0 <= i < |rows| && rows[i].id == Some(id) {
        assert rows[i] in rows;
      }
    }
    if more == [] {
      assert rows + more == rows;
    } else {
      assert (rows + more)[..|rows + more| - 1] == rows + more[..|more| - 1];
      CollectOrder(rows, more[..|more| - 1]);
    }
  }

  lemma OrderedIdsKept(rows: seq<Row>)
    ensures forall id :: id in Collect(rows).order ==> id in Collect(rows).rows
  {
    CollectBest(rows);
    assert forall id :: id in Collect(rows).order ==> id in ToSet(Collect(rows).order);
  }

  function FuseDistance(lists: seq<seq<Row>>, k: int): seq<Row> {
    var b := Collect(Flatten(lists));
    OrderedIdsKept(Flatten(lists));
    Take(SortBy(Values(b), Dist), k)
  }

  // ---------------------------------------------------------------- exactness

  ghost predicate DistinctIds(rows: seq<Row>) {
    forall i, j :: 0 <= i < j < |rows| ==> rows[i].id != rows[j].id
  }

  /** A shard's documents: each has an id, and no two share one. */
  ghost predicate Corpus(docs: seq<Row>) {
    DistinctIds(docs) && forall r :: r in docs ==> r.id.Some?
  }

  /** answer is an exact top n of docs. */
  ghost predicate ExactTop(answer: seq<Row>, docs: seq<Row>, n: nat) {
    && DistinctIds(answer)
    && (forall r :: r in answer ==> r in docs)
    && |answer| == (if n <= |docs| then n else |docs|)
    && (forall r, a :: r in docs && r !in answer && a in answer ==> Dist(a) <= Dist(r))
  }

  /** Document r is listed at its best distance, or is no nearer than anything in a full list. */
  ghost predicate Covered(fused: seq<Row>, r: Row, k: nat) {
    && (forall f :: f in fused && f.id == r.id ==> Dist(f) <= Dist(r))
    && ((forall f :: f in fused ==> f.id != r.id) ==> |fused| == k && forall f :: f in fused ==> Dist(f) <= Dist(r))
  }

  /** fused is a true top k of all documents by best distance per id: sorted, one row per id, made
      of documents, and covering every document. */
  ghost predicate GlobalTop(fused: seq<Row>, corpora: seq<seq<Row>>, k: nat) {
    && SortedBy(fused, Dist) && DistinctIds(fused) && |fused| <= k
    && (forall f :: f in fused ==> exists i :: 0 <= i < |corpora| && f in corpora[i])
    && (forall i, r :: 0 <= i < |corpora| && r in corpora[i] ==> Covered(fused, r, k))
  }

  function Ids(rows: seq<Row>): set<Option<VectorId>> {
    set r | r in rows :: r.id
  }

  lemma {:induction false} IdsSize(rows: seq<Row>)
    ensures |Ids(rows)| <= |rows|
    ensures DistinctIds(rows) ==> |Ids(rows)| == |rows|
  {
    if rows == [] {
    } else {
      var init, r := rows[..|rows| - 1], rows[|rows| - 1];
      IdsSize(init);
      assert rows == init + [r];
      assert Ids(rows) == Ids(init) + {r.id};
      if DistinctIds(rows) {
        assert r.id !in Ids(init);
      }
    }
  }

  /** Pigeonhole: k ids no farther than d fill the first k places of a sorted list. */
  lemma {:induction false} NearIdsFillPrefix(sorted: seq<Row>, ids: set<Option<VectorId>>, d: real, k: nat, j: nat)
    requires SortedBy(sorted, Dist) && |ids| >= k
    requires forall id :: id in ids ==> exists r :: r in sorted && r.id == id && Dist(r) <= d
    requires j <= |sorted| && forall i :: 0 <= i < j ==> Dist(sorted[i]) <= d
    ensures |sorted| >= k && forall i :: 0 <= i < k ==> Dist(sorted[i]) <= d
    decreases |sorted| - j
  {
    if j < |sorted| && Dist(sorted[j]) <= d {
      NearIdsFillPrefix(sorted, ids, d, k, j + 1);
    } else {
      forall id | id in ids
        ensures id in Ids(sorted[..j])
      {
        var r :| r in sorted && r.id == id && Dist(r) <= d;
        var i :| 0 <= i < |sorted| && sorted[i] == r;
        assert i < j;
        assert sorted[..j][i] == r;
      }
      SubsetSize(ids, Ids(sorted[..j]));
      IdsSize(sorted[..j]);
    }
  }

  /** What sorting the collected rows yields. */
  ghost predicate Ranking(ranked: seq<Row>, b: Best) {
    && SortedBy(ranked, Dist) && DistinctIds(ranked)
    && (forall id :: id in b.rows ==> b.rows[id].id == Some(id) && b.rows[id] in ranked)
    && (forall r :: r in ranked ==> r.id.Some? && r.id.value in b.rows && r == b.rows[r.id.value])
  }

  lemma ValuesOf(rows: seq<Row>) returns (values: seq<Row>)
    ensures forall id :: id in Collect(rows).order ==> id in Collect(rows).rows
    ensures values == Values(Collect(rows))
    ensures Distinct(values)
    ensures forall id :: id in Collect(rows).rows ==>
              Collect(rows).rows[id].id == Some(id) && Collect(rows).rows[id] in values
    ensures forall r :: r in values ==>
              r.id.Some? && r.id.value in Collect(rows).rows && r == Collect(rows).rows[r.id.value]
  {
    CollectBest(rows);
    var b := Collect(rows);
    assert forall id :: id in b.order ==> id in ToSet(b.order);
    values := Values(b);
    forall i, j | 0 <= i < j < |values|
      ensures values[i] != values[j]
    {
      assert values[i].id == Some(b.order[i]) && values[j].id == Some(b.order[j]);
    }
    forall id | id in b.rows
      ensures b.rows[id] in values
    {
      assert id in ToSet(b.order);
      var i :| 0 <= i < |b.order| && b.order[i] == id;
      assert values[i] == b.rows[id];
    }
  }

  lemma RankingOf(rows: seq<Row>) returns (ranked: seq<Row>)
    ensures forall id :: id in Collect(rows).order ==> id in Collect(rows).rows
    ensures ranked == SortBy(Values(Collect(rows)), Dist)
    ensures Ranking(ranked, Collect(rows))
  {
    var values := ValuesOf(rows);
    ranked := SortBy(values, Dist);
    SortSameElements(values, Dist);
    SortKeepsDistinct(values, Dist);
    forall i, j | 0 <= i < j < |ranked|
      ensures ranked[i].id != ranked[j].id
    {
      assert ranked[i] in values && ranked[j] in values;
    }
  }

  /** A document its own shard did not report is no nearer than the first k places. */
  lemma UnreportedIsFar(answer: seq<Row>, docs: seq<Row>, n: nat, ranked: seq<Row>, b: Best, k: nat, r: Row)
    requires Corpus(docs) && ExactTop(answer, docs, n) && k <= n
    requires r in docs && r !in answer
    requires Ranking(ranked, b)
    requires forall a :: a in answer && a.id.Some? ==> a.id.value in b.rows && Dist(b.rows[a.id.value]) <= Dist(a)
    ensures |ranked| >= k && forall i :: 0 <= i < k ==> Dist(ranked[i]) <= Dist(r)
  {
    if n > |docs| {
      AllReported(answer, docs);
    }
    forall id | id in Ids(answer)
      ensures exists x :: x in ranked && x.id == id && Dist(x) <= Dist(r)
    {
      var a :| a in answer && a.id == id;
      assert a in docs;
      assert b.rows[a.id.value] in ranked;
      assert Dist(a) <= Dist(r);
    }
    IdsSize(answer);
    NearIdsFillPrefix(ranked, Ids(answer), Dist(r), k, 0);
  }

  /** A shard with no more documents than asked for reports all of them. */
  lemma AllReported(answer: seq<Row>, docs: seq<Row>)
    requires DistinctIds(answer) && Corpus(docs) && |answer| == |docs|
    requires forall a :: a in answer ==> a in docs
    ensures forall r :: r in docs ==> r in answer
  {
    IdsSize(answer);
    IdsSize(docs);
    SubsetOfEqualSize(Ids(answer), Ids(docs));
    forall r | r in docs
      ensures r in answer
    {
      assert r.id in Ids(docs);
      var a :| a in answer && a.id == r.id;
      assert a in docs;
    }
  }

  /** Shards answering exactly: each of the lists is an exact top n of its corpus. */
  ghost predicate ShardsExact(lists: seq<seq<Row>>, corpora: seq<seq<Row>>, n: nat) {
    && |lists| == |corpora|
    && forall i :: 0 <= i < |lists| ==> Corpus(corpora[i]) && ExactTop(lists[i], corpora[i], n)
  }

  /** Fusing exact answers of at least k rows each is as good as searching all documents at once. */
  lemma FusionExact(lists: seq<seq<Row>>, corpora: seq<seq<Row>>, n: nat, k: nat)
    requires ShardsExact(lists, corpora, n) && k <= n
    ensures GlobalTop(FuseDistance(lists, k), corpora, k)
  {
    var rows := Flatten(lists);
    var b := Collect(rows);
    CollectBest(rows);
    var ranked := RankingOf(rows);
    var fused := FuseDistance(lists, k);
    assert fused <= ranked;
    PrefixTop(fused, ranked, b);
    forall f | f in fused
      ensures exists i :: 0 <= i < |corpora| && f in corpora[i]
    {
      FlattenContains(lists, f);
    }
    forall i, r | 0 <= i < |corpora| && r in corpora[i]
      ensures Covered(fused, r, k)
    {
      ReportedOrFar(lists, corpora, n, k, fused, ranked, i, r);
    }
  }

  lemma PrefixTop(fused: seq<Row>, ranked: seq<Row>, b: Best)
    requires fused <= ranked && Ranking(ranked, b)
    ensures SortedBy(fused, Dist) && DistinctIds(fused)
    ensures forall f :: f in fused ==> f in ranked
  {
    assert forall i :: 0 <= i < |fused| ==> fused[i] == ranked[i];
  }

  lemma CollectSees(lists: seq<seq<Row>>, i: nat)
    requires i < |lists|
    ensures forall a :: a in lists[i] && a.id.Some? ==>
      a.id.value in Collect(Flatten(lists)).rows && Dist(Collect(Flatten(lists)).rows[a.id.value]) <= Dist(a)
  {
    CollectBest(Flatten(lists));
    forall a | a in lists[i]
      ensures a in Flatten(lists)
    {
      FlattenContains(lists, a);
    }
  }

  lemma ReportedCovered(fused: seq<Row>, ranked: seq<Row>, b: Best, r: Row, k: nat)
    requires Ranking(ranked, b) && fused <= ranked && |fused| == if k <= |ranked| then k else |ranked|
    requires r.id.Some? && r.id.value in b.rows && Dist(b.rows[r.id.value]) <= Dist(r)
    ensures Covered(fused, r, k)
  {
    PrefixTop(fused, ranked, b);
    var best := b.rows[r.id.value];
    var p :| 0 <= p < |ranked| && ranked[p] == best;
    assert forall i :: 0 <= i < |fused| ==> fused[i] == ranked[i] && fused[i] in fused;
  }

  lemma ReportedOrFar(lists: seq<seq<Row>>, corpora: seq<seq<Row>>, n: nat, k: nat, fused: seq<Row>, ranked: seq<Row>,
                      i: nat, r: Row)
    requires ShardsExact(lists, corpora, n) && k <= n
    requires i < |corpora| && r in corpora[i]
    requires Ranking(ranked, Collect(Flatten(lists)))
    requires fused <= ranked && |fused| == if k <= |ranked| then k else |ranked|
    ensures Covered(fused, r, k)
  {
    CollectSees(lists, i);
    if r in lists[i] {
      ReportedCovered(fused, ranked, Collect(Flatten(lists)), r, k);
    } else {
      UnreportedIsFar(lists[i], corpora[i], n, ranked, Collect(Flatten(lists)), k, r);
      assert forall f :: f in fused ==> Dist(f) <= Dist(r);
    }
  }

  /** One shard's rows are offered to the dictionary. */
  method CollectList(best0: Best, list: seq<Row>, ghost done: seq<Row>) returns (best: Best)
    requires best0 == Collect(done)
    ensures best == Collect(done + list)
  {
    best := best0;
    assert done + list[..0] == done;
    for j := 0 to |list|
      invariant best == Collect(done + list[..j])
    {
      ghost var sofar := done + list[..j + 1];
      assert sofar[..|sofar| - 1] == done + list[..j];
      best := Offer(best, list[j]);
    }
    assert list[..|list|] == list;
  }

  method CollectAll(lists: seq<seq<Row>>) returns (best: Best)
    ensures best == Collect(Flatten(lists))
  {
    best := Best([], map[]);
    for i := 0 to |lists|
      invariant best == Collect(Flatten(lists[..i]))
    {
      assert lists[..i + 1][..i] == lists[..i];
      best := CollectList(best, lists[i], Flatten(lists[..i]));
    }
    assert lists[..|lists|] == lists;
  }

  /** The loops over shard lists, as run. */
  method FuseDistanceLoop(lists: seq<seq<Row>>, k: int) returns (merged: seq<Row>)
    ensures merged == FuseDistance(lists, k)
  {
    var best := CollectAll(lists);
    OrderedIdsKept(Flatten(lists));
    merged := Take(SortBy(Values(best), Dist), k);
  }
}

/** Reciprocal rank fusion, services/distributed_coordinator.py. */
module RankFusion {
  import opened Prelude
  import opened StableSort
  import opened ScatterGather

  datatype Scored = Scored(row: Row, score: real)

  /** What one list contributes to an id: 1/(c + rank + 1) wherever the id occurs. */
  function ListScore(list: seq<Row>, id: VectorId, c: nat): real {
    if list == [] then 0.0 else
      ListScore(list[..|list| - 1], id, c) +
      if list[|list| - 1].id == Some(id) then 1.0 / (c + |list|) as real else 0.0
  }

  function Score(lists: seq<seq<Row>>, id: VectorId, c: nat): real {
    if lists == [] then 0.0 else
      Score(lists[..|lists| - 1], id, c) + ListScore(lists[|lists| - 1], id, c)
  }

  /** keep.setdefault(vid, r) */
  function Keep(b: Best, r: Row): Best {
    if r.id == None || r.id.value in b.rows then b else Best(b.order + [r.id.value], b.rows[r.id.value := r])
  }

  /** The rows kept per id, in the order the ids are first met. */
  function FirstRows(rows: seq<Row>): Best {
    if rows == [] then Best([], map[]) else Keep(FirstRows(rows[..|rows| - 1]), rows[|rows| - 1])
  }

  lemma {:induction false} FirstRowsValid(rows: seq<Row>)
    ensures BestValid(FirstRows(rows))
    ensures forall id :: id in FirstRows(rows).rows <==> exists r :: r in rows && r.id == Some(id)
    ensures forall id :: id in FirstRows(rows).rows ==>
              FirstRows(rows).rows[id] in rows && FirstRows(rows).rows[id].id == Some(id)
  {
    if rows == [] {
    } else {
      var init, r := rows[..|rows| - 1], rows[|rows| - 1];
      FirstRowsValid(init);
      assert rows == init + [r];
      var b := FirstRows(init);
      if r.id.Some? && r.id.value !in b.rows {
        assert r.id.value !in ToSet(b.order);
        assert ToSet(b.order + [r.id.value]) == ToSet(b.order) + {r.id.value};
      }
    }
  }

  /** The row kept for an id is the first one that has it, and ids keep the order in which they are met. */
  lemma {:induction false} FirstRowKept(rows: seq<Row>, more: seq<Row>, i: nat)
    requires i < |rows| && rows[i].id.Some? && forall j :: 0 <= j < i ==> rows[j].id != rows[i].id
    ensures rows[i].id.value in FirstRows(rows + more).rows
    ensures FirstRows(rows + more).rows[rows[i].id.value] == rows[i]
    ensures FirstRows(rows).order <= FirstRows(rows + more).order
    decreases |rows| + |more|
  {
    if more == [] {
      assert rows + more == rows;
      var init, r := rows[..|rows| - 1], rows[|rows| - 1];
      FirstRowsValid(init);
      if i < |init| {
        assert init + [] == init;
        FirstRowKept(init, [], i);
      }
    } else {
      var all := rows + more;
      assert all[..|all| - 1] == rows + more[..|more| - 1];
      FirstRowKept(rows, more[..|more| - 1], i);
    }
  }

  function Ranked(lists: seq<seq<Row>>, c: nat): seq<VectorId> {
    SortBy(FirstRows(Flatten(lists)).order, (id: VectorId) => -Score(lists, id, c))
  }

  /** The rows of the given ids with their scores. */
  function WithScores(top: seq<VectorId>, lists: seq<seq<Row>>, c: nat): (out: seq<Scored>)
    requires forall id :: id in top ==> id in FirstRows(Flatten(lists)).rows
    ensures |out| == |top|
    ensures forall i :: 0 <= i < |out| ==>
              out[i] == Scored(FirstRows(Flatten(lists)).rows[top[i]], Score(lists, top[i], c))
  {
    var kept := FirstRows(Flatten(lists)).rows;
    seq(|top|, i requires 0 <= i < |top| => Scored(kept[top[i]], Score(lists, top[i], c)))
  }

  lemma TopIds(lists: seq<seq<Row>>, k: int, c: nat)
    ensures forall id :: id in Take(Ranked(lists, c), k) ==> id in FirstRows(Flatten(lists)).rows
  {
    RankedIds(lists, c);
    var top := Take(Ranked(lists, c), k);
    assert forall i :: 0 <= i < |top| ==> top[i] == Ranked(lists, c)[i] && top[i] in Ranked(lists, c);
  }

  function FuseRrf(lists: seq<seq<Row>>, k: int, c: nat): (out: seq<Scored>) {
    TopIds(lists, k, c);
    WithScores(Take(Ranked(lists, c), k), lists, c)
  }

  lemma FuseRrfAt(lists: seq<seq<Row>>, k: int, c: nat, i: nat)
    requires i < |Take(Ranked(lists, c), k)|
    ensures |FuseRrf(lists, k, c)| == |Take(Ranked(lists, c), k)|
    ensures FuseRrf(lists, k, c)[i].row.id == Some(Take(Ranked(lists, c), k)[i])
  {
    TopIds(lists, k, c);
    FirstRowsValid(Flatten(lists));
  }

  lemma RankedIds(lists: seq<seq<Row>>, c: nat)
    ensures forall id :: id in Ranked(lists, c) <==> id in FirstRows(Flatten(lists)).rows
  {
    FirstRowsValid(Flatten(lists));
    var order := FirstRows(Flatten(lists)).order;
    SortSameElements(order, (id: VectorId) => -Score(lists, id, c));
    assert forall id :: id in order <==> id in ToSet(order);
  }

  /** The dictionary holds the scores of the lists done, and of the part done of the next one. */
  ghost predicate Tallied(scores: map<VectorId, real>, done: seq<seq<Row>>, part: seq<Row>, c: nat) {
    forall id :: (if id in scores then scores[id] else 0.0) == Score(done, id, c) + ListScore(part, id, c)
  }

  function AddScore(scores: map<VectorId, real>, r: Row, rank: nat, c: nat): map<VectorId, real> {
    if r.id == None then scores
    else scores[r.id.value := (if r.id.value in scores then scores[r.id.value] else 0.0) + 1.0 / (c + rank + 1) as real]
  }

  lemma AddScoreTallied(scores: map<VectorId, real>, done: seq<seq<Row>>, list: seq<Row>, rank: nat, c: nat)
    requires rank < |list| && Tallied(scores, done, list[..rank], c)
    ensures Tallied(AddScore(scores, list[rank], rank, c), done, list[..rank + 1], c)
  {
    assert list[..rank + 1][..rank] == list[..rank];
  }

  lemma KeepOneMore(done: seq<Row>, list: seq<Row>, rank: nat)
    requires rank < |list|
    ensures FirstRows(done + list[..rank + 1]) == Keep(FirstRows(done + list[..rank]), list[rank])
  {
    var sofar := done + list[..rank + 1];
    assert sofar[..|sofar| - 1] == done + list[..rank];
  }

  /** One shard's list is worked into the dictionaries. */
  method AddList(list: seq<Row>, keep0: Best, scores0: map<VectorId, real>, c: nat, ghost done: seq<seq<Row>>)
    returns (keep: Best, scores: map<VectorId, real>)
    requires keep0 == FirstRows(Flatten(done)) && scores0.Keys == keep0.rows.Keys && Tallied(scores0, done, [], c)
    ensures keep == FirstRows(Flatten(done) + list) && scores.Keys == keep.rows.Keys && Tallied(scores, done, list, c)
  {
    keep, scores := keep0, scores0;
    assert Flatten(done) + list[..0] == Flatten(done) && list[..0] == [];
    for rank := 0 to |list|
      invariant keep == FirstRows(Flatten(done) + list[..rank]) && scores.Keys == keep.rows.Keys
      invariant Tallied(scores, done, list[..rank], c)
    {
      AddScoreTallied(scores, done, list, rank, c);
      KeepOneMore(Flatten(done), list, rank);
      scores := AddScore(scores, list[rank], rank, c);
      keep := Keep(keep, list[rank]);
    }
    assert list[..|list|] == list;
  }

  /** The loop over shard lists, as run. */
  method FuseRrfLoop(lists: seq<seq<Row>>, k: int, c: nat) returns (out: seq<Scored>)
    ensures out == FuseRrf(lists, k, c)
  {
    var scores: map<VectorId, real> := map[];
    var keep := Best([], map[]);
    for i := 0 to |lists|
      invariant keep == FirstRows(Flatten(lists[..i])) && scores.Keys == keep.rows.Keys
      invariant Tallied(scores, lists[..i], [], c)
    {
      assert lists[..i + 1][..i] == lists[..i];
      keep, scores := AddList(lists[i], keep, scores, c, lists[..i]);
    }
    assert lists[..|lists|] == lists;
    out := RankAndCut(lists, keep, scores, k, c);
  }

  /** Sorting by the dictionary of scores sorts by score. */
  method RankAndCut(lists: seq<seq<Row>>, keep: Best, scores: map<VectorId, real>, k: int, c: nat)
    returns (out: seq<Scored>)
    requires keep == FirstRows(Flatten(lists)) && scores.Keys == keep.rows.Keys
    requires forall id :: id in scores ==> scores[id] == Score(lists, id, c)
    ensures out == FuseRrf(lists, k, c)
  {
    RankedByDictionary(lists, keep, scores, c);
    TopIds(lists, k, c);
    var top := Take(SortBy(keep.order, (id: VectorId) => if id in scores then -scores[id] else 0.0), k);
    out := CutRows(top, lists, keep, scores, c);
  }

  method CutRows(top: seq<VectorId>, ghost lists: seq<seq<Row>>, keep: Best, scores: map<VectorId, real>, ghost c: nat)
    returns (out: seq<Scored>)
    requires keep == FirstRows(Flatten(lists)) && scores.Keys == keep.rows.Keys
    requires forall id :: id in scores ==> scores[id] == Score(lists, id, c)
    requires forall id :: id in top ==> id in keep.rows
    ensures out == WithScores(top, lists, c)
  {
    out := [];
    for i := 0 to |top|
      invariant |out| == i && forall x :: 0 <= x < i ==> out[x] == Scored(keep.rows[top[x]], scores[top[x]])
    {
      out := out + [Scored(keep.rows[top[i]], scores[top[i]])];
    }
  }

  lemma RankedByDictionary(lists: seq<seq<Row>>, keep: Best, scores: map<VectorId, real>, c: nat)
    requires keep == FirstRows(Flatten(lists)) && scores.Keys == keep.rows.Keys
    requires forall id :: id in scores ==> scores[id] == Score(lists, id, c)
    ensures SortBy(keep.order, (id: VectorId) => if id in scores then -scores[id] else 0.0) == Ranked(lists, c)
  {
    FirstRowsValid(Flatten(lists));
    assert forall id :: id in keep.order ==> id in ToSet(keep.order);
    SortByAgrees(keep.order, (id: VectorId) => if id in scores then -scores[id] else 0.0,
                 (id: VectorId) => -Score(lists, id, c));
  }

  /** Taking one list out of the sum. */
  lemma {:induction false} ScoreWithout(lists: seq<seq<Row>>, i: nat, id: VectorId, c: nat)
    requires i < |lists|
    ensures Score(lists, id, c) == Score(lists[..i] + lists[i + 1..], id, c) + ListScore(lists[i], id, c)
  {
    var init, rest := lists[..|lists| - 1], lists[..i] + lists[i + 1..];
    if i == |lists| - 1 {
      assert rest == init;
    } else {
      ScoreWithout(init, i, id, c);
      assert rest[..|rest| - 1] == init[..i] + init[i + 1..];
    }
  }

  /** Scores do not depend on the order in which the shards are taken. */
  lemma {:induction false} ScoreOrderIndependent(a: seq<seq<Row>>, b: seq<seq<Row>>, id: VectorId, c: nat)
    requires multiset(a) == multiset(b)
    ensures Score(a, id, c) == Score(b, id, c)
    decreases |a|
  {
    assert |a| == |multiset(a)| == |b|;
    if a == [] {
    } else {
      var i := RemoveCommon(a, b);
      ScoreWithout(b, i, id, c);
      ScoreOrderIndependent(a[..|a| - 1], b[..i] + b[i + 1..], id, c);
    }
  }

  /** The lists add up. */
  lemma {:induction false} ScoreAdds(a: seq<seq<Row>>, b: seq<seq<Row>>, id: VectorId, c: nat)
    ensures Score(a + b, id, c) == Score(a, id, c) + Score(b, id, c)
  {
    if b == [] {
      assert a + b == a;
    } else {
      assert (a + b)[..|a + b| - 1] == a + b[..|b| - 1];
      ScoreAdds(a, b[..|b| - 1], id, c);
    }
  }

  /** Listed once, at rank i counted from 0, an id scores 1 / (c + i + 1); not listed, nothing. */
  lemma {:induction false} ScoreOfRank(list: seq<Row>, i: nat, id: VectorId, c: nat)
    requires forall j :: 0 <= j < |list| ==> (list[j].id == Some(id) <==> j == i)
    ensures Score([list], id, c) == ListScore(list, id, c) == if i < |list| then 1.0 / (c + i + 1) as real else 0.0
  {
    assert [list][..0] == [] && Score([], id, c) == 0.0;
    if list == [] {
    } else {
      ScoreOfRank(list[..|list| - 1], i, id, c);
    }
  }

  ghost predicate Lists(list: seq<Row>, id: VectorId) {
    exists i :: 0 <= i < |list| && list[i].id == Some(id)
  }

  /** How often the list names the id. */
  function Count(list: seq<Row>, id: VectorId): nat {
    if list == [] then 0 else Count(list[..|list| - 1], id) + if list[|list| - 1].id == Some(id) then 1 else 0
  }

  lemma {:induction false} CountsIfListed(list: seq<Row>, id: VectorId)
    ensures Count(list, id) > 0 <==> Lists(list, id)
  {
    if list == [] {
    } else {
      var init := list[..|list| - 1];
      CountsIfListed(init, id);
      if i :| 0 <= i < |init| && init[i].id == Some(id) {
        assert list[i].id == Some(id);
      }
      if i :| 0 <= i < |list| && list[i].id == Some(id) {
        assert i < |init| ==> init[i].id == Some(id);
      }
    }
  }

  /** Read from the front, the list has at no point named y more often than x. */
  ghost predicate Leads(list: seq<Row>, x: VectorId, y: VectorId) {
    forall k :: 0 <= k <= |list| ==> Count(list[..k], x) >= Count(list[..k], y)
  }

  // ---------------------------------------------------------------- reading the lists row by row

  /** What the shards return when each is asked for n rows. */
  function Tops(lists: seq<seq<Row>>, n: nat): (tops: seq<seq<Row>>)
    ensures |tops| == |lists| && forall i :: 0 <= i < |lists| ==> tops[i] == Take(lists[i], n)
  {
    seq(|lists|, i requires 0 <= i < |lists| => Take(lists[i], n))
  }

  /** How often the first n rows of the lists name the id. */
  function CountTo(lists: seq<seq<Row>>, n: nat, id: VectorId): nat {
    if lists == [] then 0 else
      CountTo(lists[..|lists| - 1], n, id) + Count(Take(lists[|lists| - 1], n), id)
  }

  /** Read row by row, the first rows of all lists before the second ones, the lists have at no depth named
      y more often than x. */
  ghost predicate Ahead(lists: seq<seq<Row>>, x: VectorId, y: VectorId) {
    forall n: nat :: CountTo(lists, n, x) >= CountTo(lists, n, y)
  }

  /** At some depth they have named x more often. */
  ghost predicate Preferred(lists: seq<seq<Row>>, x: VectorId, y: VectorId) {
    exists n: nat :: CountTo(lists, n, x) > CountTo(lists, n, y)
  }

  lemma TopsInit(lists: seq<seq<Row>>, n: nat)
    requires lists != []
    ensures Tops(lists, n)[..|lists| - 1] == Tops(lists[..|lists| - 1], n)
  {
  }

  /** Deeper than every list there is nothing more. */
  function Deepest(lists: seq<seq<Row>>): (n: nat)
    ensures forall i :: 0 <= i < |lists| ==> |lists[i]| <= n
  {
    if lists == [] then 0 else
      var before, last := Deepest(lists[..|lists| - 1]), |lists[|lists| - 1]|;
      assert forall i :: 0 <= i < |lists| - 1 ==> |lists[i]| == |lists[..|lists| - 1][i]|;
      if before >= last then before else last
  }

  lemma TopsAll(lists: seq<seq<Row>>)
    ensures Tops(lists, Deepest(lists)) == lists
  {
  }

  // ---------------------------------------------------------------- any falling weights

  /** What the row after so many others is worth. */
  type Weights = nat -> real

  ghost predicate Falling(w: Weights) {
    && (forall n: nat :: w(n) > 0.0)
    && (forall m: nat, n: nat | m < n :: w(n) < w(m))
  }

  function Weigh(list: seq<Row>, id: VectorId, w: Weights): real {
    if list == [] then 0.0 else
      Weigh(list[..|list| - 1], id, w) + if list[|list| - 1].id == Some(id) then w(|list| - 1) else 0.0
  }

  function WeighTo(lists: seq<seq<Row>>, n: nat, id: VectorId, w: Weights): real {
    if lists == [] then 0.0 else
      WeighTo(lists[..|lists| - 1], n, id, w) + Weigh(Take(lists[|lists| - 1], n), id, w)
  }

  /** What so many rows of the same weight are worth; for fewer than none, what is missing. */
  function Worth(rows: int, w: real): real
    decreases if rows < 0 then -rows else rows
  {
    if rows == 0 then 0.0 else if rows > 0 then Worth(rows - 1, w) + w else Worth(rows + 1, w) - w
  }

  lemma {:induction false} WorthAdds(a: int, b: int, w: real)
    ensures Worth(a, w) + Worth(b, w) == Worth(a + b, w)
    decreases if b < 0 then -b else b
  {
    if b == 0 {
    } else if b > 0 {
      WorthAdds(a, b - 1, w);
    } else {
      WorthAdds(a, b + 1, w);
    }
  }

  lemma {:induction false} WorthFalls(rows: nat, v: real, w: real)
    requires w <= v
    ensures Worth(rows, v) >= Worth(rows, w)
    ensures rows > 0 && w < v ==> Worth(rows, v) > Worth(rows, w)
  {
    if rows == 0 {
    } else {
      WorthFalls(rows - 1, v, w);
    }
  }

  lemma {:induction false} WorthNonNegative(rows: nat, w: real)
    requires w >= 0.0
    ensures Worth(rows, w) >= 0.0
  {
    if rows == 0 {
    } else {
      WorthNonNegative(rows - 1, w);
    }
  }

  lemma {:induction false} WorthIsProduct(rows: nat, w: real)
    ensures Worth(rows, w) == rows as real * w
  {
    if rows == 0 {
    } else {
      WorthIsProduct(rows - 1, w);
      Distributes((rows - 1) as real, 1.0, w);
    }
  }

  lemma Distributes(a: real, b: real, w: real)
    ensures (a + b) * w == a * w + b * w
  {
  }

  lemma ListDeeper(list: seq<Row>, n: nat, id: VectorId, w: Weights)
    ensures
      var more := Count(Take(list, n + 1), id) - Count(Take(list, n), id);
      more >= 0 && Gains(Weigh(Take(list, n), id, w), Weigh(Take(list, n + 1), id, w), more, w(n))
  {
    if n < |list| {
      assert list[..n + 1][..n] == list[..n];
    } else {
      assert Take(list, n + 1) == Take(list, n);
    }
  }

  /** How many lists name the id in the row after n others. */
  function More(lists: seq<seq<Row>>, n: nat, id: VectorId): int {
    CountTo(lists, n + 1, id) - CountTo(lists, n, id)
  }

  /** The total goes up by so many rows of one weight. */
  predicate Gains(total: real, total': real, rows: int, w: real) {
    total' == total + Worth(rows, w)
  }

  lemma GainsAdd(a: real, a': real, m: int, b: real, b': real, n: int, w: real)
    requires Gains(a, a', m, w) && Gains(b, b', n, w)
    ensures Gains(a + b, a' + b', m + n, w) && Gains(a - b, a' - b', m - n, w)
  {
    WorthAdds(m, n, w);
    WorthAdds(m - n, n, w);
  }

  /** Asking every shard for one more row adds a weight per list that names the id there. */
  lemma {:induction false} Deeper(lists: seq<seq<Row>>, n: nat, id: VectorId, w: Weights)
    ensures More(lists, n, id) >= 0
    ensures Gains(WeighTo(lists, n, id, w), WeighTo(lists, n + 1, id, w), More(lists, n, id), w(n))
  {
    if lists == [] {
    } else {
      var init, last := lists[..|lists| - 1], lists[|lists| - 1];
      Deeper(init, n, id, w);
      ListDeeper(last, n, id, w);
      GainsAdd(WeighTo(init, n, id, w), WeighTo(init, n + 1, id, w), More(init, n, id),
               Weigh(Take(last, n), id, w), Weigh(Take(last, n + 1), id, w),
               Count(Take(last, n + 1), id) - Count(Take(last, n), id), w(n));
    }
  }

  lemma {:induction false} NothingAsked(lists: seq<seq<Row>>, id: VectorId, w: Weights)
    ensures CountTo(lists, 0, id) == 0 && WeighTo(lists, 0, id, w) == 0.0
  {
    if lists == [] {
    } else {
      NothingAsked(lists[..|lists| - 1], id, w);
      assert Take(lists[|lists| - 1], 0) == [];
    }
  }

  function Lead(lists: seq<seq<Row>>, n: nat, x: VectorId, y: VectorId): int {
    CountTo(lists, n, x) - CountTo(lists, n, y)
  }

  function Gap(lists: seq<seq<Row>>, n: nat, x: VectorId, y: VectorId, w: Weights): real {
    WeighTo(lists, n, x, w) - WeighTo(lists, n, y, w)
  }

  lemma GapStep(lists: seq<seq<Row>>, n: nat, x: VectorId, y: VectorId, w: Weights)
    ensures Gains(Gap(lists, n, x, y, w), Gap(lists, n + 1, x, y, w),
                  Lead(lists, n + 1, x, y) - Lead(lists, n, x, y), w(n))
  {
    Deeper(lists, n, x, w);
    Deeper(lists, n, y, w);
    GainsAdd(WeighTo(lists, n, x, w), WeighTo(lists, n + 1, x, w), More(lists, n, x),
             WeighTo(lists, n, y, w), WeighTo(lists, n + 1, y, w), More(lists, n, y), w(n));
  }

  /** The gap is what the lead is worth, or more; more only if strict. */
  predicate Covers(gap: real, lead: int, w: real, strict: bool) {
    if strict then gap > Worth(lead, w) else gap >= Worth(lead, w)
  }

  lemma CoversNext(gap: real, gap': real, lead: int, lead': int, v: real, w: real, strict: bool)
    requires Covers(gap, lead, v, strict) && Gains(gap, gap', lead' - lead, v) && lead' >= 0 && w < v
    ensures Covers(gap', lead', w, strict || lead' > 0)
  {
    WorthAdds(lead' - lead, lead, v);
    WorthFalls(lead', v, w);
  }

  ghost predicate HasLed(lists: seq<seq<Row>>, n: nat, x: VectorId, y: VectorId) {
    exists m: nat :: m <= n && Lead(lists, m, x, y) > 0
  }

  lemma LeadsOn(lists: seq<seq<Row>>, n: nat, x: VectorId, y: VectorId)
    requires Ahead(lists, x, y)
    ensures Lead(lists, n + 1, x, y) >= 0
    ensures HasLed(lists, n + 1, x, y) <==> HasLed(lists, n, x, y) || Lead(lists, n + 1, x, y) > 0
  {
    assert CountTo(lists, n + 1, x) >= CountTo(lists, n + 1, y);
  }

  /** The gap in score is at least the lead in counts at the weight of the next row, and more than that once
      there has been a lead. */
  lemma {:induction false} GapCoversLead(lists: seq<seq<Row>>, n: nat, x: VectorId, y: VectorId, w: Weights)
    requires Ahead(lists, x, y) && Falling(w)
    ensures Covers(Gap(lists, n, x, y, w), Lead(lists, n, x, y), w(n), HasLed(lists, n, x, y))
  {
    if n == 0 {
      NoGap(lists, x, y, w);
    } else {
      GapCoversLead(lists, n - 1, x, y, w);
      LeadsOn(lists, n - 1, x, y);
      GapStep(lists, n - 1, x, y, w);
      CoversNext(Gap(lists, n - 1, x, y, w), Gap(lists, n, x, y, w), Lead(lists, n - 1, x, y), Lead(lists, n, x, y),
                 w(n - 1), w(n), HasLed(lists, n - 1, x, y));
    }
  }

  lemma NoGap(lists: seq<seq<Row>>, x: VectorId, y: VectorId, w: Weights)
    ensures Covers(Gap(lists, 0, x, y, w), Lead(lists, 0, x, y), w(0), HasLed(lists, 0, x, y))
  {
    NothingAsked(lists, x, w);
    NothingAsked(lists, y, w);
  }

  /** An id ahead scores at least as much at every depth, and more from where it first leads. */
  lemma AheadWeighsMore(lists: seq<seq<Row>>, n: nat, x: VectorId, y: VectorId, w: Weights)
    requires Ahead(lists, x, y) && Falling(w)
    ensures WeighTo(lists, n, x, w) >= WeighTo(lists, n, y, w)
    ensures HasLed(lists, n, x, y) ==> WeighTo(lists, n, x, w) > WeighTo(lists, n, y, w)
  {
    GapCoversLead(lists, n, x, y, w);
    assert CountTo(lists, n, x) >= CountTo(lists, n, y);
    WorthNonNegative(Lead(lists, n, x, y), w(n));
  }

  /** So many rows are worth this much if each is worth between lo and hi. */
  predicate Within(total: real, rows: int, lo: real, hi: real) {
    Worth(rows, lo) <= total <= Worth(rows, hi)
  }

  lemma WithinNext(total: real, total': real, rows: int, more: int, lo: real, w: real, hi: real)
    requires Within(total, rows, lo, hi) && Gains(total, total', more, w) && more >= 0 && lo <= w <= hi
    ensures Within(total', rows + more, lo, hi)
  {
    WorthFalls(more, w, lo);
    WorthFalls(more, hi, w);
    WorthAdds(rows, more, lo);
    WorthAdds(rows, more, hi);
  }

  /** Every row within the first n is worth between the last weight and the first. */
  lemma {:induction false} WeightBounds(lists: seq<seq<Row>>, m: nat, n: nat, id: VectorId, w: Weights)
    requires m <= n && Falling(w)
    ensures Within(WeighTo(lists, m, id, w), CountTo(lists, m, id), w(n), w(0))
  {
    if m == 0 {
      NothingAsked(lists, id, w);
    } else {
      WeightBounds(lists, m - 1, n, id, w);
      Deeper(lists, m - 1, id, w);
      WithinNext(WeighTo(lists, m - 1, id, w), WeighTo(lists, m, id, w),
                 CountTo(lists, m - 1, id), More(lists, m - 1, id), w(n), w(m - 1), w(0));
    }
  }

  // ---------------------------------------------------------------- who can be outscored

  function Weight(c: nat, n: nat): (w: real)
    ensures w > 0.0
  {
    1.0 / (c + n + 1) as real
  }

  function Reciprocals(c: nat): (w: Weights)
    ensures forall n: nat :: w(n) == Weight(c, n)
  {
    (n: nat) => Weight(c, n)
  }

  lemma ReciprocalsFall(c: nat)
    ensures Falling(Reciprocals(c))
  {
    forall m: nat, n: nat | m < n
      ensures Weight(c, n) < Weight(c, m)
    {
      WeightFalls(c, m, n);
    }
  }

  lemma WeightFalls(c: nat, m: nat, n: nat)
    requires m < n
    ensures Weight(c, n) < Weight(c, m)
  {
    var x, y := (c + m + 1) as real, (c + n + 1) as real;
    assert 1.0 / x - 1.0 / y == (y - x) / (x * y);
  }

  lemma {:induction false} ListScoreWeighs(list: seq<Row>, id: VectorId, c: nat)
    ensures ListScore(list, id, c) == Weigh(list, id, Reciprocals(c))
  {
    if list == [] {
    } else {
      ListScoreWeighs(list[..|list| - 1], id, c);
    }
  }

  lemma {:induction false} ScoreWeighs(lists: seq<seq<Row>>, n: nat, id: VectorId, c: nat)
    ensures Score(Tops(lists, n), id, c) == WeighTo(lists, n, id, Reciprocals(c))
  {
    if lists == [] {
    } else {
      ScoreWeighs(lists[..|lists| - 1], n, id, c);
      TopsInit(lists, n);
      ListScoreWeighs(Take(lists[|lists| - 1], n), id, c);
    }
  }

  lemma AheadScoresAt(lists: seq<seq<Row>>, n: nat, x: VectorId, y: VectorId, c: nat)
    requires Ahead(lists, x, y)
    ensures Score(Tops(lists, n), x, c) >= Score(Tops(lists, n), y, c)
    ensures HasLed(lists, n, x, y) ==> Score(Tops(lists, n), x, c) > Score(Tops(lists, n), y, c)
  {
    ReciprocalsFall(c);
    AheadWeighsMore(lists, n, x, y, Reciprocals(c));
    ScoreWeighs(lists, n, x, c);
    ScoreWeighs(lists, n, y, c);
  }

  /** With a constant of a * n, one row more among the first n outweighs every gain in rank. */
  lemma FlatWeights(a: nat, b: nat, n: nat)
    requires a < b
    ensures Worth(a, Weight(a * n, 0)) < Worth(b, Weight(a * n, n))
  {
    var c := a * n;
    var u, v := (c + 1) as real, (c + n + 1) as real;
    assert a * (c + n + 1) < b * (c + 1) by {
      assert a * (c + n + 1) == a * c + c + a;
      assert b * (c + 1) >= (a + 1) * (c + 1) == a * c + c + a + 1;
    }
    assert a as real * v < b as real * u;
    CrossMultiply(a as real, b as real, u, v);
    WorthIsProduct(a, Weight(c, 0));
    WorthIsProduct(b, Weight(c, n));
  }

  lemma CrossMultiply(a: real, b: real, u: real, v: real)
    requires u > 0.0 && v > 0.0 && a * v < b * u
    ensures a * (1.0 / u) < b * (1.0 / v)
  {
    assert a * (1.0 / u) == a / u && b * (1.0 / v) == b / v;
    assert b / v - a / u == (b * u - a * v) / (u * v);
  }

  /** An id behind in counts at depth n is outscored there once the constant is large enough. */
  lemma BehindIsOutscored(lists: seq<seq<Row>>, n: nat, x: VectorId, y: VectorId) returns (c: nat)
    requires CountTo(lists, n, x) < CountTo(lists, n, y)
    ensures Score(Tops(lists, n), x, c) < Score(Tops(lists, n), y, c)
  {
    FlatWeights(CountTo(lists, n, x), CountTo(lists, n, y), n);
    c := CountTo(lists, n, x) * n;
    BoundsDecide(lists, n, x, y, c);
  }

  lemma BoundsDecide(lists: seq<seq<Row>>, n: nat, x: VectorId, y: VectorId, c: nat)
    requires Worth(CountTo(lists, n, x), Weight(c, 0)) < Worth(CountTo(lists, n, y), Weight(c, n))
    ensures Score(Tops(lists, n), x, c) < Score(Tops(lists, n), y, c)
  {
    ReciprocalsFall(c);
    WeightBounds(lists, n, n, x, Reciprocals(c));
    WeightBounds(lists, n, n, y, Reciprocals(c));
    ScoreWeighs(lists, n, x, c);
    ScoreWeighs(lists, n, y, c);
  }

  /** Asked for n rows each, the shards make y outscore x. */
  ghost predicate Outscores(lists: seq<seq<Row>>, n: nat, c: nat, y: VectorId, x: VectorId) {
    Score(Tops(lists, n), y, c) > Score(Tops(lists, n), x, c)
  }

  /** y outscores x for no depth and no constant if and only if x is ahead of it. */
  lemma NeverOutscoredExactly(lists: seq<seq<Row>>, x: VectorId, y: VectorId)
    ensures (forall n: nat, c: nat :: !Outscores(lists, n, c, y, x)) <==> Ahead(lists, x, y)
  {
    if Ahead(lists, x, y) {
      forall n: nat, c: nat
        ensures !Outscores(lists, n, c, y, x)
      {
        AheadScoresAt(lists, n, x, y, c);
      }
    } else {
      var n: nat :| CountTo(lists, n, x) < CountTo(lists, n, y);
      var c := BehindIsOutscored(lists, n, x, y);
      assert Outscores(lists, n, c, y, x);
    }
  }

  lemma TopsOfOne(list: seq<Row>, n: nat, id: VectorId, c: nat)
    ensures Score(Tops([list], n), id, c) == ListScore(Take(list, n), id, c)
    ensures CountTo([list], n, id) == Count(Take(list, n), id)
  {
    assert Tops([list], n) == [Take(list, n)];
    assert [Take(list, n)][..0] == [];
    assert Score([], id, c) == 0.0 && CountTo([list][..0], n, id) == 0;
  }

  lemma OneListAhead(list: seq<Row>, x: VectorId, y: VectorId)
    ensures Ahead([list], x, y) <==> Leads(list, x, y)
  {
    forall n: nat
      ensures CountTo([list], n, x) == Count(Take(list, n), x)
      ensures CountTo([list], n, y) == Count(Take(list, n), y)
    {
      TopsOfOne(list, n, x, 0);
      TopsOfOne(list, n, y, 0);
    }
    if Ahead([list], x, y) {
      forall k | 0 <= k <= |list|
        ensures Count(list[..k], x) >= Count(list[..k], y)
      {
        assert Take(list, k) == list[..k];
        assert CountTo([list], k, x) >= CountTo([list], k, y);
      }
    }
    if Leads(list, x, y) {
      forall n: nat
        ensures CountTo([list], n, x) >= CountTo([list], n, y)
      {
        assert Take(list, n) == list[..if n <= |list| then n else |list|];
      }
    }
  }

  /** The same of a single list: wherever it is cut off, and for every constant. */
  lemma LeadsExactly(list: seq<Row>, x: VectorId, y: VectorId)
    ensures (forall k: nat, c: nat | k <= |list| :: ListScore(list[..k], x, c) >= ListScore(list[..k], y, c)) <==>
            Leads(list, x, y)
  {
    OneListAhead(list, x, y);
    NeverOutscoredExactly([list], x, y);
    if Leads(list, x, y) {
      forall k: nat, c: nat | k <= |list|
        ensures ListScore(list[..k], x, c) >= ListScore(list[..k], y, c)
      {
        assert !Outscores([list], k, c, y, x);
        OutscoresInOne(list, k, c, y, x);
      }
    } else {
      var n: nat, c: nat :| Outscores([list], n, c, y, x);
      OutscoresInOne(list, n, c, y, x);
    }
  }

  lemma OutscoresInOne(list: seq<Row>, n: nat, c: nat, y: VectorId, x: VectorId)
    ensures
      var k := if n <= |list| then n else |list|;
      Outscores([list], n, c, y, x) <==> ListScore(list[..k], y, c) > ListScore(list[..k], x, c)
  {
    TopsOfOne(list, n, x, c);
    TopsOfOne(list, n, y, c);
    assert Take(list, n) == list[..if n <= |list| then n else |list|];
  }

  lemma {:induction false} ManyAhead(lists: seq<seq<Row>>, n: nat, x: VectorId, y: VectorId)
    requires forall i :: 0 <= i < |lists| ==> Leads(lists[i], x, y)
    ensures CountTo(lists, n, x) >= CountTo(lists, n, y)
    ensures (exists i :: 0 <= i < |lists| && Count(Take(lists[i], n), x) > Count(Take(lists[i], n), y)) ==>
              CountTo(lists, n, x) > CountTo(lists, n, y)
  {
    if lists == [] {
    } else {
      var init, last := lists[..|lists| - 1], lists[|lists| - 1];
      TopsInit(lists, n);
      ManyAhead(init, n, x, y);
      assert Take(last, n) == last[..if n <= |last| then n else |last|];
      if i :| 0 <= i < |lists| && Count(Take(lists[i], n), x) > Count(Take(lists[i], n), y) {
        assert i < |init| ==> init[i] == lists[i];
      }
    }
  }

  /** Where a list first names y, one that x leads has named x before. */
  lemma LeadsFirst(list: seq<Row>, x: VectorId, y: VectorId) returns (n: nat)
    requires Leads(list, x, y) && Lists(list, y) && x != y
    ensures Count(Take(list, n), x) > Count(Take(list, n), y)
  {
    var j: nat := 0;
    while j < |list| && list[j].id != Some(y)
      invariant j <= |list| && forall i :: 0 <= i < j ==> list[i].id != Some(y)
    {
      j := j + 1;
    }
    n := j;
    CountsIfListed(list[..j], y);
    assert list[..j + 1][..j] == list[..j];
    assert Count(list[..j + 1], x) >= Count(list[..j + 1], y);
  }

  /** What every list prefers is ahead, and preferred if any of them names the other id. */
  lemma UnanimousAhead(lists: seq<seq<Row>>, x: VectorId, y: VectorId)
    requires x != y && forall i :: 0 <= i < |lists| ==> Leads(lists[i], x, y)
    ensures Ahead(lists, x, y)
    ensures (exists i :: 0 <= i < |lists| && Lists(lists[i], y)) ==> Preferred(lists, x, y)
  {
    forall n: nat
      ensures CountTo(lists, n, x) >= CountTo(lists, n, y)
    {
      ManyAhead(lists, n, x, y);
    }
    if i :| 0 <= i < |lists| && Lists(lists[i], y) {
      var n := LeadsFirst(lists[i], x, y);
      ManyAhead(lists, n, x, y);
    }
  }

  /** No id occurs twice in a list; rows without an id may. */
  ghost predicate NoIdTwice(list: seq<Row>) {
    forall i, j :: 0 <= i < j < |list| && list[i].id.Some? ==> list[i].id != list[j].id
  }

  /** x occurs before y. */
  ghost predicate Precedes(list: seq<Row>, x: VectorId, y: VectorId) {
    exists i, j :: 0 <= i < j < |list| && list[i].id == Some(x) && list[j].id == Some(y)
  }

  lemma {:induction false} CountsOnce(list: seq<Row>, id: VectorId)
    requires NoIdTwice(list)
    ensures Count(list, id) <= 1
  {
    if list == [] {
    } else {
      var init := list[..|list| - 1];
      CountsOnce(init, id);
      CountsIfListed(init, id);
      if i :| 0 <= i < |init| && init[i].id == Some(id) {
        assert list[i].id == Some(id);
      }
    }
  }

  lemma FirstBefore(list: seq<Row>, x: VectorId, y: VectorId, k: nat, j: nat)
    requires NoIdTwice(list) && j < k <= |list| && list[j].id == Some(y) && (Lists(list, y) ==> Precedes(list, x, y))
    ensures Lists(list[..k], x)
  {
    var i, j' :| 0 <= i < j' < |list| && list[i].id == Some(x) && list[j'].id == Some(y);
    assert j' == j by {
      assert list[j].id.Some? && list[j'].id.Some?;
    }
    assert list[..k][i].id == Some(x);
  }

  /** In a list that names no id twice, to lead is to come first wherever y comes at all. */
  lemma PrecedesLeads(list: seq<Row>, x: VectorId, y: VectorId)
    requires NoIdTwice(list) && (Lists(list, y) ==> Precedes(list, x, y))
    ensures Leads(list, x, y)
  {
    forall k | 0 <= k <= |list|
      ensures Count(list[..k], x) >= Count(list[..k], y)
    {
      CountsOnce(list[..k], y);
      CountsIfListed(list[..k], y);
      CountsIfListed(list[..k], x);
      if j: nat :| j < k && list[..k][j].id == Some(y) {
        assert list[j].id == Some(y);
        FirstBefore(list, x, y, k, j);
      }
    }
  }

  lemma {:induction false} NothingDeeper(lists: seq<seq<Row>>, m: nat, n: nat, id: VectorId)
    requires m >= n && forall i :: 0 <= i < |lists| ==> |lists[i]| <= n
    ensures CountTo(lists, m, id) == CountTo(lists, n, id)
  {
    if lists == [] {
    } else {
      NothingDeeper(lists[..|lists| - 1], m, n, id);
    }
  }

  lemma PreferredHasLed(lists: seq<seq<Row>>, x: VectorId, y: VectorId)
    requires Preferred(lists, x, y)
    ensures HasLed(lists, Deepest(lists), x, y)
  {
    var m: nat :| CountTo(lists, m, x) > CountTo(lists, m, y);
    var n := Deepest(lists);
    if m > n {
      NothingDeeper(lists, m, n, x);
      NothingDeeper(lists, m, n, y);
      assert Lead(lists, n, x, y) > 0;
    } else {
      assert Lead(lists, m, x, y) > 0;
    }
  }

  /** Among two ids one of which is ahead, that one scores more if and only if it is preferred somewhere;
      otherwise the two score the same. */
  lemma AheadScoresMore(lists: seq<seq<Row>>, x: VectorId, y: VectorId, c: nat)
    requires Ahead(lists, x, y)
    ensures Score(lists, x, c) > Score(lists, y, c) <==> Preferred(lists, x, y)
    ensures Score(lists, x, c) >= Score(lists, y, c)
  {
    TopsAll(lists);
    AheadScoresAt(lists, Deepest(lists), x, y, c);
    if Preferred(lists, x, y) {
      PreferredHasLed(lists, x, y);
    } else {
      assert Ahead(lists, y, x);
      AheadScoresAt(lists, Deepest(lists), y, x, c);
    }
  }

  /** To score is to be listed. */
  lemma {:induction false} ListScoreNonNegative(list: seq<Row>, id: VectorId, c: nat)
    ensures ListScore(list, id, c) >= 0.0
    ensures ListScore(list, id, c) > 0.0 <==> Lists(list, id)
  {
    if list == [] {
    } else {
      var init := list[..|list| - 1];
      ListScoreNonNegative(init, id, c);
      if i :| 0 <= i < |init| && init[i].id == Some(id) {
        assert list[i].id == Some(id);
      }
      if i :| 0 <= i < |list| && list[i].id == Some(id) {
        assert i < |init| ==> init[i].id == Some(id);
      }
    }
  }

  lemma {:induction false} ScoreNonNegative(lists: seq<seq<Row>>, id: VectorId, c: nat)
    ensures Score(lists, id, c) >= 0.0
    ensures Score(lists, id, c) > 0.0 <==> exists i :: 0 <= i < |lists| && Lists(lists[i], id)
  {
    if lists == [] {
    } else {
      var init := lists[..|lists| - 1];
      ScoreNonNegative(init, id, c);
      ListScoreNonNegative(lists[|lists| - 1], id, c);
      if i :| 0 <= i < |init| && Lists(init[i], id) {
        assert Lists(lists[i], id);
      }
      if i :| 0 <= i < |lists| && Lists(lists[i], id) {
        assert i < |init| ==> Lists(init[i], id);
      }
    }
  }

  lemma RankedIfScored(lists: seq<seq<Row>>, c: nat, id: VectorId)
    ensures id in Ranked(lists, c) <==> Score(lists, id, c) > 0.0
  {
    var rows := Flatten(lists);
    RankedIds(lists, c);
    FirstRowsValid(rows);
    ScoreNonNegative(lists, id, c);
    if r :| r in rows && r.id == Some(id) {
      FlattenContains(lists, r);
      var l :| 0 <= l < |lists| && r in lists[l];
      assert Lists(lists[l], id);
    }
    if l :| 0 <= l < |lists| && Lists(lists[l], id) {
      var i :| 0 <= i < |lists[l]| && lists[l][i].id == Some(id);
      FlattenContains(lists, lists[l][i]);
    }
  }

  /** r is the first row with its id. */
  ghost predicate FirstOfId(rows: seq<Row>, r: Row) {
    exists j :: 0 <= j < |rows| && rows[j] == r && forall h :: 0 <= h < j ==> rows[h].id != r.id
  }

  /** What is fused: the first row of an id met, with the id's score. */
  lemma FusedRow(lists: seq<seq<Row>>, k: int, c: nat, i: nat)
    requires i < |FuseRrf(lists, k, c)|
    ensures
      var r := FuseRrf(lists, k, c)[i];
      r.row.id.Some? && r.score == Score(lists, r.row.id.value, c) && FirstOfId(Flatten(lists), r.row)
  {
    var rows := Flatten(lists);
    FuseRrfSize(lists, k, c);
    TopIds(lists, k, c);
    FirstRowsValid(rows);
    var id := Take(Ranked(lists, c), k)[i];
    var x := FirstOccurrence(rows, id);
    assert rows + [] == rows;
    FirstRowKept(rows, [], x);
    assert rows[x] == FuseRrf(lists, k, c)[i].row;
  }

  /** Best score first, every id once, and no more than k. */
  lemma FusedInOrder(lists: seq<seq<Row>>, k: nat, c: nat, i: nat, j: nat)
    requires i < j < |FuseRrf(lists, k, c)|
    ensures |FuseRrf(lists, k, c)| <= k
    ensures FuseRrf(lists, k, c)[i].score >= FuseRrf(lists, k, c)[j].score
    ensures FuseRrf(lists, k, c)[i].row.id != FuseRrf(lists, k, c)[j].row.id
  {
    FuseRrfSize(lists, k, c);
    RankedDistinct(lists, c);
    FuseRrfAt(lists, k, c, i);
    FuseRrfAt(lists, k, c, j);
    FusedRow(lists, k, c, i);
    FusedRow(lists, k, c, j);
    RankedDescends(lists, c, i, j);
  }

  /** Of equal scores the id met first comes first. */
  lemma TiesAsMet(lists: seq<seq<Row>>, c: nat, score: real)
    ensures WithKey(Ranked(lists, c), (id: VectorId) => -Score(lists, id, c), -score) ==
            WithKey(FirstRows(Flatten(lists)).order, (id: VectorId) => -Score(lists, id, c), -score)
  {
    SortStable(FirstRows(Flatten(lists)).order, (id: VectorId) => -Score(lists, id, c), -score);
  }

  lemma FirstOccurrence(rows: seq<Row>, id: VectorId) returns (x: nat)
    requires exists r :: r in rows && r.id == Some(id)
    ensures x < |rows| && rows[x].id == Some(id) && forall j :: 0 <= j < x ==> rows[j].id != Some(id)
  {
    x := 0;
    while rows[x].id != Some(id)
      invariant x < |rows| && forall j :: 0 <= j < x ==> rows[j].id != Some(id)
      decreases |rows| - x
    {
      x := x + 1;
    }
  }

  lemma RankedDistinct(lists: seq<seq<Row>>, c: nat)
    ensures forall i, j :: 0 <= i < j < |Ranked(lists, c)| ==> Ranked(lists, c)[i] != Ranked(lists, c)[j]
  {
    FirstRowsValid(Flatten(lists));
    SortKeepsDistinct(FirstRows(Flatten(lists)).order, (id: VectorId) => -Score(lists, id, c));
  }

  /** Nothing better is left out. */
  lemma FusedBest(lists: seq<seq<Row>>, k: nat, c: nat, id: VectorId, i: nat)
    requires Score(lists, id, c) > 0.0
    requires forall j :: 0 <= j < |FuseRrf(lists, k, c)| ==> FuseRrf(lists, k, c)[j].row.id != Some(id)
    ensures |FuseRrf(lists, k, c)| == k
    ensures i < k ==> FuseRrf(lists, k, c)[i].score >= Score(lists, id, c)
  {
    var ranked := Ranked(lists, c);
    RankedIfScored(lists, c, id);
    var x :| 0 <= x < |ranked| && ranked[x] == id;
    FuseRrfSize(lists, k, c);
    if x < k {
      FuseRrfAt(lists, k, c, x);
    }
    if i < k {
      FusedRow(lists, k, c, i);
      FuseRrfAt(lists, k, c, i);
      RankedDescends(lists, c, i, x);
    }
  }

  lemma RankedDescends(lists: seq<seq<Row>>, c: nat, i: nat, j: nat)
    requires i <= j < |Ranked(lists, c)|
    ensures Score(lists, Ranked(lists, c)[i], c) >= Score(lists, Ranked(lists, c)[j], c)
  {
    var key := (id: VectorId) => -Score(lists, id, c);
    assert SortedBy(SortBy(FirstRows(Flatten(lists)).order, key), key);
    if i < j {
      assert key(Ranked(lists, c)[i]) <= key(Ranked(lists, c)[j]);
    }
  }

  /** An id ahead and preferred comes before the other one in every fused result that lists that one. */
  lemma AheadRanksBefore(lists: seq<seq<Row>>, k: int, c: nat, x: VectorId, y: VectorId, j: nat)
    requires Ahead(lists, x, y) && Preferred(lists, x, y)
    requires j < |FuseRrf(lists, k, c)| && FuseRrf(lists, k, c)[j].row.id == Some(y)
    ensures exists i :: 0 <= i < j && FuseRrf(lists, k, c)[i].row.id == Some(x)
  {
    AheadScoresMore(lists, x, y, c);
    MoreRanksBefore(lists, k, c, x, y, j);
  }

  lemma MoreRanksBefore(lists: seq<seq<Row>>, k: int, c: nat, x: VectorId, y: VectorId, j: nat)
    requires Score(lists, x, c) > Score(lists, y, c)
    requires j < |FuseRrf(lists, k, c)| && FuseRrf(lists, k, c)[j].row.id == Some(y)
    ensures exists i :: 0 <= i < j && FuseRrf(lists, k, c)[i].row.id == Some(x)
  {
    var ranked := Ranked(lists, c);
    var top := Take(ranked, k);
    FuseRrfSize(lists, k, c);
    FuseRrfAt(lists, k, c, j);
    assert top[j] == ranked[j];
    assert ranked[j] == y;
    ScoreNonNegative(lists, y, c);
    RankedIfScored(lists, c, x);
    var i :| 0 <= i < |ranked| && ranked[i] == x;
    if j <= i {
      RankedDescends(lists, c, j, i);
    }
    assert top[i] == ranked[i];
    FuseRrfAt(lists, k, c, i);
  }

  lemma FuseRrfSize(lists: seq<seq<Row>>, k: int, c: nat)
    ensures |FuseRrf(lists, k, c)| == |Take(Ranked(lists, c), k)|
  {
    TopIds(lists, k, c);
  }

  /** The result lists y and no x of at least that score. */
  ghost predicate Outranks(out: seq<Scored>, y: VectorId, x: VectorId) {
    exists j :: 0 <= j < |out| && out[j].row.id == Some(y) &&
      forall i :: 0 <= i < |out| && out[i].row.id == Some(x) ==> j < i && out[i].score < out[j].score
  }

  lemma {:induction false} FirstRowsSize(rows: seq<Row>)
    ensures |FirstRows(rows).order| <= |rows|
  {
    if rows == [] {
    } else {
      FirstRowsSize(rows[..|rows| - 1]);
    }
  }

  /** Asked for at least as many results as there are rows, the result is the whole ranking. */
  lemma FuseAll(lists: seq<seq<Row>>, k: int, c: nat)
    requires k >= |Flatten(lists)|
    ensures |FuseRrf(lists, k, c)| == |Ranked(lists, c)|
    ensures forall i :: 0 <= i < |Ranked(lists, c)| ==> FuseRrf(lists, k, c)[i].row.id == Some(Ranked(lists, c)[i])
    ensures forall i :: 0 <= i < |Ranked(lists, c)| ==>
              FuseRrf(lists, k, c)[i].score == Score(lists, Ranked(lists, c)[i], c)
  {
    FirstRowsSize(Flatten(lists));
    FuseRrfSize(lists, k, c);
    TopIds(lists, k, c);
    forall i | 0 <= i < |Ranked(lists, c)|
      ensures FuseRrf(lists, k, c)[i].row.id == Some(Ranked(lists, c)[i])
    {
      FuseRrfAt(lists, k, c, i);
    }
  }

  lemma OutranksIfScoresMore(lists: seq<seq<Row>>, k: int, c: nat, x: VectorId, y: VectorId)
    requires k >= |Flatten(lists)|
    ensures Outranks(FuseRrf(lists, k, c), y, x) <==> Score(lists, y, c) > Score(lists, x, c)
  {
    var out, ranked := FuseRrf(lists, k, c), Ranked(lists, c);
    FuseAll(lists, k, c);
    ScoreNonNegative(lists, x, c);
    RankedIfScored(lists, c, x);
    RankedIfScored(lists, c, y);
    if Score(lists, y, c) > Score(lists, x, c) {
      var j :| 0 <= j < |ranked| && ranked[j] == y;
      forall i | 0 <= i < |out| && out[i].row.id == Some(x)
        ensures j < i && out[i].score < out[j].score
      {
        assert ranked[i] == x;
        if i <= j {
          RankedDescends(lists, c, i, j);
        }
      }
      assert out[j].row.id == Some(y);
    }
    if Outranks(out, y, x) && Score(lists, x, c) > 0.0 {
      var i :| 0 <= i < |ranked| && ranked[i] == x;
      assert out[i].row.id == Some(x);
    }
  }

  lemma {:induction false} FewerRows(lists: seq<seq<Row>>, n: nat)
    ensures |Flatten(Tops(lists, n))| <= |Flatten(lists)|
  {
    if lists == [] {
    } else {
      FewerRows(lists[..|lists| - 1], n);
      TopsInit(lists, n);
    }
  }

  /** However many rows the shards are asked for and whatever the constant, y never outranks x in the whole
      fused ranking if and only if x is ahead of it. */
  lemma NeverOutrankedExactly(lists: seq<seq<Row>>, k: int, x: VectorId, y: VectorId)
    requires k >= |Flatten(lists)|
    ensures (forall n: nat, c: nat :: !Outranks(FuseRrf(Tops(lists, n), k, c), y, x)) <==> Ahead(lists, x, y)
  {
    NeverOutscoredExactly(lists, x, y);
    if Ahead(lists, x, y) {
      forall n: nat, c: nat
        ensures !Outranks(FuseRrf(Tops(lists, n), k, c), y, x)
      {
        assert !Outscores(lists, n, c, y, x);
        OutranksIfOutscores(lists, n, k, c, y, x);
      }
    } else {
      var n: nat, c: nat :| Outscores(lists, n, c, y, x);
      OutranksIfOutscores(lists, n, k, c, y, x);
    }
  }

  lemma OutranksIfOutscores(lists: seq<seq<Row>>, n: nat, k: int, c: nat, y: VectorId, x: VectorId)
    requires k >= |Flatten(lists)|
    ensures Outranks(FuseRrf(Tops(lists, n), k, c), y, x) <==> Outscores(lists, n, c, y, x)
  {
    FewerRows(lists, n);
    OutranksIfScoresMore(Tops(lists, n), k, c, x, y);
  }

  lemma ScoreOneMore(list: seq<Row>, r: Row, id: VectorId, c: nat)
    ensures ListScore(list + [r], id, c) == ListScore(list, id, c) + if r.id == Some(id) then Weight(c, |list|) else 0.0
  {
    assert (list + [r])[..|list|] == list;
  }

  /** Coming first is not enough once a list names an id twice: with the constant 60 of a search, the id
      that comes first in the only list is second in the result. */
  lemma TwiceBeatsFirst(x: VectorId, y: VectorId, p: Payload, k: int)
    requires x != y && k >= 3
    ensures
      var list := [Row(Some(x), None, p)] + [Row(Some(y), None, p)] + [Row(Some(y), None, p)];
      Precedes(list, x, y) && Outranks(FuseRrf([list], k, 60), y, x)
  {
    var a, b := Row(Some(x), None, p), Row(Some(y), None, p);
    var list := [a] + [b] + [b];
    assert list[0].id == Some(x) && list[1].id == Some(y);
    assert [] + [a] == [a];
    forall id
      ensures ListScore(list, id, 60) == (if id == x then Weight(60, 0) else 0.0) +
                                         (if id == y then Weight(60, 1) + Weight(60, 2) else 0.0)
    {
      ScoreOneMore([], a, id, 60);
      ScoreOneMore([a], b, id, 60);
      ScoreOneMore([a] + [b], b, id, 60);
    }
    assert Weight(60, 1) + Weight(60, 2) > Weight(60, 0);
    assert [list][..0] == [] && Flatten([list]) == [] + list;
    assert forall id :: Score([list], id, 60) == ListScore(list, id, 60);
    OutranksIfScoresMore([list], k, 60, x, y);
  }
}

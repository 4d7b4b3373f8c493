/** Scatter-gather search over the shards, services/distributed_coordinator.py. */
module Coordinator {
  import opened Prelude
  import opened StableSort
  import opened ScatterGather
  import opened RankFusion

  /** How one shard's future ended, in completion order. */
  datatype Response = Response(name: string, answer: Result<seq<Row>, string>)

  datatype Fusion = ByDistance | Rrf

  datatype Hit = DistanceHit(row: Row) | RrfHit(scored: Scored)

  datatype SearchResult =
    | NoShards
    | Found(results: seq<Hit>, shardsQueried: nat, failed: seq<string>, degraded: bool)

  function PerShardK(k: int, oversample: int): (n: int)
    ensures n >= k && n >= k * oversample && (n == k || n == k * oversample)
  {
    if k * oversample >= k then k * oversample else k
  }

  /** The per-shard dictionary: names in insertion order, and the list last stored under each. */
  datatype PerShard = PerShard(names: seq<string>, lists: map<string, seq<Row>>)

  function Store(d: PerShard, name: string, rows: seq<Row>): PerShard {
    PerShard(if name in d.lists then d.names else d.names + [name], d.lists[name := rows])
  }

  function Gather(responses: seq<Response>): PerShard {
    if responses == [] then PerShard([], map[]) else
      var d, r := Gather(responses[..|responses| - 1]), responses[|responses| - 1];
      match r.answer
      case Ok(rows) => Store(d, r.name, rows)
      case Err(_) => d
  }

  function FailedNames(responses: seq<Response>): seq<string> {
    if responses == [] then [] else
      var r := responses[|responses| - 1];
      FailedNames(responses[..|responses| - 1]) + if r.answer.Err? then [r.name] else []
  }

  /** The lists of the shards that answered, in order. */
  function Healthy(responses: seq<Response>): seq<seq<Row>> {
    if responses == [] then [] else
      var r := responses[|responses| - 1];
      Healthy(responses[..|responses| - 1]) + if r.answer.Ok? then [r.answer.value] else []
  }

  /** The answers and the failures, each in the order the shards ended. */
  lemma {:induction false} EndsInOrder(a: seq<Response>, b: seq<Response>)
    ensures Healthy(a + b) == Healthy(a) + Healthy(b) && FailedNames(a + b) == FailedNames(a) + FailedNames(b)
  {
    if b == [] {
      assert a + b == a;
    } else {
      assert (a + b)[..|a + b| - 1] == a + b[..|b| - 1];
      EndsInOrder(a, b[..|b| - 1]);
    }
  }

  lemma EndOfOne(r: Response)
    ensures Healthy([r]) == (if r.answer.Ok? then [r.answer.value] else [])
    ensures FailedNames([r]) == if r.answer.Ok? then [] else [r.name]
  {
    assert [r][..0] == [];
  }

  function Gathered(d: PerShard): seq<seq<Row>>
    requires forall n :: n in d.names ==> n in d.lists
  {
    seq(|d.names|, i requires 0 <= i < |d.names| => d.lists[d.names[i]])
  }

  ghost predicate Answered(responses: seq<Response>, name: string) {
    exists i :: 0 <= i < |responses| && responses[i].answer.Ok? && responses[i].name == name
  }

  lemma AnsweredOneMore(init: seq<Response>, r: Response, name: string)
    ensures Answered(init + [r], name) <==> Answered(init, name) || (r.answer.Ok? && r.name == name)
  {
    var all := init + [r];
    assert all[|init|] == r && forall i :: 0 <= i < |init| ==> all[i] == init[i];
  }

  lemma {:induction false} GatherNames(responses: seq<Response>)
    ensures forall n :: n in Gather(responses).names <==> n in Gather(responses).lists
    ensures forall n :: n in Gather(responses).lists <==> Answered(responses, n)
  {
    if responses == [] {
    } else {
      var init, r := responses[..|responses| - 1], responses[|responses| - 1];
      GatherNames(init);
      assert responses == init + [r];
      forall n: string
        ensures Answered(responses, n) <==> Answered(init, n) || (r.answer.Ok? && r.name == n)
      {
        AnsweredOneMore(init, r, n);
      }
    }
  }

  ghost predicate HealthyNamesDistinct(responses: seq<Response>) {
    forall i, j :: 0 <= i < j < |responses| && responses[i].answer.Ok? && responses[j].answer.Ok? ==>
      responses[i].name != responses[j].name
  }

  lemma StoreNew(d: PerShard, name: string, rows: seq<Row>)
    requires name !in d.lists && forall n :: n in d.names ==> n in d.lists
    ensures forall n :: n in Store(d, name, rows).names ==> n in Store(d, name, rows).lists
    ensures Gathered(Store(d, name, rows)) == Gathered(d) + [rows]
  {
    var after := Store(d, name, rows);
    forall i | 0 <= i < |d.names|
      ensures Gathered(after)[i] == Gathered(d)[i]
    {
      assert d.names[i] in d.names;
    }
  }

  /** With distinct names nothing a healthy shard answered is lost. */
  lemma {:induction false} GatherKeepsAll(responses: seq<Response>)
    requires HealthyNamesDistinct(responses)
    ensures forall n :: n in Gather(responses).names ==> n in Gather(responses).lists
    ensures Gathered(Gather(responses)) == Healthy(responses)
  {
    GatherNames(responses);
    if responses == [] {
    } else {
      var init, r := responses[..|responses| - 1], responses[|responses| - 1];
      GatherKeepsAll(init);
      GatherNames(init);
      if r.answer.Ok? {
        assert r.name !in Gather(init).lists;
        StoreNew(Gather(init), r.name, r.answer.value);
      }
    }
  }

  ghost predicate AnswersKept(responses: seq<Response>) {
    forall i :: 0 <= i < |responses| && responses[i].answer.Ok? ==>
      responses[i].name in Gather(responses).lists &&
      Gather(responses).lists[responses[i].name] == responses[i].answer.value
  }

  ghost predicate NamesakesAgree(responses: seq<Response>) {
    forall i, j | 0 <= i < j < |responses| && responses[i].answer.Ok? && responses[j].answer.Ok? ::
      responses[i].name == responses[j].name ==> responses[i].answer == responses[j].answer
  }

  /** Every healthy answer is kept under its shard's name exactly when shards sharing a name agree;
      otherwise the later one silently replaces the earlier, and nothing is flagged as degraded. */
  lemma GatherKeepsExactly(responses: seq<Response>)
    ensures AnswersKept(responses) <==> NamesakesAgree(responses)
  {
    if NamesakesAgree(responses) {
      forall i | 0 <= i < |responses| && responses[i].answer.Ok?
        ensures responses[i].name in Gather(responses).lists
        ensures Gather(responses).lists[responses[i].name] == responses[i].answer.value
      {
        LastWins(responses, i);
        var j :| i <= j < |responses| && LastStored(responses, responses[i].name, j);
      }
    }
  }

  ghost predicate LastStored(responses: seq<Response>, name: string, j: nat)
    requires j < |responses|
  {
    && responses[j].answer.Ok? && responses[j].name == name
    && name in Gather(responses).lists && Gather(responses).lists[name] == responses[j].answer.value
  }

  lemma {:induction false} LastWins(responses: seq<Response>, i: nat)
    requires i < |responses| && responses[i].answer.Ok?
    ensures exists j :: i <= j < |responses| && LastStored(responses, responses[i].name, j)
  {
    var init, r := responses[..|responses| - 1], responses[|responses| - 1];
    if r.answer.Ok? && r.name == responses[i].name {
      assert LastStored(responses, responses[i].name, |responses| - 1);
    } else {
      LastWins(init, i);
      var j :| i <= j < |init| && LastStored(init, init[i].name, j);
      assert LastStored(responses, responses[i].name, j);
    }
  }

  /** The results are those of the chosen fusion. */
  ghost predicate Fuses(results: seq<Hit>, lists: seq<seq<Row>>, k: int, fusion: Fusion) {
    if fusion.Rrf? then
      var out := FuseRrf(lists, k, 60);
      |results| == |out| && forall i :: 0 <= i < |out| ==> results[i] == RrfHit(out[i])
    else
      var out := FuseDistance(lists, k);
      |results| == |out| && forall i :: 0 <= i < |out| ==> results[i] == DistanceHit(out[i])
  }

  method GatherLoop(responses: seq<Response>) returns (d: PerShard, failed: seq<string>)
    ensures d == Gather(responses) && failed == FailedNames(responses)
    ensures failed != [] <==> exists j :: 0 <= j < |responses| && responses[j].answer.Err?
  {
    d, failed := PerShard([], map[]), [];
    for i := 0 to |responses|
      invariant d == Gather(responses[..i]) && failed == FailedNames(responses[..i])
      invariant failed != [] <==> exists j :: 0 <= j < i && responses[j].answer.Err?
    {
      assert responses[..i + 1][..i] == responses[..i];
      match responses[i].answer
      case Ok(rows) => d := Store(d, responses[i].name, rows);
      case Err(_) => failed := failed + [responses[i].name];
    }
    assert responses[..|responses|] == responses;
  }

  method Fuse(lists: seq<seq<Row>>, k: int, fusion: Fusion) returns (results: seq<Hit>)
    ensures Fuses(results, lists, k, fusion)
  {
    if fusion.Rrf? {
      var out := FuseRrfLoop(lists, k, 60);
      results := seq(|out|, i requires 0 <= i < |out| => RrfHit(out[i]));
    } else {
      var out := FuseDistanceLoop(lists, k);
      results := seq(|out|, i requires 0 <= i < |out| => DistanceHit(out[i]));
    }
  }

  method Search(responses: seq<Response>, k: int, fusion: Fusion) returns (result: SearchResult)
    ensures responses == [] ==> result == NoShards
    ensures responses != [] ==> result.Found? && result.shardsQueried == |responses|
    ensures responses != [] ==> result.failed == FailedNames(responses)
    ensures responses != [] ==>
              (result.degraded <==> exists i :: 0 <= i < |responses| && responses[i].answer.Err?)
    ensures forall n :: n in Gather(responses).names ==> n in Gather(responses).lists
    ensures responses != [] ==>
              var lists := Gathered(Gather(responses));
              match fusion
              case Rrf =>
                && |result.results| == |FuseRrf(lists, k, 60)|
                && forall i :: 0 <= i < |result.results| ==> result.results[i] == RrfHit(FuseRrf(lists, k, 60)[i])
              case ByDistance =>
                && |result.results| == |FuseDistance(lists, k)|
                && forall i :: 0 <= i < |result.results| ==>
                                 result.results[i] == DistanceHit(FuseDistance(lists, k)[i])
  {
    GatherNames(responses);
    if responses == [] {
      return NoShards;
    }
    var d, failed := GatherLoop(responses);
    var results := Fuse(Gathered(d), k, fusion);
    result := Found(results, |responses|, failed, failed != []);
  }

  /** Two shards of one name: the first answer is gone, and no shard counts as failed. */
  lemma LostAnswer(name: string, first: seq<Row>, second: seq<Row>)
    ensures
      var responses := [Response(name, Ok(first)), Response(name, Ok(second))];
      && Gather(responses) == PerShard([name], map[name := second]) && FailedNames(responses) == []
      && (AnswersKept(responses) <==> first == second)
  {
    var responses := [Response(name, Ok(first)), Response(name, Ok(second))];
    assert responses[..1] == [responses[0]] && responses[..1][..0] == [];
    assert Gather(responses[..1]) == PerShard([name], map[name := first]);
    assert map[name := first][name := second] == map[name := second];
    assert FailedNames(responses[..1]) == [];
    GatherKeepsExactly(responses);
    if AnswersKept(responses) {
      assert responses[0].name == responses[1].name && responses[0].answer == responses[1].answer;
    }
  }

  /** Rows already seen change nothing. */
  lemma {:induction false} CollectAbsorbs(rows: seq<Row>, more: seq<Row>)
    requires forall r :: r in more ==> r in rows
    ensures Collect(rows + more) == Collect(rows)
  {
    if more == [] {
      assert rows + more == rows;
    } else {
      var init, r := more[..|more| - 1], more[|more| - 1];
      assert (rows + more)[..|rows + more| - 1] == rows + init;
      CollectAbsorbs(rows, init);
      CollectBest(rows);
      assert r in more;
    }
  }

  lemma {:induction false} CollectAlike(a: seq<Row>, b: seq<Row>, more: seq<Row>)
    requires Collect(a) == Collect(b)
    ensures Collect(a + more) == Collect(b + more)
  {
    if more == [] {
      assert a + more == a && b + more == b;
    } else {
      var init := more[..|more| - 1];
      assert (a + more)[..|a + more| - 1] == a + init && (b + more)[..|b + more| - 1] == b + init;
      CollectAlike(a, b, init);
    }
  }

  lemma FlattenOneMore(lists: seq<seq<Row>>, list: seq<Row>)
    ensures Flatten(lists + [list]) == Flatten(lists) + list
  {
    assert (lists + [list])[..|lists|] == lists;
  }

  lemma NamesakesEarlier(init: seq<Response>, r: Response)
    requires NamesakesAgree(init + [r])
    ensures NamesakesAgree(init)
  {
    var all := init + [r];
    assert forall i :: 0 <= i < |init| ==> all[i] == init[i];
  }

  /** A namesake's answer is one already stored. */
  lemma AlreadyStored(init: seq<Response>, r: Response)
    requires NamesakesAgree(init + [r]) && r.answer.Ok? && r.name in Gather(init).lists
    ensures Gather(init).lists[r.name] == r.answer.value
  {
    var all := init + [r];
    NamesakesEarlier(init, r);
    GatherNames(init);
    GatherKeepsExactly(init);
    var i :| 0 <= i < |init| && init[i].answer.Ok? && init[i].name == r.name;
    assert all[i] == init[i] && all[|init|] == r;
  }

  lemma StoreAgain(d: PerShard, name: string)
    requires name in d.lists && forall n :: n in d.names ==> n in d.lists
    ensures Store(d, name, d.lists[name]) == d
  {
    assert d.lists[name := d.lists[name]] == d.lists;
  }

  /** Dropping a repeated answer does not change which rows are best. */
  lemma {:induction false} GatheredCollect(responses: seq<Response>)
    requires NamesakesAgree(responses)
    ensures forall n :: n in Gather(responses).names ==> n in Gather(responses).lists
    ensures Collect(Flatten(Gathered(Gather(responses)))) == Collect(Flatten(Healthy(responses)))
  {
    GatherNames(responses);
    if responses == [] {
    } else {
      var init, r := responses[..|responses| - 1], responses[|responses| - 1];
      assert responses == init + [r];
      NamesakesEarlier(init, r);
      GatheredCollect(init);
      GatherNames(init);
      if r.answer.Ok? {
        GatheredOneMore(Gather(init), init, r);
        assert Gather(responses) == Store(Gather(init), r.name, r.answer.value);
      } else {
        assert Healthy(responses) == Healthy(init) + [] == Healthy(init);
      }
    }
  }

  lemma GatheredOneMore(d: PerShard, init: seq<Response>, r: Response)
    requires NamesakesAgree(init + [r]) && r.answer.Ok? && d == Gather(init)
    requires forall n :: n in d.names <==> n in d.lists
    requires Collect(Flatten(Gathered(d))) == Collect(Flatten(Healthy(init)))
    ensures forall n :: n in Store(d, r.name, r.answer.value).names ==> n in Store(d, r.name, r.answer.value).lists
    ensures Collect(Flatten(Gathered(Store(d, r.name, r.answer.value)))) ==
            Collect(Flatten(Healthy(init) + [r.answer.value]))
  {
    var rows, before, after := r.answer.value, Flatten(Gathered(d)), Flatten(Healthy(init));
    FlattenOneMore(Healthy(init), rows);
    CollectAlike(before, after, rows);
    if r.name in d.lists {
      AlreadyStored(init, r);
      StoreAgain(d, r.name);
      forall x | x in rows
        ensures x in before
      {
        StoredIsFlattened(d, r.name, x);
      }
      CollectAbsorbs(before, rows);
    } else {
      StoreNew(d, r.name, rows);
      FlattenOneMore(Gathered(d), rows);
    }
  }

  lemma StoredIsFlattened(d: PerShard, name: string, x: Row)
    requires (forall n :: n in d.names <==> n in d.lists) && name in d.lists && x in d.lists[name]
    ensures x in Flatten(Gathered(d))
  {
    var i :| 0 <= i < |d.names| && d.names[i] == name;
    assert x in Gathered(d)[i];
    FlattenContains(Gathered(d), x);
  }

  /** Scatter-gather search is exact over the healthy shards, failed ones skipped, whatever the
      oversampling, as long as shards that share a name agree. */
  lemma SearchExact(responses: seq<Response>, corpora: seq<seq<Row>>, k: nat, oversample: int)
    requires NamesakesAgree(responses)
    requires ShardsExact(Healthy(responses), corpora, PerShardK(k, oversample))
    ensures forall n :: n in Gather(responses).names ==> n in Gather(responses).lists
    ensures GlobalTop(FuseDistance(Gathered(Gather(responses)), k), corpora, k)
  {
    GatheredCollect(responses);
    FusionExact(Healthy(responses), corpora, PerShardK(k, oversample), k);
  }

  /** The same shards answer or fail. */
  ghost predicate SameShards(a: seq<Response>, b: seq<Response>) {
    && |a| == |b|
    && forall i :: 0 <= i < |a| ==> a[i].name == b[i].name && (a[i].answer.Ok? <==> b[i].answer.Ok?)
  }

  /** The search over these responses finds a true top k of the healthy shards' documents. */
  ghost predicate FindsTop(responses: seq<Response>, corpora: seq<seq<Row>>, k: nat) {
    GatherNames(responses);
    GlobalTop(FuseDistance(Gathered(Gather(responses)), k), corpora, k)
  }

  /** Whatever the shards hold and however many results are asked for, as long as they answer exactly. */
  ghost predicate AlwaysExact(responses: seq<Response>, oversample: int) {
    forall answered, corpora, k: nat |
      SameShards(answered, responses) && ShardsExact(Healthy(answered), corpora, PerShardK(k, oversample)) ::
      FindsTop(answered, corpora, k)
  }

  /** The healthy shard i answers with the single row r, all others with nothing. */
  function Lone(responses: seq<Response>, i: nat, r: Row): (answered: seq<Response>)
    ensures SameShards(answered, responses)
    ensures forall m :: 0 <= m < |responses| && responses[m].answer.Ok? ==>
              answered[m].answer == Ok(if m == i then [r] else [])
  {
    seq(|responses|, m requires 0 <= m < |responses| =>
      if responses[m].answer.Err? then responses[m] else Response(responses[m].name, Ok(if m == i then [r] else [])))
  }

  lemma {:induction false} HealthyAnswers(responses: seq<Response>, list: seq<Row>)
    ensures list in Healthy(responses) <==> exists m :: 0 <= m < |responses| && responses[m].answer == Ok(list)
  {
    if responses == [] {
    } else {
      var init := responses[..|responses| - 1];
      HealthyAnswers(init, list);
      if m :| 0 <= m < |responses| && responses[m].answer == Ok(list) {
        assert m < |init| ==> init[m] == responses[m];
      }
      if m :| 0 <= m < |init| && init[m].answer == Ok(list) {
        assert responses[m] == init[m];
      }
    }
  }

  lemma ExactOfItself(responses: seq<Response>, i: nat, r: Row, n: nat)
    requires r.id.Some? && n >= 1
    ensures ShardsExact(Healthy(Lone(responses, i, r)), Healthy(Lone(responses, i, r)), n)
  {
    var lists := Healthy(Lone(responses, i, r));
    forall h | 0 <= h < |lists|
      ensures Corpus(lists[h]) && ExactTop(lists[h], lists[h], n)
    {
      HealthyAnswers(Lone(responses, i, r), lists[h]);
      assert lists[h] in lists;
      assert lists[h] == [r] || lists[h] == [];
    }
  }

  /** A later namesake's empty answer is what remains of the lone row. */
  lemma LoneRowGone(responses: seq<Response>, i: nat, j: nat, r: Row, name: string)
    requires i < j < |responses| && responses[i].answer.Ok? && responses[j].answer.Ok?
    requires responses[i].name == responses[j].name
    requires name in Gather(Lone(responses, i, r)).lists
    ensures Gather(Lone(responses, i, r)).lists[name] == []
  {
    var answered := Lone(responses, i, r);
    GatherNames(answered);
    var m: nat :| m < |answered| && answered[m].answer.Ok? && answered[m].name == name;
    if name == responses[j].name {
      m := j;
    }
    LastWins(answered, m);
    var last :| m <= last < |answered| && LastStored(answered, name, last);
    assert last != i;
  }

  lemma {:induction false} NothingFused(lists: seq<seq<Row>>, k: int)
    requires forall i :: 0 <= i < |lists| ==> lists[i] == []
    ensures Flatten(lists) == [] && FuseDistance(lists, k) == []
  {
    if lists == [] {
    } else {
      NothingFused(lists[..|lists| - 1], k);
    }
  }

  lemma LoneRowMissed(responses: seq<Response>, i: nat, j: nat, r: Row)
    requires i < j < |responses| && responses[i].answer.Ok? && responses[j].answer.Ok?
    requires responses[i].name == responses[j].name
    ensures !FindsTop(Lone(responses, i, r), Healthy(Lone(responses, i, r)), 1)
  {
    var answered := Lone(responses, i, r);
    var d := Gather(answered);
    GatherNames(answered);
    forall h | 0 <= h < |d.names|
      ensures Gathered(d)[h] == []
    {
      assert d.names[h] in d.names;
      LoneRowGone(responses, i, j, r, d.names[h]);
    }
    NothingFused(Gathered(d), 1);
    assert answered[i].answer == Ok([r]);
    HealthyAnswers(answered, [r]);
    var h :| 0 <= h < |Healthy(answered)| && Healthy(answered)[h] == [r];
    assert r in Healthy(answered)[h] && !Covered([], r, 1);
  }

  /** Search is exact whatever the healthy shards hold and exactly answer, if and only if no two of them share
      a name. */
  lemma AlwaysExactByName(responses: seq<Response>, oversample: int, r: Row)
    requires r.id.Some?
    ensures AlwaysExact(responses, oversample) <==> HealthyNamesDistinct(responses)
  {
    if HealthyNamesDistinct(responses) {
      forall answered, corpora, k: nat |
        SameShards(answered, responses) && ShardsExact(Healthy(answered), corpora, PerShardK(k, oversample))
        ensures FindsTop(answered, corpora, k)
      {
        assert NamesakesAgree(answered);
        SearchExact(answered, corpora, k, oversample);
      }
    } else {
      var i: nat, j: nat :| i < j < |responses| && responses[i].answer.Ok? && responses[j].answer.Ok? &&
                            responses[i].name == responses[j].name;
      ExactOfItself(responses, i, r, PerShardK(1, oversample));
      LoneRowMissed(responses, i, j, r);
    }
  }
}

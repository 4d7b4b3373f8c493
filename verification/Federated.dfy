/** Federated averaging, services/federated_embedding.py. Vectors are sequences of reals. */
module Federated {
  import opened Prelude

  type Vec = seq<real>

  /** A submitted update; the sample count may be missing in updates passed in from outside. */
  datatype Update = Update(clientId: string, nSamples: Option<int>, localCentroid: Vec, delta: Vec)

  datatype Failure = EmptyInput | LengthMismatch | NoUpdates | DivisionByZero

  /** version holds the numbers of "v1.0.0". */
  datatype State = State(centroid: Option<Vec>, rounds: nat, version: seq<nat>, pending: seq<Update>)

  const INITIAL := State(None, 0, [1, 0, 0], [])

  // ---------------------------------------------------------------- vectors

  predicate Rectangular(rows: seq<Vec>, dim: nat) {
    forall i :: 0 <= i < |rows| ==> |rows[i]| == dim
  }

  function ColumnSum(rows: seq<Vec>, dim: nat, j: nat): real
    requires Rectangular(rows, dim) && j < dim
  {
    if rows == [] then 0.0 else ColumnSum(rows[..|rows| - 1], dim, j) + rows[|rows| - 1][j]
  }

  /** The mean of the rows, column by column. */
  function Mean(rows: seq<Vec>, dim: nat): (m: Vec)
    requires rows != [] && Rectangular(rows, dim)
    ensures |m| == dim && forall j :: 0 <= j < dim ==> m[j] == ColumnSum(rows, dim, j) / |rows| as real
  {
    seq(dim, j requires 0 <= j < dim => ColumnSum(rows, dim, j) / |rows| as real)
  }

  function Add(a: Vec, b: Vec): (c: Vec)
    requires |a| == |b|
    ensures |c| == |a| && forall j :: 0 <= j < |c| ==> c[j] == a[j] + b[j]
  {
    seq(|a|, j requires 0 <= j < |a| => a[j] + b[j])
  }

  function Sub(a: Vec, b: Vec): (c: Vec)
    requires |a| == |b|
    ensures |c| == |a| && forall j :: 0 <= j < |c| ==> c[j] == a[j] - b[j]
  {
    seq(|a|, j requires 0 <= j < |a| => a[j] - b[j])
  }

  function Scale(w: real, a: Vec): (c: Vec)
    ensures |c| == |a| && forall j :: 0 <= j < |c| ==> c[j] == w * a[j]
  {
    seq(|a|, j requires 0 <= j < |a| => w * a[j])
  }

  // ---------------------------------------------------------------- submitting

  function Submit(s: State, clientId: string, rows: seq<Vec>, labels: seq<int>, dim: nat): (State, Result<Vec, Failure>)
    requires Rectangular(rows, dim) && (s.centroid.Some? ==> |s.centroid.value| == dim)
  {
    if rows == [] || labels == [] then (s, Err(EmptyInput))
    else if |rows| != |labels| then (s, Err(LengthMismatch))
    else
      var local := Mean(rows, dim);
      var global := if s.centroid.Some? then s.centroid.value else local;
      var delta := Sub(local, global);
      (s.(centroid := Some(global), pending := s.pending + [Update(clientId, Some(|rows|), local, delta)]), Ok(delta))
  }

  // ---------------------------------------------------------------- aggregating

  function Samples(u: Update): int {
    if u.nSamples.Some? then u.nSamples.value else 1
  }

  function TotalSamples(updates: seq<Update>): int {
    if updates == [] then 0 else TotalSamples(updates[..|updates| - 1]) + Samples(updates[|updates| - 1])
  }

  predicate SameLength(updates: seq<Update>, dim: nat) {
    forall i :: 0 <= i < |updates| ==> |updates[i].delta| == dim
  }

  /** An update's share of all samples. */
  function Share(u: Update, total: int): real
    requires total != 0
  {
    Samples(u) as real / total as real
  }

  /** The deltas weighted by each update's share of the samples. */
  function WeightedDelta(updates: seq<Update>, total: int, dim: nat): (v: Vec)
    requires total != 0 && SameLength(updates, dim)
    ensures |v| == dim
  {
    if updates == [] then seq(dim, _ => 0.0) else
      var u := updates[|updates| - 1];
      Add(WeightedDelta(updates[..|updates| - 1], total, dim), Scale(Share(u, total), u.delta))
  }

  function Bumped(version: seq<nat>): seq<nat>
    requires version != []
  {
    version[..|version| - 1] + [version[|version| - 1] + 1]
  }

  /** Updates passed in replace the pending ones, which are discarded either way. */
  function Aggregate(s: State, given: Option<seq<Update>>, dim: nat): (State, Result<Vec, Failure>)
    requires s.version != []
    requires SameLength(s.pending, dim) && (given.Some? ==> SameLength(given.value, dim))
    requires s.centroid.Some? ==> |s.centroid.value| == dim
  {
    var updates := if given.Some? then given.value else s.pending;
    if updates == [] then (s, Err(NoUpdates))
    else if TotalSamples(updates) == 0 then (s, Err(DivisionByZero))
    else
      var delta := WeightedDelta(updates, TotalSamples(updates), dim);
      var centroid := if s.centroid.Some? then Add(s.centroid.value, delta) else delta;
      (State(Some(centroid), s.rounds + 1, Bumped(s.version), []), Ok(delta))
  }

  // ---------------------------------------------------------------- runs

  datatype Op =
    | SubmitOp(clientId: string, rows: seq<Vec>, labels: seq<int>)
    | AggregateOp(given: Option<seq<Update>>)

  /** Vectors of one dimension throughout, as numpy demands. */
  ghost predicate Fits(op: Op, dim: nat) {
    match op
    case SubmitOp(_, rows, _) => Rectangular(rows, dim)
    case AggregateOp(given) => given.Some? ==> SameLength(given.value, dim)
  }

  ghost predicate Shaped(s: State, dim: nat) {
    && (s.centroid.Some? ==> |s.centroid.value| == dim)
    && SameLength(s.pending, dim)
    && s.version == [1, 0, s.rounds]
  }

  function Step(s: State, op: Op, dim: nat): (State, Result<Vec, Failure>)
    requires Shaped(s, dim) && Fits(op, dim)
  {
    match op
    case SubmitOp(c, rows, labels) => Submit(s, c, rows, labels, dim)
    case AggregateOp(given) => Aggregate(s, given, dim)
  }

  /** The version's last number tracks the rounds completed. */
  lemma StepShaped(s: State, op: Op, dim: nat)
    requires Shaped(s, dim) && Fits(op, dim)
    ensures Shaped(Step(s, op, dim).0, dim)
  {
  }

  ghost function Run(ops: seq<Op>, dim: nat): (s: State)
    requires forall op :: op in ops ==> Fits(op, dim)
    ensures Shaped(s, dim)
  {
    if ops == [] then INITIAL else
      var init, last := ops[..|ops| - 1], ops[|ops| - 1];
      assert forall op :: op in init ==> op in ops;
      assert last in ops;
      StepShaped(Run(init, dim), last, dim);
      Step(Run(init, dim), last, dim).0
  }

  /** The batches accepted since the last completed round. */
  ghost function Batches(ops: seq<Op>, dim: nat): seq<seq<Vec>>
    requires forall op :: op in ops ==> Fits(op, dim)
  {
    if ops == [] then [] else
      var init, last := ops[..|ops| - 1], ops[|ops| - 1];
      assert forall op :: op in init ==> op in ops;
      assert last in ops;
      var before := Batches(init, dim);
      if Step(Run(init, dim), last, dim).1.Err? then before
      else if last.SubmitOp? then before + [last.rows]
      else []
  }

  /** u describes batch b relative to the global centroid g. */
  ghost predicate Describes(u: Update, b: seq<Vec>, g: Vec, dim: nat) {
    && b != [] && Rectangular(b, dim) && |g| == dim
    && u.nSamples == Some(|b|)
    && u.localCentroid == Mean(b, dim)
    && u.delta == Sub(Mean(b, dim), g)
  }

  /** Each pending update describes its batch relative to the current global centroid. */
  ghost predicate Linked(s: State, batches: seq<seq<Vec>>, dim: nat) {
    && |s.pending| == |batches|
    && (s.pending != [] ==> s.centroid.Some?)
    && forall i :: 0 <= i < |batches| ==> Describes(s.pending[i], batches[i], s.centroid.value, dim)
  }

  /** In every run every pending delta is its local centroid minus the current global one. */
  lemma {:induction false} RunLinked(ops: seq<Op>, dim: nat)
    requires forall op :: op in ops ==> Fits(op, dim)
    ensures Linked(Run(ops, dim), Batches(ops, dim), dim)
  {
    if ops == [] {
    } else {
      var init, last := ops[..|ops| - 1], ops[|ops| - 1];
      assert forall op :: op in init ==> op in ops;
      assert last in ops;
      RunLinked(init, dim);
      StepLinked(Run(init, dim), Batches(init, dim), last, dim);
    }
  }

  lemma StepLinked(s: State, batches: seq<seq<Vec>>, op: Op, dim: nat)
    requires Shaped(s, dim) && Fits(op, dim) && Linked(s, batches, dim)
    ensures
      var (s', r) := Step(s, op, dim);
      Linked(s', if r.Err? then batches else if op.SubmitOp? then batches + [op.rows] else [], dim)
  {
  }

  // ---------------------------------------------------------------- the pooled mean

  /** The updates describe the batches one by one. */
  ghost predicate DescribesAll(updates: seq<Update>, batches: seq<seq<Vec>>, g: Vec, dim: nat) {
    |updates| == |batches| && forall i :: 0 <= i < |batches| ==> Describes(updates[i], batches[i], g, dim)
  }

  lemma {:induction false} PooledShape(updates: seq<Update>, batches: seq<seq<Vec>>, g: Vec, dim: nat)
    requires DescribesAll(updates, batches, g, dim)
    ensures Rectangular(Flatten(batches), dim) && SameLength(updates, dim)
    ensures TotalSamples(updates) == |Flatten(batches)| >= |batches|
  {
    if batches == [] {
    } else {
      PooledShape(updates[..|updates| - 1], batches[..|batches| - 1], g, dim);
    }
  }

  /** What the rows amount to beyond as many copies of g. */
  function Beyond(rows: seq<Vec>, g: Vec, dim: nat): (v: Vec)
    requires Rectangular(rows, dim) && |g| == dim
    ensures |v| == dim
  {
    if rows == [] then seq(dim, _ => 0.0)
    else Add(Beyond(rows[..|rows| - 1], g, dim), Sub(rows[|rows| - 1], g))
  }

  lemma AddAssociates(a: Vec, b: Vec, c: Vec)
    requires |a| == |b| == |c|
    ensures Add(a, Add(b, c)) == Add(Add(a, b), c)
  {
  }

  lemma {:induction false} BeyondAppend(a: seq<Vec>, b: seq<Vec>, g: Vec, dim: nat)
    requires Rectangular(a, dim) && Rectangular(b, dim) && |g| == dim
    ensures Rectangular(a + b, dim) && Beyond(a + b, g, dim) == Add(Beyond(a, g, dim), Beyond(b, g, dim))
  {
    if b == [] {
      assert a + b == a;
      assert Add(Beyond(a, g, dim), Beyond(b, g, dim)) == Beyond(a, g, dim);
    } else {
      var init, last := b[..|b| - 1], b[|b| - 1];
      assert (a + b)[..|a + b| - 1] == a + init;
      BeyondAppend(a, init, g, dim);
      AddAssociates(Beyond(a, g, dim), Beyond(init, g, dim), Sub(last, g));
    }
  }

  lemma {:induction false} BeyondIsSum(rows: seq<Vec>, g: Vec, dim: nat, j: nat)
    requires Rectangular(rows, dim) && |g| == dim && j < dim
    ensures Beyond(rows, g, dim)[j] == ColumnSum(rows, dim, j) - g[j] * |rows| as real
  {
    if rows == [] {
    } else {
      BeyondIsSum(rows[..|rows| - 1], g, dim, j);
      Distribute(g[j], |rows| - 1, 1);
    }
  }

  lemma Distribute(g: real, m: int, n: int)
    ensures g * (m + n) as real == g * m as real + g * n as real
  {
  }

  lemma ScaleAdd(t: real, a: Vec, b: Vec)
    requires |a| == |b|
    ensures Scale(t, Add(a, b)) == Add(Scale(t, a), Scale(t, b))
  {
    forall j | 0 <= j < |a|
      ensures Scale(t, Add(a, b))[j] == Add(Scale(t, a), Scale(t, b))[j]
    {
      DistributeOver(t, a[j], b[j], Add(a, b)[j]);
    }
  }

  lemma DistributeOver(t: real, x: real, y: real, z: real)
    requires z == x + y
    ensures t * z == t * x + t * y
  {
  }

  // Elements named one at a time, so that the arithmetic lemmas meet no quantifier.

  lemma ScaleAt(t: real, a: Vec, j: nat)
    requires j < |a|
    ensures Scale(t, a)[j] == t * a[j]
  {
  }

  lemma Quotient(x: real, n: real) returns (q: real)
    requires n != 0.0
    ensures q * n == x
  {
    q := x / n;
  }

  lemma QuotientUnique(x: real, n: real, q: real)
    requires n != 0.0 && q * n == x
    ensures x / n == q
  {
  }

  lemma MeanIs(rows: seq<Vec>, dim: nat, j: nat, m: real)
    requires rows != [] && Rectangular(rows, dim) && j < dim
    requires m * |rows| as real == ColumnSum(rows, dim, j)
    ensures Mean(rows, dim)[j] == m
  {
    QuotientUnique(ColumnSum(rows, dim, j), |rows| as real, m);
  }

  lemma ProductTwice(t: real, s: real, n: real, d: real, y: real, z: real)
    requires s * t == n && y == s * d && z == t * y
    ensures z == n * d
  {
    assert z == s * t * d;
  }

  lemma ScaleTwice(t: real, s: real, n: real, a: Vec)
    requires s * t == n
    ensures Scale(t, Scale(s, a)) == Scale(n, a)
  {
    forall j | 0 <= j < |a|
      ensures Scale(t, Scale(s, a))[j] == Scale(n, a)[j]
    {
      ProductTwice(t, s, n, a[j], Scale(s, a)[j], Scale(t, Scale(s, a))[j]);
    }
  }

  lemma Centred(n: real, m: real, g: real, d: real, sum: real, z: real)
    requires m * n == sum && d == m - g && z == n * d
    ensures z == sum - g * n
  {
    assert n * (m - g) == n * m - n * g;
  }

  /** As many copies of the centred mean as there are rows are the rows beyond g. */
  lemma CentredColumn(b: seq<Vec>, g: Vec, x: Vec, dim: nat, j: nat)
    requires b != [] && Rectangular(b, dim) && |g| == dim && x == Sub(Mean(b, dim), g) && j < dim
    ensures Scale(|b| as real, x)[j] == Beyond(b, g, dim)[j]
  {
    var m := DeltaColumn(b, g, x, dim, j);
    CentredProduct(b, g, x, dim, j, m);
  }

  lemma CentredProduct(b: seq<Vec>, g: Vec, x: Vec, dim: nat, j: nat, m: real)
    requires b != [] && Rectangular(b, dim) && |g| == |x| == dim && j < dim
    requires x[j] == m - g[j] && m * |b| as real == ColumnSum(b, dim, j)
    ensures Scale(|b| as real, x)[j] == Beyond(b, g, dim)[j]
  {
    BeyondIsSum(b, g, dim, j);
    ScaleAt(|b| as real, x, j);
    Centred(|b| as real, m, g[j], x[j], ColumnSum(b, dim, j), Scale(|b| as real, x)[j]);
  }

  lemma DeltaColumn(b: seq<Vec>, g: Vec, x: Vec, dim: nat, j: nat) returns (m: real)
    requires b != [] && Rectangular(b, dim) && |g| == dim && x == Sub(Mean(b, dim), g) && j < dim
    ensures x[j] == m - g[j] && m * |b| as real == ColumnSum(b, dim, j)
  {
    m := Quotient(ColumnSum(b, dim, j), |b| as real);
    MeanIs(b, dim, j, m);
  }

  lemma CentredMean(b: seq<Vec>, g: Vec, dim: nat)
    requires b != [] && Rectangular(b, dim) && |g| == dim
    ensures Scale(|b| as real, Sub(Mean(b, dim), g)) == Beyond(b, g, dim)
  {
    forall j | 0 <= j < dim
      ensures Scale(|b| as real, Sub(Mean(b, dim), g))[j] == Beyond(b, g, dim)[j]
    {
      CentredColumn(b, g, Sub(Mean(b, dim), g), dim, j);
    }
  }

  /** Scaled back by the total, a batch's share of its delta is its sum beyond the centroid. */
  lemma ShareOfBatch(b: seq<Vec>, g: Vec, total: int, dim: nat)
    requires total != 0 && b != [] && Rectangular(b, dim) && |g| == dim
    ensures Scale(total as real, Scale(|b| as real / total as real, Sub(Mean(b, dim), g))) == Beyond(b, g, dim)
  {
    var share := Quotient(|b| as real, total as real);
    QuotientUnique(|b| as real, total as real, share);
    ScaleTwice(total as real, share, |b| as real, Sub(Mean(b, dim), g));
    CentredMean(b, g, dim);
  }

  /** Weighted by sample counts, the deltas add up to what the pooled samples amount to beyond the
      global centroid. */
  lemma {:induction false} WeightedDeltaSums(updates: seq<Update>, batches: seq<seq<Vec>>, g: Vec, total: int, dim: nat)
    requires total != 0 && |g| == dim && DescribesAll(updates, batches, g, dim)
    ensures Rectangular(Flatten(batches), dim) && SameLength(updates, dim)
    ensures Scale(total as real, WeightedDelta(updates, total, dim)) == Beyond(Flatten(batches), g, dim)
  {
    PooledShape(updates, batches, g, dim);
    if batches == [] {
      assert Scale(total as real, WeightedDelta(updates, total, dim)) == Beyond([], g, dim);
    } else {
      var u, b := updates[|updates| - 1], batches[|batches| - 1];
      var us, bs := updates[..|updates| - 1], batches[..|batches| - 1];
      WeightedDeltaSums(us, bs, g, total, dim);
      ShareOfBatch(b, g, total, dim);
      ScaleAdd(total as real, WeightedDelta(us, total, dim), Scale(Share(u, total), u.delta));
      BeyondAppend(Flatten(bs), b, g, dim);
    }
  }

  lemma ShiftedMean(g: real, w: real, n: real, sum: real, scaled: real, m: real)
    requires n != 0.0 && m * n == sum && scaled == n * w && scaled == sum - g * n
    ensures g + w == m
  {
    assert (g + w - m) * n == 0.0;
  }

  lemma MovedColumn(pooled: seq<Vec>, g: Vec, w: Vec, dim: nat, j: nat) returns (m: real)
    requires pooled != [] && Rectangular(pooled, dim) && |g| == dim && |w| == dim && j < dim
    requires Scale(|pooled| as real, w) == Beyond(pooled, g, dim)
    ensures g[j] + w[j] == m && m * |pooled| as real == ColumnSum(pooled, dim, j)
  {
    BeyondIsSum(pooled, g, dim, j);
    m := Quotient(ColumnSum(pooled, dim, j), |pooled| as real);
    ScaleAt(|pooled| as real, w, j);
    ShiftedMean(g[j], w[j], |pooled| as real, ColumnSum(pooled, dim, j), Scale(|pooled| as real, w)[j], m);
  }

  lemma MovedMean(pooled: seq<Vec>, g: Vec, w: Vec, dim: nat)
    requires pooled != [] && Rectangular(pooled, dim) && |g| == dim && |w| == dim
    requires Scale(|pooled| as real, w) == Beyond(pooled, g, dim)
    ensures Add(g, w) == Mean(pooled, dim)
  {
    forall j | 0 <= j < dim
      ensures g[j] + w[j] == Mean(pooled, dim)[j]
    {
      var m := MovedColumn(pooled, g, w, dim, j);
      MeanIs(pooled, dim, j, m);
    }
  }

  /** The centroid moved by the weighted deltas is the mean of the pooled samples. */
  lemma MovedCentroid(updates: seq<Update>, batches: seq<seq<Vec>>, g: Vec, dim: nat)
    requires |g| == dim && DescribesAll(updates, batches, g, dim) && batches != []
    ensures Rectangular(Flatten(batches), dim) && SameLength(updates, dim) && Flatten(batches) != []
    ensures TotalSamples(updates) == |Flatten(batches)|
    ensures Add(g, WeightedDelta(updates, TotalSamples(updates), dim)) == Mean(Flatten(batches), dim)
  {
    PooledShape(updates, batches, g, dim);
    var pooled := Flatten(batches);
    WeightedDeltaSums(updates, batches, g, |pooled|, dim);
    MovedMean(pooled, g, WeightedDelta(updates, |pooled|, dim), dim);
  }

  /** After any run with batches pending, aggregating them completes a round, and the global
      centroid becomes the mean of all embeddings submitted in that round. */
  lemma AggregateIsPooledMean(ops: seq<Op>, dim: nat)
    requires forall op :: op in ops ==> Fits(op, dim)
    requires Batches(ops, dim) != []
    ensures Flatten(Batches(ops, dim)) != [] && Rectangular(Flatten(Batches(ops, dim)), dim)
    ensures
      var s, (s', r) := Run(ops, dim), Aggregate(Run(ops, dim), None, dim);
      && r.Ok? && s'.centroid == Some(Mean(Flatten(Batches(ops, dim)), dim))
      && s'.pending == [] && s'.rounds == s.rounds + 1 && s'.version == [1, 0, s'.rounds]
  {
    RunLinked(ops, dim);
    LinkedAggregate(Run(ops, dim), Batches(ops, dim), dim);
  }

  lemma LinkedAggregate(s: State, batches: seq<seq<Vec>>, dim: nat)
    requires Shaped(s, dim) && Linked(s, batches, dim) && batches != []
    ensures Flatten(batches) != [] && Rectangular(Flatten(batches), dim)
    ensures
      var (s', r) := Aggregate(s, None, dim);
      && r.Ok? && s'.centroid == Some(Mean(Flatten(batches), dim))
      && s'.pending == [] && s'.rounds == s.rounds + 1 && s'.version == [1, 0, s'.rounds]
  {
    MovedCentroid(s.pending, batches, s.centroid.value, dim);
  }

  // ---------------------------------------------------------------- one call, column by column

  lemma {:induction false} ColumnSumSplits(a: seq<Vec>, b: seq<Vec>, dim: nat, j: nat)
    requires Rectangular(a, dim) && Rectangular(b, dim) && j < dim
    ensures Rectangular(a + b, dim) && ColumnSum(a + b, dim, j) == ColumnSum(a, dim, j) + ColumnSum(b, dim, j)
  {
    if b == [] {
      assert a + b == a;
    } else {
      assert (a + b)[..|a + b| - 1] == a + b[..|b| - 1];
      ColumnSumSplits(a, b[..|b| - 1], dim, j);
    }
  }

  lemma ColumnSumOne(row: Vec, dim: nat, j: nat)
    requires |row| == dim && j < dim
    ensures ColumnSum([row], dim, j) == row[j]
  {
    assert [row][..0] == [];
  }

  lemma {:induction false} SamplesSplit(a: seq<Update>, b: seq<Update>)
    ensures TotalSamples(a + b) == TotalSamples(a) + TotalSamples(b)
  {
    if b == [] {
      assert a + b == a;
    } else {
      assert (a + b)[..|a + b| - 1] == a + b[..|b| - 1];
      SamplesSplit(a, b[..|b| - 1]);
    }
  }

  /** An update of n samples counts n times, one that does not say so once. */
  lemma SamplesOne(u: Update)
    ensures u.nSamples.Some? ==> TotalSamples([u]) == u.nSamples.value
    ensures u.nSamples.None? ==> TotalSamples([u]) == 1
  {
    assert [u][..0] == [];
  }

  /** Column j of the deltas, each taken as often as its update has samples. */
  function SampledColumn(updates: seq<Update>, dim: nat, j: nat): real
    requires SameLength(updates, dim) && j < dim
  {
    if updates == [] then 0.0 else
      var u := updates[|updates| - 1];
      SampledColumn(updates[..|updates| - 1], dim, j) +
      (if u.nSamples.Some? then u.nSamples.value else 1) as real * u.delta[j]
  }

  /** z is t times x. */
  predicate IsTimes(z: real, t: real, x: real) {
    z == t * x
  }

  lemma OneMoreShare(z: real, t: real, x: real, s: real, d: real)
    requires IsTimes(z, t, x) && t != 0.0
    ensures IsTimes(z + s * d, t, x + s / t * d)
  {
    assert t * (s / t * d) == t * (s / t) * d == s * d;
    assert t * (x + s / t * d) == t * x + t * (s / t * d);
  }

  lemma {:induction false} WeightedColumn(updates: seq<Update>, total: int, dim: nat, j: nat)
    requires total != 0 && SameLength(updates, dim) && j < dim
    ensures IsTimes(SampledColumn(updates, dim, j), total as real, WeightedDelta(updates, total, dim)[j])
  {
    if updates == [] {
    } else {
      var u := updates[|updates| - 1];
      var before := WeightedDelta(updates[..|updates| - 1], total, dim);
      WeightedColumn(updates[..|updates| - 1], total, dim, j);
      ScaleAt(Share(u, total), u.delta, j);
      OneMoreShare(SampledColumn(updates[..|updates| - 1], dim, j), total as real, before[j],
                   Samples(u) as real, u.delta[j]);
    }
  }

  /** A round over any updates, passed in or pending, in the terms of its input: refused exactly without
      updates or samples and then without effect; otherwise the total times the returned delta is the sum of
      the sampled deltas, the centroid moves by that delta, and nothing stays pending. */
  lemma AggregateOutcome(s: State, given: Option<seq<Update>>, dim: nat, j: nat)
    requires Shaped(s, dim) && (given.Some? ==> SameLength(given.value, dim))
    ensures
      var updates := if given.Some? then given.value else s.pending;
      var (s', r) := Aggregate(s, given, dim);
      if r.Err? then
        && s' == s && (updates == [] || TotalSamples(updates) == 0) && (r.error == NoUpdates <==> updates == [])
      else
        var delta := r.value;
        && updates != [] && TotalSamples(updates) != 0 && |delta| == dim
        && s'.centroid.Some? && |s'.centroid.value| == dim
        && (j < dim ==>
              && IsTimes(SampledColumn(updates, dim, j), TotalSamples(updates) as real, delta[j])
              && s'.centroid.value[j] == (if s.centroid.Some? then s.centroid.value[j] else 0.0) + delta[j])
        && s'.pending == [] && s'.rounds == s.rounds + 1 && s'.version == [1, 0, s.rounds + 1]
  {
    var updates := if given.Some? then given.value else s.pending;
    if updates != [] && TotalSamples(updates) != 0 && j < dim {
      WeightedColumn(updates, TotalSamples(updates), dim, j);
    }
  }

  /** A submission in the terms of its input: refused exactly for empty or unequal lists and then without
      effect; otherwise the delta is what the mean of the rows lacks of the centroid, which is the mean itself
      if there was none, and an update with it waits last. */
  lemma SubmitOutcome(s: State, clientId: string, rows: seq<Vec>, labels: seq<int>, dim: nat, j: nat)
    requires Shaped(s, dim) && Rectangular(rows, dim)
    ensures
      var (s', r) := Submit(s, clientId, rows, labels, dim);
      if r.Err? then
        && s' == s && (r.error == EmptyInput || r.error == LengthMismatch)
        && (r.error == EmptyInput <==> rows == [] || labels == [])
        && (r.error == LengthMismatch ==> |rows| != |labels|)
      else
        var delta := r.value;
        && rows != [] && |rows| == |labels| && |delta| == dim && s'.centroid.Some? && |s'.centroid.value| == dim
        && (j < dim ==> IsTimes(ColumnSum(rows, dim, j), |rows| as real, s'.centroid.value[j] + delta[j]))
        && (if s.centroid.Some? then s'.centroid == s.centroid else j < dim ==> delta[j] == 0.0)
        && |s'.pending| == |s.pending| + 1 && s'.pending[..|s.pending|] == s.pending
        && s'.pending[|s.pending|].clientId == clientId && s'.pending[|s.pending|].nSamples == Some(|rows|)
        && s'.pending[|s.pending|].delta == delta
        && s'.rounds == s.rounds && s'.version == s.version
  {
    if rows != [] && |rows| == |labels| {
      if j < dim {
        MeanTimes(rows, dim, j);
      }
      assert Submit(s, clientId, rows, labels, dim).0.pending[..|s.pending|] == s.pending;
    }
  }

  lemma MeanTimes(rows: seq<Vec>, dim: nat, j: nat)
    requires rows != [] && Rectangular(rows, dim) && j < dim
    ensures IsTimes(ColumnSum(rows, dim, j), |rows| as real, Mean(rows, dim)[j])
  {
    QuotientTimes(ColumnSum(rows, dim, j), |rows| as real);
  }

  lemma QuotientTimes(x: real, n: real)
    requires n != 0.0
    ensures IsTimes(x, n, x / n)
  {
  }

  // ---------------------------------------------------------------- what becomes of a batch

  ghost predicate AllFit(ops: seq<Op>, dim: nat) {
    forall op :: op in ops ==> Fits(op, dim)
  }

  lemma FitSoFar(ops: seq<Op>, dim: nat)
    requires AllFit(ops, dim) && ops != []
    ensures AllFit(ops[..|ops| - 1], dim) && Fits(ops[|ops| - 1], dim)
  {
    assert ops[|ops| - 1] in ops;
  }

  /** The last operation succeeded. */
  ghost predicate Succeeds(ops: seq<Op>, dim: nat)
    requires AllFit(ops, dim) && ops != []
  {
    FitSoFar(ops, dim);
    Step(Run(ops[..|ops| - 1], dim), ops[|ops| - 1], dim).1.Ok?
  }

  /** All batches accepted, in order. */
  ghost function Accepted(ops: seq<Op>, dim: nat): seq<seq<Vec>>
    requires AllFit(ops, dim)
  {
    if ops == [] then [] else
      FitSoFar(ops, dim);
      Accepted(ops[..|ops| - 1], dim) +
      if ops[|ops| - 1].SubmitOp? && Succeeds(ops, dim) then [ops[|ops| - 1].rows] else []
  }

  /** The batches pooled by each completed round over the pending updates. */
  ghost function Rounds(ops: seq<Op>, dim: nat): seq<seq<seq<Vec>>>
    requires AllFit(ops, dim)
  {
    if ops == [] then [] else
      FitSoFar(ops, dim);
      Rounds(ops[..|ops| - 1], dim) +
      if ops[|ops| - 1] == AggregateOp(None) && Succeeds(ops, dim) then [Batches(ops[..|ops| - 1], dim)] else []
  }

  /** The last operation completes a round over updates passed in while batches are pending. */
  ghost predicate DiscardsLast(ops: seq<Op>, dim: nat)
    requires AllFit(ops, dim) && ops != []
  {
    FitSoFar(ops, dim);
    && ops[|ops| - 1].AggregateOp? && ops[|ops| - 1].given.Some?
    && ops[|ops| - 1].given.value != [] && TotalSamples(ops[|ops| - 1].given.value) != 0
    && Run(ops[..|ops| - 1], dim).pending != []
  }

  ghost predicate Discards(ops: seq<Op>, dim: nat)
    requires AllFit(ops, dim)
  {
    ops != [] &&
    (FitSoFar(ops, dim);
     DiscardsLast(ops, dim) || Discards(ops[..|ops| - 1], dim))
  }

  lemma BatchesStep(ops: seq<Op>, dim: nat)
    requires AllFit(ops, dim) && ops != []
    ensures AllFit(ops[..|ops| - 1], dim)
    ensures Batches(ops, dim) ==
            if !Succeeds(ops, dim) then Batches(ops[..|ops| - 1], dim)
            else if ops[|ops| - 1].SubmitOp? then Batches(ops[..|ops| - 1], dim) + [ops[|ops| - 1].rows] else []
    ensures Batches(ops[..|ops| - 1], dim) == [] <==> Run(ops[..|ops| - 1], dim).pending == []
  {
    FitSoFar(ops, dim);
    RunLinked(ops[..|ops| - 1], dim);
  }

  lemma FlattenSnoc<T>(lists: seq<seq<T>>, list: seq<T>)
    ensures Flatten(lists + [list]) == Flatten(lists) + list
  {
    assert (lists + [list])[..|lists|] == lists;
  }

  lemma AcceptedStep(ops: seq<Op>, dim: nat)
    requires AllFit(ops, dim) && ops != []
    ensures AllFit(ops[..|ops| - 1], dim)
    ensures Accepted(ops, dim) ==
            Accepted(ops[..|ops| - 1], dim) +
            if ops[|ops| - 1].SubmitOp? && Succeeds(ops, dim) then [ops[|ops| - 1].rows] else []
  {
    FitSoFar(ops, dim);
  }

  lemma RoundsStep(ops: seq<Op>, dim: nat)
    requires AllFit(ops, dim) && ops != []
    ensures AllFit(ops[..|ops| - 1], dim)
    ensures Flatten(Rounds(ops, dim)) == Flatten(Rounds(ops[..|ops| - 1], dim)) +
            if ops[|ops| - 1] == AggregateOp(None) && Succeeds(ops, dim) then Batches(ops[..|ops| - 1], dim) else []
  {
    FitSoFar(ops, dim);
    var rounds := Rounds(ops[..|ops| - 1], dim);
    if ops[|ops| - 1] == AggregateOp(None) && Succeeds(ops, dim) {
      FlattenSnoc(rounds, Batches(ops[..|ops| - 1], dim));
    } else {
      assert Rounds(ops, dim) == rounds + [] == rounds;
      assert Flatten(rounds) + [] == Flatten(rounds);
    }
  }

  /** The batches that are in some completed round's mean or pending. */
  ghost function Placed(ops: seq<Op>, dim: nat): seq<seq<Vec>>
    requires AllFit(ops, dim)
  {
    Flatten(Rounds(ops, dim)) + Batches(ops, dim)
  }

  lemma Regroup<T>(a: seq<T>, b: seq<T>, c: seq<T>)
    ensures a + (b + c) == a + b + c && a + [] == a
  {
  }

  /** A step that discards nothing places what it accepts and moves nothing out of place. */
  lemma PlacesMore(ops: seq<Op>, dim: nat)
    requires AllFit(ops, dim) && ops != [] && !DiscardsLast(ops, dim)
    ensures AllFit(ops[..|ops| - 1], dim)
    ensures Placed(ops, dim) ==
            Placed(ops[..|ops| - 1], dim) +
            if ops[|ops| - 1].SubmitOp? && Succeeds(ops, dim) then [ops[|ops| - 1].rows] else []
  {
    BatchesStep(ops, dim);
    RoundsStep(ops, dim);
    var init, last := ops[..|ops| - 1], ops[|ops| - 1];
    Regroup(Flatten(Rounds(init, dim)), Batches(init, dim), if last.SubmitOp? then [last.rows] else []);
    Regroup(Placed(init, dim), [], []);
  }

  lemma PlacesLess(ops: seq<Op>, dim: nat)
    requires AllFit(ops, dim) && ops != [] && DiscardsLast(ops, dim)
    ensures AllFit(ops[..|ops| - 1], dim) && !ops[|ops| - 1].SubmitOp?
    ensures |Placed(ops, dim)| < |Placed(ops[..|ops| - 1], dim)|
  {
    BatchesStep(ops, dim);
    RoundsStep(ops, dim);
  }

  /** Every accepted batch is in exactly one place, a completed round's mean or the pending list, in the
      order of acceptance, if and only if no completed round over updates passed in met pending ones. */
  lemma {:induction false} EveryBatchCountsExactly(ops: seq<Op>, dim: nat)
    requires AllFit(ops, dim)
    ensures Placed(ops, dim) == Accepted(ops, dim) <==> !Discards(ops, dim)
    ensures |Placed(ops, dim)| <= |Accepted(ops, dim)|
    ensures Discards(ops, dim) ==> |Placed(ops, dim)| < |Accepted(ops, dim)|
  {
    if ops == [] {
    } else {
      FitSoFar(ops, dim);
      EveryBatchCountsExactly(ops[..|ops| - 1], dim);
      AcceptedStep(ops, dim);
      if DiscardsLast(ops, dim) {
        PlacesLess(ops, dim);
      } else {
        PlacesMore(ops, dim);
      }
    }
  }

  /** Round r completed at step i. */
  ghost predicate CompletedAt(ops: seq<Op>, dim: nat, pooled: seq<seq<Vec>>, i: nat)
    requires AllFit(ops, dim)
  {
    && i < |ops| && ops[i] == AggregateOp(None) && AllFit(ops[..i], dim) && AllFit(ops[..i + 1], dim)
    && pooled == Batches(ops[..i], dim) && pooled != []
    && Flatten(pooled) != [] && Rectangular(Flatten(pooled), dim)
    && Run(ops[..i + 1], dim).centroid == Some(Mean(Flatten(pooled), dim))
  }

  lemma CompletedLast(ops: seq<Op>, dim: nat)
    requires AllFit(ops, dim) && ops != [] && ops[|ops| - 1] == AggregateOp(None) && Succeeds(ops, dim)
    ensures AllFit(ops[..|ops| - 1], dim) && CompletedAt(ops, dim, Batches(ops[..|ops| - 1], dim), |ops| - 1)
  {
    FitSoFar(ops, dim);
    BatchesStep(ops, dim);
    AggregateIsPooledMean(ops[..|ops| - 1], dim);
    assert ops[..|ops|] == ops;
  }

  lemma CompletedEarlier(ops: seq<Op>, dim: nat, pooled: seq<seq<Vec>>, i: nat)
    requires AllFit(ops, dim) && ops != [] && AllFit(ops[..|ops| - 1], dim)
    requires CompletedAt(ops[..|ops| - 1], dim, pooled, i)
    ensures CompletedAt(ops, dim, pooled, i)
  {
    var init := ops[..|ops| - 1];
    assert init[..i] == ops[..i] && init[..i + 1] == ops[..i + 1];
  }

  /** Each such round made the global centroid the mean of the embeddings it pooled. */
  lemma {:induction false} RoundIsMean(ops: seq<Op>, dim: nat, r: nat) returns (i: nat)
    requires AllFit(ops, dim) && r < |Rounds(ops, dim)|
    ensures CompletedAt(ops, dim, Rounds(ops, dim)[r], i)
  {
    FitSoFar(ops, dim);
    var init := ops[..|ops| - 1];
    if r < |Rounds(init, dim)| {
      i := RoundIsMean(init, dim, r);
      CompletedEarlier(ops, dim, Rounds(init, dim)[r], i);
    } else {
      i := |init|;
      CompletedLast(ops, dim);
    }
  }

  /** On a service that already has a centroid, a batch followed by a round over updates passed in leaves
      no trace: the state is as if the batch had never been submitted. */
  lemma ForgottenBatch(s: State, batch: Op, given: seq<Update>, dim: nat)
    requires Shaped(s, dim) && s.centroid.Some? && batch.SubmitOp? && Fits(batch, dim) && SameLength(given, dim)
    requires given != [] && TotalSamples(given) != 0
    ensures Shaped(Step(s, batch, dim).0, dim)
    ensures Step(Step(s, batch, dim).0, AggregateOp(Some(given)), dim) == Step(s, AggregateOp(Some(given)), dim)
    ensures Step(s, AggregateOp(Some(given)), dim).1.Ok?
  {
    StepShaped(s, batch, dim);
  }

  lemma RunSnoc(ops: seq<Op>, op: Op, dim: nat)
    requires AllFit(ops, dim) && Fits(op, dim)
    ensures AllFit(ops + [op], dim)
    ensures Run(ops + [op], dim) == Step(Run(ops, dim), op, dim).0
    ensures Succeeds(ops + [op], dim) <==> Step(Run(ops, dim), op, dim).1.Ok?
  {
    assert (ops + [op])[..|ops|] == ops;
  }

  /** Any service that has a centroid can lose the next batch it accepts: a round over updates passed in
      follows, the batch reaches no mean, and nothing of it remains. */
  lemma NextBatchCanBeLost(ops: seq<Op>, batch: Op, given: seq<Update>, dim: nat)
    requires AllFit(ops, dim) && Run(ops, dim).centroid.Some?
    requires batch.SubmitOp? && Fits(batch, dim) && batch.rows != [] && |batch.rows| == |batch.labels|
    requires given != [] && TotalSamples(given) != 0 && SameLength(given, dim)
    ensures
      var all, without := ops + [batch] + [AggregateOp(Some(given))], ops + [AggregateOp(Some(given))];
      && AllFit(all, dim) && AllFit(without, dim) && AllFit(ops + [batch], dim)
      && Succeeds(ops + [batch], dim) && Discards(all, dim) && Run(all, dim) == Run(without, dim)
  {
    var round := AggregateOp(Some(given));
    RunSnoc(ops, batch, dim);
    RunSnoc(ops, round, dim);
    RunSnoc(ops + [batch], round, dim);
    ForgottenBatch(Run(ops, dim), batch, given, dim);
    assert (ops + [batch] + [round])[..|ops| + 1] == ops + [batch];
  }

  // ---------------------------------------------------------------- the service

  method CountSamples(updates: seq<Update>) returns (total: int)
    ensures total == TotalSamples(updates)
  {
    total := 0;
    for i := 0 to |updates|
      invariant total == TotalSamples(updates[..i])
    {
      assert updates[..i + 1][..i] == updates[..i];
      total := total + Samples(updates[i]);
    }
    assert updates[..|updates|] == updates;
  }

  method SumDeltas(updates: seq<Update>, total: int, dim: nat) returns (aggDelta: Vec)
    requires total != 0 && SameLength(updates, dim)
    ensures aggDelta == WeightedDelta(updates, total, dim)
  {
    aggDelta := seq(dim, _ => 0.0);
    for i := 0 to |updates|
      invariant aggDelta == WeightedDelta(updates[..i], total, dim)
    {
      assert updates[..i + 1][..i] == updates[..i];
      aggDelta := Add(aggDelta, Scale(Share(updates[i], total), updates[i].delta));
    }
    assert updates[..|updates|] == updates;
  }

  class FederatedEmbeddingService {
    var globalCentroid: Option<Vec>
    var roundsCompleted: nat
    var globalVersion: seq<nat>
    var pendingUpdates: seq<Update>

    constructor ()
      ensures Contents() == INITIAL
    {
      globalCentroid, roundsCompleted, globalVersion, pendingUpdates := None, 0, [1, 0, 0], [];
    }

    function Contents(): State
      reads this
    {
      State(globalCentroid, roundsCompleted, globalVersion, pendingUpdates)
    }

    method ComputeGradientUpdate(clientId: string, rows: seq<Vec>, labels: seq<int>, dim: nat)
      returns (result: Result<Vec, Failure>)
      requires Rectangular(rows, dim) && (globalCentroid.Some? ==> |globalCentroid.value| == dim)
      modifies this
      ensures (Contents(), result) == Submit(old(Contents()), clientId, rows, labels, dim)
    {
      if rows == [] || labels == [] {
        return Err(EmptyInput);
      }
      if |rows| != |labels| {
        return Err(LengthMismatch);
      }
      var local := Mean(rows, dim);
      if globalCentroid == None {
        globalCentroid := Some(local);
      }
      var delta := Sub(local, globalCentroid.value);
      pendingUpdates := pendingUpdates + [Update(clientId, Some(|rows|), local, delta)];
      return Ok(delta);
    }

    method AggregateUpdates(given: Option<seq<Update>>, dim: nat) returns (result: Result<Vec, Failure>)
      requires Shaped(Contents(), dim) && (given.Some? ==> SameLength(given.value, dim))
      modifies this
      ensures (Contents(), result) == Aggregate(old(Contents()), given, dim)
    {
      var updates := if given.Some? then given.value else pendingUpdates;
      if updates == [] {
        return Err(NoUpdates);
      }
      var total := CountSamples(updates);
      if total == 0 {
        return Err(DivisionByZero);
      }
      var aggDelta := SumDeltas(updates, total, dim);
      globalCentroid := Some(if globalCentroid.Some? then Add(globalCentroid.value, aggDelta) else aggDelta);
      roundsCompleted := roundsCompleted + 1;
      globalVersion := Bumped(globalVersion);
      pendingUpdates := [];
      return Ok(aggDelta);
    }
  }
}

/** The adaptive batch pool of services/adaptive_batch_pool.py as interleaved atomic steps: producers,
    the coordinator collecting batches, the dispatched batches and clients abandoning their futures. */
module BatchPoolModel {
  import opened Prelude

  type Item(!new)
  type Value(==, !new)
  type Error(==, !new)

  /** A queued item and the number of the future its producer holds. */
  datatype Request = Request(item: Item, future: nat)

  datatype Failure = HandlerError(error: Error) | WrongCount(got: nat, expected: nat)

  datatype Outcome = Pending | Cancelled | Resolved(value: Value) | Rejected(reason: Failure)

  /** What awaiting the handler came to. */
  datatype Reply = Returned(results: seq<Value>) | Raised(error: Error)

  datatype Phase = Waiting | Handling | Done(reply: Reply, elapsed: real)

  /** A dispatched batch: waiting for a worker slot, being handled, or finished. */
  datatype Batch = Batch(requests: seq<Request>, phase: Phase)

  /** Ended holds the requests the coordinator had collected when it was cancelled. */
  datatype Coordinator = Idle | Collecting(target: int, batch: seq<Request>) | Ended(lost: seq<Request>)

  datatype Config = Config(maxWorkers: nat, minBatch: int, maxBatch: int, maxQueueSize: nat, targetDepth: int)

  datatype Stats = Stats(totalRequests: nat, totalBatches: nat, totalErrors: nat,
                         avgBatchSize: real, avgLatencyMs: real, latencies: seq<real>)

  datatype State = State(config: Config, running: bool, accepted: seq<Request>, futures: seq<Outcome>,
                         queue: seq<Request>, coordinator: Coordinator, batches: seq<Batch>, stats: Stats)

  function Started(config: Config): State {
    State(config, true, [], [], [], Idle, [], Stats(0, 0, 0, 0.0, 0.0, []))
  }

  // ---------------------------------------------------------------- batch sizes

  /** int(x): truncation toward zero. */
  function Truncate(x: real): int {
    if x >= 0.0 then x.Floor else -((-x).Floor)
  }

  function Clamp(x: int, lo: int, hi: int): int {
    var capped := if hi <= x then hi else x;
    if capped >= lo then capped else lo
  }

  /** minBatch + depth / targetDepth * (maxBatch - minBatch) */
  function Scaled(c: Config, depth: int): real
    requires c.targetDepth != 0
  {
    c.minBatch as real + depth as real / c.targetDepth as real * (c.maxBatch - c.minBatch) as real
  }

  function Target(c: Config, depth: int): int {
    if depth <= 0 then c.minBatch
    else if depth >= c.targetDepth then c.maxBatch
    else Clamp(Truncate(Scaled(c, depth)), c.minBatch, c.maxBatch)
  }

  lemma QuotientGrows(a: real, b: real, whole: real)
    requires a <= b && whole > 0.0
    ensures a / whole <= b / whole
  {
  }

  lemma ProductGrows(x: real, y: real, span: real)
    requires x <= y && span >= 0.0
    ensures x * span <= y * span
  {
  }

  lemma ScaledGrows(c: Config, shallow: int, deep: int)
    requires c.minBatch <= c.maxBatch && shallow <= deep && c.targetDepth > 0
    ensures Scaled(c, shallow) <= Scaled(c, deep)
  {
    QuotientGrows(shallow as real, deep as real, c.targetDepth as real);
    ProductGrows(shallow as real / c.targetDepth as real, deep as real / c.targetDepth as real,
                 (c.maxBatch - c.minBatch) as real);
  }

  lemma TruncateGrows(x: real, y: real)
    requires x <= y
    ensures Truncate(x) <= Truncate(y)
  {
  }

  lemma ClampGrows(x: int, y: int, lo: int, hi: int)
    requires lo <= hi && x <= y
    ensures lo <= Clamp(x, lo, hi) <= Clamp(y, lo, hi) <= hi
  {
  }

  lemma TargetGrows(c: Config, shallow: int, deep: int)
    requires c.minBatch <= c.maxBatch && shallow <= deep
    ensures c.minBatch <= Target(c, shallow) <= Target(c, deep) <= c.maxBatch
  {
    if 0 < shallow && deep < c.targetDepth {
      ScaledGrows(c, shallow, deep);
      TruncateGrows(Scaled(c, shallow), Scaled(c, deep));
      ClampGrows(Truncate(Scaled(c, shallow)), Truncate(Scaled(c, deep)), c.minBatch, c.maxBatch);
    }
  }

  /** The target always lies between the two configured sizes, and never shrinks as the queue deepens if
      and only if they are configured the right way round. */
  lemma TargetGrowsExactly(c: Config, depth: int)
    ensures c.minBatch <= Target(c, depth) <= c.maxBatch || c.maxBatch <= Target(c, depth) <= c.minBatch
    ensures (forall shallow, deep | shallow <= deep :: Target(c, shallow) <= Target(c, deep)) <==>
            c.minBatch <= c.maxBatch
  {
    if c.minBatch <= c.maxBatch {
      TargetGrows(c, depth, depth);
      forall shallow, deep | shallow <= deep
        ensures Target(c, shallow) <= Target(c, deep)
      {
        TargetGrows(c, shallow, deep);
      }
    } else {
      var deep := if c.targetDepth > 0 then c.targetDepth else 1;
      assert Target(c, 0) > Target(c, deep);
    }
  }

  /** Division rounded toward zero. */
  function Quotient(a: int, b: int): int
    requires b > 0
  {
    if a >= 0 then a / b else -((-a) / b)
  }

  lemma CastProduct(a: int, b: int)
    ensures (a * b) as real == a as real * b as real
  {
  }

  lemma QuotientTimes(a: real, w: real, s: real)
    requires w != 0.0
    ensures a / w * s * w == a * s
  {
    assert a / w * w == a;
  }

  lemma SumTimes(a: real, b: real, w: real)
    ensures (a + b) * w == a * w + b * w
  {
  }

  lemma ScaledTimes(c: Config, depth: int)
    requires c.targetDepth > 0
    ensures Scaled(c, depth) * c.targetDepth as real ==
            (c.minBatch * c.targetDepth + depth * (c.maxBatch - c.minBatch)) as real
  {
    var w, s := c.targetDepth as real, (c.maxBatch - c.minBatch) as real;
    SumTimes(c.minBatch as real, depth as real / w * s, w);
    QuotientTimes(depth as real, w, s);
    CastProduct(c.minBatch, c.targetDepth);
    CastProduct(depth, c.maxBatch - c.minBatch);
  }

  lemma BoundBelow(n: real, x: real, w: real)
    requires w > 0.0 && n * w <= x * w
    ensures n <= x
  {
  }

  lemma BoundAbove(x: real, n: real, w: real)
    requires w > 0.0 && x * w < n * w
    ensures x < n
  {
  }

  lemma FloorQuotient(v: real, q: int, w: int)
    requires w > 0 && q >= 0 && v * w as real == q as real
    ensures v >= 0.0 && v.Floor == q / w
  {
    var n := q / w;
    CastProduct(n, w);
    CastProduct(n + 1, w);
    assert n * w <= q < (n + 1) * w;
    BoundBelow(n as real, v, w as real);
    BoundAbove(v, (n + 1) as real, w as real);
  }

  lemma TruncateQuotient(v: real, q: int, w: int)
    requires w > 0 && v * w as real == q as real
    ensures Truncate(v) == Quotient(q, w)
  {
    if q >= 0 {
      FloorQuotient(v, q, w);
    } else {
      assert (-v) * w as real == -(v * w as real);
      FloorQuotient(-v, -q, w);
    }
  }

  lemma ScaledEnds(c: Config)
    requires c.targetDepth > 0
    ensures Scaled(c, 0) == c.minBatch as real && Scaled(c, c.targetDepth) == c.maxBatch as real
  {
    assert c.targetDepth as real / c.targetDepth as real == 1.0;
  }

  /** Below the target depth the size is interpolated linearly and rounded toward zero; configured the
      wrong way round, it is the minimum. */
  lemma TargetInterpolates(c: Config, depth: int)
    requires 0 < depth < c.targetDepth
    ensures Target(c, depth) ==
            if c.minBatch <= c.maxBatch
            then Quotient(c.minBatch * c.targetDepth + depth * (c.maxBatch - c.minBatch), c.targetDepth)
            else c.minBatch
  {
    if c.minBatch <= c.maxBatch {
      ScaledTimes(c, depth);
      TruncateQuotient(Scaled(c, depth), c.minBatch * c.targetDepth + depth * (c.maxBatch - c.minBatch), c.targetDepth);
      ScaledEnds(c);
      ScaledGrows(c, 0, depth);
      ScaledGrows(c, depth, c.targetDepth);
      TruncateGrows(c.minBatch as real, Scaled(c, depth));
      TruncateGrows(Scaled(c, depth), c.maxBatch as real);
    }
  }

  // ---------------------------------------------------------------- steps

  function Put(s: State, item: Item): (State, Option<nat>) {
    if |s.queue| >= s.config.maxQueueSize then (s, None) else
      var r := Request(item, |s.futures|);
      (s.(accepted := s.accepted + [r], futures := s.futures + [Pending], queue := s.queue + [r]), Some(r.future))
  }

  /** The coordinator's loop head: a new round while running, otherwise it is over. */
  function Begin(s: State): State {
    if !s.coordinator.Idle? then s
    else if s.running then s.(coordinator := Collecting(Target(s.config, |s.queue|), []))
    else s.(coordinator := Ended([]))
  }

  function Take(s: State): State {
    if s.coordinator.Collecting? && |s.coordinator.batch| < s.coordinator.target && s.queue != [] then
      s.(coordinator := s.coordinator.(batch := s.coordinator.batch + [s.queue[0]]), queue := s.queue[1..])
    else s
  }

  /** The target is met or time is up: a batch that holds anything is dispatched. */
  function Dispatch(s: State): State {
    if !s.coordinator.Collecting? then s
    else if s.coordinator.batch == [] then s.(coordinator := Idle)
    else s.(coordinator := Idle, batches := s.batches + [Batch(s.coordinator.batch, Waiting)])
  }

  function Total(batches: seq<Batch>, f: Batch -> int): int {
    if batches == [] then 0 else Total(batches[..|batches| - 1], f) + f(batches[|batches| - 1])
  }

  function Handled(b: Batch): int {
    if b.phase.Handling? then 1 else 0
  }

  function Workers(s: State): int {
    Total(s.batches, Handled)
  }

  /** The semaphore lets a waiting batch through while a slot is free. */
  function Acquire(s: State, i: nat): State {
    if i < |s.batches| && s.batches[i].phase.Waiting? && Workers(s) < s.config.maxWorkers then
      s.(batches := s.batches[i := s.batches[i].(phase := Handling)])
    else s
  }

  function Fails(reply: Reply, n: nat): bool {
    reply.Raised? || |reply.results| != n
  }

  /** What the request at position j of a batch of n is given. */
  function Given(reply: Reply, n: nat, j: nat): Outcome
    requires j < n
  {
    match reply
    case Returned(results) => if |results| == n then Resolved(results[j]) else Rejected(WrongCount(|results|, n))
    case Raised(error) => Rejected(HandlerError(error))
  }

  /** Futures that are done already are left alone. */
  function Settle(futures: seq<Outcome>, f: nat, o: Outcome): (r: seq<Outcome>)
    ensures |r| == |futures|
  {
    if f < |futures| && futures[f] == Pending then futures[f := o] else futures
  }

  function SettleBatch(futures: seq<Outcome>, requests: seq<Request>, reply: Reply, k: nat): (r: seq<Outcome>)
    requires k <= |requests|
    ensures |r| == |futures|
  {
    if k == 0 then futures else
      Settle(SettleBatch(futures, requests, reply, k - 1), requests[k - 1].future, Given(reply, |requests|, k - 1))
  }

  function Averaged(avg: real, x: real, n: int): real
    requires n != 0
  {
    avg + (x - avg) / n as real
  }

  const KEPT_MAX := 10000
  const KEPT_AFTER := 5000

  function Logged(latencies: seq<real>, elapsed: real): seq<real> {
    var all := latencies + [elapsed];
    if |all| > KEPT_MAX then all[|all| - KEPT_AFTER..] else all
  }

  function Recorded(s: Stats, n: nat, failed: bool, elapsed: real): Stats
  {
    var b := s.totalBatches + 1;
    Stats(s.totalRequests + n, b, if failed then s.totalErrors + n else s.totalErrors,
          Averaged(s.avgBatchSize, n as real, b), Averaged(s.avgLatencyMs, elapsed * 1000.0, b),
          Logged(s.latencies, elapsed))
  }

  function Complete(s: State, i: nat, reply: Reply, elapsed: real): State
  {
    if i < |s.batches| && s.batches[i].phase.Handling? then
      var b := s.batches[i];
      s.(futures := SettleBatch(s.futures, b.requests, reply, |b.requests|),
         batches := s.batches[i := b.(phase := Done(reply, elapsed))],
         stats := Recorded(s.stats, |b.requests|, Fails(reply, |b.requests|), elapsed))
    else s
  }

  function Abandon(s: State, f: nat): State {
    s.(futures := Settle(s.futures, f, Cancelled))
  }

  /** stop() first clears the flag; the coordinator is cancelled once the drain ends or times out. */
  function Stop(s: State): State {
    s.(running := false)
  }

  function CancelCoordinator(s: State): State {
    if s.running || s.coordinator.Ended? then s
    else s.(coordinator := Ended(if s.coordinator.Collecting? then s.coordinator.batch else []))
  }

  datatype Op =
    | PutOp(item: Item)
    | BeginOp
    | TakeOp
    | DispatchOp
    | AcquireOp(i: nat)
    | CompleteOp(i: nat, reply: Reply, elapsed: real)
    | AbandonOp(f: nat)
    | StopOp
    | CancelOp

  function Step(s: State, op: Op): State {
    match op
    case PutOp(item) => Put(s, item).0
    case BeginOp => Begin(s)
    case TakeOp => Take(s)
    case DispatchOp => Dispatch(s)
    case AcquireOp(i) => Acquire(s, i)
    case CompleteOp(i, reply, elapsed) => Complete(s, i, reply, elapsed)
    case AbandonOp(f) => Abandon(s, f)
    case StopOp => Stop(s)
    case CancelOp => CancelCoordinator(s)
  }

  function Run(s: State, ops: seq<Op>): State {
    if ops == [] then s else Step(Run(s, ops[..|ops| - 1]), ops[|ops| - 1])
  }

  // ---------------------------------------------------------------- order

  function Dispatched(batches: seq<Batch>): seq<Request> {
    if batches == [] then [] else Dispatched(batches[..|batches| - 1]) + batches[|batches| - 1].requests
  }

  function Held(c: Coordinator): seq<Request> {
    match c
    case Idle => []
    case Collecting(_, batch) => batch
    case Ended(lost) => lost
  }

  /** First in, first out: the batches in the order of their dispatch, what the coordinator holds and the
      queue are together the accepted requests in order. */
  ghost predicate Fifo(s: State) {
    Dispatched(s.batches) + Held(s.coordinator) + s.queue == s.accepted
  }

  ghost predicate Numbered(s: State) {
    |s.futures| == |s.accepted| && forall i :: 0 <= i < |s.accepted| ==> s.accepted[i].future == i
  }

  lemma {:induction false} DispatchedUpdate(batches: seq<Batch>, i: nat, b: Batch)
    requires i < |batches| && b.requests == batches[i].requests
    ensures Dispatched(batches[i := b]) == Dispatched(batches)
  {
    var after := batches[i := b];
    if i < |batches| - 1 {
      assert after[..|after| - 1] == batches[..|batches| - 1][i := b];
      DispatchedUpdate(batches[..|batches| - 1], i, b);
    } else {
      assert after[..|after| - 1] == batches[..|batches| - 1];
    }
  }

  lemma DispatchedAppend(batches: seq<Batch>, b: Batch)
    ensures Dispatched(batches + [b]) == Dispatched(batches) + b.requests
  {
    assert (batches + [b])[..|batches|] == batches;
  }

  lemma PutFifo(s: State, item: Item)
    requires Fifo(s) && Numbered(s)
    ensures Fifo(Put(s, item).0) && Numbered(Put(s, item).0)
  {
    var d, h, r := Dispatched(s.batches), Held(s.coordinator), [Request(item, |s.futures|)];
    assert d + h + (s.queue + r) == d + h + s.queue + r;
  }

  lemma TakeFifo(s: State)
    requires Fifo(s)
    ensures Fifo(Take(s))
  {
    if Take(s) != s {
      var d, h, q := Dispatched(s.batches), Held(s.coordinator), s.queue;
      assert d + (h + [q[0]]) + q[1..] == d + h + q;
    }
  }

  lemma DispatchFifo(s: State)
    requires Fifo(s)
    ensures Fifo(Dispatch(s))
  {
    if Dispatch(s).batches != s.batches {
      var d, h, q := Dispatched(s.batches), Held(s.coordinator), s.queue;
      DispatchedAppend(s.batches, Batch(h, Waiting));
      assert d + h + [] + q == d + h + q;
    }
  }

  lemma StepFifo(s: State, op: Op)
    requires Fifo(s) && Numbered(s)
    ensures Fifo(Step(s, op)) && Numbered(Step(s, op))
  {
    match op
    case PutOp(item) => PutFifo(s, item);
    case BeginOp =>
    case TakeOp => TakeFifo(s);
    case DispatchOp => DispatchFifo(s);
    case AcquireOp(i) =>
      if Acquire(s, i) != s {
        DispatchedUpdate(s.batches, i, s.batches[i].(phase := Handling));
      }
    case CompleteOp(i, reply, elapsed) =>
      if Complete(s, i, reply, elapsed) != s {
        DispatchedUpdate(s.batches, i, s.batches[i].(phase := Done(reply, elapsed)));
      }
    case AbandonOp(f) =>
    case StopOp =>
    case CancelOp =>
  }

  // ---------------------------------------------------------------- outcomes

  function FutureOf(futures: seq<Outcome>, f: nat): Outcome {
    if f < |futures| then futures[f] else Pending
  }

  predicate Unsettled(o: Outcome) {
    o.Pending? || o.Cancelled?
  }

  /** A finished batch has given the request at position j its own result, or the batch's failure, unless
      the client had abandoned it; until then nothing is given. */
  predicate Suits(o: Outcome, b: Batch, j: nat)
    requires j < |b.requests|
  {
    if b.phase.Done? then o.Cancelled? || o == Given(b.phase.reply, |b.requests|, j) else Unsettled(o)
  }

  ghost predicate BatchSuits(futures: seq<Outcome>, b: Batch) {
    forall j :: 0 <= j < |b.requests| ==> Suits(FutureOf(futures, b.requests[j].future), b, j)
  }

  ghost predicate Waits(futures: seq<Outcome>, requests: seq<Request>) {
    forall j :: 0 <= j < |requests| ==> Unsettled(FutureOf(futures, requests[j].future))
  }

  ghost predicate Outcomes(s: State) {
    && (forall i :: 0 <= i < |s.batches| ==> BatchSuits(s.futures, s.batches[i]))
    && Waits(s.futures, Held(s.coordinator)) && Waits(s.futures, s.queue)
  }

  /** Where batch i starts in the order of acceptance. */
  function Offset(batches: seq<Batch>, i: nat): nat
    requires i <= |batches|
  {
    |Dispatched(batches[..i])|
  }

  lemma {:induction false} OffsetAt(batches: seq<Batch>, i: nat, j: nat)
    requires i < |batches| && j < |batches[i].requests|
    ensures Offset(batches, i) + j < |Dispatched(batches)|
    ensures Dispatched(batches)[Offset(batches, i) + j] == batches[i].requests[j]
  {
    var init := batches[..|batches| - 1];
    if i < |init| {
      OffsetAt(init, i, j);
      assert init[..i] == batches[..i];
    }
  }

  /** The futures of batch i are numbered consecutively from its offset. */
  lemma BatchNumbers(s: State, i: nat, j: nat)
    requires Fifo(s) && Numbered(s) && i < |s.batches| && j < |s.batches[i].requests|
    ensures s.batches[i].requests[j].future == Offset(s.batches, i) + j < |s.futures|
  {
    OffsetAt(s.batches, i, j);
    assert s.accepted[Offset(s.batches, i) + j] == s.batches[i].requests[j];
  }

  lemma {:induction false} OffsetsApart(batches: seq<Batch>, i: nat, k: nat)
    requires i < k <= |batches|
    ensures Offset(batches, i) + |batches[i].requests| <= Offset(batches, k)
  {
    var before := batches[..k - 1];
    assert batches[..k][..k - 1] == before;
    if i < k - 1 {
      OffsetsApart(batches, i, k - 1);
    }
  }

  ghost predicate NumberedFrom(requests: seq<Request>, lo: nat) {
    forall j :: 0 <= j < |requests| ==> requests[j].future == lo + j
  }

  lemma {:induction false} SettleBatchOutcome(futures: seq<Outcome>, requests: seq<Request>, reply: Reply,
                                              k: nat, lo: nat, f: nat)
    requires k <= |requests| && NumberedFrom(requests, lo) && lo + |requests| <= |futures|
    ensures FutureOf(SettleBatch(futures, requests, reply, k), f) ==
            if lo <= f < lo + k && FutureOf(futures, f).Pending? then Given(reply, |requests|, f - lo)
            else FutureOf(futures, f)
  {
    if k == 0 {
    } else {
      SettleBatchOutcome(futures, requests, reply, k - 1, lo, f);
      SettleBatchOutcome(futures, requests, reply, k - 1, lo, lo + k - 1);
    }
  }

  lemma Numbers(s: State, i: nat)
    requires Fifo(s) && Numbered(s) && i < |s.batches|
    ensures NumberedFrom(s.batches[i].requests, Offset(s.batches, i))
    ensures Offset(s.batches, i) + |s.batches[i].requests| <= |s.futures|
  {
    forall j | 0 <= j < |s.batches[i].requests|
      ensures s.batches[i].requests[j].future == Offset(s.batches, i) + j
    {
      BatchNumbers(s, i, j);
    }
    OffsetsApart(s.batches, i, |s.batches|);
    assert s.batches[..|s.batches|] == s.batches;
  }

  /** Requests numbered outside the batch keep their futures. */
  lemma ElsewhereKept(futures: seq<Outcome>, requests: seq<Request>, reply: Reply, lo: nat, f: nat)
    requires NumberedFrom(requests, lo) && lo + |requests| <= |futures| && !(lo <= f < lo + |requests|)
    ensures FutureOf(SettleBatch(futures, requests, reply, |requests|), f) == FutureOf(futures, f)
  {
    SettleBatchOutcome(futures, requests, reply, |requests|, lo, f);
  }

  lemma CompletedSuits(futures: seq<Outcome>, b: Batch, reply: Reply, elapsed: real, lo: nat)
    requires NumberedFrom(b.requests, lo) && lo + |b.requests| <= |futures|
    requires BatchSuits(futures, b) && b.phase.Handling?
    ensures BatchSuits(SettleBatch(futures, b.requests, reply, |b.requests|), b.(phase := Done(reply, elapsed)))
  {
    var after := SettleBatch(futures, b.requests, reply, |b.requests|);
    var done := b.(phase := Done(reply, elapsed));
    forall j | 0 <= j < |done.requests|
      ensures Suits(FutureOf(after, done.requests[j].future), done, j)
    {
      SettleBatchOutcome(futures, b.requests, reply, |b.requests|, lo, lo + j);
      assert Suits(FutureOf(futures, b.requests[j].future), b, j);
    }
  }

  lemma OtherSuits(s: State, i: nat, reply: Reply, k: nat)
    requires Fifo(s) && Numbered(s) && i < |s.batches| && k < |s.batches| && i != k
    requires BatchSuits(s.futures, s.batches[k])
    ensures BatchSuits(SettleBatch(s.futures, s.batches[i].requests, reply, |s.batches[i].requests|), s.batches[k])
  {
    var b, other := s.batches[i], s.batches[k];
    var after := SettleBatch(s.futures, b.requests, reply, |b.requests|);
    Numbers(s, i);
    Numbers(s, k);
    if i < k {
      OffsetsApart(s.batches, i, k);
    } else {
      OffsetsApart(s.batches, k, i);
    }
    forall j | 0 <= j < |other.requests|
      ensures Suits(FutureOf(after, other.requests[j].future), other, j)
    {
      ElsewhereKept(s.futures, b.requests, reply, Offset(s.batches, i), other.requests[j].future);
      assert Suits(FutureOf(s.futures, other.requests[j].future), other, j);
    }
  }

  /** Requests not yet dispatched come after every batch. */
  lemma LaterWait(s: State, i: nat, reply: Reply, requests: seq<Request>, lo: nat)
    requires Fifo(s) && Numbered(s) && i < |s.batches| && Waits(s.futures, requests)
    requires NumberedFrom(requests, lo) && lo >= |Dispatched(s.batches)|
    ensures Waits(SettleBatch(s.futures, s.batches[i].requests, reply, |s.batches[i].requests|), requests)
  {
    var b := s.batches[i];
    Numbers(s, i);
    OffsetsApart(s.batches, i, |s.batches|);
    assert s.batches[..|s.batches|] == s.batches;
    forall j | 0 <= j < |requests|
      ensures Unsettled(FutureOf(SettleBatch(s.futures, b.requests, reply, |b.requests|), requests[j].future))
    {
      ElsewhereKept(s.futures, b.requests, reply, Offset(s.batches, i), requests[j].future);
    }
  }

  lemma WaitingNumbers(s: State)
    requires Fifo(s) && Numbered(s)
    ensures NumberedFrom(Held(s.coordinator), |Dispatched(s.batches)|)
    ensures NumberedFrom(s.queue, |Dispatched(s.batches)| + |Held(s.coordinator)|)
  {
    var d, h := Dispatched(s.batches), Held(s.coordinator);
    assert forall j :: 0 <= j < |h| ==> h[j] == s.accepted[|d| + j];
    assert forall j :: 0 <= j < |s.queue| ==> s.queue[j] == s.accepted[|d| + |h| + j];
  }

  lemma CompleteOutcomes(s: State, i: nat, reply: Reply, elapsed: real)
    requires Fifo(s) && Numbered(s) && Outcomes(s)
    ensures Outcomes(Complete(s, i, reply, elapsed))
  {
    var t := Complete(s, i, reply, elapsed);
    if t != s {
      var b, lo := s.batches[i], Offset(s.batches, i);
      Numbers(s, i);
      forall k | 0 <= k < |t.batches|
        ensures BatchSuits(t.futures, t.batches[k])
      {
        if k == i {
          CompletedSuits(s.futures, b, reply, elapsed, lo);
        } else {
          OtherSuits(s, i, reply, k);
        }
      }
      WaitingNumbers(s);
      LaterWait(s, i, reply, Held(s.coordinator), |Dispatched(s.batches)|);
      LaterWait(s, i, reply, s.queue, |Dispatched(s.batches)| + |Held(s.coordinator)|);
    }
  }

  lemma AbandonOutcomes(s: State, f: nat)
    requires Outcomes(s)
    ensures Outcomes(Abandon(s, f))
  {
    var after := Settle(s.futures, f, Cancelled);
    assert forall g :: FutureOf(after, g) == FutureOf(s.futures, g) ||
                       (FutureOf(s.futures, g).Pending? && FutureOf(after, g).Cancelled?);
    forall i | 0 <= i < |s.batches|
      ensures BatchSuits(after, s.batches[i])
    {
      assert BatchSuits(s.futures, s.batches[i]);
    }
  }

  lemma PutOutcomes(s: State, item: Item)
    requires Outcomes(s)
    ensures Outcomes(Put(s, item).0)
  {
    assert forall g :: FutureOf(s.futures + [Pending], g) == FutureOf(s.futures, g);
    forall i | 0 <= i < |s.batches|
      ensures BatchSuits(s.futures + [Pending], s.batches[i])
    {
      assert BatchSuits(s.futures, s.batches[i]);
    }
  }

  lemma DispatchOutcomes(s: State)
    requires Outcomes(s)
    ensures Outcomes(Dispatch(s))
  {
    assert BatchSuits(s.futures, Batch(Held(s.coordinator), Waiting));
  }

  lemma AcquireOutcomes(s: State, i: nat)
    requires Outcomes(s)
    ensures Outcomes(Acquire(s, i))
  {
    if Acquire(s, i) != s {
      assert BatchSuits(s.futures, s.batches[i]);
      assert forall j :: 0 <= j < |s.batches[i].requests| ==>
                           Suits(FutureOf(s.futures, s.batches[i].requests[j].future), s.batches[i], j);
      assert BatchSuits(s.futures, s.batches[i].(phase := Handling));
    }
  }

  lemma StepOutcomes(s: State, op: Op)
    requires Fifo(s) && Numbered(s) && Outcomes(s)
    ensures Outcomes(Step(s, op))
  {
    match op
    case PutOp(item) => PutOutcomes(s, item);
    case BeginOp =>
    case TakeOp =>
    case DispatchOp => DispatchOutcomes(s);
    case AcquireOp(i) => AcquireOutcomes(s, i);
    case CompleteOp(i, reply, elapsed) => CompleteOutcomes(s, i, reply, elapsed);
    case AbandonOp(f) => AbandonOutcomes(s, f);
    case StopOp =>
    case CancelOp =>
  }

  lemma {:induction false} SettleBatchFinal(futures: seq<Outcome>, requests: seq<Request>, reply: Reply, k: nat, f: nat)
    requires k <= |requests| && !FutureOf(futures, f).Pending?
    ensures FutureOf(SettleBatch(futures, requests, reply, k), f) == FutureOf(futures, f)
  {
    if k == 0 {
    } else {
      SettleBatchFinal(futures, requests, reply, k - 1, f);
    }
  }

  /** A future is settled at most once. */
  lemma StepFinal(s: State, op: Op, f: nat)
    requires !FutureOf(s.futures, f).Pending?
    ensures FutureOf(Step(s, op).futures, f) == FutureOf(s.futures, f)
  {
    if op.CompleteOp? && op.i < |s.batches| {
      SettleBatchFinal(s.futures, s.batches[op.i].requests, op.reply, |s.batches[op.i].requests|, f);
    }
  }

  // ---------------------------------------------------------------- bounds

  ghost predicate Sized(c: Config, b: Batch) {
    1 <= |b.requests| && (c.minBatch <= c.maxBatch ==> |b.requests| <= c.maxBatch)
  }

  ghost predicate Staffed(s: State) {
    0 <= Workers(s) <= s.config.maxWorkers
  }

  ghost predicate Bounded(s: State) {
    && |s.queue| <= s.config.maxQueueSize
    && (forall i :: 0 <= i < |s.batches| ==> Sized(s.config, s.batches[i]))
    && (s.coordinator.Collecting? && s.coordinator.batch != [] ==> |s.coordinator.batch| <= s.coordinator.target)
    && (s.coordinator.Collecting? ==>
          s.config.minBatch <= s.config.maxBatch ==> s.coordinator.target <= s.config.maxBatch)
  }

  lemma {:induction false} TotalUpdate(batches: seq<Batch>, f: Batch -> int, i: nat, b: Batch)
    requires i < |batches|
    ensures Total(batches[i := b], f) == Total(batches, f) - f(batches[i]) + f(b)
  {
    var after := batches[i := b];
    if i < |batches| - 1 {
      assert after[..|after| - 1] == batches[..|batches| - 1][i := b];
      TotalUpdate(batches[..|batches| - 1], f, i, b);
    } else {
      assert after[..|after| - 1] == batches[..|batches| - 1];
    }
  }

  lemma TotalAppend(batches: seq<Batch>, f: Batch -> int, b: Batch)
    ensures Total(batches + [b], f) == Total(batches, f) + f(b)
  {
    assert (batches + [b])[..|batches|] == batches;
  }

  lemma {:induction false} TotalNonNegative(batches: seq<Batch>, f: Batch -> int)
    requires forall b :: f(b) >= 0
    ensures Total(batches, f) >= 0
  {
    if batches == [] {
    } else {
      TotalNonNegative(batches[..|batches| - 1], f);
    }
  }

  lemma StepStaffed(s: State, op: Op)
    requires Staffed(s)
    ensures Staffed(Step(s, op))
  {
    if op.DispatchOp? {
      TotalAppend(s.batches, Handled, Batch(Held(s.coordinator), Waiting));
    } else if op.AcquireOp? && Step(s, op) != s {
      TotalUpdate(s.batches, Handled, op.i, s.batches[op.i].(phase := Handling));
    } else if op.CompleteOp? && Step(s, op) != s {
      var done := s.batches[op.i].(phase := Done(op.reply, op.elapsed));
      TotalUpdate(s.batches, Handled, op.i, done);
      TotalNonNegative(s.batches[op.i := done], Handled);
    }
  }

  lemma StepBounded(s: State, op: Op)
    requires Bounded(s)
    ensures Bounded(Step(s, op))
  {
    if op.BeginOp? {
      TargetGrows1(s.config, |s.queue|);
    }
  }

  lemma TargetGrows1(c: Config, depth: int)
    ensures c.minBatch <= c.maxBatch ==> Target(c, depth) <= c.maxBatch
  {
    if c.minBatch <= c.maxBatch {
      TargetGrows(c, depth, depth);
    }
  }

  // ---------------------------------------------------------------- statistics

  function Finished(b: Batch): int {
    if b.phase.Done? then 1 else 0
  }

  function Served(b: Batch): int {
    if b.phase.Done? then |b.requests| else 0
  }

  function Failed(b: Batch): int {
    if b.phase.Done? && Fails(b.phase.reply, |b.requests|) then |b.requests| else 0
  }

  function TimeSpent(batches: seq<Batch>): real {
    if batches == [] then 0.0 else
      var last := batches[|batches| - 1].phase;
      TimeSpent(batches[..|batches| - 1]) + if last.Done? then last.elapsed else 0.0
  }

  /** The counters count what has finished, and the running averages are true averages. */
  ghost predicate Counted(s: State) {
    && s.stats.totalBatches == Total(s.batches, Finished) && s.stats.totalRequests == Total(s.batches, Served)
    && s.stats.totalErrors == Total(s.batches, Failed)
  }

  ghost predicate Averaging(stats: Stats, time: real) {
    && stats.avgBatchSize * stats.totalBatches as real == stats.totalRequests as real
    && stats.avgLatencyMs * stats.totalBatches as real == time * 1000.0
    && (stats.totalBatches == 0 ==> stats.avgBatchSize == 0.0 && stats.avgLatencyMs == 0.0)
    && |stats.latencies| <= KEPT_MAX
  }

  ghost predicate Averages(s: State) {
    Averaging(s.stats, TimeSpent(s.batches))
  }

  lemma AveragedSums(avg: real, x: real, n: nat)
    ensures Averaged(avg, x, n + 1) * (n + 1) as real == avg * n as real + x
  {
    var m := (n + 1) as real;
    assert (x - avg) / m * m == x - avg;
    assert avg * m == avg * n as real + avg;
  }

  lemma {:induction false} TimeSpentDone(batches: seq<Batch>, i: nat, b: Batch)
    requires i < |batches| && !batches[i].phase.Done?
    ensures TimeSpent(batches[i := b]) == TimeSpent(batches) + if b.phase.Done? then b.phase.elapsed else 0.0
  {
    var after := batches[i := b];
    if i < |batches| - 1 {
      assert after[..|after| - 1] == batches[..|batches| - 1][i := b];
      TimeSpentDone(batches[..|batches| - 1], i, b);
    } else {
      assert after[..|after| - 1] == batches[..|batches| - 1];
    }
  }

  lemma CompleteCounted(s: State, i: nat, reply: Reply, elapsed: real)
    requires Counted(s)
    ensures Counted(Complete(s, i, reply, elapsed))
  {
    if Complete(s, i, reply, elapsed) != s {
      var done := s.batches[i].(phase := Done(reply, elapsed));
      TotalUpdate(s.batches, Finished, i, done);
      TotalUpdate(s.batches, Served, i, done);
      TotalUpdate(s.batches, Failed, i, done);
    }
  }

  lemma RecordedAverages(stats: Stats, n: nat, failed: bool, elapsed: real, time: real)
    requires Averaging(stats, time)
    ensures Averaging(Recorded(stats, n, failed, elapsed), time + elapsed)
  {
    AveragedSums(stats.avgBatchSize, n as real, stats.totalBatches);
    AveragedSums(stats.avgLatencyMs, elapsed * 1000.0, stats.totalBatches);
  }

  lemma CompleteAverages(s: State, i: nat, reply: Reply, elapsed: real)
    requires Averages(s)
    ensures Averages(Complete(s, i, reply, elapsed))
  {
    var t := Complete(s, i, reply, elapsed);
    if t != s {
      var b := s.batches[i];
      TimeSpentDone(s.batches, i, b.(phase := Done(reply, elapsed)));
      assert TimeSpent(t.batches) == TimeSpent(s.batches) + elapsed;
      RecordedAverages(s.stats, |b.requests|, Fails(reply, |b.requests|), elapsed, TimeSpent(s.batches));
    }
  }

  lemma AcquireTotals(s: State, i: nat)
    ensures TimeSpent(Acquire(s, i).batches) == TimeSpent(s.batches)
    ensures Counted(s) ==> Counted(Acquire(s, i))
  {
    if Acquire(s, i) != s {
      var b := s.batches[i].(phase := Handling);
      TotalUpdate(s.batches, Finished, i, b);
      TotalUpdate(s.batches, Served, i, b);
      TotalUpdate(s.batches, Failed, i, b);
      TimeSpentDone(s.batches, i, b);
    }
  }

  lemma DispatchTotals(s: State)
    ensures TimeSpent(Dispatch(s).batches) == TimeSpent(s.batches)
    ensures Counted(s) ==> Counted(Dispatch(s))
  {
    var b := Batch(Held(s.coordinator), Waiting);
    TotalAppend(s.batches, Finished, b);
    TotalAppend(s.batches, Served, b);
    TotalAppend(s.batches, Failed, b);
    assert (s.batches + [b])[..|s.batches|] == s.batches;
  }

  lemma StepCounted(s: State, op: Op)
    requires Counted(s)
    ensures Counted(Step(s, op))
  {
    match op
    case DispatchOp => DispatchTotals(s);
    case AcquireOp(i) => AcquireTotals(s, i);
    case CompleteOp(i, reply, elapsed) => CompleteCounted(s, i, reply, elapsed);
    case _ => assert Step(s, op).batches == s.batches && Step(s, op).stats == s.stats;
  }

  lemma StepAverages(s: State, op: Op)
    requires Averages(s)
    ensures Averages(Step(s, op))
  {
    if op.CompleteOp? {
      CompleteAverages(s, op.i, op.reply, op.elapsed);
    } else {
      TimeKept(s, op);
    }
  }

  lemma TimeKept(s: State, op: Op)
    requires !op.CompleteOp?
    ensures TimeSpent(Step(s, op).batches) == TimeSpent(s.batches) && Step(s, op).stats == s.stats
  {
    if op.DispatchOp? {
      DispatchTotals(s);
    } else if op.AcquireOp? {
      AcquireTotals(s, op.i);
    }
  }

  // ---------------------------------------------------------------- runs

  ghost predicate Conserved(s: State) {
    Fifo(s) && Numbered(s) && Outcomes(s) && Bounded(s) && Staffed(s) && Counted(s) && Averages(s)
  }

  /** In every interleaving: no request is lost, duplicated or overtaken, each future gets its own
      position's result or its batch's failure, the bounds hold and the statistics are exact. */
  lemma {:induction false} RunConserves(config: Config, ops: seq<Op>)
    ensures Conserved(Run(Started(config), ops))
  {
    if ops == [] {
    } else {
      RunConserves(config, ops[..|ops| - 1]);
      var before := Run(Started(config), ops[..|ops| - 1]);
      StepFifo(before, ops[|ops| - 1]);
      StepOutcomes(before, ops[|ops| - 1]);
      StepBounded(before, ops[|ops| - 1]);
      StepStaffed(before, ops[|ops| - 1]);
      StepCounted(before, ops[|ops| - 1]);
      StepAverages(before, ops[|ops| - 1]);
    }
  }

  lemma {:induction false} RunFinal(s: State, ops: seq<Op>, f: nat)
    requires !FutureOf(s.futures, f).Pending?
    ensures FutureOf(Run(s, ops).futures, f) == FutureOf(s.futures, f)
  {
    if ops == [] {
    } else {
      RunFinal(s, ops[..|ops| - 1], f);
      StepFinal(Run(s, ops[..|ops| - 1]), ops[|ops| - 1], f);
    }
  }

  /** Once the queue is empty and every batch has finished, every accepted request has been answered. */
  lemma QuiescentAnswered(s: State, f: nat)
    requires Conserved(s) && s.queue == [] && Held(s.coordinator) == []
    requires forall i :: 0 <= i < |s.batches| ==> s.batches[i].phase.Done?
    requires f < |s.futures|
    ensures !s.futures[f].Pending?
  {
    assert Dispatched(s.batches) + [] + [] == Dispatched(s.batches);
    var i, j := Locate(s.batches, f);
    assert BatchSuits(s.futures, s.batches[i]);
    assert Suits(FutureOf(s.futures, s.batches[i].requests[j].future), s.batches[i], j);
  }

  lemma {:induction false} Locate(batches: seq<Batch>, f: nat) returns (i: nat, j: nat)
    requires f < |Dispatched(batches)|
    ensures i < |batches| && j < |batches[i].requests| && Dispatched(batches)[f] == batches[i].requests[j]
  {
    var init := batches[..|batches| - 1];
    if f < |Dispatched(init)| {
      i, j := Locate(init, f);
    } else {
      i, j := |batches| - 1, f - |Dispatched(init)|;
    }
  }

  /** A full queue refuses without effect; otherwise the request waits last, with a future of its own that is
      pending. */
  lemma PutOutcome(s: State, item: Item)
    ensures
      var (t, future) := Put(s, item);
      && (future.None? <==> |s.queue| >= s.config.maxQueueSize) && (future.None? ==> t == s)
      && (future.Some? ==>
            && future.value == |s.futures| < |t.futures| && t.futures[future.value] == Pending
            && t.futures[..|s.futures|] == s.futures
            && t.queue == s.queue + [Request(item, future.value)] && t.batches == s.batches
            && t.coordinator == s.coordinator && t.running == s.running && t.stats == s.stats)
  {
  }

  /** How many requests a round takes at most is settled when it begins, by the length of the queue then. */
  lemma RoundSize(s: State)
    requires s.running && s.coordinator.Idle?
    ensures Begin(s).queue == s.queue && Begin(s).coordinator.Collecting? && Begin(s).coordinator.batch == []
    ensures
      var c, n, target := s.config, |s.queue|, Begin(s).coordinator.target;
      if n == 0 then target == c.minBatch
      else if n >= c.targetDepth then target == c.maxBatch
      else if c.minBatch > c.maxBatch then target == c.minBatch
      else target == Quotient(c.minBatch * c.targetDepth + n * (c.maxBatch - c.minBatch), c.targetDepth)
  {
    if 0 < |s.queue| < s.config.targetDepth {
      TargetInterpolates(s.config, |s.queue|);
    }
  }

  /** The log of latencies keeps everything up to 10000 entries and then the last 5000. */
  lemma LatenciesLogged(s: State, i: nat, reply: Reply, elapsed: real)
    requires i < |s.batches| && s.batches[i].phase.Handling?
    ensures
      var all := s.stats.latencies + [elapsed];
      Complete(s, i, reply, elapsed).stats.latencies == if |all| > 10000 then all[|all| - 5000..] else all
  {
  }

  // ---------------------------------------------------------------- what a run guarantees, spelt out

  lemma {:induction false} SettleBatchGives(futures: seq<Outcome>, requests: seq<Request>, reply: Reply, k: nat, f: nat)
    requires k <= |requests| && FutureOf(SettleBatch(futures, requests, reply, k), f).Cancelled?
    ensures FutureOf(futures, f).Cancelled?
  {
    if k == 0 {
    } else {
      SettleBatchGives(futures, requests, reply, k - 1, f);
    }
  }

  lemma {:induction false} NotCancelled(config: Config, ops: seq<Op>, f: nat)
    requires AbandonOp(f) !in ops
    ensures !FutureOf(Run(Started(config), ops).futures, f).Cancelled?
  {
    if ops == [] {
    } else {
      var init, op := ops[..|ops| - 1], ops[|ops| - 1];
      var s := Run(Started(config), init);
      assert op in ops && forall o :: o in init ==> o in ops;
      NotCancelled(config, init, f);
      if op.CompleteOp? && op.i < |s.batches| && FutureOf(Step(s, op).futures, f).Cancelled? && Step(s, op) != s {
        SettleBatchGives(s.futures, s.batches[op.i].requests, op.reply, |s.batches[op.i].requests|, f);
      }
    }
  }

  /** Once a batch has finished, the client of its j-th request has the j-th result, or what the handler
      raised, or the complaint about the number of results, unless the client itself has given up. */
  lemma ResultsDelivered(config: Config, ops: seq<Op>, i: nat, j: nat)
    requires i < |Run(Started(config), ops).batches| && j < |Run(Started(config), ops).batches[i].requests|
    requires Run(Started(config), ops).batches[i].phase.Done?
    ensures
      var s := Run(Started(config), ops);
      var b, f := s.batches[i], s.batches[i].requests[j].future;
      var n, reply := |b.requests|, b.phase.reply;
      && f < |s.futures|
      && (AbandonOp(f) !in ops ==> !s.futures[f].Cancelled?)
      && (s.futures[f].Cancelled? ||
          s.futures[f] == if reply.Raised? then Rejected(HandlerError(reply.error))
                          else if |reply.results| == n then Resolved(reply.results[j])
                          else Rejected(WrongCount(|reply.results|, n)))
  {
    var s := Run(Started(config), ops);
    RunConserves(config, ops);
    assert BatchSuits(s.futures, s.batches[i]);
    var f := s.batches[i].requests[j].future;
    assert Suits(FutureOf(s.futures, f), s.batches[i], j);
    if AbandonOp(f) !in ops {
      NotCancelled(config, ops, f);
    }
  }

  /** The batches being handled. */
  ghost function InHand(batches: seq<Batch>): set<nat> {
    set i: nat | i < |batches| && batches[i].phase.Handling?
  }

  lemma {:induction false} InHandCounted(batches: seq<Batch>)
    ensures |InHand(batches)| == Total(batches, Handled)
  {
    if batches == [] {
      assert InHand(batches) == {};
    } else {
      var init, n := batches[..|batches| - 1], |batches| - 1;
      InHandCounted(init);
      assert InHand(batches) == InHand(init) + if batches[n].phase.Handling? then {n} else {};
    }
  }

  /** At no time are more than max_workers batches in the handler's hands. */
  lemma HandsBounded(config: Config, ops: seq<Op>)
    ensures |InHand(Run(Started(config), ops).batches)| <= config.maxWorkers
  {
    RunConserves(config, ops);
    RunKeepsConfig(Started(config), ops);
    InHandCounted(Run(Started(config), ops).batches);
  }

  /** A batch that finishes counts once, its requests all count as served, and as failed if the handler raised
      or returned the wrong number of results. */
  lemma CompletionCounts(s: State, i: nat, reply: Reply, elapsed: real)
    requires i < |s.batches| && s.batches[i].phase.Handling?
    ensures
      var n, before, after := |s.batches[i].requests|, s.stats, Complete(s, i, reply, elapsed).stats;
      && after.totalBatches == before.totalBatches + 1 && after.totalRequests == before.totalRequests + n
      && after.totalErrors == before.totalErrors + if reply.Returned? && |reply.results| == n then 0 else n
  {
  }

  /** Stopping and cancelling ends the coordinator with what it holds, and from then on neither that nor what
      is queued is ever answered. */
  lemma StoppedAnswersNoMore(config: Config, ops: seq<Op>, more: seq<Op>)
    ensures
      var s := Run(Started(config), ops);
      var t := Run(Started(config), ops + [StopOp] + [CancelOp] + more);
      Waits(t.futures, Held(s.coordinator)) && Waits(t.futures, s.queue)
  {
    RunSnoc(Started(config), ops, StopOp);
    RunSnoc(Started(config), ops + [StopOp], CancelOp);
    EndedAnswersNoMore(config, ops + [StopOp] + [CancelOp], more);
  }

  // ---------------------------------------------------------------- a running pool can answer everything

  function Undone(b: Batch): int {
    if b.phase.Done? then 0 else 1
  }

  /** What the pool itself does, without clients and without stopping. */
  predicate OfPool(op: Op) {
    op.BeginOp? || op.TakeOp? || op.DispatchOp? || op.AcquireOp? || op.CompleteOp?
  }

  ghost predicate AllOfPool(ops: seq<Op>) {
    forall i :: 0 <= i < |ops| ==> OfPool(ops[i])
  }

  lemma {:induction false} NobodyHandled(batches: seq<Batch>)
    requires forall i :: 0 <= i < |batches| ==> !batches[i].phase.Handling?
    ensures Total(batches, Handled) == 0
  {
    if batches == [] {
    } else {
      NobodyHandled(batches[..|batches| - 1]);
    }
  }

  /** Nothing but the batches' phases, the futures and the statistics differ. */
  ghost predicate OnlyProgress(s: State, t: State) {
    && t.config == s.config && t.running == s.running && t.accepted == s.accepted && t.queue == s.queue
    && t.coordinator == s.coordinator
  }

  /** A batch that is being handled may finish, and a waiting one may start if no other is handled. */
  lemma OneBatchOn(s: State, i: nat, reply: Reply) returns (ops: seq<Op>)
    requires i < |s.batches| && !s.batches[i].phase.Done? && s.config.maxWorkers >= 1
    requires s.batches[i].phase.Waiting? ==> Workers(s) == 0
    ensures AllOfPool(ops) && OnlyProgress(s, Run(s, ops))
    ensures Total(Run(s, ops).batches, Undone) == Total(s.batches, Undone) - 1
  {
    var b := s.batches[i];
    var finish := CompleteOp(i, reply, 0.0);
    if b.phase.Handling? {
      ops := [] + [finish];
      RunSnoc(s, [], finish);
      TotalUpdate(s.batches, Undone, i, b.(phase := Done(reply, 0.0)));
    } else {
      ops := [] + [AcquireOp(i)] + [finish];
      RunSnoc(s, [], AcquireOp(i));
      RunSnoc(s, [] + [AcquireOp(i)], finish);
      assert s.batches[i := b.(phase := Handling)][i := b.(phase := Done(reply, 0.0))] ==
             s.batches[i := b.(phase := Done(reply, 0.0))];
      TotalUpdate(s.batches, Undone, i, b.(phase := Done(reply, 0.0)));
    }
  }

  lemma RunTwice(s: State, a: seq<Op>, b: seq<Op>)
    requires AllOfPool(a) && AllOfPool(b)
    ensures AllOfPool(a + b) && Run(s, a + b) == Run(Run(s, a), b)
  {
    RunAppend(s, a, b);
  }

  lemma {:induction false} FinishBatches(s: State, reply: Reply) returns (ops: seq<Op>)
    requires s.config.maxWorkers >= 1
    ensures AllOfPool(ops) && OnlyProgress(s, Run(s, ops))
    ensures forall i :: 0 <= i < |Run(s, ops).batches| ==> Run(s, ops).batches[i].phase.Done?
    decreases Total(s.batches, Undone)
  {
    if forall i :: 0 <= i < |s.batches| ==> s.batches[i].phase.Done? {
      ops := [];
    } else {
      var i: nat :| i < |s.batches| && !s.batches[i].phase.Done?;
      if h: nat :| h < |s.batches| && s.batches[h].phase.Handling? {
        i := h;
      } else {
        NobodyHandled(s.batches);
      }
      var one := OneBatchOn(s, i, reply);
      TotalNonNegative(Run(s, one).batches, Undone);
      var rest := FinishBatches(Run(s, one), reply);
      ops := one + rest;
      RunTwice(s, one, rest);
    }
  }

  /** A round takes at least one request off the queue. */
  lemma OneRound(s: State) returns (ops: seq<Op>)
    requires s.running && s.coordinator.Idle? && s.queue != [] && s.config.minBatch >= 1 && s.config.maxBatch >= 1
    ensures AllOfPool(ops)
    ensures
      var t := Run(s, ops);
      t.config == s.config && t.running && t.coordinator.Idle? && t.queue == s.queue[1..]
  {
    TargetGrowsExactly(s.config, |s.queue|);
    ops := [] + [BeginOp] + [TakeOp] + [DispatchOp];
    RunSnoc(s, [], BeginOp);
    RunSnoc(s, [] + [BeginOp], TakeOp);
    RunSnoc(s, [] + [BeginOp] + [TakeOp], DispatchOp);
  }

  lemma {:induction false} DrainQueue(s: State) returns (ops: seq<Op>)
    requires s.running && s.coordinator.Idle? && s.config.minBatch >= 1 && s.config.maxBatch >= 1
    ensures AllOfPool(ops)
    ensures
      var t := Run(s, ops);
      t.config == s.config && t.running && t.coordinator.Idle? && t.queue == []
    decreases |s.queue|
  {
    if s.queue == [] {
      ops := [];
    } else {
      var one := OneRound(s);
      var rest := DrainQueue(Run(s, one));
      ops := one + rest;
      RunTwice(s, one, rest);
    }
  }

  /** A running pool with a worker and batches of at least one can, whatever has happened, go on so that
      every accepted request is answered. */
  lemma CanAnswerAll(config: Config, ops: seq<Op>, reply: Reply) returns (more: seq<Op>)
    requires config.maxWorkers >= 1 && config.minBatch >= 1 && config.maxBatch >= 1
    requires Run(Started(config), ops).running
    ensures AllOfPool(more)
    ensures
      var t := Run(Started(config), ops + more);
      |t.futures| == |Run(Started(config), ops).futures| && forall f :: 0 <= f < |t.futures| ==> !t.futures[f].Pending?
  {
    var s := Run(Started(config), ops);
    EndedStopped(config, ops);
    RunKeepsConfig(Started(config), ops);
    var first := [] + [DispatchOp];
    RunSnoc(s, [], DispatchOp);
    var idle := Run(s, first);
    var drain := DrainQueue(idle);
    var finish := FinishBatches(Run(idle, drain), reply);
    more := first + drain + finish;
    RunTwice(s, first, drain);
    RunTwice(s, first + drain, finish);
    RunAppend(Started(config), ops, more);
    RunConserves(config, ops);
    RunConserves(config, ops + more);
    AcceptedKept(s, more);
    forall f | 0 <= f < |Run(s, more).futures|
      ensures !Run(s, more).futures[f].Pending?
    {
      QuiescentAnswered(Run(s, more), f);
    }
  }

  lemma {:induction false} RunKeepsConfig(s: State, ops: seq<Op>)
    ensures Run(s, ops).config == s.config
  {
    if ops == [] {
    } else {
      RunKeepsConfig(s, ops[..|ops| - 1]);
    }
  }

  lemma {:induction false} AcceptedKept(s: State, ops: seq<Op>)
    requires AllOfPool(ops)
    ensures Run(s, ops).accepted == s.accepted
  {
    if ops == [] {
    } else {
      AcceptedKept(s, ops[..|ops| - 1]);
    }
  }

  /** Without workers no batch is ever begun. */
  lemma {:induction false} NoWorkersNoStart(config: Config, ops: seq<Op>)
    requires config.maxWorkers == 0
    ensures forall i :: 0 <= i < |Run(Started(config), ops).batches| ==>
                          Run(Started(config), ops).batches[i].phase.Waiting?
  {
    if ops == [] {
    } else {
      NoWorkersNoStart(config, ops[..|ops| - 1]);
      RunKeepsConfig(Started(config), ops[..|ops| - 1]);
      TotalNonNegative(Run(Started(config), ops[..|ops| - 1]).batches, Handled);
    }
  }

  // ---------------------------------------------------------------- stopping

  /** How many more requests the coordinator may take once the pool is stopping. */
  function Room(s: State): nat {
    if s.coordinator.Collecting? && |s.coordinator.batch| < s.coordinator.target then
      s.coordinator.target - |s.coordinator.batch|
    else 0
  }

  /** Since s, no more than s had room for has left the queue. */
  ghost predicate Stranded(s: State, t: State) {
    !t.running &&
    exists d: nat, more: seq<Request> :: d <= |s.queue| && t.queue == s.queue[d..] + more && d + Room(t) <= Room(s)
  }

  /** A step of a stopped pool leaves the queue alone, appends to it, or takes its head and a unit of room. */
  lemma StepQueue(t: State, op: Op)
    requires !t.running
    ensures
      var u := Step(t, op);
      && !u.running
      && (|| (u.queue == t.queue && Room(u) <= Room(t))
          || (op.PutOp? && u.queue == t.queue + [Request(op.item, |t.futures|)] && Room(u) == Room(t))
          || (t.queue != [] && u.queue == t.queue[1..] && Room(u) + 1 == Room(t)))
  {
  }

  lemma StepStranded(s: State, t: State, op: Op)
    requires Stranded(s, t)
    ensures Stranded(s, Step(t, op))
  {
    StepQueue(t, op);
    QueueStranded(s, t, Step(t, op), if op.PutOp? then [Request(op.item, |t.futures|)] else []);
  }

  lemma QueueStranded(s: State, t: State, u: State, added: seq<Request>)
    requires Stranded(s, t) && !u.running
    requires || (u.queue == t.queue && Room(u) <= Room(t))
             || (u.queue == t.queue + added && Room(u) == Room(t))
             || (t.queue != [] && u.queue == t.queue[1..] && Room(u) + 1 == Room(t))
    ensures Stranded(s, u)
  {
    var d: nat, more: seq<Request> :| d <= |s.queue| && t.queue == s.queue[d..] + more && d + Room(t) <= Room(s);
    if u.queue == t.queue && Room(u) <= Room(t) {
      assert u.queue == s.queue[d..] + more && d + Room(u) <= Room(s);
    } else if u.queue == t.queue + added && Room(u) == Room(t) {
      assert u.queue == s.queue[d..] + (more + added) && d + Room(u) <= Room(s);
    } else if d < |s.queue| {
      assert u.queue == s.queue[d + 1..] + more && d + 1 + Room(u) <= Room(s);
    } else {
      assert u.queue == s.queue[d..] + more[1..] && d + Room(u) <= Room(s);
    }
  }

  lemma {:induction false} RunStranded(s: State, ops: seq<Op>)
    requires !s.running
    ensures Stranded(s, Run(s, ops))
  {
    if ops == [] {
      assert s.queue == s.queue[0..] + [];
    } else {
      RunStranded(s, ops[..|ops| - 1]);
      StepStranded(s, Run(s, ops[..|ops| - 1]), ops[|ops| - 1]);
    }
  }

  lemma {:induction false} TakeAll(s: State, n: nat) returns (ops: seq<Op>)
    requires n <= |s.queue| && n <= Room(s)
    ensures Run(s, ops).queue == s.queue[n..] && Room(Run(s, ops)) == Room(s) - n
  {
    if n == 0 {
      ops := [];
    } else {
      var before := TakeAll(s, n - 1);
      ops := before + [TakeOp];
      assert ops[..|ops| - 1] == before;
    }
  }

  /** A stopped pool can still drain its queue exactly if what is queued fits into the batch being
      collected: the coordinator starts no further round. */
  lemma StopDrainsExactly(s: State)
    requires !s.running
    ensures (exists ops: seq<Op> :: Run(s, ops).queue == []) <==> |s.queue| <= Room(s)
  {
    if |s.queue| <= Room(s) {
      var ops := TakeAll(s, |s.queue|);
      assert Run(s, ops).queue == [];
    }
    if ops: seq<Op> :| Run(s, ops).queue == [] {
      RunStranded(s, ops);
    }
  }

  /** Two requests accepted while a round for one is open, and then stop: a reachable pool that no longer
      drains, whatever happens. */
  lemma StopCanStrand(config: Config, a: Item, b: Item) returns (ops: seq<Op>)
    requires config.minBatch == 1 && config.maxQueueSize >= 2
    ensures !Run(Started(config), ops).running && |Run(Started(config), ops).queue| == 2
    ensures forall more: seq<Op> :: Run(Run(Started(config), ops), more).queue != []
  {
    var s0 := Started(config);
    ops := [] + [BeginOp] + [PutOp(a)] + [PutOp(b)] + [StopOp];
    RunSnoc(s0, [], BeginOp);
    RunSnoc(s0, [] + [BeginOp], PutOp(a));
    RunSnoc(s0, [] + [BeginOp] + [PutOp(a)], PutOp(b));
    RunSnoc(s0, [] + [BeginOp] + [PutOp(a)] + [PutOp(b)], StopOp);
    var s := Run(s0, ops);
    assert s.coordinator == Collecting(1, []) && s.queue == [Request(a, 0), Request(b, 1)];
    StopDrainsExactly(s);
  }

  lemma RunSnoc(s: State, ops: seq<Op>, op: Op)
    ensures Run(s, ops + [op]) == Step(Run(s, ops), op)
  {
    assert (ops + [op])[..|ops|] == ops;
  }

  lemma {:induction false} RunAppend(s: State, a: seq<Op>, b: seq<Op>)
    ensures Run(s, a + b) == Run(Run(s, a), b)
  {
    if b == [] {
      assert a + b == a;
    } else {
      assert (a + b)[..|a + b| - 1] == a + b[..|b| - 1];
      RunAppend(s, a, b[..|b| - 1]);
    }
  }

  lemma {:induction false} RunEnded(s: State, ops: seq<Op>)
    requires s.coordinator.Ended? && !s.running
    ensures Run(s, ops).coordinator == s.coordinator && !Run(s, ops).running
  {
    if ops == [] {
    } else {
      RunEnded(s, ops[..|ops| - 1]);
    }
  }

  lemma {:induction false} EndedStopped(config: Config, ops: seq<Op>)
    ensures Run(Started(config), ops).coordinator.Ended? ==> !Run(Started(config), ops).running
  {
    if ops == [] {
    } else {
      EndedStopped(config, ops[..|ops| - 1]);
    }
  }

  /** Once the coordinator has ended, nothing it was holding and nothing still queued is ever answered. */
  lemma EndedAnswersNoMore(config: Config, ops: seq<Op>, more: seq<Op>)
    requires Run(Started(config), ops).coordinator.Ended?
    ensures
      var s, t := Run(Started(config), ops), Run(Started(config), ops + more);
      Waits(t.futures, Held(s.coordinator)) && Waits(t.futures, s.queue)
  {
    var s := Run(Started(config), ops);
    EndedStopped(config, ops);
    RunEnded(s, more);
    RunStranded(s, more);
    RunAppend(Started(config), ops, more);
    RunConserves(config, ops + more);
    var t := Run(s, more);
    var d: nat, rest: seq<Request> :| d <= |s.queue| && t.queue == s.queue[d..] + rest && d + Room(t) <= Room(s);
    assert forall j :: 0 <= j < |s.queue| ==> t.queue[j] == s.queue[j];
  }
}

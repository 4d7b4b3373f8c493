/** The token buckets of services/query_scheduler.py and the scheduler that spends from them. */
module TokenBucket {
  import opened Prelude

  datatype Bucket = Bucket(creditsPerSecond: real, maxBurst: real, credits: real)

  function Fresh(creditsPerSecond: real, maxBurst: real): Bucket {
    Bucket(creditsPerSecond, maxBurst, maxBurst)
  }

  function Min(a: real, b: real): real {
    if b < a then b else a
  }

  /** What a refill is worth before the cap: a tenth of a second's credits. */
  function Rate(b: Bucket): real {
    b.creditsPerSecond * 0.1
  }

  datatype Op = Consume(cost: real) | Refill

  predicate Granted(b: Bucket, cost: real) {
    b.credits >= cost
  }

  function Step(b: Bucket, op: Op): Bucket {
    match op
    case Consume(cost) => if Granted(b, cost) then b.(credits := b.credits - cost) else b
    case Refill => b.(credits := Min(b.maxBurst, b.credits + Rate(b)))
  }

  function Run(b: Bucket, ops: seq<Op>): Bucket {
    if ops == [] then b else Step(Run(b, ops[..|ops| - 1]), ops[|ops| - 1])
  }

  /** The cost of everything granted in the run. */
  function Spent(b: Bucket, ops: seq<Op>): real {
    if ops == [] then 0.0 else
      var last := ops[|ops| - 1];
      Spent(b, ops[..|ops| - 1]) +
      if last.Consume? && Granted(Run(b, ops[..|ops| - 1]), last.cost) then last.cost else 0.0
  }

  function Refills(ops: seq<Op>): nat {
    if ops == [] then 0 else Refills(ops[..|ops| - 1]) + if ops[|ops| - 1].Refill? then 1 else 0
  }

  ghost predicate Sound(b: Bucket) {
    b.creditsPerSecond >= 0.0 && 0.0 <= b.credits <= b.maxBurst
  }

  ghost predicate NonNegativeCosts(ops: seq<Op>) {
    forall i :: 0 <= i < |ops| ==> ops[i].Consume? ==> ops[i].cost >= 0.0
  }

  /** A step keeps the credits between zero and the burst exactly if it does not buy at a price so far
      below zero that the credits overflow. */
  lemma StepSoundExactly(b: Bucket, op: Op)
    requires Sound(b)
    ensures Sound(Step(b, op)) <==> (op.Consume? ==> op.cost >= b.credits - b.maxBurst)
  {
  }

  lemma {:induction false} RunSound(b: Bucket, ops: seq<Op>)
    requires Sound(b) && NonNegativeCosts(ops)
    ensures Sound(Run(b, ops))
    ensures Run(b, ops).maxBurst == b.maxBurst && Run(b, ops).creditsPerSecond == b.creditsPerSecond
  {
    if ops == [] {
    } else {
      RunSound(b, ops[..|ops| - 1]);
      StepSoundExactly(Run(b, ops[..|ops| - 1]), ops[|ops| - 1]);
    }
  }

  /** No refill is worth more than the burst. */
  function Worth(b: Bucket): real {
    Min(Rate(b), b.maxBurst)
  }

  /** m times x. */
  function Times(m: nat, x: real): real {
    if m == 0 then 0.0 else Times(m - 1, x) + x
  }

  lemma {:induction false} TimesIsProduct(m: nat, x: real)
    ensures Times(m, x) == m as real * x
  {
    if m == 0 {
    } else {
      TimesIsProduct(m - 1, x);
      var n := (m - 1) as real;
      assert m as real == n + 1.0;
      assert (n + 1.0) * x == n * x + x;
    }
  }

  lemma {:induction false} TimesGrows(m: nat, x: real, y: real)
    requires x <= y
    ensures Times(m, x) <= Times(m, y)
  {
    if m == 0 {
    } else {
      TimesGrows(m - 1, x, y);
    }
  }

  /** What a run may spend at most, with m refills. */
  function Allowance(b: Bucket, m: nat): real {
    b.credits + Times(m, Worth(b))
  }

  /** What is spent and what is left never exceed what there was and what the refills were worth. */
  lemma {:induction false} SpentAndLeft(b: Bucket, ops: seq<Op>)
    requires Sound(b) && NonNegativeCosts(ops)
    ensures Spent(b, ops) + Run(b, ops).credits <= Allowance(b, Refills(ops))
  {
    if ops == [] {
    } else {
      var init := ops[..|ops| - 1];
      SpentAndLeft(b, init);
      RunSound(b, init);
    }
  }

  lemma SpentAtMost(b: Bucket, ops: seq<Op>)
    requires Sound(b) && NonNegativeCosts(ops)
    ensures Spent(b, ops) <= Allowance(b, Refills(ops))
  {
    SpentAndLeft(b, ops);
    RunSound(b, ops);
  }

  lemma WindowSpent(b: Bucket, before: seq<Op>, window: seq<Op>)
    requires Sound(b) && NonNegativeCosts(before) && NonNegativeCosts(window)
    ensures Spent(Run(b, before), window) <= b.maxBurst + Times(Refills(window), Rate(b))
  {
    var c := Run(b, before);
    RunSound(b, before);
    SpentAtMost(c, window);
    TimesGrows(Refills(window), Worth(c), Rate(b));
  }

  /** The total is at most the burst and m times x. */
  predicate Within(total: real, burst: real, m: nat, x: real) {
    total <= burst + m as real * x
  }

  lemma BoundAsProduct(total: real, burst: real, m: nat, x: real)
    requires total <= burst + Times(m, x)
    ensures Within(total, burst, m, x)
  {
    TimesIsProduct(m, x);
  }

  /** In any window with m refills the cost granted is at most the burst and m refills' worth. */
  lemma WindowBound(b: Bucket, before: seq<Op>, window: seq<Op>)
    requires Sound(b) && NonNegativeCosts(before) && NonNegativeCosts(window)
    ensures Within(Spent(Run(b, before), window), b.maxBurst, Refills(window), Rate(b))
  {
    WindowSpent(b, before, window);
    BoundAsProduct(Spent(Run(b, before), window), b.maxBurst, Refills(window), Rate(b));
  }

  lemma {:induction false} SpendEverything(b: Bucket, m: nat) returns (ops: seq<Op>)
    requires Sound(b)
    ensures NonNegativeCosts(ops) && Refills(ops) == m
    ensures Run(b, ops) == b.(credits := 0.0) && Spent(b, ops) == Allowance(b, m)
  {
    if m == 0 {
      ops := [Consume(b.credits)];
      assert ops[..0] == [];
    } else {
      var before := SpendEverything(b, m - 1);
      var one := before + [Refill];
      ops := one + [Consume(Worth(b))];
      assert one[..|before|] == before && ops[..|one|] == one;
      assert Run(b, one).credits == Worth(b);
    }
  }

  /** The allowance is exactly the most that m refills let through. */
  lemma AllowanceExactly(b: Bucket, m: nat, total: real)
    requires Sound(b)
    ensures Allowance(b, m) <= total <==>
            forall ops | NonNegativeCosts(ops) && Refills(ops) == m :: Spent(b, ops) <= total
  {
    var most := SpendEverything(b, m);
    forall ops | NonNegativeCosts(ops) && Refills(ops) == m
      ensures Spent(b, ops) <= Allowance(b, m)
    {
      SpentAtMost(b, ops);
    }
  }

  // ---------------------------------------------------------------- the scheduler's lock

  type TenantId(==, !new)

  const DEFAULT_RATE := 10.0
  const DEFAULT_BURST := 50.0

  /** The lock is not reentrant: it knows who holds it only for our benefit, and taking it blocks as long
      as anybody does. */
  datatype Scheduler = Scheduler(tenants: map<TenantId, Bucket>, lock: Option<nat>)

  datatype Call =
    | Register(tenant: TenantId, creditsPerSecond: real, maxBurst: real)
    | Schedule(tenant: TenantId, cost: real)
    | RefillAll

  /** What a thread does between two moments at which another may run. */
  datatype Instr =
    | Acquire
    | Release
    | Add(tenant: TenantId, creditsPerSecond: real, maxBurst: real)
    | Ensure(tenant: TenantId)
    | Spend(tenant: TenantId, cost: real)
    | List
    | RefillOf(tenants: set<TenantId>)

  type Code = seq<Instr>

  function RegisterCode(t: TenantId, creditsPerSecond: real, maxBurst: real): Code {
    [Acquire, Add(t, creditsPerSecond, maxBurst), Release]
  }

  function CodeOf(call: Call): Code {
    match call
    case Register(t, rate, burst) => RegisterCode(t, rate, burst)
    case Schedule(t, cost) => [Acquire, Ensure(t), Release, Spend(t, cost)]
    case RefillAll => [Acquire, List, Release]
  }

  /** One instruction of thread me, or None if it has to wait. Making sure of an unknown tenant calls
      register_tenant; the tenants to refill are listed under the lock and refilled without it. */
  function Execute(s: Scheduler, me: nat, code: Code): Option<(Scheduler, Code)>
    requires code != []
  {
    var rest := code[1..];
    match code[0]
    case Acquire => if s.lock == None then Some((s.(lock := Some(me)), rest)) else None
    case Release => Some((s.(lock := None), rest))
    case Add(t, rate, burst) =>
      Some((if t in s.tenants then s else s.(tenants := s.tenants[t := Fresh(rate, burst)]), rest))
    case Ensure(t) => Some((s, if t in s.tenants then rest else RegisterCode(t, DEFAULT_RATE, DEFAULT_BURST) + rest))
    case Spend(t, cost) =>
      Some((if t in s.tenants then s.(tenants := s.tenants[t := Step(s.tenants[t], Consume(cost))]) else s, rest))
    case List => Some((s, rest + [RefillOf(s.tenants.Keys)]))
    case RefillOf(ts) =>
      var refilled := map t | t in s.tenants :: if t in ts then Step(s.tenants[t], Refill) else s.tenants[t];
      Some((s.(tenants := refilled), rest))
  }

  /** The scheduler, and what each thread has still to do. */
  datatype World = World(s: Scheduler, threads: seq<Code>)

  function Start(tenants: map<TenantId, Bucket>, calls: seq<Call>): (w: World)
    ensures |w.threads| == |calls| && forall i :: 0 <= i < |calls| ==> w.threads[i] == CodeOf(calls[i])
  {
    World(Scheduler(tenants, None), seq(|calls|, i requires 0 <= i < |calls| => CodeOf(calls[i])))
  }

  /** Thread i runs one instruction, if it has one and need not wait. */
  function Move(w: World, i: nat): World {
    if i >= |w.threads| || w.threads[i] == [] then w else
      match Execute(w.s, i, w.threads[i])
      case None => w
      case Some(r) => World(r.0, w.threads[i := r.1])
  }

  function Moves(w: World, moves: seq<nat>): World {
    if moves == [] then w else Move(Moves(w, moves[..|moves| - 1]), moves[|moves| - 1])
  }

  // ---------------------------------------------------------------- tenants

  /** What one move does to tenant t's bucket. */
  function Effect(w: World, i: nat, t: TenantId): seq<Op> {
    if i >= |w.threads| || w.threads[i] == [] then [] else
      match w.threads[i][0]
      case Spend(u, cost) => if u == t then [Consume(cost)] else []
      case RefillOf(ts) => if t in ts then [Refill] else []
      case _ => []
  }

  function Trace(w: World, moves: seq<nat>, t: TenantId): seq<Op> {
    if moves == [] then [] else
      var init := moves[..|moves| - 1];
      Trace(w, init, t) + Effect(Moves(w, init), moves[|moves| - 1], t)
  }

  lemma RunAppendOne(b: Bucket, ops: seq<Op>, op: Op)
    ensures Run(b, ops + [op]) == Step(Run(b, ops), op) && ops + [] == ops
  {
    assert (ops + [op])[..|ops|] == ops;
  }

  lemma MoveAffects(w: World, i: nat, t: TenantId)
    requires t in w.s.tenants
    ensures t in Move(w, i).s.tenants
    ensures
      var e := Effect(w, i, t);
      Move(w, i).s.tenants[t] == if e == [] then w.s.tenants[t] else Step(w.s.tenants[t], e[0])
    ensures |Effect(w, i, t)| <= 1
  {
  }

  /** However the calls interleave, tenants do not touch each other's credits: each bucket runs on its own
      calls and the refills alone. */
  lemma {:induction false} TenantsIsolated(w: World, moves: seq<nat>, t: TenantId)
    requires t in w.s.tenants
    ensures t in Moves(w, moves).s.tenants
    ensures Moves(w, moves).s.tenants[t] == Run(w.s.tenants[t], Trace(w, moves, t))
  {
    if moves == [] {
    } else {
      var init, i := moves[..|moves| - 1], moves[|moves| - 1];
      TenantsIsolated(w, init, t);
      MoveAffects(Moves(w, init), i, t);
      var e, ops := Effect(Moves(w, init), i, t), Trace(w, init, t);
      if e == [] {
        assert ops + e == ops;
      } else {
        assert e == [e[0]];
        RunAppendOne(w.s.tenants[t], ops, e[0]);
      }
    }
  }

  /** What tenant t is granted by one move. */
  function Grant(w: World, i: nat, t: TenantId): real {
    if i >= |w.threads| || w.threads[i] == [] || t !in w.s.tenants then 0.0 else
      match w.threads[i][0]
      case Spend(u, cost) => if u == t && Granted(w.s.tenants[t], cost) then cost else 0.0
      case _ => 0.0
  }

  function GrantedTo(w: World, moves: seq<nat>, t: TenantId): real {
    if moves == [] then 0.0 else
      var init := moves[..|moves| - 1];
      GrantedTo(w, init, t) + Grant(Moves(w, init), moves[|moves| - 1], t)
  }

  /** For a tenant registered before, that is what its own bucket spends. */
  lemma {:induction false} GrantedIsSpent(w: World, moves: seq<nat>, t: TenantId)
    requires t in w.s.tenants
    ensures GrantedTo(w, moves, t) == Spent(w.s.tenants[t], Trace(w, moves, t))
  {
    if moves == [] {
    } else {
      var init, i := moves[..|moves| - 1], moves[|moves| - 1];
      GrantedIsSpent(w, init, t);
      TenantsIsolated(w, init, t);
      SpentOneMore(w.s.tenants[t], Trace(w, init, t), Moves(w, init), i, t);
    }
  }

  lemma SpentOneMore(b: Bucket, ops: seq<Op>, u: World, i: nat, t: TenantId)
    requires t in u.s.tenants && u.s.tenants[t] == Run(b, ops)
    ensures Spent(b, ops + Effect(u, i, t)) == Spent(b, ops) + Grant(u, i, t)
  {
    var e := Effect(u, i, t);
    EffectSize(u, i, t);
    if e == [] {
      assert ops + e == ops;
    } else {
      assert (ops + e)[..|ops|] == ops;
    }
  }

  predicate Priced(instr: Instr) {
    match instr
    case Spend(_, cost) => cost >= 0.0
    case Add(_, rate, burst) => rate >= 0.0 && burst >= 0.0
    case _ => true
  }

  /** Every bucket is sound, and no thread will spend a negative cost or register a negative rate or burst. */
  ghost predicate WellPriced(w: World) {
    && (forall t :: t in w.s.tenants ==> Sound(w.s.tenants[t]))
    && (forall i, k :: 0 <= i < |w.threads| && 0 <= k < |w.threads[i]| ==> Priced(w.threads[i][k]))
  }

  lemma ExecuteSound(s: Scheduler, me: nat, code: Code)
    requires forall t :: t in s.tenants ==> Sound(s.tenants[t])
    requires code != [] && Priced(code[0])
    ensures
      var r := Execute(s, me, code);
      r.Some? ==> forall t :: t in r.value.0.tenants ==> Sound(r.value.0.tenants[t])
  {
  }

  lemma ExecutePriced(s: Scheduler, me: nat, code: Code)
    requires code != [] && forall k :: 0 <= k < |code| ==> Priced(code[k])
    ensures
      var r := Execute(s, me, code);
      r.Some? ==> forall k :: 0 <= k < |r.value.1| ==> Priced(r.value.1[k])
  {
    var r := Execute(s, me, code);
    if r.Some? {
      forall k | 0 <= k < |r.value.1|
        ensures Priced(r.value.1[k])
      {
        var rest := code[1..];
        assert forall j :: 0 <= j < |rest| ==> rest[j] == code[j + 1];
      }
    }
  }

  lemma MoveWellPriced(w: World, i: nat)
    requires WellPriced(w)
    ensures WellPriced(Move(w, i))
  {
    if i < |w.threads| && w.threads[i] != [] {
      ExecuteSound(w.s, i, w.threads[i]);
      ExecutePriced(w.s, i, w.threads[i]);
    }
  }

  lemma {:induction false} MovesWellPriced(w: World, moves: seq<nat>)
    requires WellPriced(w)
    ensures WellPriced(Moves(w, moves))
  {
    if moves == [] {
    } else {
      MovesWellPriced(w, moves[..|moves| - 1]);
      MoveWellPriced(Moves(w, moves[..|moves| - 1]), moves[|moves| - 1]);
    }
  }

  /** What is granted is paid for from the bucket, which only a refill can fill. */
  lemma GrantPaid(w: World, i: nat, t: TenantId)
    requires WellPriced(w) && t in Move(w, i).s.tenants
    ensures
      var b' := Move(w, i).s.tenants[t];
      if t in w.s.tenants then
        var b := w.s.tenants[t];
        && b'.maxBurst == b.maxBurst && b'.creditsPerSecond == b.creditsPerSecond
        && Grant(w, i, t) + b'.credits <= b.credits + if Effect(w, i, t) == [Refill] then Rate(b) else 0.0
      else
        Grant(w, i, t) == 0.0 && b'.credits == b'.maxBurst
  {
  }

  lemma RefillsAppend(ops: seq<Op>, e: seq<Op>)
    requires |e| <= 1
    ensures Refills(ops + e) == Refills(ops) + if e == [Refill] then 1 else 0
  {
    if e == [] {
      assert ops + e == ops;
    } else {
      assert (ops + e)[..|ops|] == ops;
    }
  }

  /** What tenant t has been granted and what it has left do not exceed its burst and m refills; a tenant not
      registered yet has been granted nothing. */
  ghost predicate Covered(s: Scheduler, t: TenantId, granted: real, m: nat) {
    if t in s.tenants then
      var b := s.tenants[t];
      granted + b.credits <= b.maxBurst + Times(m, Rate(b))
    else
      granted == 0.0
  }

  lemma CoveredNext(w: World, i: nat, t: TenantId, granted: real, m: nat)
    requires WellPriced(w) && Covered(w.s, t, granted, m)
    ensures Covered(Move(w, i).s, t, granted + Grant(w, i, t), m + if Effect(w, i, t) == [Refill] then 1 else 0)
  {
    var u := Move(w, i);
    MoveWellPriced(w, i);
    if t in u.s.tenants {
      GrantPaid(w, i, t);
      TimesNonNegative(m, Rate(u.s.tenants[t]));
    } else {
      assert t !in w.s.tenants;
    }
  }

  lemma {:induction false} GrantedAndLeft(w: World, moves: seq<nat>, t: TenantId)
    requires WellPriced(w)
    ensures Covered(Moves(w, moves).s, t, GrantedTo(w, moves, t), Refills(Trace(w, moves, t)))
  {
    if moves == [] {
      assert Times(0, 0.0) == 0.0;
    } else {
      var init, i := moves[..|moves| - 1], moves[|moves| - 1];
      GrantedAndLeft(w, init, t);
      MovesWellPriced(w, init);
      CoveredNext(Moves(w, init), i, t, GrantedTo(w, init, t), Refills(Trace(w, init, t)));
      EffectSize(Moves(w, init), i, t);
      RefillsAppend(Trace(w, init, t), Effect(Moves(w, init), i, t));
    }
  }

  lemma EffectSize(w: World, i: nat, t: TenantId)
    ensures |Effect(w, i, t)| <= 1
  {
  }

  lemma TimesNonNegative(m: nat, x: real)
    requires x >= 0.0
    ensures Times(m, x) >= 0.0
  {
    TimesGrows(m, 0.0, x);
    TimesIsProduct(m, 0.0);
  }

  lemma GrantedBound(w: World, moves: seq<nat>, t: TenantId)
    requires WellPriced(w)
    ensures
      var after := Moves(w, moves).s.tenants;
      if t in after then
        Within(GrantedTo(w, moves, t), after[t].maxBurst, Refills(Trace(w, moves, t)), Rate(after[t]))
      else
        GrantedTo(w, moves, t) == 0.0
  {
    var after := Moves(w, moves).s.tenants;
    GrantedAndLeft(w, moves, t);
    MovesWellPriced(w, moves);
    if t in after {
      BoundAsProduct(GrantedTo(w, moves, t), after[t].maxBurst, Refills(Trace(w, moves, t)), Rate(after[t]));
    }
  }

  /** No call pays or registers a negative amount. */
  ghost predicate FairCalls(calls: seq<Call>) {
    forall i :: 0 <= i < |calls| ==>
      match calls[i]
      case Register(_, rate, burst) => rate >= 0.0 && burst >= 0.0
      case Schedule(_, cost) => cost >= 0.0
      case RefillAll => true
  }

  lemma StartWellPriced(tenants: map<TenantId, Bucket>, calls: seq<Call>)
    requires FairCalls(calls) && forall t :: t in tenants ==> Sound(tenants[t])
    ensures WellPriced(Start(tenants, calls))
  {
    forall i, k | 0 <= i < |calls| && 0 <= k < |CodeOf(calls[i])|
      ensures Priced(CodeOf(calls[i])[k])
    {
    }
  }

  /** However any number of calls interleave, what a tenant is granted in a stretch with m of its refills is at
      most its burst and m tenths of a second's credits; a tenant not registered by then is granted nothing. */
  lemma TenantWindowBound(tenants: map<TenantId, Bucket>, calls: seq<Call>, before: seq<nat>, window: seq<nat>,
                          t: TenantId)
    requires FairCalls(calls) && forall u :: u in tenants ==> Sound(tenants[u])
    ensures
      var w := Moves(Start(tenants, calls), before);
      var after := Moves(w, window).s.tenants;
      if t in after then
        Within(GrantedTo(w, window, t), after[t].maxBurst, Refills(Trace(w, window, t)), Rate(after[t]))
      else
        GrantedTo(w, window, t) == 0.0
  {
    var w := Moves(Start(tenants, calls), before);
    StartWellPriced(tenants, calls);
    MovesWellPriced(Start(tenants, calls), before);
    GrantedBound(w, window, t);
  }

  // ---------------------------------------------------------------- waiting for oneself

  /** The holder of the lock is about to take it again. */
  predicate Stuck(w: World) {
    && w.s.lock.Some? && w.s.lock.value < |w.threads|
    && w.threads[w.s.lock.value] != [] && w.threads[w.s.lock.value][0].Acquire?
  }

  /** Code of a thread without the lock: it takes the lock before touching what the lock protects. */
  predicate Outside(code: Code)
    decreases |code|
  {
    code == [] ||
    match code[0]
    case Acquire => Inside(code[1..])
    case Spend(_, _) => Outside(code[1..])
    case RefillOf(_) => Outside(code[1..])
    case _ => false
  }

  /** Code of a thread with the lock: it gives it back, and does not take it before. */
  predicate Inside(code: Code)
    decreases |code|
  {
    code != [] &&
    match code[0]
    case Acquire => false
    case Release => Outside(code[1..])
    case _ => Inside(code[1..])
  }

  lemma {:induction false} RefillingLast(code: Code, ts: set<TenantId>)
    ensures Outside(code) ==> Outside(code + [RefillOf(ts)])
    ensures Inside(code) ==> Inside(code + [RefillOf(ts)])
    decreases |code|
  {
    if code != [] {
      assert (code + [RefillOf(ts)])[1..] == code[1..] + [RefillOf(ts)];
      RefillingLast(code[1..], ts);
    } else {
      assert (code + [RefillOf(ts)])[1..] == [];
    }
  }

  predicate HoldsLock(w: World, i: nat) {
    w.s.lock == Some(i)
  }

  /** Only the holder of the lock is inside, and it is, unless it waits for itself. */
  ghost predicate Disciplined(w: World) {
    && (w.s.lock.Some? ==> w.s.lock.value < |w.threads|)
    && (forall i :: 0 <= i < |w.threads| && !HoldsLock(w, i) ==> Outside(w.threads[i]))
    && (forall i :: 0 <= i < |w.threads| && HoldsLock(w, i) && !Stuck(w) ==> Inside(w.threads[i]))
  }

  lemma CodeOutside(call: Call)
    ensures Outside(CodeOf(call))
  {
    match call
    case Register(t, rate, burst) =>
      assert Outside([]) && Inside([Release]) && Inside([Add(t, rate, burst), Release]);
    case Schedule(t, cost) =>
      assert Outside([Spend(t, cost)]) && Inside([Release, Spend(t, cost)]);
      assert Inside([Ensure(t), Release, Spend(t, cost)]);
    case RefillAll =>
      assert Inside([Release]) && Inside([List, Release]);
  }

  /** The thread about to move asks for a tenant nobody has registered. */
  predicate Asks(w: World, i: nat) {
    i < |w.threads| && w.threads[i] != [] && w.threads[i][0].Ensure? && w.threads[i][0].tenant !in w.s.tenants
  }

  lemma MoveDisciplined(w: World, i: nat)
    requires Disciplined(w)
    ensures Disciplined(Move(w, i))
    ensures Stuck(Move(w, i)) <==> Stuck(w) || Asks(w, i)
  {
    if i < |w.threads| && w.threads[i] != [] {
      RefillingLast(w.threads[i][1..], w.s.tenants.Keys);
    }
  }

  lemma StartDisciplined(tenants: map<TenantId, Bucket>, calls: seq<Call>)
    ensures Disciplined(Start(tenants, calls)) && !Stuck(Start(tenants, calls))
  {
    forall i | 0 <= i < |calls|
      ensures Outside(CodeOf(calls[i]))
    {
      CodeOutside(calls[i]);
    }
  }

  lemma {:induction false} MovesDisciplined(w: World, moves: seq<nat>)
    requires Disciplined(w)
    ensures Disciplined(Moves(w, moves))
    ensures Stuck(w) ==> Stuck(Moves(w, moves))
  {
    if moves == [] {
    } else {
      MovesDisciplined(w, moves[..|moves| - 1]);
      MoveDisciplined(Moves(w, moves[..|moves| - 1]), moves[|moves| - 1]);
    }
  }

  /** u is w as far as the lock goes: same holder, same tenants, and whoever waited for it still does. */
  ghost predicate StillWaits(w: World, u: World) {
    && u.s.lock == w.s.lock && u.s.tenants.Keys == w.s.tenants.Keys && |u.threads| == |w.threads|
    && forall i :: 0 <= i < |w.threads| && w.threads[i] != [] && w.threads[i][0].Acquire? ==>
                     u.threads[i] == w.threads[i]
  }

  lemma StuckMove(w: World, i: nat)
    requires Disciplined(w) && Stuck(w)
    ensures StillWaits(w, Move(w, i))
  {
  }

  /** Once the holder waits for itself, no thread ever takes the lock again: nobody is registered, and
      every call that still needs the lock stays where it is. */
  lemma {:induction false} StuckForever(w: World, moves: seq<nat>)
    requires Disciplined(w) && Stuck(w)
    ensures Stuck(Moves(w, moves)) && StillWaits(w, Moves(w, moves))
  {
    MovesDisciplined(w, moves);
    if moves == [] {
    } else {
      var init := moves[..|moves| - 1];
      StuckForever(w, init);
      MovesDisciplined(w, init);
      StuckMove(Moves(w, init), moves[|moves| - 1]);
    }
  }

  /** Every tenant some thread will yet ask for is registered. */
  ghost predicate AllKnown(w: World) {
    forall i, k | 0 <= i < |w.threads| && 0 <= k < |w.threads[i]| ::
      w.threads[i][k].Ensure? ==> w.threads[i][k].tenant in w.s.tenants
  }

  lemma MoveKnown(w: World, i: nat)
    requires AllKnown(w)
    ensures AllKnown(Move(w, i)) && !Asks(w, i)
  {
    var u := Move(w, i);
    if i < |w.threads| && w.threads[i] != [] {
      var code := w.threads[i];
      assert code[0].Ensure? ==> code[0].tenant in w.s.tenants;
      forall k | 0 <= k < |u.threads[i]| && u.threads[i][k].Ensure?
        ensures u.threads[i][k].tenant in w.s.tenants
      {
        assert u.threads[i] == code || u.threads[i][k] == code[k + 1];
      }
    }
  }

  lemma {:induction false} NeverStuck(w: World, moves: seq<nat>)
    requires Disciplined(w) && !Stuck(w) && AllKnown(w)
    ensures Disciplined(Moves(w, moves)) && !Stuck(Moves(w, moves)) && AllKnown(Moves(w, moves))
  {
    if moves == [] {
    } else {
      var init, i := moves[..|moves| - 1], moves[|moves| - 1];
      NeverStuck(w, init);
      MoveKnown(Moves(w, init), i);
      MoveDisciplined(Moves(w, init), i);
    }
  }

  lemma MovesOneMore(w: World, moves: seq<nat>, i: nat)
    ensures Moves(w, moves + [i]) == Move(Moves(w, moves), i)
  {
    assert (moves + [i])[..|moves|] == moves;
  }

  lemma AskingFirst(tenants: map<TenantId, Bucket>, calls: seq<Call>, i: nat) returns (moves: seq<nat>)
    requires i < |calls| && calls[i].Schedule? && calls[i].tenant !in tenants
    ensures Stuck(Moves(Start(tenants, calls), moves))
  {
    var w := Start(tenants, calls);
    moves := [] + [i] + [i];
    MovesOneMore(w, [], i);
    MovesOneMore(w, [] + [i], i);
    assert Move(w, i).s.lock == Some(i);
  }

  /** The moves end with some call waiting for itself. */
  predicate Sticks(tenants: map<TenantId, Bucket>, calls: seq<Call>, moves: seq<nat>) {
    Stuck(Moves(Start(tenants, calls), moves))
  }

  ghost predicate AllRegistered(tenants: map<TenantId, Bucket>, calls: seq<Call>) {
    forall i :: 0 <= i < |calls| && calls[i].Schedule? ==> calls[i].tenant in tenants
  }

  lemma StartKnown(tenants: map<TenantId, Bucket>, calls: seq<Call>)
    requires AllRegistered(tenants, calls)
    ensures AllKnown(Start(tenants, calls))
  {
    forall i, k | 0 <= i < |calls| && 0 <= k < |CodeOf(calls[i])| && CodeOf(calls[i])[k].Ensure?
      ensures CodeOf(calls[i])[k].tenant in tenants
    {
      assert calls[i].Schedule? && k == 1;
    }
  }

  /** Concurrent calls can never lock each other out if and only if every tenant scheduled for was
      registered before any of them began. */
  lemma NeverStuckExactly(tenants: map<TenantId, Bucket>, calls: seq<Call>)
    ensures (forall moves :: !Sticks(tenants, calls, moves)) <==> AllRegistered(tenants, calls)
  {
    StartDisciplined(tenants, calls);
    if AllRegistered(tenants, calls) {
      StartKnown(tenants, calls);
      forall moves
        ensures !Sticks(tenants, calls, moves)
      {
        NeverStuck(Start(tenants, calls), moves);
      }
    } else {
      var i: nat :| i < |calls| && calls[i].Schedule? && calls[i].tenant !in tenants;
      var moves := AskingFirst(tenants, calls, i);
      assert Sticks(tenants, calls, moves);
    }
  }

  // ---------------------------------------------------------------- calls one after the other

  /** No call takes more than four instructions, unless it has to wait. */
  function InTurn(n: nat): seq<nat> {
    if n == 0 then [] else InTurn(n - 1) + [n - 1] + [n - 1] + [n - 1] + [n - 1]
  }

  lemma MovesFourMore(w: World, moves: seq<nat>, i: nat)
    ensures Moves(w, moves + [i] + [i] + [i] + [i]) == Move(Move(Move(Move(Moves(w, moves), i), i), i), i)
  {
    MovesOneMore(w, moves, i);
    MovesOneMore(w, moves + [i], i);
    MovesOneMore(w, moves + [i] + [i], i);
    MovesOneMore(w, moves + [i] + [i] + [i], i);
  }

  /** What a call amounts to when no other runs beside it: a tenant is registered once, with full credits; a
      granted cost is taken from the tenant's credits; a refill adds a tenth of a second's credits to every
      bucket, up to its burst. */
  function After(tenants: map<TenantId, Bucket>, call: Call): map<TenantId, Bucket> {
    match call
    case Register(t, rate, burst) => if t in tenants then tenants else tenants[t := Bucket(rate, burst, burst)]
    case Schedule(t, cost) =>
      if t in tenants && tenants[t].credits >= cost then
        tenants[t := tenants[t].(credits := tenants[t].credits - cost)]
      else tenants
    case RefillAll =>
      map t | t in tenants ::
        var b := tenants[t];
        var more := b.credits + b.creditsPerSecond / 10.0;
        b.(credits := if more <= b.maxBurst then more else b.maxBurst)
  }

  /** The lock is free, thread k is done, and no other differs. */
  ghost predicate Through(w: World, u: World, k: nat) {
    && u.s.lock == None && |u.threads| == |w.threads| && k < |u.threads| && u.threads[k] == []
    && forall i :: 0 <= i < |w.threads| && i != k ==> u.threads[i] == w.threads[i]
  }

  lemma RegisterInTurn(w: World, k: nat, t: TenantId, rate: real, burst: real)
    requires w.s.lock == None && k < |w.threads| && w.threads[k] == CodeOf(Register(t, rate, burst))
    ensures
      var u := Move(Move(Move(Move(w, k), k), k), k);
      Through(w, u, k) && u.s.tenants == After(w.s.tenants, Register(t, rate, burst))
  {
    var a := Move(w, k);
    assert a.threads[k] == [Add(t, rate, burst), Release];
    var b := Move(a, k);
    assert b.threads[k] == [Release] && b.s.tenants == After(w.s.tenants, Register(t, rate, burst));
    assert Move(b, k).threads[k] == [];
  }

  lemma RefillInTurn(w: World, k: nat)
    requires w.s.lock == None && k < |w.threads| && w.threads[k] == CodeOf(RefillAll)
    ensures
      var u := Move(Move(Move(Move(w, k), k), k), k);
      Through(w, u, k) && u.s.tenants == After(w.s.tenants, RefillAll)
  {
    var a := Move(w, k);
    assert a.threads[k] == [List, Release];
    var b := Move(a, k);
    assert b.threads[k] == [Release, RefillOf(w.s.tenants.Keys)];
    var c := Move(b, k);
    assert c.threads[k] == [RefillOf(w.s.tenants.Keys)] && c.s.tenants == w.s.tenants;
    RefilledAll(w.s.tenants);
  }

  lemma RefilledAll(tenants: map<TenantId, Bucket>)
    ensures After(tenants, RefillAll) ==
            map t | t in tenants :: Step(tenants[t], Refill)
  {
    forall t | t in tenants
      ensures After(tenants, RefillAll)[t] == Step(tenants[t], Refill)
    {
      assert tenants[t].creditsPerSecond / 10.0 == Rate(tenants[t]);
    }
  }

  lemma ScheduleInTurn(w: World, k: nat, t: TenantId, cost: real)
    requires w.s.lock == None && k < |w.threads| && w.threads[k] == CodeOf(Schedule(t, cost)) && t in w.s.tenants
    ensures
      var u := Move(Move(Move(Move(w, k), k), k), k);
      Through(w, u, k) && u.s.tenants == After(w.s.tenants, Schedule(t, cost))
  {
    var a := Move(w, k);
    assert a.threads[k] == [Ensure(t), Release, Spend(t, cost)];
    var b := Move(a, k);
    assert b.threads[k] == [Release, Spend(t, cost)];
    var c := Move(b, k);
    assert c.threads[k] == [Spend(t, cost)] && c.s.tenants == w.s.tenants;
    assert w.s.tenants[t := w.s.tenants[t]] == w.s.tenants;
  }

  lemma StrangerInTurn(w: World, k: nat, t: TenantId, cost: real)
    requires w.s.lock == None && k < |w.threads| && w.threads[k] == CodeOf(Schedule(t, cost)) && t !in w.s.tenants
    ensures Stuck(Move(Move(Move(Move(w, k), k), k), k))
    ensures Move(Move(Move(Move(w, k), k), k), k).threads[k][..2] == [Acquire, Add(t, 10.0, 50.0)]
  {
    var a := Move(w, k);
    assert a.threads[k] == [Ensure(t), Release, Spend(t, cost)] && a.s.lock == Some(k);
    var b := Move(a, k);
    assert b.s.lock == Some(k) && b.threads[k][0] == Acquire;
    assert Move(b, k) == b;
  }

  /** The tenants the first k calls register. */
  function Registered(calls: seq<Call>, k: nat): set<TenantId>
    requires k <= |calls|
  {
    set i | 0 <= i < k && calls[i].Register? :: calls[i].tenant
  }

  /** Call i schedules for a tenant that was not registered at the start nor by an earlier call. */
  ghost predicate Stranger(tenants: map<TenantId, Bucket>, calls: seq<Call>, i: nat) {
    && i < |calls| && calls[i].Schedule? && calls[i].tenant !in tenants
    && forall j :: 0 <= j < i && calls[j].Register? ==> calls[j].tenant != calls[i].tenant
  }

  /** What the first k calls amount to, one after the other. */
  function AfterAll(tenants: map<TenantId, Bucket>, calls: seq<Call>, k: nat): map<TenantId, Bucket>
    requires k <= |calls|
  {
    if k == 0 then tenants else After(AfterAll(tenants, calls, k - 1), calls[k - 1])
  }

  lemma {:induction false} AfterKeys(tenants: map<TenantId, Bucket>, calls: seq<Call>, k: nat)
    requires k <= |calls|
    ensures AfterAll(tenants, calls, k).Keys == tenants.Keys + Registered(calls, k)
  {
    if k == 0 {
      assert Registered(calls, 0) == {};
    } else {
      AfterKeys(tenants, calls, k - 1);
      RegisteredOneMore(calls, k - 1);
    }
  }

  /** After k calls in turn: the lock is free, the tenants are as these calls leave them, those calls are done
      and the rest has not begun. */
  ghost predicate Served(tenants: map<TenantId, Bucket>, calls: seq<Call>, k: nat, w: World)
    requires k <= |calls|
  {
    && w.s.lock == None && |w.threads| == |calls| && w.s.tenants == AfterAll(tenants, calls, k)
    && (forall i :: 0 <= i < k ==> w.threads[i] == [])
    && forall i :: k <= i < |calls| ==> w.threads[i] == CodeOf(calls[i])
  }

  lemma ServeOne(tenants: map<TenantId, Bucket>, calls: seq<Call>, k: nat, w: World)
    requires k < |calls| && Served(tenants, calls, k, w)
    ensures
      var u := Move(Move(Move(Move(w, k), k), k), k);
      if Stranger(tenants, calls, k) then Stuck(u) else Served(tenants, calls, k + 1, u)
  {
    AfterKeys(tenants, calls, k);
    match calls[k]
    case Register(t, rate, burst) => RegisterInTurn(w, k, t, rate, burst);
    case RefillAll => RefillInTurn(w, k);
    case Schedule(t, cost) =>
      assert Stranger(tenants, calls, k) <==> t !in w.s.tenants;
      if t in w.s.tenants {
        ScheduleInTurn(w, k, t, cost);
      } else {
        StrangerInTurn(w, k, t, cost);
      }
  }

  lemma RegisteredOneMore(calls: seq<Call>, k: nat)
    requires k < |calls|
    ensures Registered(calls, k + 1) == Registered(calls, k) + if calls[k].Register? then {calls[k].tenant} else {}
  {
  }

  lemma FourDisciplined(w: World, k: nat)
    requires Disciplined(w)
    ensures Disciplined(Move(Move(Move(Move(w, k), k), k), k))
    ensures Stuck(w) ==> Stuck(Move(Move(Move(Move(w, k), k), k), k))
  {
    MoveDisciplined(w, k);
    MoveDisciplined(Move(w, k), k);
    MoveDisciplined(Move(Move(w, k), k), k);
    MoveDisciplined(Move(Move(Move(w, k), k), k), k);
  }

  ghost predicate AnyStranger(tenants: map<TenantId, Bucket>, calls: seq<Call>, k: nat) {
    exists i: nat :: i < k && Stranger(tenants, calls, i)
  }

  ghost predicate InTurnInvariant(tenants: map<TenantId, Bucket>, calls: seq<Call>, k: nat, w: World)
    requires k <= |calls|
  {
    Disciplined(w) && if AnyStranger(tenants, calls, k) then Stuck(w) else Served(tenants, calls, k, w)
  }

  /** Thread k moves n times. */
  function Turn(w: World, k: nat, n: nat): World {
    if n == 0 then w else Move(Turn(w, k, n - 1), k)
  }

  lemma TurnOfFour(w: World, k: nat)
    ensures Turn(w, k, 4) == Move(Move(Move(Move(w, k), k), k), k)
  {
    assert Turn(w, k, 1) == Move(Turn(w, k, 0), k);
    assert Turn(w, k, 2) == Move(Turn(w, k, 1), k);
    assert Turn(w, k, 3) == Move(Turn(w, k, 2), k);
  }

  lemma InTurnStep(tenants: map<TenantId, Bucket>, calls: seq<Call>, k: nat, w: World)
    requires k < |calls| && InTurnInvariant(tenants, calls, k, w)
    ensures InTurnInvariant(tenants, calls, k + 1, Turn(w, k, 4))
  {
    TurnOfFour(w, k);
    FourDisciplined(w, k);
    assert AnyStranger(tenants, calls, k + 1) <==> AnyStranger(tenants, calls, k) || Stranger(tenants, calls, k);
    if !AnyStranger(tenants, calls, k) {
      ServeOne(tenants, calls, k, w);
    }
  }

  lemma StartServed(tenants: map<TenantId, Bucket>, calls: seq<Call>)
    ensures InTurnInvariant(tenants, calls, 0, Start(tenants, calls))
  {
    StartDisciplined(tenants, calls);
    assert Registered(calls, 0) == {};
  }

  /** The first k calls made in turn. */
  function Turns(start: World, k: nat): World {
    if k == 0 then start else Turn(Turns(start, k - 1), k - 1, 4)
  }

  lemma {:induction false} TurnsInTurn(start: World, k: nat)
    ensures Moves(start, InTurn(k)) == Turns(start, k)
  {
    if k == 0 {
    } else {
      TurnsInTurn(start, k - 1);
      MovesFourMore(start, InTurn(k - 1), k - 1);
      TurnOfFour(Turns(start, k - 1), k - 1);
    }
  }

  lemma {:induction false} ServeInTurn(tenants: map<TenantId, Bucket>, calls: seq<Call>, k: nat)
    requires k <= |calls|
    ensures InTurnInvariant(tenants, calls, k, Turns(Start(tenants, calls), k))
  {
    if k == 0 {
      StartServed(tenants, calls);
    } else {
      ServeInTurn(tenants, calls, k - 1);
      InTurnStep(tenants, calls, k - 1, Turns(Start(tenants, calls), k - 1));
    }
  }

  /** Calls made one after the other lock the scheduler for good if and only if one of them schedules for
      a tenant neither registered at the start nor by an earlier call. */
  lemma SticksExactly(tenants: map<TenantId, Bucket>, calls: seq<Call>)
    ensures Sticks(tenants, calls, InTurn(|calls|)) <==> exists i: nat :: Stranger(tenants, calls, i)
  {
    ServeInTurn(tenants, calls, |calls|);
    TurnsInTurn(Start(tenants, calls), |calls|);
  }

  /** Otherwise every one of them has its effect, all are done, and the lock is free. */
  lemma CallsInTurn(tenants: map<TenantId, Bucket>, calls: seq<Call>)
    requires forall i: nat :: !Stranger(tenants, calls, i)
    ensures
      var w := Moves(Start(tenants, calls), InTurn(|calls|));
      && w.s.tenants == AfterAll(tenants, calls, |calls|) && w.s.lock == None
      && forall i :: 0 <= i < |w.threads| ==> w.threads[i] == []
  {
    ServeInTurn(tenants, calls, |calls|);
    TurnsInTurn(Start(tenants, calls), |calls|);
  }

  /** Ten refills, one second's worth, make up for one second's credits if the burst leaves room. */
  lemma TenRefills(b: Bucket, ops: seq<Op>)
    requires Sound(b) && |ops| == 10 && forall i :: 0 <= i < 10 ==> ops[i] == Refill
    ensures Run(b, ops).credits == Min(b.maxBurst, b.credits + b.creditsPerSecond)
  {
    RefillsAddUp(b, ops);
  }

  lemma {:induction false} RefillsAddUp(b: Bucket, ops: seq<Op>)
    requires Sound(b) && forall i :: 0 <= i < |ops| ==> ops[i] == Refill
    ensures Run(b, ops) == b.(credits := Min(b.maxBurst, b.credits + Times(|ops|, b.creditsPerSecond / 10.0)))
    ensures |ops| == 10 ==> Times(|ops|, b.creditsPerSecond / 10.0) == b.creditsPerSecond
  {
    var tenth := b.creditsPerSecond / 10.0;
    TimesIsProduct(|ops|, tenth);
    if ops == [] {
    } else {
      RefillsAddUp(b, ops[..|ops| - 1]);
      TimesNonNegative(|ops| - 1, tenth);
      assert Rate(b) == tenth;
    }
  }

  // ---------------------------------------------------------------- the bucket object

  class TenantCreditPool {
    const creditsPerSecond: real
    const maxBurst: real
    var currentCredits: real

    constructor (creditsPerSecond: real, maxBurst: real)
      ensures Contents() == Fresh(creditsPerSecond, maxBurst)
    {
      this.creditsPerSecond, this.maxBurst := creditsPerSecond, maxBurst;
      currentCredits := maxBurst;
    }

    function Contents(): Bucket
      reads this
    {
      Bucket(creditsPerSecond, maxBurst, currentCredits)
    }

    method ConsumeCredits(cost: real) returns (granted: bool)
      modifies this
      ensures granted == (old(currentCredits) >= cost)
      ensures currentCredits == old(currentCredits) - if granted then cost else 0.0
      ensures Contents() == Step(old(Contents()), Consume(cost))
    {
      if currentCredits >= cost {
        currentCredits := currentCredits - cost;
        return true;
      }
      return false;
    }

    method RefillCredits()
      modifies this
      ensures
        var more := old(currentCredits) + creditsPerSecond / 10.0;
        currentCredits == if more <= maxBurst then more else maxBurst
      ensures Contents() == Step(old(Contents()), Refill)
    {
      currentCredits := Min(maxBurst, currentCredits + creditsPerSecond * 0.1);
    }
  }
}

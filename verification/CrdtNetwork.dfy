/** Regions exchanging deltas in any order, late, repeatedly or never: every run of the
    protocol that services/crdt_sync.py plays between its replicas. */
module CrdtNetwork {
  import opened Prelude
  import opened CrdtState

  /** A replica, or a delta, together with the writes it has absorbed. */
  datatype Tracked = Tracked(state: Replica, ops: set<Op>)

  datatype World = World(nodes: map<NodeId, Tracked>, sent: set<Tracked>)

  datatype Step =
    | LocalInsert(node: NodeId, id: VectorId, value: Value, ts: real)
    | LocalDelete(node: NodeId, id: VectorId, ts: real)
    | Send(node: NodeId)
    | Deliver(node: NodeId, message: Tracked)

  function Initial(names: set<NodeId>): World {
    World(map n | n in names :: Tracked(EMPTY_REPLICA, {}), {})
  }

  /** Steps of unknown nodes and deliveries of messages never sent change nothing. */
  function Next(w: World, step: Step): World {
    if step.node !in w.nodes then w else
    var me := w.nodes[step.node];
    match step
    case LocalInsert(n, id, value, ts) =>
      var state := Replica(Increment(me.state.counts, n, 1), Add(me.state.lww, id, value, ts));
      w.(nodes := w.nodes[n := Tracked(state, me.ops + {Insert(id, value, ts)})])
    case LocalDelete(n, id, ts) =>
      var state := me.state.(lww := Remove(me.state.lww, id, ts));
      w.(nodes := w.nodes[n := Tracked(state, me.ops + {Delete(id, ts)})])
    case Send(n) => w.(sent := w.sent + {me})
    case Deliver(n, m) =>
      if m !in w.sent then w else
      w.(nodes := w.nodes[n := Tracked(MergeReplica(me.state, m.state), me.ops + m.ops)])
  }

  function Run(names: set<NodeId>, steps: seq<Step>): World {
    if steps == [] then Initial(names) else Next(Run(names, steps[..|steps| - 1]), steps[|steps| - 1])
  }

  /** How many inserts the node performed. */
  function Inserts(steps: seq<Step>, node: NodeId): nat {
    if steps == [] then 0 else
      Inserts(steps[..|steps| - 1], node) +
      if steps[|steps| - 1].LocalInsert? && steps[|steps| - 1].node == node then 1 else 0
  }

  /** How many inserts the nodes performed together. */
  function TotalInserts(names: set<NodeId>, steps: seq<Step>): nat {
    if steps == [] then 0 else
      TotalInserts(names, steps[..|steps| - 1]) +
      if steps[|steps| - 1].LocalInsert? && steps[|steps| - 1].node in names then 1 else 0
  }

  function OwnSlots(names: set<NodeId>, steps: seq<Step>): Counts {
    map n | n in names :: Inserts(steps, n)
  }

  // ---------------------------------------------------------------- what every step keeps

  /** No slot runs ahead of the inserts its owner has performed. */
  ghost predicate SlotsBounded(c: Counts, own: Counts) {
    && c.Keys <= own.Keys
    && forall n :: n in c ==> 0 <= c[n] <= own[n]
  }

  ghost predicate CountsInvariant(w: World, own: Counts) {
    && w.nodes.Keys == own.Keys
    && (forall n :: n in w.nodes ==> SlotsBounded(w.nodes[n].state.counts, own))
    && (forall n :: n in w.nodes ==> Slot(w.nodes[n].state.counts, n) == own[n])
    && (forall m :: m in w.sent ==> SlotsBounded(m.state.counts, own))
  }

  /** Element set and absorbed writes belong together. */
  ghost predicate Faithful(t: Tracked) {
    Represents(t.state.lww, t.ops)
  }

  ghost predicate SetsInvariant(w: World) {
    && (forall n :: n in w.nodes ==> Faithful(w.nodes[n]))
    && (forall m :: m in w.sent ==> Faithful(m))
  }

  lemma MergeSlotsBounded(a: Counts, b: Counts, own: Counts, n: NodeId)
    requires SlotsBounded(a, own) && SlotsBounded(b, own) && n in own && Slot(a, n) == own[n]
    ensures SlotsBounded(MergeCounts(a, b), own) && Slot(MergeCounts(a, b), n) == own[n]
  {
    SlotOfMerge(a, b, n);
  }

  lemma BoundGrows(c: Counts, own: Counts, own': Counts)
    requires SlotsBounded(c, own) && own'.Keys == own.Keys
    requires forall n :: n in own ==> own[n] <= own'[n]
    ensures SlotsBounded(c, own')
  {
  }

  /** The slots of the node that moved, counted against its owner's new total. */
  lemma StepKeepsMySlots(w: World, step: Step, own: Counts, own': Counts)
    requires CountsInvariant(w, own) && step.node in own
    requires own' == if step.LocalInsert? then own[step.node := own[step.node] + 1] else own
    ensures var mine := Next(w, step).nodes[step.node].state.counts;
            SlotsBounded(mine, own') && Slot(mine, step.node) == own'[step.node]
  {
    if step.Deliver? && step.message in w.sent {
      MergeSlotsBounded(w.nodes[step.node].state.counts, step.message.state.counts, own, step.node);
    }
  }

  lemma StepKeepsCounts(w: World, step: Step, own: Counts, own': Counts)
    requires CountsInvariant(w, own)
    requires own' == if step.LocalInsert? && step.node in own then own[step.node := own[step.node] + 1] else own
    ensures CountsInvariant(Next(w, step), own')
  {
    if step.node in own {
      StepKeepsMySlots(w, step, own, own');
      var w' := Next(w, step);
      forall n | n in w'.nodes
        ensures SlotsBounded(w'.nodes[n].state.counts, own') && Slot(w'.nodes[n].state.counts, n) == own'[n]
      {
        if n != step.node {
          assert w'.nodes[n] == w.nodes[n];
          BoundGrows(w.nodes[n].state.counts, own, own');
        }
      }
      forall m | m in w'.sent
        ensures SlotsBounded(m.state.counts, own')
      {
        assert m in w.sent || m == w.nodes[step.node];
        BoundGrows(m.state.counts, own, own');
      }
    }
  }

  lemma MergeFaithful(a: Tracked, b: Tracked)
    requires Faithful(a) && Faithful(b)
    ensures Faithful(Tracked(MergeReplica(a.state, b.state), a.ops + b.ops))
  {
    MergeRepresents(a.state.lww, a.ops, b.state.lww, b.ops);
  }

  lemma WriteFaithful(t: Tracked, op: Op, counts: Counts)
    requires Faithful(t)
    ensures Faithful(Tracked(Replica(counts, Apply(t.state.lww, op)), t.ops + {op}))
  {
    ApplyRepresents(t.state.lww, t.ops, op);
  }

  lemma StepKeepsMine(w: World, step: Step)
    requires SetsInvariant(w) && step.node in w.nodes
    ensures Faithful(Next(w, step).nodes[step.node])
  {
    var me := w.nodes[step.node];
    match step
    case LocalInsert(n, id, value, ts) =>
      WriteFaithful(me, Insert(id, value, ts), Increment(me.state.counts, n, 1));
    case LocalDelete(n, id, ts) =>
      WriteFaithful(me, Delete(id, ts), me.state.counts);
    case Send(n) =>
    case Deliver(n, m) =>
      if m in w.sent {
        MergeFaithful(me, m);
      }
  }

  lemma StepKeepsSets(w: World, step: Step)
    requires SetsInvariant(w)
    ensures SetsInvariant(Next(w, step))
  {
    if step.node in w.nodes {
      StepKeepsMine(w, step);
    }
  }

  lemma OwnSlotsStep(names: set<NodeId>, steps: seq<Step>)
    requires steps != []
    ensures
      var last, own := steps[|steps| - 1], OwnSlots(names, steps[..|steps| - 1]);
      OwnSlots(names, steps) ==
        if last.LocalInsert? && last.node in own then own[last.node := own[last.node] + 1] else own
  {
  }

  /** In every reachable state a slot never exceeds its owner's, which counts the owner's inserts. */
  lemma {:induction false} RunKeepsCounts(names: set<NodeId>, steps: seq<Step>)
    ensures CountsInvariant(Run(names, steps), OwnSlots(names, steps))
  {
    if steps == [] {
    } else {
      var init := steps[..|steps| - 1];
      RunKeepsCounts(names, init);
      OwnSlotsStep(names, steps);
      StepKeepsCounts(Run(names, init), steps[|steps| - 1], OwnSlots(names, init), OwnSlots(names, steps));
    }
  }

  lemma {:induction false} RunNames(names: set<NodeId>, steps: seq<Step>)
    ensures Run(names, steps).nodes.Keys == names
  {
    if steps == [] {
    } else {
      RunNames(names, steps[..|steps| - 1]);
    }
  }

  /** In every reachable state every element set is what its absorbed writes leave. */
  lemma {:induction false} RunKeepsSets(names: set<NodeId>, steps: seq<Step>)
    ensures SetsInvariant(Run(names, steps))
    ensures Run(names, steps).nodes.Keys == names
  {
    if steps == [] {
    } else {
      RunKeepsSets(names, steps[..|steps| - 1]);
      StepKeepsSets(Run(names, steps[..|steps| - 1]), steps[|steps| - 1]);
    }
  }

  // ---------------------------------------------------------------- strong eventual consistency

  /** Replicas that absorbed the same writes agree, whatever the order, delays and repetitions. */
  lemma StrongEventualConsistency(names: set<NodeId>, steps: seq<Step>, a: NodeId, b: NodeId)
    requires a in names && b in names
    ensures Run(names, steps).nodes.Keys == names
    ensures
      var w := Run(names, steps);
      w.nodes[a].ops == w.nodes[b].ops && LatestUnambiguous(w.nodes[a].ops) ==>
      w.nodes[a].state.lww == w.nodes[b].state.lww
  {
    RunKeepsSets(names, steps);
    var w := Run(names, steps);
    if w.nodes[a].ops == w.nodes[b].ops && LatestUnambiguous(w.nodes[a].ops) {
      assert Faithful(w.nodes[a]) && Faithful(w.nodes[b]);
      RepresentsDetermines(w.nodes[a].state.lww, w.nodes[b].state.lww, w.nodes[a].ops);
    }
  }

  /** At any point of any run a region shows an id exactly when the newest insert it has absorbed
      is newer than every delete it has absorbed, and than 0.0. */
  lemma RunVisibleExactly(names: set<NodeId>, steps: seq<Step>, node: NodeId, id: VectorId)
    requires node in names
    ensures node in Run(names, steps).nodes
    ensures
      var t := Run(names, steps).nodes[node];
      Lookup(t.state.lww, id).Some? <==>
        exists a :: Latest(a, t.ops) && a.id == id && a.ts > 0.0 &&
                    forall d :: d in t.ops && d.Delete? && d.id == id ==> d.ts < a.ts
  {
    RunKeepsSets(names, steps);
    assert Faithful(Run(names, steps).nodes[node]);
    VisibleExactly(Run(names, steps).nodes[node].state.lww, Run(names, steps).nodes[node].ops, id);
  }

  /** The write a step performs, if any. */
  ghost predicate Performs(step: Step, op: Op) {
    || (step.LocalInsert? && op == Insert(step.id, step.value, step.ts))
    || (step.LocalDelete? && op == Delete(step.id, step.ts))
  }

  /** Nobody holds a write that nobody performed. */
  lemma {:induction false} NothingInvented(names: set<NodeId>, steps: seq<Step>, op: Op)
    ensures forall n :: n in Run(names, steps).nodes && op in Run(names, steps).nodes[n].ops ==>
      exists i :: 0 <= i < |steps| && Performs(steps[i], op)
    ensures forall m :: m in Run(names, steps).sent && op in m.ops ==>
      exists i :: 0 <= i < |steps| && Performs(steps[i], op)
  {
    if steps == [] {
    } else {
      var init, last := steps[..|steps| - 1], steps[|steps| - 1];
      NothingInvented(names, init, op);
      assert steps[|steps| - 1] == last;
      if i :| 0 <= i < |init| && Performs(init[i], op) {
        assert Performs(steps[i], op);
      }
    }
  }

  /** No two inserts of the run give one id different values at the same time. */
  ghost predicate TimesSeparateValues(steps: seq<Step>) {
    forall i, j | 0 <= i < |steps| && 0 <= j < |steps| && steps[i].LocalInsert? && steps[j].LocalInsert? ::
      steps[i].id == steps[j].id && steps[i].ts == steps[j].ts ==> steps[i].value == steps[j].value
  }

  /** A run whose timestamps separate values converges: same writes absorbed, same sets. */
  lemma SeparatedRunsConverge(names: set<NodeId>, steps: seq<Step>, a: NodeId, b: NodeId)
    requires TimesSeparateValues(steps)
    requires a in names && b in names
    ensures Run(names, steps).nodes.Keys == names
    ensures Run(names, steps).nodes[a].ops == Run(names, steps).nodes[b].ops ==>
            Run(names, steps).nodes[a].state.lww == Run(names, steps).nodes[b].state.lww
  {
    RunKeepsSets(names, steps);
    var w := Run(names, steps);
    if w.nodes[a].ops == w.nodes[b].ops {
      var ops := w.nodes[a].ops;
      forall p, q | Latest(p, ops) && Latest(q, ops) && p.id == q.id
        ensures p == q
      {
        NothingInvented(names, steps, p);
        NothingInvented(names, steps, q);
      }
      StrongEventualConsistency(names, steps, a, b);
    }
  }

  // ---------------------------------------------------------------- what ties make of a run

  lemma RunSnoc(names: set<NodeId>, steps: seq<Step>, step: Step)
    ensures Run(names, steps + [step]) == Next(Run(names, steps), step)
  {
    assert (steps + [step])[..|steps|] == steps;
  }

  /** The step in which node n performs the write. */
  function Performing(n: NodeId, op: Op): (step: Step)
    ensures Performs(step, op) && step.node == n
  {
    match op
    case Insert(id, value, ts) => LocalInsert(n, id, value, ts)
    case Delete(id, ts) => LocalDelete(n, id, ts)
  }

  /** One node performs any given writes; the others have seen nothing. */
  lemma {:induction false} PerformAll(names: set<NodeId>, n: NodeId, order: seq<Op>) returns (steps: seq<Step>)
    requires n in names
    ensures Run(names, steps).nodes.Keys == names && Run(names, steps).nodes[n].ops == ToSet(order)
    ensures forall m :: m in names && m != n ==> Run(names, steps).nodes[m] == Tracked(EMPTY_REPLICA, {})
  {
    if order == [] {
      steps := [];
    } else {
      var init, last := order[..|order| - 1], order[|order| - 1];
      var before := PerformAll(names, n, init);
      steps := before + [Performing(n, last)];
      RunSnoc(names, before, Performing(n, last));
      assert order == init + [last];
      assert ToSet(order) == ToSet(init) + {last};
    }
  }

  /** One node performs the writes and another receives them. */
  lemma BothAbsorb(names: set<NodeId>, a: NodeId, b: NodeId, ops: set<Op>) returns (steps: seq<Step>)
    requires a in names && b in names && a != b
    ensures Run(names, steps).nodes.Keys == names
    ensures Run(names, steps).nodes[a].ops == ops && Run(names, steps).nodes[b].ops == ops
    ensures Represents(Run(names, steps).nodes[a].state.lww, ops)
    ensures Represents(Run(names, steps).nodes[b].state.lww, ops)
  {
    var order := Enumerate(ops);
    var before := PerformAll(names, a, order);
    var m := Run(names, before).nodes[a];
    steps := before + [Send(a)] + [Deliver(b, m)];
    RunSnoc(names, before, Send(a));
    RunSnoc(names, before + [Send(a)], Deliver(b, m));
    RunKeepsSets(names, steps);
    assert Faithful(Run(names, steps).nodes[a]) && Faithful(Run(names, steps).nodes[b]);
  }

  /** A newest insert is held after it has been performed. */
  lemma NewestHeld(s: Lww, ops: set<Op>, op: Op)
    requires Represents(s, ops) && Latest(op, ops + {op})
    ensures op.id in Apply(s, op).adds && Apply(s, op).adds[op.id] == Entry(op.ts, op.value)
  {
    if op.id in s.adds {
      assert Insert(op.id, s.adds[op.id].value, s.adds[op.id].ts) in ops + {op};
    }
  }

  /** After performing the insert. */
  function Wrote(t: Tracked, n: NodeId, op: Op): Tracked
    requires op.Insert?
  {
    Tracked(Replica(Increment(t.state.counts, n, 1), Add(t.state.lww, op.id, op.value, op.ts)), t.ops + {op})
  }

  lemma SwapRuns(names: set<NodeId>, steps: seq<Step>, a: NodeId, b: NodeId, p: Op, q: Op) returns (all: seq<Step>)
    requires a in Run(names, steps).nodes && b in Run(names, steps).nodes && a != b && p.Insert? && q.Insert?
    ensures
      var nodes := Run(names, steps).nodes;
      var x, y := Wrote(nodes[a], a, p), Wrote(nodes[b], b, q);
      Run(names, all).nodes == nodes[a := Tracked(MergeReplica(x.state, y.state), x.ops + y.ops)]
                                    [b := Tracked(MergeReplica(y.state, x.state), y.ops + x.ops)]
  {
    var nodes := Run(names, steps).nodes;
    var x, y := Wrote(nodes[a], a, p), Wrote(nodes[b], b, q);
    var s1 := steps + [Performing(a, p)];
    var s2 := s1 + [Performing(b, q)];
    var s3 := s2 + [Send(a)];
    var s4 := s3 + [Send(b)];
    var s5 := s4 + [Deliver(a, y)];
    all := s5 + [Deliver(b, x)];
    RunSnoc(names, steps, Performing(a, p));
    RunSnoc(names, s1, Performing(b, q));
    assert Run(names, s2).nodes == nodes[a := x][b := y];
    RunSnoc(names, s2, Send(a));
    RunSnoc(names, s3, Send(b));
    assert Run(names, s4).nodes == nodes[a := x][b := y] && x in Run(names, s4).sent && y in Run(names, s4).sent;
    RunSnoc(names, s4, Deliver(a, y));
    RunSnoc(names, s5, Deliver(b, x));
  }

  /** Two nodes absorb exactly the given writes and hold different sets. */
  ghost predicate Diverge(names: set<NodeId>, steps: seq<Step>, a: NodeId, b: NodeId, ops: set<Op>) {
    var nodes := Run(names, steps).nodes;
    && a in nodes && b in nodes && nodes[a].ops == ops && nodes[b].ops == ops
    && nodes[a].state.lww != nodes[b].state.lww
  }

  /** Two newest inserts that differ: the nodes have everything else, perform one of them each and swap
      deltas, after which each holds the other's. */
  lemma TiesCanDiverge(names: set<NodeId>, a: NodeId, b: NodeId, ops: set<Op>, p: Op, q: Op) returns (all: seq<Step>)
    requires a in names && b in names && a != b
    requires Latest(p, ops) && Latest(q, ops) && p.id == q.id && p != q
    ensures Diverge(names, all, a, b, ops)
  {
    var rest := ops - {p, q};
    var steps := BothAbsorb(names, a, b, rest);
    var nodes := Run(names, steps).nodes;
    all := SwapRuns(names, steps, a, b, p, q);
    Together(ops, p, q);
    SwappedDiffer(nodes[a].state.lww, nodes[b].state.lww, rest, ops, p, q);
  }

  lemma Together(ops: set<Op>, p: Op, q: Op)
    requires p in ops && q in ops
    ensures
      var rest := ops - {p, q};
      (rest + {p}) + (rest + {q}) == ops == (rest + {q}) + (rest + {p})
  {
  }

  lemma SwappedDiffer(s: Lww, t: Lww, rest: set<Op>, ops: set<Op>, p: Op, q: Op)
    requires Represents(s, rest) && Represents(t, rest) && rest <= ops
    requires Latest(p, ops) && Latest(q, ops) && p.id == q.id && p != q
    ensures MergeLww(Apply(s, p), Apply(t, q)) != MergeLww(Apply(t, q), Apply(s, p))
  {
    NewestHeld(s, rest, p);
    NewestHeld(t, rest, q);
    assert MergeLww(Apply(s, p), Apply(t, q)).adds[p.id] == Entry(q.ts, q.value);
    assert MergeLww(Apply(t, q), Apply(s, p)).adds[p.id] == Entry(p.ts, p.value);
  }

  /** Given writes leave no two nodes of any run that absorbed exactly them apart, if and only if no id has
      two newest inserts that differ. */
  lemma RunsConvergeExactly(names: set<NodeId>, a: NodeId, b: NodeId, ops: set<Op>)
    requires a in names && b in names && a != b
    ensures (forall steps: seq<Step> :: !Diverge(names, steps, a, b, ops)) <==> LatestUnambiguous(ops)
  {
    if LatestUnambiguous(ops) {
      forall steps: seq<Step>
        ensures !Diverge(names, steps, a, b, ops)
      {
        StrongEventualConsistency(names, steps, a, b);
      }
    } else {
      var p, q :| Latest(p, ops) && Latest(q, ops) && p.id == q.id && p != q;
      var steps := TiesCanDiverge(names, a, b, ops, p, q);
    }
  }

  // ---------------------------------------------------------------- counter protocol

  lemma RunCounts(names: set<NodeId>, steps: seq<Step>)
    ensures Run(names, steps).nodes.Keys == names
    ensures forall n :: n in names ==>
      var counts := Run(names, steps).nodes[n].state.counts;
      && counts.Keys <= names && SlotsNonNegative(counts)
      && Slot(counts, n) == Inserts(steps, n)
      && forall m :: m in counts ==> counts[m] <= Inserts(steps, m)
    ensures forall m :: m in Run(names, steps).sent ==> SlotsNonNegative(m.state.counts)
  {
    RunKeepsCounts(names, steps);
  }

  lemma SlotsGrow(w: World, step: Step, node: NodeId)
    requires node in w.nodes && SlotsNonNegative(w.nodes[node].state.counts)
    requires forall m :: m in w.sent ==> SlotsNonNegative(m.state.counts)
    ensures node in Next(w, step).nodes
    ensures forall n :: Slot(w.nodes[node].state.counts, n) <= Slot(Next(w, step).nodes[node].state.counts, n)
  {
    if step.Deliver? && step.node == node && step.message in w.sent {
      forall n {
        SlotOfMerge(w.nodes[node].state.counts, step.message.state.counts, n);
      }
    }
  }

  /** No step ever lowers the value a replica reports. */
  lemma ValueMonotone(names: set<NodeId>, steps: seq<Step>, step: Step, node: NodeId)
    requires node in names
    ensures node in Run(names, steps).nodes && node in Run(names, steps + [step]).nodes
    ensures CounterValue(Run(names, steps).nodes[node].state.counts) <=
            CounterValue(Run(names, steps + [step]).nodes[node].state.counts)
  {
    RunCounts(names, steps);
    RunCounts(names, steps + [step]);
    assert (steps + [step])[..|steps|] == steps;
    SlotsGrow(Run(names, steps), step, node);
    var before := Run(names, steps).nodes[node].state.counts;
    var after := Run(names, steps + [step]).nodes[node].state.counts;
    CounterValueOver(names, before);
    CounterValueOver(names, after);
    SumSlotsMonotone(names, before, after);
  }

  lemma {:induction false} OwnSlotsTotal(names: set<NodeId>, steps: seq<Step>)
    ensures SumSlots(names, OwnSlots(names, steps)) == TotalInserts(names, steps)
  {
    var own := OwnSlots(names, steps);
    if steps == [] {
      SumSlotsZero(names, own);
    } else {
      var init, last := steps[..|steps| - 1], steps[|steps| - 1];
      OwnSlotsTotal(names, init);
      var own0 := OwnSlots(names, init);
      if last.LocalInsert? && last.node in names {
        SumSlotsPick(names, own, last.node);
        SumSlotsPick(names, own0, last.node);
        SumSlotsMonotone(names - {last.node}, own, own0);
        SumSlotsMonotone(names - {last.node}, own0, own);
      } else {
        SumSlotsMonotone(names, own, own0);
        SumSlotsMonotone(names, own0, own);
      }
    }
  }

  lemma {:induction false} SumSlotsZero(nodes: set<NodeId>, c: Counts)
    requires forall n :: n in nodes ==> Slot(c, n) == 0
    ensures SumSlots(nodes, c) == 0
    decreases nodes
  {
    if nodes != {} {
      var n :| n in nodes;
      SumSlotsPick(nodes, c, n);
      SumSlotsZero(nodes - {n}, c);
    }
  }

  // ---------------------------------------------------------------- full exchange

  /** Some delta that r received carried n's slot as it stands now. */
  ghost predicate CarriedSlot(names: set<NodeId>, steps: seq<Step>, r: NodeId, n: NodeId) {
    exists j :: 0 <= j < |steps| && CarriesSlot(names, steps, r, n, Inserts(steps, n), j)
  }

  ghost predicate CarriesSlot(names: set<NodeId>, steps: seq<Step>, r: NodeId, n: NodeId, v: int, j: nat)
    requires j < |steps|
  {
    && steps[j].Deliver? && steps[j].node == r && steps[j].message in Run(names, steps[..j]).sent
    && Slot(steps[j].message.state.counts, n) == v
  }

  lemma CarriesSlotEarlier(names: set<NodeId>, steps: seq<Step>, r: NodeId, n: NodeId, v: int, j: nat)
    requires j < |steps| - 1 && CarriesSlot(names, steps[..|steps| - 1], r, n, v, j)
    ensures CarriesSlot(names, steps, r, n, v, j)
  {
    assert steps[..|steps| - 1][..j] == steps[..j];
  }

  /** What the last step did to r's slot for another node: nothing, or it brought that value. */
  lemma SlotStep(names: set<NodeId>, steps: seq<Step>, r: NodeId, n: NodeId)
    requires steps != [] && r in names && n != r
    ensures Run(names, steps).nodes.Keys == names == Run(names, steps[..|steps| - 1]).nodes.Keys
    ensures
      var v := Slot(Run(names, steps).nodes[r].state.counts, n);
      || v == Slot(Run(names, steps[..|steps| - 1]).nodes[r].state.counts, n)
      || CarriesSlot(names, steps, r, n, v, |steps| - 1)
  {
    var init, last := steps[..|steps| - 1], steps[|steps| - 1];
    RunCounts(names, init);
    RunCounts(names, steps);
    if last.Deliver? && last.node == r && last.message in Run(names, init).sent {
      SlotOfMerge(Run(names, init).nodes[r].state.counts, last.message.state.counts, n);
    }
  }

  /** A replica learns another node's slot only from deltas. */
  lemma {:induction false} SlotCarried(names: set<NodeId>, steps: seq<Step>, r: NodeId, n: NodeId, v: int)
    requires r in names && n != r && v != 0
    ensures Run(names, steps).nodes.Keys == names
    ensures Slot(Run(names, steps).nodes[r].state.counts, n) == v ==>
              exists j :: 0 <= j < |steps| && CarriesSlot(names, steps, r, n, v, j)
  {
    if steps != [] {
      var init := steps[..|steps| - 1];
      SlotCarried(names, init, r, n, v);
      SlotStep(names, steps, r, n);
      if j :| 0 <= j < |init| && CarriesSlot(names, init, r, n, v, j) {
        CarriesSlotEarlier(names, steps, r, n, v, j);
      }
    } else {
      RunCounts(names, steps);
    }
  }

  lemma CarriedArrives(names: set<NodeId>, steps: seq<Step>, r: NodeId, n: NodeId, v: int)
    requires r in names && steps != [] && CarriesSlot(names, steps, r, n, v, |steps| - 1)
    ensures Run(names, steps).nodes.Keys == names
    ensures Slot(Run(names, steps).nodes[r].state.counts, n) >= v
  {
    var init, last := steps[..|steps| - 1], steps[|steps| - 1];
    RunCounts(names, init);
    RunNames(names, steps);
    SlotOfMerge(Run(names, init).nodes[r].state.counts, last.message.state.counts, n);
  }

  ghost predicate NonNegative(w: World) {
    && (forall n :: n in w.nodes ==> SlotsNonNegative(w.nodes[n].state.counts))
    && (forall m :: m in w.sent ==> SlotsNonNegative(m.state.counts))
  }

  lemma RunNonNegative(names: set<NodeId>, steps: seq<Step>)
    ensures Run(names, steps).nodes.Keys == names && NonNegative(Run(names, steps))
  {
    RunCounts(names, steps);
  }

  lemma SlotGrowsAt(w: World, step: Step, r: NodeId, n: NodeId)
    requires NonNegative(w) && r in w.nodes
    ensures r in Next(w, step).nodes
    ensures Slot(w.nodes[r].state.counts, n) <= Slot(Next(w, step).nodes[r].state.counts, n)
  {
    SlotsGrow(w, step, r);
  }

  lemma SlotGrows(names: set<NodeId>, steps: seq<Step>, r: NodeId, n: NodeId)
    requires r in names && steps != []
    ensures Run(names, steps).nodes.Keys == names == Run(names, steps[..|steps| - 1]).nodes.Keys
    ensures Slot(Run(names, steps[..|steps| - 1]).nodes[r].state.counts, n) <=
            Slot(Run(names, steps).nodes[r].state.counts, n)
  {
    RunNonNegative(names, steps[..|steps| - 1]);
    RunNames(names, steps);
    SlotGrowsAt(Run(names, steps[..|steps| - 1]), steps[|steps| - 1], r, n);
  }

  /** What a delta carried stays. */
  lemma {:induction false} CarriedStays(names: set<NodeId>, steps: seq<Step>, r: NodeId, n: NodeId, v: int, j: nat)
    requires r in names && j < |steps| && CarriesSlot(names, steps, r, n, v, j)
    ensures Run(names, steps).nodes.Keys == names
    ensures Slot(Run(names, steps).nodes[r].state.counts, n) >= v
  {
    if j == |steps| - 1 {
      CarriedArrives(names, steps, r, n, v);
    } else {
      var init := steps[..|steps| - 1];
      assert init[..j] == steps[..j];
      CarriedStays(names, init, r, n, v, j);
      SlotGrows(names, steps, r, n);
    }
  }

  lemma {:induction false} SumSlotsEqual(nodes: set<NodeId>, a: Counts, b: Counts, n: NodeId)
    requires forall m :: m in nodes ==> Slot(a, m) <= Slot(b, m)
    requires SumSlots(nodes, a) == SumSlots(nodes, b) && n in nodes
    ensures Slot(a, n) == Slot(b, n)
  {
    SumSlotsPick(nodes, a, n);
    SumSlotsPick(nodes, b, n);
    SumSlotsMonotone(nodes - {n}, a, b);
  }

  /** A replica reports all inserts exactly if it holds every node's own slot. */
  lemma ValueFromSlots(names: set<NodeId>, steps: seq<Step>, r: NodeId)
    requires r in names
    ensures Run(names, steps).nodes.Keys == names
    ensures CounterValue(Run(names, steps).nodes[r].state.counts) == TotalInserts(names, steps) <==>
            forall n :: n in names ==> Slot(Run(names, steps).nodes[r].state.counts, n) == Inserts(steps, n)
  {
    RunCounts(names, steps);
    var own, counts := OwnSlots(names, steps), Run(names, steps).nodes[r].state.counts;
    CounterValueOver(names, counts);
    OwnSlotsTotal(names, steps);
    assert forall n :: n in names ==> Slot(counts, n) <= Slot(own, n) == Inserts(steps, n);
    if SumSlots(names, counts) == SumSlots(names, own) {
      forall n | n in names
        ensures Slot(counts, n) == Slot(own, n)
      {
        SumSlotsEqual(names, counts, own, n);
      }
    }
    if forall n :: n in names ==> Slot(counts, n) == Inserts(steps, n) {
      SumSlotsMonotone(names, counts, own);
      SumSlotsMonotone(names, own, counts);
    }
  }

  /** In any run a replica reports exactly the inserts performed anywhere if and only if, for every other
      node that inserted, some delta it received carried all of that node's inserts, directly or relayed. */
  lemma ValueCompleteExactly(names: set<NodeId>, steps: seq<Step>, r: NodeId)
    requires r in names
    ensures Run(names, steps).nodes.Keys == names
    ensures CounterValue(Run(names, steps).nodes[r].state.counts) == TotalInserts(names, steps) <==>
            forall n | n in names && n != r :: Inserts(steps, n) > 0 ==> CarriedSlot(names, steps, r, n)
  {
    RunCounts(names, steps);
    ValueFromSlots(names, steps, r);
    forall n | n in names && n != r
      ensures Slot(Run(names, steps).nodes[r].state.counts, n) == Inserts(steps, n) <==>
              (Inserts(steps, n) > 0 ==> CarriedSlot(names, steps, r, n))
    {
      SlotCompleteExactly(names, steps, r, n);
    }
  }

  lemma SlotCompleteExactly(names: set<NodeId>, steps: seq<Step>, r: NodeId, n: NodeId)
    requires r in names && n in names && n != r
    ensures Run(names, steps).nodes.Keys == names
    ensures Slot(Run(names, steps).nodes[r].state.counts, n) == Inserts(steps, n) <==>
            (Inserts(steps, n) > 0 ==> CarriedSlot(names, steps, r, n))
  {
    RunCounts(names, steps);
    var v := Inserts(steps, n);
    if v > 0 {
      SlotCarried(names, steps, r, n, v);
      if j :| 0 <= j < |steps| && CarriesSlot(names, steps, r, n, v, j) {
        CarriedStays(names, steps, r, n, v, j);
      }
    }
  }

  predicate IsWrite(step: Step) {
    step.LocalInsert? || step.LocalDelete?
  }

  /** r received, at step j, the delta n sent at step i, and n wrote nothing after sending it. */
  ghost predicate Received(names: set<NodeId>, steps: seq<Step>, r: NodeId, n: NodeId, i: nat, j: nat)
    requires i < j < |steps|
  {
    && n in Run(names, steps[..i]).nodes
    && steps[i] == Send(n) && steps[j] == Deliver(r, Run(names, steps[..i]).nodes[n])
    && forall k :: i < k < |steps| && steps[k].node == n ==> !IsWrite(steps[k])
  }

  /** Every node has received every other node's last word, in whatever order and with whatever else
      going on in between. */
  ghost predicate FullExchange(names: set<NodeId>, steps: seq<Step>) {
    forall r, n | r in names && n in names && r != n ::
      exists i: nat, j: nat :: i < j < |steps| && Received(names, steps, r, n, i, j)
  }

  lemma {:induction false} SentStays(names: set<NodeId>, steps: seq<Step>, i: nat, j: nat)
    requires i <= j <= |steps|
    ensures Run(names, steps[..i]).sent <= Run(names, steps[..j]).sent
  {
    if i < j {
      assert steps[..j][..j - 1] == steps[..j - 1];
      SentStays(names, steps, i, j - 1);
    }
  }

  /** The delta was in transit when it was received. */
  lemma ReceivedWasSent(names: set<NodeId>, steps: seq<Step>, r: NodeId, n: NodeId, i: nat, j: nat)
    requires n in names && i < j < |steps| && Received(names, steps, r, n, i, j)
    ensures steps[j].message in Run(names, steps[..j]).sent
  {
    RunKeepsSets(names, steps[..i]);
    assert steps[..i + 1][..i] == steps[..i];
    SentStays(names, steps, i + 1, j);
  }

  lemma {:induction false} QuietInserts(steps: seq<Step>, n: NodeId, i: nat)
    requires i <= |steps| && forall k :: i <= k < |steps| && steps[k].node == n ==> !IsWrite(steps[k])
    ensures Inserts(steps, n) == Inserts(steps[..i], n)
  {
    if i < |steps| {
      var init := steps[..|steps| - 1];
      assert init[..i] == steps[..i];
      QuietInserts(init, n, i);
    } else {
      assert steps[..i] == steps;
    }
  }

  lemma ReceivedCarries(names: set<NodeId>, steps: seq<Step>, r: NodeId, n: NodeId, i: nat, j: nat)
    requires n in names && i < j < |steps| && Received(names, steps, r, n, i, j)
    ensures CarriedSlot(names, steps, r, n)
  {
    ReceivedWasSent(names, steps, r, n, i, j);
    RunCounts(names, steps[..i]);
    QuietInserts(steps, n, i);
    assert CarriesSlot(names, steps, r, n, Inserts(steps, n), j);
  }

  /** After a full exchange every replica's counter reports exactly the inserts performed anywhere. */
  lemma FullExchangeCountsInserts(names: set<NodeId>, steps: seq<Step>, r: NodeId)
    requires FullExchange(names, steps) && r in names
    ensures Run(names, steps).nodes.Keys == names
    ensures CounterValue(Run(names, steps).nodes[r].state.counts) == TotalInserts(names, steps)
  {
    ValueCompleteExactly(names, steps, r);
    forall n | n in names && n != r
      ensures CarriedSlot(names, steps, r, n)
    {
      var i: nat, j: nat :| i < j < |steps| && Received(names, steps, r, n, i, j);
      ReceivedCarries(names, steps, r, n, i, j);
    }
  }

  /** The writes performed at the named nodes. */
  ghost predicate Written(names: set<NodeId>, steps: seq<Step>, op: Op) {
    exists k :: 0 <= k < |steps| && steps[k].node in names && Performs(steps[k], op)
  }

  lemma OpsGrow(w: World, step: Step, r: NodeId)
    requires r in w.nodes
    ensures r in Next(w, step).nodes && w.nodes[r].ops <= Next(w, step).nodes[r].ops
  {
  }

  lemma {:induction false} OpsStay(names: set<NodeId>, steps: seq<Step>, r: NodeId, i: nat)
    requires r in names && i <= |steps|
    ensures Run(names, steps).nodes.Keys == names == Run(names, steps[..i]).nodes.Keys
    ensures Run(names, steps[..i]).nodes[r].ops <= Run(names, steps).nodes[r].ops
  {
    RunNames(names, steps);
    RunNames(names, steps[..i]);
    if i < |steps| {
      var init := steps[..|steps| - 1];
      assert init[..i] == steps[..i];
      OpsStay(names, init, r, i);
      OpsGrow(Run(names, init), steps[|steps| - 1], r);
    } else {
      assert steps[..i] == steps;
    }
  }

  /** What a delta brought stays. */
  lemma DeliveredOps(names: set<NodeId>, steps: seq<Step>, r: NodeId, j: nat)
    requires r in names && j < |steps| && steps[j].Deliver? && steps[j].node == r
    requires steps[j].message in Run(names, steps[..j]).sent
    ensures Run(names, steps).nodes.Keys == names && steps[j].message.ops <= Run(names, steps).nodes[r].ops
  {
    RunNames(names, steps[..j]);
    assert steps[..j + 1][..j] == steps[..j];
    OpsStay(names, steps, r, j + 1);
  }

  /** A node holds its own writes from then on. */
  lemma OwnWriteHeld(names: set<NodeId>, steps: seq<Step>, op: Op, k: nat, i: nat)
    requires k < i <= |steps| && steps[k].node in names && Performs(steps[k], op)
    ensures Run(names, steps[..i]).nodes.Keys == names && op in Run(names, steps[..i]).nodes[steps[k].node].ops
  {
    assert steps[..i][..k + 1] == steps[..k + 1] && steps[..k + 1][..k] == steps[..k];
    RunKeepsSets(names, steps[..k]);
    OpsStay(names, steps[..i], steps[k].node, k + 1);
  }

  lemma ReceivedBrings(names: set<NodeId>, steps: seq<Step>, r: NodeId, op: Op, k: nat, i: nat, j: nat)
    requires r in names && k < |steps| && steps[k].node in names && Performs(steps[k], op)
    requires i < j < |steps| && Received(names, steps, r, steps[k].node, i, j)
    ensures Run(names, steps).nodes.Keys == names && op in Run(names, steps).nodes[r].ops
  {
    var n := steps[k].node;
    assert IsWrite(steps[k]);
    assert k < i;
    OwnWriteHeld(names, steps, op, k, i);
    assert op in steps[j].message.ops;
    ReceivedWasSent(names, steps, r, n, i, j);
    DeliveredOps(names, steps, r, j);
  }

  /** Everything the named nodes wrote has reached r. */
  lemma ExchangeReaches(names: set<NodeId>, steps: seq<Step>, r: NodeId, op: Op)
    requires FullExchange(names, steps) && r in names && Written(names, steps, op)
    ensures Run(names, steps).nodes.Keys == names && op in Run(names, steps).nodes[r].ops
  {
    var k: nat :| k < |steps| && steps[k].node in names && Performs(steps[k], op);
    if steps[k].node == r {
      assert steps[..|steps|] == steps;
      OwnWriteHeld(names, steps, op, k, |steps|);
    } else {
      var i: nat, j: nat :| i < j < |steps| && Received(names, steps, r, steps[k].node, i, j);
      ReceivedBrings(names, steps, r, op, k, i, j);
    }
  }

  lemma {:induction false} HeldWasWritten(names: set<NodeId>, steps: seq<Step>, op: Op)
    ensures forall n :: n in Run(names, steps).nodes && op in Run(names, steps).nodes[n].ops ==>
                          Written(names, steps, op)
    ensures forall m :: m in Run(names, steps).sent && op in m.ops ==> Written(names, steps, op)
  {
    if steps == [] {
    } else {
      var init, last := steps[..|steps| - 1], steps[|steps| - 1];
      HeldWasWritten(names, init, op);
      RunKeepsSets(names, init);
      assert steps[|steps| - 1] == last;
      if k :| 0 <= k < |init| && init[k].node in names && Performs(init[k], op) {
        assert Performs(steps[k], op);
      }
    }
  }

  /** After a full exchange every replica has absorbed exactly the writes performed anywhere; so, if times
      separate values, all hold the same sets. */
  lemma FullExchangeConverges(names: set<NodeId>, steps: seq<Step>, a: NodeId, b: NodeId)
    requires FullExchange(names, steps) && a in names && b in names
    ensures Run(names, steps).nodes.Keys == names
    ensures forall op :: op in Run(names, steps).nodes[a].ops <==> Written(names, steps, op)
    ensures TimesSeparateValues(steps) ==>
              Run(names, steps).nodes[a].state.lww == Run(names, steps).nodes[b].state.lww
  {
    AbsorbsAll(names, steps, a);
    AbsorbsAll(names, steps, b);
    assert Run(names, steps).nodes[a].ops == Run(names, steps).nodes[b].ops;
    if TimesSeparateValues(steps) {
      SeparatedRunsConverge(names, steps, a, b);
    }
  }

  lemma AbsorbsAll(names: set<NodeId>, steps: seq<Step>, r: NodeId)
    requires FullExchange(names, steps) && r in names
    ensures Run(names, steps).nodes.Keys == names
    ensures forall op :: op in Run(names, steps).nodes[r].ops <==> Written(names, steps, op)
  {
    RunKeepsSets(names, steps);
    forall op
      ensures op in Run(names, steps).nodes[r].ops <==> Written(names, steps, op)
    {
      HeldWasWritten(names, steps, op);
      if Written(names, steps, op) {
        ExchangeReaches(names, steps, r, op);
      }
    }
  }

  // ---------------------------------------------------------------- every run can be completed

  function Sends(order: seq<NodeId>): (steps: seq<Step>)
    ensures |steps| == |order| && forall i :: 0 <= i < |order| ==> steps[i] == Send(order[i])
  {
    seq(|order|, i requires 0 <= i < |order| => Send(order[i]))
  }

  /** Everybody's delta to r. */
  function DeliverTo(r: NodeId, order: seq<NodeId>, w: World): (steps: seq<Step>)
    requires forall n :: n in order ==> n in w.nodes
    ensures |steps| == |order| && forall i :: 0 <= i < |order| ==> steps[i] == Deliver(r, w.nodes[order[i]])
  {
    seq(|order|, i requires 0 <= i < |order| => Deliver(r, w.nodes[order[i]]))
  }

  function Deliveries(receivers: seq<NodeId>, order: seq<NodeId>, w: World): (steps: seq<Step>)
    requires forall n :: n in order ==> n in w.nodes
    ensures forall i :: 0 <= i < |steps| ==> steps[i].Deliver?
    ensures forall r, n :: r in receivers && n in order ==> Deliver(r, w.nodes[n]) in steps
  {
    if receivers == [] then [] else
      var init, r := receivers[..|receivers| - 1], receivers[|receivers| - 1];
      assert receivers == init + [r];
      var steps := Deliveries(init, order, w) + DeliverTo(r, order, w);
      assert forall n :: n in order ==> Deliver(r, w.nodes[n]) in DeliverTo(r, order, w) by {
        forall n | n in order
          ensures Deliver(r, w.nodes[n]) in DeliverTo(r, order, w)
        {
          assert DeliverTo(r, order, w)[IndexOf(order, n)] == Deliver(r, w.nodes[n]);
        }
      }
      steps
  }

  /** All nodes send, then all deltas are delivered everywhere. */
  function Exchange(order: seq<NodeId>, w: World): seq<Step>
    requires forall n :: n in order ==> n in w.nodes
  {
    Sends(order) + Deliveries(order, order, w)
  }

  lemma {:induction false} SendingChangesNoNode(names: set<NodeId>, steps: seq<Step>, order: seq<NodeId>, i: nat)
    requires i <= |order|
    ensures Run(names, steps + Sends(order)[..i]).nodes == Run(names, steps).nodes
  {
    var all := steps + Sends(order)[..i];
    if i == 0 {
      assert all == steps;
    } else {
      assert all[..|all| - 1] == steps + Sends(order)[..i - 1];
      SendingChangesNoNode(names, steps, order, i - 1);
    }
  }

  lemma SendAt(steps: seq<Step>, order: seq<NodeId>, w: World, a: nat)
    requires (forall n :: n in order ==> n in w.nodes) && a < |order|
    ensures
      var all := steps + Exchange(order, w);
      && |all| >= |steps| + |order| && all[|steps| + a] == Send(order[a])
      && all[..|steps| + a] == steps + Sends(order)[..a]
  {
    var sends, d := Sends(order), Deliveries(order, order, w);
    assert steps + (sends + d) == steps + sends + d;
    assert (steps + sends)[..|steps| + a] == steps + sends[..a];
  }

  lemma DeliveryAt(steps: seq<Step>, order: seq<NodeId>, w: World, r: NodeId, n: NodeId) returns (j: nat)
    requires (forall m :: m in order ==> m in w.nodes) && r in order && n in order
    ensures
      var all := steps + Exchange(order, w);
      |steps| + |order| <= j < |all| && all[j] == Deliver(r, w.nodes[n])
  {
    var d := Deliveries(order, order, w);
    assert Deliver(r, w.nodes[n]) in d;
    var b: nat :| b < |d| && d[b] == Deliver(r, w.nodes[n]);
    j := |steps| + |order| + b;
    assert steps + (Sends(order) + d) == steps + Sends(order) + d;
  }

  lemma ExchangeIsQuiet(steps: seq<Step>, order: seq<NodeId>, w: World, k: nat)
    requires (forall n :: n in order ==> n in w.nodes) && |steps| <= k < |steps + Exchange(order, w)|
    ensures !IsWrite((steps + Exchange(order, w))[k])
  {
    var x := Exchange(order, w)[k - |steps|];
    assert (steps + Exchange(order, w))[k] == x;
    if k < |steps| + |order| {
      assert x == Sends(order)[k - |steps|];
    } else {
      assert x == Deliveries(order, order, w)[k - |steps| - |order|];
    }
  }

  /** Where n's delta is sent in the continuation, and where r receives it. */
  lemma ExchangeAt(names: set<NodeId>, steps: seq<Step>, order: seq<NodeId>, r: NodeId, n: NodeId)
    returns (all: seq<Step>, i: nat, j: nat)
    requires Run(names, steps).nodes.Keys == names && (forall m :: m in order ==> m in names)
    requires r in order && n in order
    ensures all == steps + Exchange(order, Run(names, steps)) && |steps| <= i < j < |all|
    ensures all[i] == Send(n) && all[j] == Deliver(r, Run(names, steps).nodes[n])
    ensures Run(names, all[..i]).nodes == Run(names, steps).nodes
  {
    var w, a := Run(names, steps), IndexOf(order, n);
    all, i := steps + Exchange(order, w), |steps| + a;
    j := DeliveryAt(steps, order, w, r, n);
    SendAt(steps, order, w, a);
    SendingChangesNoNode(names, steps, order, a);
  }

  lemma QuietReceived(names: set<NodeId>, steps: seq<Step>, all: seq<Step>, r: NodeId, n: NodeId, i: nat, j: nat)
    requires n in Run(names, steps).nodes && |steps| <= i < j < |all| && all[i] == Send(n)
    requires all[j] == Deliver(r, Run(names, steps).nodes[n]) && Run(names, all[..i]).nodes == Run(names, steps).nodes
    requires forall k :: |steps| <= k < |all| ==> !IsWrite(all[k])
    ensures Received(names, all, r, n, i, j)
  {
  }

  /** Every run can be continued to one with a full exchange, and without any further write. */
  lemma EveryRunCanExchange(names: set<NodeId>, steps: seq<Step>, order: seq<NodeId>) returns (all: seq<Step>)
    requires ToSet(order) == names
    ensures steps <= all && FullExchange(names, all)
    ensures forall k :: |steps| <= k < |all| ==> !IsWrite(all[k])
  {
    RunNames(names, steps);
    assert forall n :: n in order <==> n in ToSet(order);
    all := steps + Exchange(order, Run(names, steps));
    forall k: nat | |steps| <= k < |all|
      ensures !IsWrite(all[k])
    {
      ExchangeIsQuiet(steps, order, Run(names, steps), k);
    }
    forall r, n | r in names && n in names && r != n
      ensures exists i: nat, j: nat :: i < j < |all| && Received(names, all, r, n, i, j)
    {
      var same, i, j := ExchangeAt(names, steps, order, r, n);
      QuietReceived(names, steps, same, r, n, i, j);
    }
  }
}

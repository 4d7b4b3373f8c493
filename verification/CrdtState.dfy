/** The replicated values of services/crdt_sync.py: the last-write-wins element set, the
    grow-only counter, and the laws of their merges. */
module CrdtState {
  import opened Prelude

  type NodeId = string
  type VectorId = string
  type Value(==, !new)

  datatype Entry = Entry(ts: real, value: Value)

  datatype Lww = Lww(adds: map<VectorId, Entry>, removes: map<VectorId, real>)

  type Counts = map<NodeId, int>

  datatype Replica = Replica(counts: Counts, lww: Lww)

  const EMPTY_LWW := Lww(map[], map[])
  const EMPTY_REPLICA := Replica(map[], EMPTY_LWW)

  // ---------------------------------------------------------------- element set

  function RemoveTs(s: Lww, id: VectorId): real {
    if id in s.removes then s.removes[id] else 0.0
  }

  function Add(s: Lww, id: VectorId, value: Value, ts: real): Lww {
    if id !in s.adds || ts >= s.adds[id].ts then s.(adds := s.adds[id := Entry(ts, value)]) else s
  }

  function Remove(s: Lww, id: VectorId, ts: real): Lww {
    s.(removes := s.removes[id := Max(RemoveTs(s, id), ts)])
  }

  function Lookup(s: Lww, id: VectorId): Option<Value> {
    if id !in s.adds || RemoveTs(s, id) >= s.adds[id].ts then None else Some(s.adds[id].value)
  }

  function Elements(s: Lww): map<VectorId, Value> {
    map id | id in s.adds && RemoveTs(s, id) < s.adds[id].ts :: s.adds[id].value
  }

  function MergeAdds(a: map<VectorId, Entry>, b: map<VectorId, Entry>): map<VectorId, Entry> {
    map id | id in a.Keys + b.Keys ::
      if id in b && (id !in a || b[id].ts >= a[id].ts) then b[id] else a[id]
  }

  function MergeRemoves(a: map<VectorId, real>, b: map<VectorId, real>): map<VectorId, real> {
    map id | id in a.Keys + b.Keys ::
      if id in b then Max(if id in a then a[id] else 0.0, b[id]) else a[id]
  }

  function MergeLww(a: Lww, b: Lww): Lww {
    Lww(MergeAdds(a.adds, b.adds), MergeRemoves(a.removes, b.removes))
  }

  /** No stored tombstone is older than the "never removed" default of 0.0. */
  ghost predicate TombstonesNonNegative(s: Lww) {
    forall id :: id in s.removes ==> s.removes[id] >= 0.0
  }

  /** Where both sets hold an equally old entry for an id, they hold the same entry. */
  ghost predicate TiesAgree(a: Lww, b: Lww) {
    forall id :: id in a.adds && id in b.adds && a.adds[id].ts == b.adds[id].ts ==> a.adds[id] == b.adds[id]
  }

  lemma MergeAddsAssociative(a: map<VectorId, Entry>, b: map<VectorId, Entry>, c: map<VectorId, Entry>)
    ensures MergeAdds(MergeAdds(a, b), c) == MergeAdds(a, MergeAdds(b, c))
  {
    var ab, bc := MergeAdds(a, b), MergeAdds(b, c);
    forall id | id in a.Keys + b.Keys + c.Keys
      ensures MergeAdds(ab, c)[id] == MergeAdds(a, bc)[id]
    {
      assert id in ab <==> id in a || id in b;
      assert id in bc <==> id in b || id in c;
    }
  }

  /** Two tombstones below the default 0.0, and none between them: grouped to the right, the default hides
      the later one; grouped to the left, nothing does. */
  predicate Hidden(a: map<VectorId, real>, b: map<VectorId, real>, c: map<VectorId, real>, id: VectorId) {
    id in a && id !in b && id in c && a[id] < 0.0 && c[id] < 0.0
  }

  lemma RemovesAssociateAt(a: map<VectorId, real>, b: map<VectorId, real>, c: map<VectorId, real>, id: VectorId)
    requires id in a || id in b || id in c
    ensures id in MergeRemoves(MergeRemoves(a, b), c) && id in MergeRemoves(a, MergeRemoves(b, c))
    ensures MergeRemoves(MergeRemoves(a, b), c)[id] == MergeRemoves(a, MergeRemoves(b, c))[id] <==> !Hidden(a, b, c, id)
  {
    assert id in MergeRemoves(a, b) <==> id in a || id in b;
    assert id in MergeRemoves(b, c) <==> id in b || id in c;
  }

  lemma RemovesAssociateExactly(a: map<VectorId, real>, b: map<VectorId, real>, c: map<VectorId, real>)
    ensures MergeRemoves(MergeRemoves(a, b), c) == MergeRemoves(a, MergeRemoves(b, c)) <==>
            forall id :: !Hidden(a, b, c, id)
  {
    var l, r := MergeRemoves(MergeRemoves(a, b), c), MergeRemoves(a, MergeRemoves(b, c));
    assert l.Keys == a.Keys + b.Keys + c.Keys == r.Keys;
    if forall id :: !Hidden(a, b, c, id) {
      forall id | id in l
        ensures l[id] == r[id]
      {
        RemovesAssociateAt(a, b, c, id);
      }
    } else {
      var id :| Hidden(a, b, c, id);
      RemovesAssociateAt(a, b, c, id);
    }
  }

  /** The grouping of three merges does not matter if and only if no tombstone below 0.0 is hidden. */
  lemma MergeAssociatesExactly(a: Lww, b: Lww, c: Lww)
    ensures MergeLww(MergeLww(a, b), c) == MergeLww(a, MergeLww(b, c)) <==>
            forall id :: !Hidden(a.removes, b.removes, c.removes, id)
  {
    MergeAddsAssociative(a.adds, b.adds, c.adds);
    RemovesAssociateExactly(a.removes, b.removes, c.removes);
  }

  /** A stored tombstone below 0.0 would break the law: the default hides it on one side only. */
  lemma NegativeTombstoneBreaksAssociativity(id: VectorId)
    ensures
      var a, b := Lww(map[], map[id := -2.0]), Lww(map[], map[id := -1.0]);
      MergeLww(MergeLww(a, EMPTY_LWW), b) != MergeLww(a, MergeLww(EMPTY_LWW, b))
  {
    var a, b := Lww(map[], map[id := -2.0]), Lww(map[], map[id := -1.0]);
    assert MergeLww(MergeLww(a, EMPTY_LWW), b).removes[id] == -1.0;
    assert MergeLww(a, MergeLww(EMPTY_LWW, b)).removes[id] == 0.0;
  }

  lemma MergeIdempotent(a: Lww, b: Lww)
    ensures MergeLww(a, a) == a
    ensures MergeLww(MergeLww(a, b), b) == MergeLww(a, b)
  {
    assert MergeLww(a, a).adds == a.adds && MergeLww(a, a).removes == a.removes;
    var once := MergeLww(a, b);
    assert MergeLww(once, b).adds == once.adds;
    assert MergeLww(once, b).removes == once.removes;
  }

  /** A tombstone that one side alone holds meets the default 0.0 on the other side, but only if it is
      the right-hand one. */
  ghost predicate LoneNonNegative(a: map<VectorId, real>, b: map<VectorId, real>) {
    forall id :: id in a && id !in b ==> a[id] >= 0.0
  }

  lemma RemovesCommuteExactly(a: map<VectorId, real>, b: map<VectorId, real>)
    ensures MergeRemoves(a, b) == MergeRemoves(b, a) <==> LoneNonNegative(a, b) && LoneNonNegative(b, a)
  {
    var l, r := MergeRemoves(a, b), MergeRemoves(b, a);
    assert l.Keys == a.Keys + b.Keys == r.Keys;
    forall id | id in l
      ensures l[id] == r[id] <==> (id in b || a[id] >= 0.0) && (id in a || b[id] >= 0.0)
    {
    }
  }

  lemma AddsCommuteExactly(a: Lww, b: Lww)
    ensures MergeAdds(a.adds, b.adds) == MergeAdds(b.adds, a.adds) <==> TiesAgree(a, b)
  {
    var l, r := MergeAdds(a.adds, b.adds), MergeAdds(b.adds, a.adds);
    assert l.Keys == r.Keys;
    if TiesAgree(a, b) {
      assert l == r;
    } else {
      var id :| id in a.adds && id in b.adds && a.adds[id].ts == b.adds[id].ts && a.adds[id] != b.adds[id];
      assert l[id] == b.adds[id] && r[id] == a.adds[id];
    }
  }

  /** The tie rule is right-biased, and so is the default tombstone: the merge commutes exactly when ties
      carry equal values and no tombstone below 0.0 stands alone. */
  lemma MergeCommutesExactly(a: Lww, b: Lww)
    ensures MergeLww(a, b) == MergeLww(b, a) <==>
            TiesAgree(a, b) && LoneNonNegative(a.removes, b.removes) && LoneNonNegative(b.removes, a.removes)
  {
    AddsCommuteExactly(a, b);
    RemovesCommuteExactly(a.removes, b.removes);
  }

  /** A local write is the merge of a one-element delta, so a history is a fold of merges. */
  lemma AddIsMerge(s: Lww, id: VectorId, value: Value, ts: real)
    ensures Add(s, id, value, ts) == MergeLww(s, Lww(map[id := Entry(ts, value)], map[]))
  {
    assert MergeRemoves(s.removes, map[]) == s.removes;
  }

  lemma RemoveIsMerge(s: Lww, id: VectorId, ts: real)
    ensures Remove(s, id, ts) == MergeLww(s, Lww(map[], map[id := ts]))
  {
    assert MergeAdds(s.adds, map[]) == s.adds;
  }

  // ---------------------------------------------------------------- history of an element set

  /** One write, as some region performed it. */
  datatype Op =
    | Insert(id: VectorId, value: Value, ts: real)
    | Delete(id: VectorId, ts: real)

  function Apply(s: Lww, op: Op): Lww {
    match op
    case Insert(id, value, ts) => Add(s, id, value, ts)
    case Delete(id, ts) => Remove(s, id, ts)
  }

  function Replay(ops: seq<Op>): Lww {
    if ops == [] then EMPTY_LWW else Apply(Replay(ops[..|ops| - 1]), ops[|ops| - 1])
  }

  /** s is what remains of the writes in ops: per id a newest insert and the newest delete. */
  ghost predicate Represents(s: Lww, ops: set<Op>) {
    && (forall op :: op in ops && op.Insert? ==> op.id in s.adds && op.ts <= s.adds[op.id].ts)
    && (forall id :: id in s.adds ==> Insert(id, s.adds[id].value, s.adds[id].ts) in ops)
    && (forall op :: op in ops && op.Delete? ==> op.id in s.removes && op.ts <= s.removes[op.id])
    && (forall id :: id in s.removes ==>
          exists op :: op in ops && op.Delete? && op.id == id && s.removes[id] == Max(0.0, op.ts))
  }

  /** op is a newest insert of its id among ops. */
  ghost predicate Latest(op: Op, ops: set<Op>) {
    && op in ops && op.Insert?
    && (forall other :: other in ops && other.Insert? && other.id == op.id ==> other.ts <= op.ts)
  }

  /** No id has two newest inserts that differ. */
  ghost predicate LatestUnambiguous(ops: set<Op>) {
    forall p, q :: Latest(p, ops) && Latest(q, ops) && p.id == q.id ==> p == q
  }

  lemma RepresentsNonNegative(s: Lww, ops: set<Op>)
    requires Represents(s, ops)
    ensures TombstonesNonNegative(s)
  {
  }

  /** Sets that histories of writes leave, whatever the times of the writes, merge in any grouping to the
      same set, and in either order exactly when their ties agree. */
  lemma HistoriesMerge(a: Lww, opsA: set<Op>, b: Lww, opsB: set<Op>, c: Lww, opsC: set<Op>)
    requires Represents(a, opsA) && Represents(b, opsB) && Represents(c, opsC)
    ensures MergeLww(MergeLww(a, b), c) == MergeLww(a, MergeLww(b, c))
    ensures MergeLww(a, b) == MergeLww(b, a) <==> TiesAgree(a, b)
  {
    RepresentsNonNegative(a, opsA);
    RepresentsNonNegative(b, opsB);
    MergeAssociatesExactly(a, b, c);
    MergeCommutesExactly(a, b);
  }

  lemma ApplyInsert(s: Lww, ops: set<Op>, op: Op)
    requires Represents(s, ops) && op.Insert?
    ensures Represents(Apply(s, op), ops + {op})
  {
    assert op in ops + {op};
    forall id | id in s.removes
      ensures exists d :: d in ops + {op} && d.Delete? && d.id == id && s.removes[id] == Max(0.0, d.ts)
    {
      var d :| d in ops && d.Delete? && d.id == id && s.removes[id] == Max(0.0, d.ts);
      assert d in ops + {op};
    }
  }

  lemma ApplyDelete(s: Lww, ops: set<Op>, op: Op)
    requires Represents(s, ops) && op.Delete?
    ensures Represents(Apply(s, op), ops + {op})
  {
    var t := Apply(s, op);
    assert op in ops + {op};
    forall id | id in t.removes
      ensures exists d :: d in ops + {op} && d.Delete? && d.id == id && t.removes[id] == Max(0.0, d.ts)
    {
      if id in s.removes {
        var d :| d in ops && d.Delete? && d.id == id && s.removes[id] == Max(0.0, d.ts);
        assert d in ops + {op};
      }
    }
  }

  lemma ApplyRepresents(s: Lww, ops: set<Op>, op: Op)
    requires Represents(s, ops)
    ensures Represents(Apply(s, op), ops + {op})
  {
    match op
    case Insert(_, _, _) => ApplyInsert(s, ops, op);
    case Delete(_, _) => ApplyDelete(s, ops, op);
  }

  lemma MergeTombstones(a: Lww, opsA: set<Op>, b: Lww, opsB: set<Op>, id: VectorId)
    requires Represents(a, opsA) && Represents(b, opsB)
    requires id in MergeLww(a, b).removes
    ensures exists d :: d in opsA + opsB && d.Delete? && d.id == id && MergeLww(a, b).removes[id] == Max(0.0, d.ts)
  {
    var ts := MergeLww(a, b).removes[id];
    if id in b.removes && ts == b.removes[id] {
      var d :| d in opsB && d.Delete? && d.id == id && b.removes[id] == Max(0.0, d.ts);
      assert d in opsA + opsB;
    } else {
      var d :| d in opsA && d.Delete? && d.id == id && a.removes[id] == Max(0.0, d.ts);
      assert d in opsA + opsB;
    }
  }

  lemma MergeRepresents(a: Lww, opsA: set<Op>, b: Lww, opsB: set<Op>)
    requires Represents(a, opsA) && Represents(b, opsB)
    ensures Represents(MergeLww(a, b), opsA + opsB)
  {
    forall id | id in MergeLww(a, b).removes {
      MergeTombstones(a, opsA, b, opsB, id);
    }
  }

  lemma {:induction false} ReplayRepresents(ops: seq<Op>)
    ensures Represents(Replay(ops), ToSet(ops))
  {
    if ops == [] {
    } else {
      var init, last := ops[..|ops| - 1], ops[|ops| - 1];
      ReplayRepresents(init);
      ApplyRepresents(Replay(init), ToSet(init), last);
      assert ops == init + [last];
      assert ToSet(ops) == ToSet(init) + {last};
    }
  }

  /** Two states left by the same writes are equal once no newest inserts conflict. */
  lemma RepresentsDetermines(s: Lww, t: Lww, ops: set<Op>)
    requires Represents(s, ops) && Represents(t, ops)
    requires LatestUnambiguous(ops)
    ensures s == t
  {
    forall id | id in s.adds
      ensures id in t.adds && s.adds[id] == t.adds[id]
    {
      var p := Insert(id, s.adds[id].value, s.adds[id].ts);
      assert p in ops;
      var q := Insert(id, t.adds[id].value, t.adds[id].ts);
      assert q in ops;
      assert Latest(p, ops) && Latest(q, ops);
    }
    forall id | id in t.adds
      ensures id in s.adds
    {
      assert Insert(id, t.adds[id].value, t.adds[id].ts) in ops;
    }
    assert s.adds == t.adds;
    SameTombstones(s, t, ops);
  }

  lemma SameTombstones(s: Lww, t: Lww, ops: set<Op>)
    requires Represents(s, ops) && Represents(t, ops)
    ensures s.removes == t.removes
  {
    forall id | id in s.removes
      ensures id in t.removes && s.removes[id] <= t.removes[id]
    {
      var d :| d in ops && d.Delete? && d.id == id && s.removes[id] == Max(0.0, d.ts);
    }
    forall id | id in t.removes
      ensures id in s.removes && t.removes[id] <= s.removes[id]
    {
      var d :| d in ops && d.Delete? && d.id == id && t.removes[id] == Max(0.0, d.ts);
    }
  }

  lemma {:induction false} Enumerate(ops: set<Op>) returns (order: seq<Op>)
    ensures ToSet(order) == ops
  {
    if ops == {} {
      order := [];
    } else {
      var op :| op in ops;
      var rest := Enumerate(ops - {op});
      order := rest + [op];
      assert ToSet(order) == ToSet(rest) + {op};
    }
  }

  /** A write that is newest among ops survives when it is replayed last. */
  lemma LastWriterKept(ops: set<Op>, op: Op) returns (order: seq<Op>)
    requires Latest(op, ops)
    ensures ToSet(order) == ops
    ensures op.id in Replay(order).adds && Replay(order).adds[op.id] == Entry(op.ts, op.value)
  {
    var before := Enumerate(ops - {op});
    ReplayRepresents(before);
    order := before + [op];
    assert ToSet(order) == ToSet(before) + {op};
    assert order[..|order| - 1] == before;
    var s := Replay(before);
    if op.id in s.adds {
      var e := Insert(op.id, s.adds[op.id].value, s.adds[op.id].ts);
      assert e in ToSet(before);
    }
  }

  /** Order and repetition never matter exactly when no id has two differing newest inserts. */
  lemma ConvergenceExactly(ops: set<Op>)
    ensures (forall p: seq<Op>, q: seq<Op> :: ToSet(p) == ops && ToSet(q) == ops ==> Replay(p) == Replay(q))
            <==> LatestUnambiguous(ops)
  {
    if LatestUnambiguous(ops) {
      forall p: seq<Op>, q: seq<Op> | ToSet(p) == ops && ToSet(q) == ops
        ensures Replay(p) == Replay(q)
      {
        ReplayRepresents(p);
        ReplayRepresents(q);
        RepresentsDetermines(Replay(p), Replay(q), ops);
      }
    } else {
      var a, b :| Latest(a, ops) && Latest(b, ops) && a.id == b.id && a != b;
      assert a.ts == b.ts && a.value != b.value;
      var p := LastWriterKept(ops, a);
      var q := LastWriterKept(ops, b);
      assert Replay(p) != Replay(q);
    }
  }

  /** An id is visible exactly when its newest insert is newer than every delete and than 0.0. */
  lemma VisibleExactly(s: Lww, ops: set<Op>, id: VectorId)
    requires Represents(s, ops)
    ensures Lookup(s, id).Some? <==>
            exists a :: Latest(a, ops) && a.id == id && a.ts > 0.0 &&
                        forall d :: d in ops && d.Delete? && d.id == id ==> d.ts < a.ts
    ensures Lookup(s, id).Some? ==> Latest(Insert(id, Lookup(s, id).value, s.adds[id].ts), ops)
    ensures Lookup(s, id).Some? <==> id in Elements(s)
    ensures Lookup(s, id).Some? ==> Elements(s)[id] == Lookup(s, id).value
  {
    if id in s.adds {
      var newest := Insert(id, s.adds[id].value, s.adds[id].ts);
      assert Latest(newest, ops);
      if Lookup(s, id).Some? {
        assert newest.ts > 0.0 by { RepresentsNonNegative(s, ops); }
      } else if id in s.removes {
        var d :| d in ops && d.Delete? && d.id == id && s.removes[id] == Max(0.0, d.ts);
      }
    }
  }

  // ---------------------------------------------------------------- grow-only counter

  function Slot(c: Counts, node: NodeId): int {
    if node in c then c[node] else 0
  }

  function Increment(c: Counts, node: NodeId, amount: int): Counts {
    c[node := Slot(c, node) + amount]
  }

  function MergeCounts(a: Counts, b: Counts): Counts {
    map n | n in a.Keys + b.Keys ::
      if n in b then (if Slot(a, n) >= b[n] then Slot(a, n) else b[n]) else a[n]
  }

  /** The slots of the given nodes added up. */
  ghost function SumSlots(nodes: set<NodeId>, c: Counts): int {
    if nodes == {} then 0 else
      var n :| n in nodes;
      Slot(c, n) + SumSlots(nodes - {n}, c)
  }

  ghost function CounterValue(c: Counts): int {
    SumSlots(c.Keys, c)
  }

  /** The order in which slots are added is immaterial. */
  lemma {:induction false} SumSlotsPick(nodes: set<NodeId>, c: Counts, n: NodeId)
    requires n in nodes
    ensures SumSlots(nodes, c) == Slot(c, n) + SumSlots(nodes - {n}, c)
    decreases nodes
  {
    var m :| m in nodes && SumSlots(nodes, c) == Slot(c, m) + SumSlots(nodes - {m}, c);
    if m != n {
      SumSlotsPick(nodes - {m}, c, n);
      SumSlotsPick(nodes - {n}, c, m);
      assert nodes - {m} - {n} == nodes - {n} - {m};
    }
  }

  lemma {:induction false} SumSlotsMonotone(nodes: set<NodeId>, a: Counts, b: Counts)
    requires forall n :: n in nodes ==> Slot(a, n) <= Slot(b, n)
    ensures SumSlots(nodes, a) <= SumSlots(nodes, b)
    decreases nodes
  {
    if nodes != {} {
      var n :| n in nodes;
      SumSlotsPick(nodes, a, n);
      SumSlotsPick(nodes, b, n);
      SumSlotsMonotone(nodes - {n}, a, b);
    }
  }

  /** Nodes without a slot add nothing. */
  lemma {:induction false} CounterValueOver(nodes: set<NodeId>, c: Counts)
    requires c.Keys <= nodes
    ensures CounterValue(c) == SumSlots(nodes, c)
    decreases nodes
  {
    if nodes == c.Keys {
    } else {
      var n :| n in nodes && n !in c.Keys;
      SumSlotsPick(nodes, c, n);
      CounterValueOver(nodes - {n}, c);
    }
  }

  ghost predicate SlotsNonNegative(c: Counts) {
    forall n :: n in c ==> c[n] >= 0
  }

  lemma SlotOfMerge(a: Counts, b: Counts, n: NodeId)
    requires SlotsNonNegative(a) && SlotsNonNegative(b)
    ensures Slot(MergeCounts(a, b), n) == if Slot(a, n) >= Slot(b, n) then Slot(a, n) else Slot(b, n)
  {
  }

  ghost predicate LoneSlotsNonNegative(a: Counts, b: Counts) {
    forall n :: n in a && n !in b ==> a[n] >= 0
  }

  /** Slotwise, the merge lies below every common bound of the two counters; it is itself a bound of both
      exactly if no slot that only the left one has is negative. */
  lemma MergeCountsLub(a: Counts, b: Counts, c: Counts)
    ensures (forall n :: Slot(a, n) <= Slot(MergeCounts(a, b), n) && Slot(b, n) <= Slot(MergeCounts(a, b), n)) <==>
            LoneSlotsNonNegative(a, b)
    ensures (forall n :: Slot(a, n) <= Slot(c, n) && Slot(b, n) <= Slot(c, n)) ==>
            forall n :: Slot(MergeCounts(a, b), n) <= Slot(c, n)
  {
    forall n
      ensures Slot(a, n) <= Slot(MergeCounts(a, b), n) && Slot(b, n) <= Slot(MergeCounts(a, b), n) <==>
              (n in a && n !in b ==> a[n] >= 0)
    {
      SlotMerged(a, b, n);
    }
  }

  lemma SlotMerged(a: Counts, b: Counts, n: NodeId)
    ensures Slot(MergeCounts(a, b), n) == if n in a && n !in b then a[n] else
                                            if Slot(a, n) >= Slot(b, n) then Slot(a, n) else Slot(b, n)
  {
  }

  /** Merging a counter with itself changes nothing; two merge to the same in either order exactly if
      neither has a negative slot the other lacks. */
  lemma MergeCountsCommutes(a: Counts, b: Counts)
    ensures MergeCounts(a, b) == MergeCounts(b, a) <==> LoneSlotsNonNegative(a, b) && LoneSlotsNonNegative(b, a)
    ensures MergeCounts(a, a) == a
  {
    var l, r := MergeCounts(a, b), MergeCounts(b, a);
    assert l.Keys == a.Keys + b.Keys == r.Keys;
    forall n | n in l
      ensures l[n] == r[n] <==> (n in b || a[n] >= 0) && (n in a || b[n] >= 0)
    {
    }
  }

  predicate SlotHidden(a: Counts, b: Counts, c: Counts, n: NodeId) {
    n in a && n !in b && n in c && a[n] < 0 && c[n] < 0
  }

  lemma CountsAssociateAt(a: Counts, b: Counts, c: Counts, n: NodeId)
    requires n in a || n in b || n in c
    ensures n in MergeCounts(MergeCounts(a, b), c) && n in MergeCounts(a, MergeCounts(b, c))
    ensures MergeCounts(MergeCounts(a, b), c)[n] == MergeCounts(a, MergeCounts(b, c))[n] <==> !SlotHidden(a, b, c, n)
  {
    assert n in MergeCounts(a, b) <==> n in a || n in b;
    assert n in MergeCounts(b, c) <==> n in b || n in c;
  }

  /** The grouping never matters except for a node with negative slots in the outer two counters and none
      in the middle one. */
  lemma MergeCountsAssociative(a: Counts, b: Counts, c: Counts)
    ensures MergeCounts(MergeCounts(a, b), c) == MergeCounts(a, MergeCounts(b, c)) <==>
            forall n :: !SlotHidden(a, b, c, n)
  {
    var l, r := MergeCounts(MergeCounts(a, b), c), MergeCounts(a, MergeCounts(b, c));
    assert l.Keys == a.Keys + b.Keys + c.Keys == r.Keys;
    if forall n :: !SlotHidden(a, b, c, n) {
      forall n | n in l
        ensures l[n] == r[n]
      {
        CountsAssociateAt(a, b, c, n);
      }
    } else {
      var n :| SlotHidden(a, b, c, n);
      CountsAssociateAt(a, b, c, n);
    }
  }

  function MergeReplica(a: Replica, b: Replica): Replica {
    Replica(MergeCounts(a.counts, b.counts), MergeLww(a.lww, b.lww))
  }
}

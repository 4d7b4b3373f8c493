/** The mutable objects of services/crdt_sync.py, each tied to the values of CrdtState. */
module CrdtSync {
  import opened Prelude
  import opened CrdtState

  class GCounter {
    const nodeId: NodeId
    var counts: Counts

    constructor (nodeId: NodeId, counts: Counts)
      ensures this.nodeId == nodeId && this.counts == counts
    {
      this.nodeId, this.counts := nodeId, counts;
    }

    method Increment(amount: int)
      modifies this
      ensures counts == CrdtState.Increment(old(counts), nodeId, amount)
    {
      counts := counts[nodeId := (if nodeId in counts then counts[nodeId] else 0) + amount];
    }

    method Value() returns (total: int)
      ensures total == CounterValue(counts)
    {
      total := 0;
      var todo := counts.Keys;
      while todo != {}
        invariant todo <= counts.Keys
        invariant total + SumSlots(todo, counts) == CounterValue(counts)
        decreases todo
      {
        var n :| n in todo;
        SumSlotsPick(todo, counts, n);
        total := total + counts[n];
        todo := todo - {n};
      }
    }

    method Merge(other: GCounter) returns (result: GCounter)
      ensures fresh(result) && result.nodeId == nodeId
      ensures result.counts == MergeCounts(counts, other.counts)
    {
      var merged := counts;
      var todo := other.counts.Keys;
      while todo != {}
        invariant todo <= other.counts.Keys
        invariant merged == MergeCounts(counts, other.counts - todo)
        decreases todo
      {
        var n :| n in todo;
        var mine := if n in merged then merged[n] else 0;
        merged := merged[n := if mine >= other.counts[n] then mine else other.counts[n]];
        todo := todo - {n};
      }
      assert other.counts - todo == other.counts;
      result := new GCounter(nodeId, merged);
    }
  }

  class LWWElementSet {
    var addSet: map<VectorId, Entry>
    var removeSet: map<VectorId, real>

    constructor ()
      ensures addSet == map[] && removeSet == map[]
    {
      addSet, removeSet := map[], map[];
    }

    function Contents(): Lww
      reads this
    {
      Lww(addSet, removeSet)
    }

    method Add(id: VectorId, value: Value, ts: real)
      modifies this
      ensures Contents() == CrdtState.Add(old(Contents()), id, value, ts)
    {
      if id !in addSet || ts >= addSet[id].ts {
        addSet := addSet[id := Entry(ts, value)];
      }
    }

    method Remove(id: VectorId, ts: real)
      modifies this
      ensures Contents() == CrdtState.Remove(old(Contents()), id, ts)
    {
      removeSet := removeSet[id := Max(if id in removeSet then removeSet[id] else 0.0, ts)];
    }

    method Lookup(id: VectorId) returns (value: Option<Value>)
      ensures value == CrdtState.Lookup(Contents(), id)
    {
      if id !in addSet {
        return None;
      }
      var removeTs := if id in removeSet then removeSet[id] else 0.0;
      if removeTs >= addSet[id].ts {
        return None;
      }
      return Some(addSet[id].value);
    }

    method Elements() returns (result: map<VectorId, Value>)
      ensures result == CrdtState.Elements(Contents())
    {
      result := map[];
      var todo := addSet.Keys;
      while todo != {}
        invariant todo <= addSet.Keys
        invariant result == CrdtState.Elements(Lww(addSet - todo, removeSet))
        decreases todo
      {
        var id :| id in todo;
        if (if id in removeSet then removeSet[id] else 0.0) < addSet[id].ts {
          result := result[id := addSet[id].value];
        }
        todo := todo - {id};
      }
      assert addSet - todo == addSet;
    }

    method Merge(other: LWWElementSet) returns (merged: LWWElementSet)
      ensures fresh(merged)
      ensures merged.Contents() == MergeLww(Contents(), other.Contents())
    {
      var adds := MergeAddLoop(other);
      var removes := MergeRemoveLoop(other);
      merged := new LWWElementSet();
      merged.addSet, merged.removeSet := adds, removes;
    }

    method MergeAddLoop(other: LWWElementSet) returns (adds: map<VectorId, Entry>)
      ensures adds == MergeAdds(addSet, other.addSet)
    {
      adds := addSet;
      var todo := other.addSet.Keys;
      while todo != {}
        invariant todo <= other.addSet.Keys
        invariant adds == MergeAdds(addSet, other.addSet - todo)
        decreases todo
      {
        var id :| id in todo;
        var entry := other.addSet[id];
        if id !in adds || entry.ts >= adds[id].ts {
          adds := adds[id := entry];
        }
        todo := todo - {id};
      }
      assert other.addSet - todo == other.addSet;
    }

    method MergeRemoveLoop(other: LWWElementSet) returns (removes: map<VectorId, real>)
      ensures removes == MergeRemoves(removeSet, other.removeSet)
    {
      removes := removeSet;
      var todo := other.removeSet.Keys;
      while todo != {}
        invariant todo <= other.removeSet.Keys
        invariant removes == MergeRemoves(removeSet, other.removeSet - todo)
        decreases todo
      {
        var id :| id in todo;
        removes := removes[id := Max(if id in removes then removes[id] else 0.0, other.removeSet[id])];
        todo := todo - {id};
      }
      assert other.removeSet - todo == other.removeSet;
    }
  }

  /** A state dictionary; either half may be missing. */
  datatype CounterDict = CounterDict(nodeId: NodeId, counts: Counts)
  datatype StateDict = StateDict(counter: Option<CounterDict>, lww: Option<Lww>)

  /** An outbound delta; missing dictionaries count as empty. */
  datatype Delta = Delta(additions: Option<map<VectorId, Entry>>, deletions: Option<map<VectorId, real>>,
                         counter: Option<CounterDict>)

  /** The replica that a state dictionary stands for. */
  function StateOf(d: StateDict): Replica {
    Replica(if d.counter.Some? then d.counter.value.counts else map[],
            if d.lww.Some? then d.lww.value else EMPTY_LWW)
  }

  /** What a replica without anything merges into leaves it unchanged. */
  lemma MergeEmpty(r: Replica)
    ensures MergeCounts(r.counts, map[]) == r.counts && MergeLww(r.lww, EMPTY_LWW) == r.lww
  {
    assert MergeAdds(r.lww.adds, map[]) == r.lww.adds && MergeRemoves(r.lww.removes, map[]) == r.lww.removes;
  }

  /** "timestamp or time.time()" */
  function OrNow(timestamp: Option<real>, now: real): real {
    if timestamp == None || timestamp == Some(0.0) then now else timestamp.value
  }

  class VectorCRDT {
    const nodeId: NodeId
    var counter: GCounter
    var lww: LWWElementSet

    constructor (nodeId: NodeId)
      ensures this.nodeId == nodeId && counter.nodeId == nodeId
      ensures fresh(counter) && fresh(lww) && Contents() == EMPTY_REPLICA
    {
      this.nodeId := nodeId;
      counter := new GCounter(nodeId, map[]);
      lww := new LWWElementSet();
    }

    ghost predicate Valid()
      reads this, counter
    {
      counter.nodeId == nodeId
    }

    function Contents(): Replica
      reads this, counter, lww
    {
      Replica(counter.counts, lww.Contents())
    }

    function ToState(): StateDict
      reads this, counter, lww
    {
      StateDict(Some(CounterDict(counter.nodeId, counter.counts)), Some(lww.Contents()))
    }

    static method FromState(nodeId: NodeId, state: StateDict) returns (crdt: VectorCRDT)
      ensures fresh(crdt) && fresh(crdt.counter) && fresh(crdt.lww)
      ensures crdt.nodeId == nodeId && crdt.Contents() == StateOf(state)
      ensures crdt.counter.nodeId == if state.counter.Some? then state.counter.value.nodeId else nodeId
    {
      crdt := new VectorCRDT(nodeId);
      if state.counter.Some? {
        crdt.counter := new GCounter(state.counter.value.nodeId, state.counter.value.counts);
      }
      if state.lww.Some? {
        crdt.lww := new LWWElementSet();
        crdt.lww.addSet, crdt.lww.removeSet := state.lww.value.adds, state.lww.value.removes;
      }
    }

    static method Merge(local: StateDict, remote: StateDict) returns (merged: StateDict)
      ensures merged.counter.Some? && merged.lww.Some?
      ensures StateOf(merged) == MergeReplica(StateOf(local), StateOf(remote))
      ensures merged.counter.value.nodeId == if local.counter.Some? then local.counter.value.nodeId else "unknown"
    {
      var nodeId := if local.counter.Some? then local.counter.value.nodeId else "unknown";
      var localCrdt := FromState(nodeId, local);
      var remoteNode := if remote.counter.Some? then remote.counter.value.nodeId else "remote";
      var remoteCrdt := FromState(remoteNode, remote);
      var result := new VectorCRDT(nodeId);
      result.counter := localCrdt.counter.Merge(remoteCrdt.counter);
      result.lww := localCrdt.lww.Merge(remoteCrdt.lww);
      merged := result.ToState();
    }

    method InsertVector(id: VectorId, metadata: Value, timestamp: Option<real>, now: real)
      requires Valid()
      modifies lww, counter
      ensures Valid()
      ensures
        var ts := if timestamp.Some? then timestamp.value else now;
        Contents() == Replica(CrdtState.Increment(old(Contents()).counts, nodeId, 1),
                              CrdtState.Add(old(Contents()).lww, id, metadata, ts))
    {
      var ts := if timestamp.Some? then timestamp.value else now;
      lww.Add(id, metadata, ts);
      counter.Increment(1);
    }

    method DeleteVector(id: VectorId, timestamp: Option<real>, now: real)
      requires Valid()
      modifies lww
      ensures Valid()
      ensures Contents().counts == old(Contents()).counts
      ensures
        var ts := if timestamp.Some? && timestamp.value != 0.0 then timestamp.value else now;
        Contents().lww == MergeLww(old(Contents()).lww, Lww(map[], map[id := ts]))
    {
      RemoveIsMerge(Contents().lww, id, OrNow(timestamp, now));
      lww.Remove(id, OrNow(timestamp, now));
    }
  }

  class CRDTSyncService {
    const nodeId: NodeId
    var crdt: VectorCRDT
    var lastSnapshot: Option<StateDict>

    constructor (nodeId: NodeId)
      ensures Valid() && fresh(Repr())
      ensures this.nodeId == nodeId && Contents() == EMPTY_REPLICA && lastSnapshot == None
    {
      this.nodeId := nodeId;
      crdt := new VectorCRDT(nodeId);
      lastSnapshot := None;
    }

    function Repr(): set<object>
      reads this, crdt
    {
      {this, crdt, crdt.counter, crdt.lww}
    }

    ghost predicate Valid()
      reads this, crdt, crdt.counter
    {
      crdt.nodeId == nodeId && crdt.Valid()
    }

    function Contents(): Replica
      reads this, crdt, crdt.counter, crdt.lww
    {
      crdt.Contents()
    }

    /** A local insert counts once and is the merge of a one-element delta, at the caller's time unless that
        is missing or 0. */
    method LocalInsert(id: VectorId, metadata: Value, timestamp: Option<real>, now: real)
      requires Valid()
      modifies Repr()
      ensures Valid() && fresh(Repr() - old(Repr())) && lastSnapshot == old(lastSnapshot)
      ensures Contents().counts == CrdtState.Increment(old(Contents()).counts, nodeId, 1)
      ensures
        var ts := if timestamp.Some? && timestamp.value != 0.0 then timestamp.value else now;
        Contents().lww == MergeLww(old(Contents()).lww, Lww(map[id := Entry(ts, metadata)], map[]))
    {
      AddIsMerge(Contents().lww, id, metadata, OrNow(timestamp, now));
      crdt.InsertVector(id, metadata, Some(OrNow(timestamp, now)), now);
    }

    method LocalDelete(id: VectorId, timestamp: Option<real>, now: real)
      requires Valid()
      modifies Repr()
      ensures Valid() && fresh(Repr() - old(Repr())) && lastSnapshot == old(lastSnapshot)
      ensures Contents().counts == old(Contents()).counts
      ensures
        var ts := if timestamp.Some? && timestamp.value != 0.0 then timestamp.value else now;
        Contents().lww == MergeLww(old(Contents()).lww, Lww(map[], map[id := ts]))
    {
      crdt.DeleteVector(id, Some(OrNow(timestamp, now)), now);
    }

    method GetVector(id: VectorId) returns (value: Option<Value>)
      ensures value == CrdtState.Lookup(Contents().lww, id)
    {
      value := crdt.lww.Lookup(id);
    }

    method AllVectors() returns (vectors: map<VectorId, Value>)
      ensures forall id :: id in vectors <==> CrdtState.Lookup(Contents().lww, id).Some?
      ensures forall id :: id in vectors ==> CrdtState.Lookup(Contents().lww, id) == Some(vectors[id])
    {
      vectors := crdt.lww.Elements();
    }

    method ProduceDelta() returns (delta: Delta)
      requires Valid()
      modifies this
      ensures Valid() && crdt == old(crdt) && Contents() == old(Contents())
      ensures delta.additions == Some(Contents().lww.adds) && delta.deletions == Some(Contents().lww.removes)
      ensures delta.counter == Some(CounterDict(nodeId, Contents().counts))
      ensures lastSnapshot == Some(crdt.ToState())
    {
      var state := crdt.ToState();
      delta := Delta(Some(state.lww.value.adds), Some(state.lww.value.removes), state.counter);
      lastSnapshot := Some(state);
    }

    method MergeDelta(delta: Delta)
      requires Valid()
      modifies Repr()
      ensures Valid() && fresh(Repr() - old(Repr())) && lastSnapshot == old(lastSnapshot)
      ensures Contents().counts ==
              if delta.counter.Some? then MergeCounts(old(Contents()).counts, delta.counter.value.counts)
              else old(Contents()).counts
      ensures Contents().lww == MergeLww(old(Contents()).lww,
                                         Lww(if delta.additions.Some? then delta.additions.value else map[],
                                             if delta.deletions.Some? then delta.deletions.value else map[]))
    {
      var remote := new LWWElementSet();
      remote.addSet := if delta.additions.Some? then delta.additions.value else map[];
      remote.removeSet := if delta.deletions.Some? then delta.deletions.value else map[];
      crdt.lww := crdt.lww.Merge(remote);
      if delta.counter.Some? {
        var remoteCounter := new GCounter(delta.counter.value.nodeId, delta.counter.value.counts);
        crdt.counter := crdt.counter.Merge(remoteCounter);
      }
    }

    method MergeRemoteState(remote: StateDict) returns (merged: StateDict)
      requires Valid()
      modifies Repr()
      ensures Valid() && fresh(Repr() - old(Repr())) && lastSnapshot == old(lastSnapshot)
      ensures Contents().counts ==
              if remote.counter.Some? then MergeCounts(old(Contents()).counts, remote.counter.value.counts)
              else old(Contents()).counts
      ensures Contents().lww ==
              if remote.lww.Some? then MergeLww(old(Contents()).lww, remote.lww.value) else old(Contents()).lww
      ensures merged == StateDict(Some(CounterDict(nodeId, Contents().counts)), Some(Contents().lww))
    {
      var local := crdt.ToState();
      merged := VectorCRDT.Merge(local, remote);
      assert MergeReplica(Contents(), EMPTY_REPLICA) == Contents() by {
        MergeEmpty(Contents());
      }
      crdt := VectorCRDT.FromState(nodeId, merged);
    }
  }

  lemma DecidedByTime(s: Lww, id: VectorId, metadata: Value, t1: real, t2: real, other: VectorId)
    requires t1 > 0.0 && t2 > 0.0 && other != id && id !in s.adds && id !in s.removes
    ensures
      var one, gone := Lww(map[id := Entry(t1, metadata)], map[]), Lww(map[], map[id := t2]);
      var a, b := MergeLww(MergeLww(s, one), gone), MergeLww(MergeLww(s, gone), one);
      && Lookup(a, id) == Lookup(b, id) == (if t1 > t2 then Some(metadata) else None)
      && Lookup(a, other) == Lookup(b, other) == Lookup(s, other)
  {
    AddIsMerge(s, id, metadata, t1);
    RemoveIsMerge(CrdtState.Add(s, id, metadata, t1), id, t2);
    RemoveIsMerge(s, id, t2);
    AddIsMerge(CrdtState.Remove(s, id, t2), id, metadata, t1);
  }

  /** An insert and a delete of an id unknown before, in either order and each with a time of its own: the id
      is visible if and only if the insert's time is the later one, whatever the clock says, and no other id
      is affected. */
  method LastWriteWins(service: CRDTSyncService, id: VectorId, metadata: Value, t1: real, t2: real, deleteFirst: bool,
                       now: real, other: VectorId)
    returns (value: Option<Value>, another: Option<Value>)
    requires service.Valid() && t1 > 0.0 && t2 > 0.0 && other != id
    requires id !in service.Contents().lww.adds && id !in service.Contents().lww.removes
    modifies service.Repr()
    ensures value == if t1 > t2 then Some(metadata) else None
    ensures another == Lookup(old(service.Contents()).lww, other)
  {
    ghost var s := service.Contents().lww;
    if deleteFirst {
      service.LocalDelete(id, Some(t2), now);
      service.LocalInsert(id, metadata, Some(t1), now);
    } else {
      service.LocalInsert(id, metadata, Some(t1), now);
      service.LocalDelete(id, Some(t2), now);
    }
    DecidedByTime(s, id, metadata, t1, t2, other);
    value := service.GetVector(id);
    another := service.GetVector(other);
  }

  /** Initial sync by full state and sync by delta leave the receiver in the same state. */
  method DeltaEqualsFullState(source: CRDTSyncService, byDelta: CRDTSyncService, byState: CRDTSyncService)
    requires source.Valid() && byDelta.Valid() && byState.Valid()
    requires source.Repr() !! byDelta.Repr() && source.Repr() !! byState.Repr() && byDelta.Repr() !! byState.Repr()
    requires byDelta.Contents() == byState.Contents()
    modifies source, byDelta.Repr(), byState.Repr()
    ensures byDelta.Contents() == byState.Contents()
    ensures byDelta.Contents() == MergeReplica(old(byDelta.Contents()), old(source.Contents()))
  {
    var state := source.crdt.ToState();
    var delta := source.ProduceDelta();
    byDelta.MergeDelta(delta);
    var _ := byState.MergeRemoteState(state);
  }
}

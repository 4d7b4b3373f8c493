/** The three tiers of services/multilevel_cache.py as values, and what every run of the cache
    guarantees to its readers. */
module CacheModel {
  import opened Prelude

  type Key = string
  type Value(==, !new)

  /** l3 says whether a bucket is configured and its client could be created. */
  datatype Config = Config(maxL1: nat, maxL2: nat, l3: bool)

  datatype Stats = Stats(l1Hits: nat, l2Hits: nat, l3Hits: nat, misses: nat)

  /** The ordered dictionaries are an order, least recent first, beside their contents. */
  datatype State = State(l1Order: seq<Key>, l1: map<Key, Value>, l2Order: seq<Key>,
                         files: map<Key, Value>, objects: map<Key, Value>, stats: Stats)

  // ---------------------------------------------------------------- the operations

  /** How many keys an eviction loop takes. */
  function Excess(order: seq<Key>, n: nat): (d: nat)
    ensures d <= |order|
  {
    if |order| <= n then 0 else |order| - n
  }

  function EvictL1(c: Config, s: State): State {
    var d := Excess(s.l1Order, c.maxL1);
    s.(l1Order := s.l1Order[d..], l1 := s.l1 - ToSet(s.l1Order[..d]))
  }

  function PromoteToL1(c: Config, s: State, k: Key, v: Value): State {
    if k in s.l1 then s.(l1Order := Without(s.l1Order, k) + [k], l1 := s.l1[k := v])
    else EvictL1(c, s.(l1Order := s.l1Order + [k], l1 := s.l1[k := v]))
  }

  /** The files of the keys that leave the disk. */
  function Demoted(gone: set<Key>, files: map<Key, Value>): map<Key, Value> {
    map k | k in gone && k in files :: files[k]
  }

  /** The oldest keys leave the disk; with a cold tier their files become objects. */
  function EvictL2(c: Config, s: State): State {
    var d := Excess(s.l2Order, c.maxL2);
    var gone := ToSet(s.l2Order[..d]);
    s.(l2Order := s.l2Order[d..], files := s.files - gone,
       objects := if c.l3 then s.objects + Demoted(gone, s.files) else s.objects)
  }

  function L2Put(c: Config, s: State, k: Key, v: Value): State {
    EvictL2(c, s.(files := s.files[k := v], l2Order := Without(s.l2Order, k) + [k]))
  }

  function Put(c: Config, s: State, k: Key, v: Value): State {
    L2Put(c, PromoteToL1(c, s, k, v), k, v)
  }

  function Get(c: Config, s: State, k: Key): (State, Option<Value>) {
    if k in s.l1 then
      (s.(l1Order := Without(s.l1Order, k) + [k], stats := s.stats.(l1Hits := s.stats.l1Hits + 1)), Some(s.l1[k]))
    else if k in s.files then
      var s' := PromoteToL1(c, s, k, s.files[k]);
      (s'.(stats := s'.stats.(l2Hits := s'.stats.l2Hits + 1)), Some(s.files[k]))
    else if c.l3 && k in s.objects then
      var s' := PromoteToL1(c, L2Put(c, s, k, s.objects[k]), k, s.objects[k]);
      (s'.(stats := s'.stats.(l3Hits := s'.stats.l3Hits + 1)), Some(s.objects[k]))
    else
      (s.(stats := s.stats.(misses := s.stats.misses + 1)), None)
  }

  function Delete(c: Config, s: State, k: Key): State {
    State(Without(s.l1Order, k), s.l1 - {k}, Without(s.l2Order, k), s.files - {k},
          if c.l3 then s.objects - {k} else s.objects, s.stats)
  }

  function Clear(s: State): State {
    s.(l1Order := [], l1 := map[], l2Order := [], files := s.files - ToSet(s.l2Order))
  }

  /** A new cache object over the directory and bucket an earlier one left behind. */
  function Restart(s: State): State {
    State([], map[], [], s.files, s.objects, Stats(0, 0, 0, 0))
  }

  /** One turn of the disk's eviction loop: the oldest key goes, its file demoted if it is there. */
  function DropOldestFile(c: Config, s: State): State
    requires s.l2Order != []
  {
    var k := s.l2Order[0];
    s.(l2Order := s.l2Order[1..], files := s.files - {k},
       objects := if c.l3 && k in s.files then s.objects[k := s.files[k]] else s.objects)
  }

  lemma DemotedSplits(k: Key, rest: set<Key>, files: map<Key, Value>, objects: map<Key, Value>)
    ensures objects + Demoted({k} + rest, files) ==
            (if k in files then objects[k := files[k]] else objects) + Demoted(rest, files - {k})
  {
  }

  lemma DemotedWithoutFile(k: Key, rest: set<Key>, files: map<Key, Value>)
    ensures files - ({k} + rest) == files - {k} - rest
  {
  }

  lemma OldestFirst(order: seq<Key>, d: nat)
    requires 0 < d <= |order|
    ensures ToSet(order[..d]) == {order[0]} + ToSet(order[1..][..d - 1]) && order[1..][d - 1..] == order[d..]
  {
    assert order[..d] == [order[0]] + order[1..][..d - 1];
  }

  /** The loop may take the oldest key first and then the others. */
  lemma EvictL2Step(c: Config, s: State)
    requires |s.l2Order| > c.maxL2
    ensures EvictL2(c, DropOldestFile(c, s)) == EvictL2(c, s)
  {
    var k, d := s.l2Order[0], Excess(s.l2Order, c.maxL2);
    var rest := ToSet(s.l2Order[1..][..d - 1]);
    OldestFirst(s.l2Order, d);
    DemotedWithoutFile(k, rest, s.files);
    DemotedSplits(k, rest, s.files, s.objects);
  }

  lemma EvictL1Step(c: Config, s: State)
    requires |s.l1Order| > c.maxL1
    ensures EvictL1(c, s.(l1Order := s.l1Order[1..], l1 := s.l1 - {s.l1Order[0]})) == EvictL1(c, s)
  {
    var k, d := s.l1Order[0], Excess(s.l1Order, c.maxL1);
    assert s.l1Order[..d] == [k] + s.l1Order[1..][..d - 1];
    assert s.l1Order[1..][d - 1..] == s.l1Order[d..];
  }

  // ---------------------------------------------------------------- shape of the tiers

  ghost predicate Valid(c: Config, s: State) {
    && Distinct(s.l1Order) && ToSet(s.l1Order) == s.l1.Keys && |s.l1Order| <= c.maxL1
    && Distinct(s.l2Order) && ToSet(s.l2Order) <= s.files.Keys && |s.l2Order| <= c.maxL2
  }

  lemma DropDistinct(order: seq<Key>, d: nat)
    requires Distinct(order) && d <= |order|
    ensures Distinct(order[d..]) && ToSet(order[d..]) == ToSet(order) - ToSet(order[..d])
  {
    assert order == order[..d] + order[d..];
    forall k | k in order[d..]
      ensures k !in order[..d]
    {
      var i :| 0 <= i < |order| - d && order[d..][i] == k;
      assert order[d + i] == k;
    }
  }

  lemma AppendDistinct<T>(s: seq<T>, x: T)
    requires Distinct(s) && x !in s
    ensures Distinct(s + [x]) && ToSet(s + [x]) == ToSet(s) + {x}
  {
  }

  /** The order after k is used: k last, and no more than the n newest keys. */
  function Used(order: seq<Key>, k: Key, n: nat): seq<Key> {
    var next := Without(order, k) + [k];
    next[Excess(next, n)..]
  }

  lemma UsedDistinct(order: seq<Key>, k: Key, n: nat)
    requires Distinct(order)
    ensures Distinct(Used(order, k, n)) && |Used(order, k, n)| <= n
    ensures ToSet(Used(order, k, n)) <= ToSet(order) + {k}
    ensures k in Used(order, k, n) <==> n > 0
  {
    var next := Without(order, k) + [k];
    var d := Excess(next, n);
    WithoutDistinct(order, k);
    AppendDistinct(Without(order, k), k);
    DropDistinct(next, d);
    if n > 0 {
      assert next[d..][|next| - d - 1] == k;
    }
  }

  /** What promotion leaves: RAM alone is touched, k holds v, and nothing else is added. */
  ghost predicate Promoted(c: Config, s: State, k: Key, v: Value, t: State) {
    && t.l2Order == s.l2Order && t.files == s.files && t.objects == s.objects && t.stats == s.stats
    && (forall j :: j in t.l1 ==> if j == k then t.l1[j] == v else j in s.l1 && t.l1[j] == s.l1[j])
    && t.l1Order == Used(s.l1Order, k, c.maxL1)
    && t.l1.Keys == ToSet(t.l1Order)
  }

  lemma PromoteKnown(c: Config, s: State, k: Key, v: Value)
    requires Valid(c, s) && k in s.l1
    ensures Promoted(c, s, k, v, PromoteToL1(c, s, k, v))
  {
    assert k in ToSet(s.l1Order);
    WithoutDistinct(s.l1Order, k);
    assert ToSet(Without(s.l1Order, k) + [k]) == s.l1.Keys;
  }

  lemma EvictL1Keys(c: Config, s: State) returns (t: State)
    requires Distinct(s.l1Order) && ToSet(s.l1Order) == s.l1.Keys
    ensures t == EvictL1(c, s)
    ensures t.l1.Keys == ToSet(t.l1Order) && t.l1Order == s.l1Order[Excess(s.l1Order, c.maxL1)..]
    ensures forall j :: j in t.l1 ==> j in s.l1 && t.l1[j] == s.l1[j]
    ensures t.l2Order == s.l2Order && t.files == s.files && t.objects == s.objects && t.stats == s.stats
  {
    t := EvictL1(c, s);
    DropDistinct(s.l1Order, Excess(s.l1Order, c.maxL1));
  }

  lemma AppendNewKey(s: State, k: Key, v: Value) returns (full: State)
    requires Distinct(s.l1Order) && ToSet(s.l1Order) == s.l1.Keys && k !in s.l1
    ensures full == s.(l1Order := s.l1Order + [k], l1 := s.l1[k := v])
    ensures Distinct(full.l1Order) && ToSet(full.l1Order) == full.l1.Keys
    ensures full.l1Order == Without(s.l1Order, k) + [k]
  {
    assert k !in ToSet(s.l1Order);
    AppendDistinct(s.l1Order, k);
    full := s.(l1Order := s.l1Order + [k], l1 := s.l1[k := v]);
  }

  lemma PromoteNew(c: Config, s: State, k: Key, v: Value)
    requires Distinct(s.l1Order) && ToSet(s.l1Order) == s.l1.Keys && k !in s.l1
    ensures Promoted(c, s, k, v, PromoteToL1(c, s, k, v))
  {
    var full := AppendNewKey(s, k, v);
    var t := EvictL1Keys(c, full);
  }

  /** Promotion puts the key last and forgets at most the oldest entries. */
  lemma PromoteValid(c: Config, s: State, k: Key, v: Value) returns (t: State)
    requires Valid(c, s)
    ensures t == PromoteToL1(c, s, k, v)
    ensures Valid(c, t) && Promoted(c, s, k, v, t)
  {
    t := PromoteToL1(c, s, k, v);
    if k in s.l1 {
      PromoteKnown(c, s, k, v);
    } else {
      PromoteNew(c, s, k, v);
    }
    UsedDistinct(s.l1Order, k, c.maxL1);
  }

  // ---------------------------------------------------------------- what the tiers mean

  /** m is the plain map the tiers stand for. Copies in RAM and on disk are never stale; an
      object may be, but only while a file still holds the newer value. */
  ghost predicate Holds(c: Config, s: State, m: map<Key, Value>) {
    && (forall k :: k in s.l1 ==> k in m && m[k] == s.l1[k])
    && (forall k :: k in s.files ==> k in m && m[k] == s.files[k])
    && (c.l3 ==> forall k :: k in m && k !in s.files ==> k in s.objects && s.objects[k] == m[k])
    && (c.l3 ==> forall k :: k in s.objects ==> k in m)
  }

  /** Files nobody here has written: left behind by an earlier cache over the same directory. */
  function Untracked(s: State): set<Key> {
    s.files.Keys - ToSet(s.l2Order)
  }

  function Total(t: Stats): nat {
    t.l1Hits + t.l2Hits + t.l3Hits + t.misses
  }

  /** Eviction from disk moves values down, it loses none that the bucket does not then hold. */
  lemma EvictL2Holds(c: Config, s: State, m: map<Key, Value>)
    requires Distinct(s.l2Order) && Holds(c, s, m)
    ensures Holds(c, EvictL2(c, s), m)
  {
  }

  lemma EvictL2Tracks(c: Config, s: State)
    requires Distinct(s.l2Order) && ToSet(s.l2Order) <= s.files.Keys
    ensures
      var t := EvictL2(c, s);
      Distinct(t.l2Order) && ToSet(t.l2Order) <= t.files.Keys && |t.l2Order| <= c.maxL2 && Untracked(t) == Untracked(s)
  {
    var d := Excess(s.l2Order, c.maxL2);
    DropDistinct(s.l2Order, d);
    assert ToSet(s.l2Order[..d]) <= ToSet(s.l2Order);
  }

  /** The disk after v has been written for k: k is used, the keys that leave its order lose their files, and
      with a cold tier their files are objects. */
  ghost predicate Written(c: Config, s: State, k: Key, v: Value, t: State) {
    && t.l2Order == Used(s.l2Order, k, c.maxL2)
    && (forall j :: j in t.files <==> (j in s.files || j == k) && (j in t.l2Order || j !in s.l2Order + [k]))
    && (forall j :: j in t.files ==> t.files[j] == if j == k then v else s.files[j])
    && (!c.l3 ==> t.objects == s.objects)
    && (c.l3 ==> forall j :: j in t.objects <==> j in s.objects || ((j in s.files || j == k) && j !in t.files))
    && (c.l3 ==> forall j :: j in t.objects ==>
          t.objects[j] == if (j in s.files || j == k) && j !in t.files then if j == k then v else s.files[j]
                          else s.objects[j])
  }

  lemma L2PutWrites(c: Config, s: State, k: Key, v: Value)
    requires Distinct(s.l2Order)
    ensures Written(c, s, k, v, L2Put(c, s, k, v))
  {
    var next := Without(s.l2Order, k) + [k];
    WithoutDistinct(s.l2Order, k);
    AppendDistinct(Without(s.l2Order, k), k);
    DropDistinct(next, Excess(next, c.maxL2));
    var gone := ToSet(next[..Excess(next, c.maxL2)]);
    forall j
      ensures j in gone <==> j in s.l2Order + [k] && j !in Used(s.l2Order, k, c.maxL2)
    {
      assert j in ToSet(next) <==> j in ToSet(s.l2Order) || j == k;
      assert j in Used(s.l2Order, k, c.maxL2) <==> j in ToSet(Used(s.l2Order, k, c.maxL2));
      assert j in s.l2Order + [k] <==> j in ToSet(s.l2Order) || j == k;
      assert j in gone ==> j in ToSet(next);
    }
  }

  lemma L2PutKeeps(c: Config, s: State, k: Key, v: Value, m: map<Key, Value>) returns (t: State)
    requires Valid(c, s)
    requires Holds(c, s.(files := s.files[k := v]), m)
    ensures t == L2Put(c, s, k, v)
    ensures Valid(c, t) && Holds(c, t, m)
    ensures t.l1 == s.l1 && t.l1Order == s.l1Order && t.stats == s.stats
    ensures t.l2Order == Used(s.l2Order, k, c.maxL2)
    ensures Untracked(t) == Untracked(s) - {k}
  {
    t := L2Put(c, s, k, v);
    var order := Without(s.l2Order, k);
    WithoutDistinct(s.l2Order, k);
    AppendDistinct(order, k);
    var full := s.(files := s.files[k := v], l2Order := order + [k]);
    EvictL2Holds(c, full, m);
    EvictL2Tracks(c, full);
  }

  lemma PutRefines(c: Config, s: State, k: Key, v: Value, m: map<Key, Value>) returns (t: State)
    requires Valid(c, s) && Holds(c, s, m)
    ensures t == Put(c, s, k, v)
    ensures Valid(c, t) && Holds(c, t, m[k := v])
    ensures Untracked(t) <= Untracked(s) && t.stats == s.stats
    ensures t.l1Order == Used(s.l1Order, k, c.maxL1) && Written(c, s, k, v, t)
  {
    var s' := PromoteValid(c, s, k, v);
    L2PutWrites(c, s', k, v);
    PromotedHolds(c, s, s', k, v, m);
    t := L2PutKeeps(c, s', k, v, m[k := v]);
  }

  /** Writing a value to RAM and then to disk moves the meaning to the updated map. */
  lemma PromotedHolds(c: Config, s: State, s': State, k: Key, v: Value, m: map<Key, Value>)
    requires Holds(c, s, m) && Promoted(c, s, k, v, s')
    ensures Holds(c, s'.(files := s'.files[k := v]), m[k := v])
  {
  }

  /** What every read guarantees. With the cold tier it answers exactly like the map; without it,
      it may have forgotten a key but never answers with an old value. */
  ghost predicate ReadGuarantee(c: Config, s: State, k: Key, m: map<Key, Value>, t: State, answer: Option<Value>) {
    && Valid(c, t) && Holds(c, t, m)
    && (c.l3 ==> answer == if k in m then Some(m[k]) else None)
    && (answer.Some? ==> k in m && answer.value == m[k])
    && (answer.Some? <==> k in s.l1 || k in s.files || (c.l3 && k in s.objects))
    && Untracked(t) <= Untracked(s)
    && t.l1Order == (if answer.Some? then Used(s.l1Order, k, c.maxL1) else s.l1Order)
    && t.stats == Counting(c, s, k)
    && (if FromCold(c, s, k) then Written(c, s, k, s.objects[k], t)
        else t.l2Order == s.l2Order && t.files == s.files && t.objects == s.objects)
  }

  /** No tier before the cold one has the key. */
  predicate FromCold(c: Config, s: State, k: Key) {
    k !in s.l1 && k !in s.files && c.l3 && k in s.objects
  }

  /** A read counts once, for the tier that answers it or as a miss. */
  function Counting(c: Config, s: State, k: Key): Stats {
    Stats(s.stats.l1Hits + (if k in s.l1 then 1 else 0),
          s.stats.l2Hits + (if k !in s.l1 && k in s.files then 1 else 0),
          s.stats.l3Hits + (if FromCold(c, s, k) then 1 else 0),
          s.stats.misses + (if k !in s.l1 && k !in s.files && !FromCold(c, s, k) then 1 else 0))
  }

  lemma GetFromL1(c: Config, s: State, k: Key, m: map<Key, Value>) returns (t: State)
    requires Valid(c, s) && Holds(c, s, m) && k in s.l1
    ensures Get(c, s, k) == (t, Some(s.l1[k])) && ReadGuarantee(c, s, k, m, t, Some(s.l1[k]))
  {
    t := Get(c, s, k).0;
    assert k in ToSet(s.l1Order);
    WithoutDistinct(s.l1Order, k);
    AppendDistinct(Without(s.l1Order, k), k);
    assert ToSet(Without(s.l1Order, k) + [k]) == s.l1.Keys;
  }

  /** Copying an object back to disk, or a value read to RAM, keeps the meaning. */
  lemma RefillHolds(c: Config, s: State, k: Key, m: map<Key, Value>)
    requires Holds(c, s, m) && c.l3 && k !in s.files && k in s.objects
    ensures k in m && m[k] == s.objects[k]
    ensures Holds(c, s.(files := s.files[k := s.objects[k]]), m)
  {
  }

  lemma RereadHolds(c: Config, s: State, k: Key, v: Value, m: map<Key, Value>, t: State)
    requires Holds(c, s, m) && k in m && m[k] == v && Promoted(c, s, k, v, t)
    ensures Holds(c, t, m)
  {
  }

  /** Counting a hit changes none of this. */
  lemma CountedHit(c: Config, s: State, k: Key, m: map<Key, Value>, p: State, stats: Stats, v: Value)
    requires Valid(c, p) && Holds(c, p, m) && Untracked(p) <= Untracked(s)
    requires p.l1Order == Used(s.l1Order, k, c.maxL1)
    requires stats == Counting(c, s, k)
    requires if FromCold(c, s, k) then Written(c, s, k, s.objects[k], p)
             else p.l2Order == s.l2Order && p.files == s.files && p.objects == s.objects
    requires k !in s.l1 && k in m && m[k] == v && (k in s.files || (c.l3 && k in s.objects))
    ensures ReadGuarantee(c, s, k, m, p.(stats := stats), Some(v))
  {
  }

  lemma GetFromL2(c: Config, s: State, k: Key, m: map<Key, Value>) returns (t: State)
    requires Valid(c, s) && Holds(c, s, m) && k !in s.l1 && k in s.files
    ensures Get(c, s, k) == (t, Some(s.files[k])) && ReadGuarantee(c, s, k, m, t, Some(s.files[k]))
  {
    var p := PromoteValid(c, s, k, s.files[k]);
    var stats := p.stats.(l2Hits := p.stats.l2Hits + 1);
    CountedHit(c, s, k, m, p, stats, s.files[k]);
    t := p.(stats := stats);
  }

  lemma GetFromL3Unfolds(c: Config, s: State, k: Key, onDisk: State, p: State)
    requires k !in s.l1 && k !in s.files && c.l3 && k in s.objects
    requires onDisk == L2Put(c, s, k, s.objects[k]) && p == PromoteToL1(c, onDisk, k, s.objects[k])
    ensures Get(c, s, k) == (p.(stats := p.stats.(l3Hits := p.stats.l3Hits + 1)), Some(s.objects[k]))
  {
  }

  lemma GetFromL3(c: Config, s: State, k: Key, m: map<Key, Value>) returns (t: State)
    requires Valid(c, s) && Holds(c, s, m) && k !in s.l1 && k !in s.files && c.l3 && k in s.objects
    ensures Get(c, s, k) == (t, Some(s.objects[k])) && ReadGuarantee(c, s, k, m, t, Some(s.objects[k]))
  {
    var v := s.objects[k];
    RefillHolds(c, s, k, m);
    var onDisk := L2PutKeeps(c, s, k, v, m);
    L2PutWrites(c, s, k, v);
    var p := PromoteValid(c, onDisk, k, v);
    RereadHolds(c, onDisk, k, v, m, p);
    GetFromL3Unfolds(c, s, k, onDisk, p);
    var stats := p.stats.(l3Hits := p.stats.l3Hits + 1);
    CountedHit(c, s, k, m, p, stats, v);
    t := p.(stats := stats);
  }

  lemma GetRefines(c: Config, s: State, k: Key, m: map<Key, Value>) returns (t: State, answer: Option<Value>)
    requires Valid(c, s) && Holds(c, s, m)
    ensures Get(c, s, k) == (t, answer)
    ensures ReadGuarantee(c, s, k, m, t, answer)
  {
    t, answer := Get(c, s, k).0, Get(c, s, k).1;
    if k in s.l1 {
      var _ := GetFromL1(c, s, k, m);
    } else if k in s.files {
      var _ := GetFromL2(c, s, k, m);
    } else if c.l3 && k in s.objects {
      var _ := GetFromL3(c, s, k, m);
    }
  }

  lemma DeleteRefines(c: Config, s: State, k: Key, m: map<Key, Value>)
    requires Valid(c, s) && Holds(c, s, m)
    ensures Valid(c, Delete(c, s, k)) && Holds(c, Delete(c, s, k), m - {k})
    ensures Untracked(Delete(c, s, k)) <= Untracked(s)
  {
    WithoutDistinct(s.l1Order, k);
    WithoutDistinct(s.l2Order, k);
  }

  /** The order without some of its keys. */
  function Keeping(order: seq<Key>, gone: set<Key>): seq<Key> {
    if order == [] then [] else
      Keeping(order[..|order| - 1], gone) + if order[|order| - 1] in gone then [] else [order[|order| - 1]]
  }

  lemma {:induction false} KeepingAll(order: seq<Key>, k: Key)
    requires k !in order
    ensures Keeping(order, {k}) == order
  {
    if order == [] {
    } else {
      KeepingAll(order[..|order| - 1], k);
    }
  }

  lemma {:induction false} WithoutKeeps(order: seq<Key>, k: Key)
    requires Distinct(order)
    ensures Without(order, k) == Keeping(order, {k})
  {
    if order == [] {
    } else if order[|order| - 1] == k {
      KeepingAll(order[..|order| - 1], k);
      WithoutLast(order, k);
    } else {
      WithoutKeeps(order[..|order| - 1], k);
      WithoutEarlier(order, k);
    }
  }

  lemma WithoutLast(order: seq<Key>, k: Key)
    requires Distinct(order) && order != [] && order[|order| - 1] == k
    ensures Without(order, k) == order[..|order| - 1]
  {
    assert IndexOf(order, k) == |order| - 1;
  }

  lemma WithoutEarlier(order: seq<Key>, k: Key)
    requires Distinct(order) && order != [] && order[|order| - 1] != k
    ensures Without(order, k) == Without(order[..|order| - 1], k) + [order[|order| - 1]]
  {
    var init := order[..|order| - 1];
    assert order == init + [order[|order| - 1]];
    if k in order {
      assert IndexOf(order, k) == IndexOf(init, k);
    }
  }

  /** Deleting one key concerns no other: every other key is read as before and stays in the tiers that had
      it, in the same order, and the deleted one is read no more. */
  lemma DeleteConcernsOne(c: Config, s: State, k: Key, j: Key)
    requires Valid(c, s)
    ensures
      var t := Delete(c, s, k);
      && Get(c, t, j).1 == (if j == k then None else Get(c, s, j).1)
      && (j in t.l1 <==> j != k && j in s.l1) && (j in t.files <==> j != k && j in s.files)
      && (j in t.objects <==> (j != k || !c.l3) && j in s.objects)
      && t.l1Order == Keeping(s.l1Order, {k}) && t.l2Order == Keeping(s.l2Order, {k}) && t.stats == s.stats
  {
    WithoutKeeps(s.l1Order, k);
    WithoutKeeps(s.l2Order, k);
  }

  // ---------------------------------------------------------------- runs

  datatype Op =
    | PutOp(key: Key, value: Value)
    | GetOp(key: Key)
    | DeleteOp(key: Key)
    | RestartOp

  function Step(c: Config, s: State, op: Op): State {
    match op
    case PutOp(k, v) => Put(c, s, k, v)
    case GetOp(k) => Get(c, s, k).0
    case DeleteOp(k) => Delete(c, s, k)
    case RestartOp => Restart(s)
  }

  function Run(c: Config, s: State, ops: seq<Op>): State {
    if ops == [] then s else Step(c, Run(c, s, ops[..|ops| - 1]), ops[|ops| - 1])
  }

  /** The plain map after the same operations. */
  function MapRun(m: map<Key, Value>, ops: seq<Op>): map<Key, Value> {
    if ops == [] then m else
      var before := MapRun(m, ops[..|ops| - 1]);
      match ops[|ops| - 1]
      case PutOp(k, v) => before[k := v]
      case DeleteOp(k) => before - {k}
      case _ => before
  }

  /** What a directory and a bucket found at start stand for. */
  function Found(c: Config, s: State): map<Key, Value> {
    if c.l3 then s.objects + s.files else s.files
  }

  lemma {:induction false} RunHolds(c: Config, s: State, ops: seq<Op>)
    ensures Valid(c, Run(c, Restart(s), ops))
    ensures Holds(c, Run(c, Restart(s), ops), MapRun(Found(c, s), ops))
  {
    if ops == [] {
    } else {
      var init, m := ops[..|ops| - 1], MapRun(Found(c, s), ops[..|ops| - 1]);
      RunHolds(c, s, init);
      var before := Run(c, Restart(s), init);
      match ops[|ops| - 1]
      case PutOp(k, v) => var _ := PutRefines(c, before, k, v, m);
      case GetOp(k) => var _, _ := GetRefines(c, before, k, m);
      case DeleteOp(k) => DeleteRefines(c, before, k, m);
      case RestartOp =>
    }
  }

  /** Over every run of puts, reads, deletes and restarts, a read answers what the plain map
      answers; without the cold tier it answers that or nothing. Both tiers keep their bounds. */
  lemma ReadsRefineMap(c: Config, s: State, ops: seq<Op>, k: Key)
    ensures
      var (after, answer) := Get(c, Run(c, Restart(s), ops), k);
      var m := MapRun(Found(c, s), ops);
      && (c.l3 ==> answer == if k in m then Some(m[k]) else None)
      && (!c.l3 ==> answer == None || (k in m && answer == Some(m[k])))
      && |after.l1| <= c.maxL1 && |after.l2Order| <= c.maxL2
  {
    RunHolds(c, s, ops);
    var after, _ := GetRefines(c, Run(c, Restart(s), ops), k, MapRun(Found(c, s), ops));
    DistinctSize(after.l1Order);
  }

  /** The value just put is read back even when neither bounded tier can hold anything, provided
      there is a cold tier; without one this needs room in RAM or on disk. */
  lemma ReadAfterPut(c: Config, s: State, ops: seq<Op>, k: Key, v: Value)
    ensures Get(c, Put(c, Run(c, Restart(s), ops), k, v), k).1 == Some(v) <==> c.l3 || c.maxL1 > 0 || c.maxL2 > 0
  {
    var before := Run(c, Restart(s), ops);
    var m := MapRun(Found(c, s), ops);
    RunHolds(c, s, ops);
    var after := PutRefines(c, before, k, v, m);
    var _, answer := GetRefines(c, after, k, m[k := v]);
    UsedDistinct(before.l1Order, k, c.maxL1);
    assert k in after.l1 <==> k in ToSet(after.l1Order);
    if !c.l3 {
      PutOnDisk(c, before, k, v);
    }
  }

  lemma PutOnDisk(c: Config, s: State, k: Key, v: Value)
    requires Valid(c, s)
    ensures k in Put(c, s, k, v).files <==> c.maxL2 > 0
  {
    var s1 := PromoteValid(c, s, k, v);
    var order := Without(s.l2Order, k);
    UsedDistinct(s.l2Order, k, c.maxL2);
    WithoutDistinct(s.l2Order, k);
    AppendDistinct(order, k);
    DropDistinct(order + [k], Excess(order + [k], c.maxL2));
    assert k in ToSet(order + [k]);
  }

  // ---------------------------------------------------------------- what the disk does not forget

  /** The keys put by the operations. */
  function PutKeys(ops: seq<Op>): set<Key> {
    set i | 0 <= i < |ops| && ops[i].PutOp? :: ops[i].key
  }

  lemma PutKeysOneMore(ops: seq<Op>, op: Op)
    ensures PutKeys(ops + [op]) == PutKeys(ops) + if op.PutOp? then {op.key} else {}
  {
    var all := ops + [op];
    forall i | 0 <= i < |ops| && ops[i].PutOp?
      ensures ops[i].key in PutKeys(all)
    {
      assert all[i] == ops[i];
    }
    assert all[|ops|] == op;
  }

  /** The keys of an order that are newer than k. */
  function Newer(order: seq<Key>, k: Key): set<Key> {
    if k in order then ToSet(order[IndexOf(order, k) + 1..]) else {}
  }

  /** The disk holds v for k, and only keys of w are newer than k there. */
  ghost predicate OnDisk(s: State, k: Key, v: Value, w: set<Key>) {
    k in s.files && s.files[k] == v && Newer(s.l2Order, k) <= w
  }

  lemma NewerThan(order: seq<Key>, k: Key, i: nat)
    requires Distinct(order) && i < |order| && order[i] == k
    ensures Newer(order, k) == ToSet(order[i + 1..])
  {
    assert IndexOf(order, k) == i;
  }

  lemma NewerWithout(order: seq<Key>, k: Key, j: Key)
    requires Distinct(order) && j != k
    ensures Newer(Without(order, j), k) == Newer(order, k) - {j}
    ensures k in Without(order, j) <==> k in order
  {
    if j in order && k in order {
      var rest := WithoutIs(order, j);
      NewerThan(order, k, IndexOf(order, k));
      SpliceNewer(order, IndexOf(order, j), IndexOf(order, k));
    }
  }

  lemma WithoutIs(order: seq<Key>, j: Key) returns (rest: seq<Key>)
    requires Distinct(order) && j in order
    ensures rest == Without(order, j) == order[..IndexOf(order, j)] + order[IndexOf(order, j) + 1..] && Distinct(rest)
  {
    rest := Without(order, j);
    WithoutDistinct(order, j);
  }

  lemma SpliceNewer(order: seq<Key>, x: nat, y: nat)
    requires Distinct(order) && x < |order| && y < |order| && x != y && Distinct(order[..x] + order[x + 1..])
    ensures Newer(order[..x] + order[x + 1..], order[y]) == ToSet(order[y + 1..]) - {order[x]}
    ensures order[y] in order[..x] + order[x + 1..]
  {
    var rest := order[..x] + order[x + 1..];
    if y < x {
      NewerThan(rest, order[y], y);
      TailsDiffer(order, x, y);
    } else {
      NewerThan(rest, order[y], y - 1);
      assert rest[y..] == order[y + 1..];
      assert order[x] !in order[y + 1..];
    }
  }

  lemma TailsDiffer(order: seq<Key>, x: nat, y: nat)
    requires Distinct(order) && y < x < |order|
    ensures ToSet((order[..x] + order[x + 1..])[y + 1..]) == ToSet(order[y + 1..]) - {order[x]}
  {
    assert (order[..x] + order[x + 1..])[y + 1..] == order[y + 1..x] + order[x + 1..];
    assert order[y + 1..] == order[y + 1..x] + [order[x]] + order[x + 1..];
  }

  /** Using another key makes at most that key newer than k, and as long as fewer than n keys are newer,
      k is not among those that go. */
  lemma UsedKeeps(order: seq<Key>, k: Key, j: Key, n: nat)
    requires Distinct(order) && j != k && k in order && |Newer(order, k) + {j}| < n
    ensures k in Used(order, j, n) && Newer(Used(order, j, n), k) <= Newer(order, k) + {j}
  {
    var rest := Without(order, j);
    NewerWithout(order, k, j);
    WithoutDistinct(order, j);
    NewerAppended(rest, k, j);
    SubsetSize(Newer(rest + [j], k), Newer(order, k) + {j});
    CutKeeps(rest + [j], k, n);
  }

  lemma NewerAppended(rest: seq<Key>, k: Key, j: Key)
    requires Distinct(rest) && k in rest && j !in rest
    ensures Distinct(rest + [j]) && Newer(rest + [j], k) == Newer(rest, k) + {j}
  {
    var i := IndexOf(rest, k);
    NewerThan(rest, k, i);
    NewerThan(rest + [j], k, i);
    assert (rest + [j])[i + 1..] == rest[i + 1..] + [j];
  }

  /** The n last keys include k if fewer than n are newer. */
  lemma CutKeeps(order: seq<Key>, k: Key, n: nat)
    requires Distinct(order) && k in order && |Newer(order, k)| < n
    ensures k in order[Excess(order, n)..] && Newer(order[Excess(order, n)..], k) == Newer(order, k)
  {
    var i, d := IndexOf(order, k), Excess(order, n);
    NewerThan(order, k, i);
    DistinctSize(order[i + 1..]);
    DropDistinct(order, d);
    NewerThan(order[d..], k, i - d);
    assert order[d..][i - d + 1..] == order[i + 1..];
  }

  lemma PutKeepsOnDisk(c: Config, s: State, j: Key, u: Value, k: Key, v: Value, w: set<Key>)
    requires Valid(c, s) && OnDisk(s, k, v, w) && j != k && |w + {j}| < c.maxL2
    ensures OnDisk(Put(c, s, j, u), k, v, w + {j})
  {
    var p := PromoteValid(c, s, j, u);
    L2PutWrites(c, p, j, u);
    UsedDistinct(s.l2Order, j, c.maxL2);
    if k in s.l2Order {
      SubsetSize(Newer(s.l2Order, k) + {j}, w + {j});
      UsedKeeps(s.l2Order, k, j, c.maxL2);
    } else {
      assert k !in ToSet(Used(s.l2Order, j, c.maxL2));
    }
  }

  /** What a read does without the cold tier: the disk stays as it is. */
  lemma GetKeepsDisk(c: Config, s: State, k: Key)
    requires Valid(c, s) && !c.l3
    ensures Get(c, s, k).0.files == s.files && Get(c, s, k).0.l2Order == s.l2Order
  {
    if k !in s.l1 && k in s.files {
      var _ := PromoteValid(c, s, k, s.files[k]);
    }
  }

  lemma StepKeepsOnDisk(c: Config, s: State, op: Op, k: Key, v: Value, w: set<Key>)
    requires Valid(c, s) && !c.l3 && OnDisk(s, k, v, w)
    requires op.PutOp? || op.DeleteOp? ==> op.key != k
    requires |w + if op.PutOp? then {op.key} else {}| < c.maxL2
    ensures OnDisk(Step(c, s, op), k, v, w + if op.PutOp? then {op.key} else {})
  {
    match op
    case PutOp(j, u) => PutKeepsOnDisk(c, s, j, u, k, v, w);
    case GetOp(j) => GetKeepsDisk(c, s, j);
    case DeleteOp(j) => NewerWithout(s.l2Order, k, j);
    case RestartOp =>
  }

  lemma JustPut(c: Config, s: State, k: Key, v: Value)
    requires Valid(c, s) && c.maxL2 > 0
    ensures OnDisk(Put(c, s, k, v), k, v, {})
  {
    var p := PromoteValid(c, s, k, v);
    L2PutWrites(c, p, k, v);
    var used := Used(s.l2Order, k, c.maxL2);
    UsedDistinct(s.l2Order, k, c.maxL2);
    NewerThan(used, k, |used| - 1);
  }

  /** No later operation puts or deletes the key. */
  ghost predicate Untouched(ops: seq<Op>, k: Key) {
    forall i :: 0 <= i < |ops| && (ops[i].PutOp? || ops[i].DeleteOp?) ==> ops[i].key != k
  }

  lemma {:induction false} StaysOnDisk(c: Config, s: State, k: Key, v: Value, first: seq<Op>, ops: seq<Op>)
    requires !c.l3 && Untouched(ops, k) && |PutKeys(ops)| < c.maxL2
    requires first != [] && first[|first| - 1] == PutOp(k, v)
    ensures OnDisk(Run(c, Restart(s), first + ops), k, v, PutKeys(ops))
  {
    if ops == [] {
      assert first + ops == first;
      RunHolds(c, s, first[..|first| - 1]);
      JustPut(c, Run(c, Restart(s), first[..|first| - 1]), k, v);
    } else {
      var init, op := ops[..|ops| - 1], ops[|ops| - 1];
      assert ops == init + [op];
      PutKeysOneMore(init, op);
      SubsetSize(PutKeys(init), PutKeys(ops));
      StaysOnDisk(c, s, k, v, first, init);
      RunHolds(c, s, first + init);
      StepKeepsOnDisk(c, Run(c, Restart(s), first + init), op, k, v, PutKeys(init));
      assert (first + ops)[..|first + ops| - 1] == first + init;
    }
  }

  lemma {:induction false} MapKeeps(m: map<Key, Value>, k: Key, v: Value, first: seq<Op>, ops: seq<Op>)
    requires Untouched(ops, k) && first != [] && first[|first| - 1] == PutOp(k, v)
    ensures k in MapRun(m, first + ops) && MapRun(m, first + ops)[k] == v
  {
    if ops == [] {
      assert first + ops == first;
    } else {
      assert (first + ops)[..|first + ops| - 1] == first + ops[..|ops| - 1];
      MapKeeps(m, k, v, first, ops[..|ops| - 1]);
    }
  }

  /** With or without the cold tier, and across restarts: a value is read back as long as its key is neither
      put again nor deleted and fewer than max_l2 other keys have been put since. */
  lemma RecentReadable(c: Config, s: State, before: seq<Op>, k: Key, v: Value, after: seq<Op>)
    requires Untouched(after, k) && |PutKeys(after)| < c.maxL2
    ensures Get(c, Run(c, Restart(s), before + [PutOp(k, v)] + after), k).1 == Some(v)
  {
    var first := before + [PutOp(k, v)];
    MapKeeps(Found(c, s), k, v, first, after);
    ReadsRefineMap(c, s, first + after, k);
    if !c.l3 {
      StaysOnDisk(c, s, k, v, first, after);
    }
  }

  /** Every read is counted once, as a hit of one tier or as a miss. */
  function Reads(ops: seq<Op>): nat {
    if ops == [] then 0 else Reads(ops[..|ops| - 1]) + if ops[|ops| - 1].GetOp? then 1 else 0
  }

  /** A step short of a restart adds no untracked file, and counts itself if it is a read. */
  lemma StepTracks(c: Config, s: State, op: Op, m: map<Key, Value>)
    requires Valid(c, s) && Holds(c, s, m) && op != RestartOp
    ensures Untracked(Step(c, s, op)) <= Untracked(s)
    ensures Total(Step(c, s, op).stats) == Total(s.stats) + if op.GetOp? then 1 else 0
  {
    if op.PutOp? {
      var _ := PutRefines(c, s, op.key, op.value, m);
    } else if op.GetOp? {
      var _, _ := GetRefines(c, s, op.key, m);
    } else {
      DeleteRefines(c, s, op.key, m);
    }
  }

  /** Until the next restart no untracked file appears, and the statistics add up to the reads. */
  lemma {:induction false} BetweenRestarts(c: Config, s: State, ops: seq<Op>)
    requires RestartOp !in ops
    ensures Untracked(Run(c, Restart(s), ops)) <= s.files.Keys
    ensures Total(Run(c, Restart(s), ops).stats) == Reads(ops)
  {
    if ops == [] {
    } else {
      var init, last := ops[..|ops| - 1], ops[|ops| - 1];
      assert last in ops && forall op :: op in init ==> op in ops;
      BetweenRestarts(c, s, init);
      RunHolds(c, s, init);
      StepTracks(c, Run(c, Restart(s), init), last, MapRun(Found(c, s), init));
    }
  }

  lemma FilesBound(c: Config, t: State, found: map<Key, Value>)
    requires Valid(c, t) && Untracked(t) <= found.Keys
    ensures |t.files| <= c.maxL2 + |found|
  {
    DistinctSize(t.l2Order);
    assert t.files.Keys == Untracked(t) + ToSet(t.l2Order);
    UnionSize(Untracked(t), ToSet(t.l2Order));
    SubsetSize(Untracked(t), found.Keys);
  }

  /** Between restarts the directory grows by no more than max_l2 files over what was found in it. */
  lemma DiskBound(c: Config, s: State, ops: seq<Op>)
    requires RestartOp !in ops
    ensures |Run(c, Restart(s), ops).files| <= c.maxL2 + |s.files|
  {
    BetweenRestarts(c, s, ops);
    RunHolds(c, s, ops);
    FilesBound(c, Run(c, Restart(s), ops), s.files);
  }

  // ---------------------------------------------------------------- clear

  /** Once RAM is empty and the given files are left, reads see those, then the objects. */
  function Below(c: Config, files: map<Key, Value>, s: State, k: Key): Option<Value> {
    if k in files then Some(files[k]) else if c.l3 && k in s.objects then Some(s.objects[k]) else None
  }

  /** After a restart reads see every file and then the cold tier; after a clear only the files this object
      has not written. */
  lemma ColdReads(c: Config, s: State, k: Key)
    ensures Get(c, Restart(s), k).1 == Below(c, s.files, s, k) && Restart(s).stats == Stats(0, 0, 0, 0)
    ensures Get(c, Clear(s), k).1 == Below(c, map j | j in s.files && j !in s.l2Order :: s.files[j], s, k)
    ensures Clear(s).stats == s.stats && Clear(s).l1 == map[] && Clear(s).l1Order == [] && Clear(s).l2Order == []
    ensures Restart(s).l1 == map[] && Restart(s).l1Order == [] && Restart(s).l2Order == []
    ensures Restart(s).objects == s.objects && Clear(s).objects == s.objects
  {
  }

  /** clear empties the cache for its readers exactly when the cold tier holds nothing and every
      file is one this object has written. */
  lemma ClearEmptiesExactly(c: Config, s: State, m: map<Key, Value>)
    requires Valid(c, s) && Holds(c, s, m)
    ensures (forall k :: Get(c, Clear(s), k).1 == None) <==>
            (!c.l3 || s.objects == map[]) && s.files.Keys == ToSet(s.l2Order)
  {
    var t := Clear(s);
    if (!c.l3 || s.objects == map[]) && s.files.Keys == ToSet(s.l2Order) {
      assert t.files == map[];
    } else if s.files.Keys != ToSet(s.l2Order) {
      var k :| k in s.files && k !in ToSet(s.l2Order);
      assert k in t.files;
      assert Get(c, t, k).1 == Some(t.files[k]);
    } else {
      var k :| k in s.objects;
      assert k !in t.files;
      assert Get(c, t, k).1 == Some(s.objects[k]);
    }
  }

  /** A cache with room for one key in RAM and one on disk, holding k in both. */
  function OneSlot(k: Key, v: Value, objects: map<Key, Value>): State {
    State([k], map[k := v], [k], map[k := v], objects, Stats(0, 0, 0, 0))
  }

  lemma OneSlotPut(j: Key, u: Value, objects: map<Key, Value>, k: Key, v: Value)
    requires j != k
    ensures Put(Config(1, 1, true), OneSlot(j, u, objects), k, v) == OneSlot(k, v, objects[j := u])
  {
    var c, s := Config(1, 1, true), OneSlot(j, u, objects);
    assert Without([j], k) + [k] == [j, k] && [j, k][1..] == [k] && [j, k][..1] == [j];
    assert [j] + [k] == [j, k];
    assert ToSet([j]) == {j};
    var s1 := PromoteToL1(c, s, k, v);
    assert s1.l1 == map[k := v] by {
      assert s.l1[k := v] - {j} == map[k := v];
    }
    assert s1 == s.(l1Order := [k], l1 := map[k := v]);
    var files := s.files[k := v];
    assert files - {j} == map[k := v];
    assert Demoted({j}, files) == map[j := u];
    assert objects + map[j := u] == objects[j := u];
  }

  /** A cache object over an empty directory and bucket. */
  const NEW_CACHE := State([], map[], [], map[], map[], Stats(0, 0, 0, 0))

  lemma FirstPut(k: Key, v: Value)
    ensures Put(Config(1, 1, true), NEW_CACHE, k, v) == OneSlot(k, v, map[])
  {
    assert map[][k := v] == map[k := v];
    assert [] + [k] == [k] && ToSet([k][..0]) == {} && [k][0..] == [k];
    assert Demoted({}, map[k := v]) == map[] && map[k := v] - {} == map[k := v];
  }

  lemma RunThree(c: Config, s: State, x: Op, y: Op, z: Op)
    ensures Run(c, s, [x] + [y] + [z]) == Step(c, Step(c, Step(c, s, x), y), z)
  {
    RunSnoc(c, s, [], x);
    RunSnoc(c, s, [x], y);
    RunSnoc(c, s, [x] + [y], z);
    assert [] + [x] == [x];
  }

  lemma RunSnoc(c: Config, s: State, ops: seq<Op>, op: Op)
    ensures Run(c, s, ops + [op]) == Step(c, Run(c, s, ops), op)
  {
    assert (ops + [op])[..|ops|] == ops;
  }

  lemma OneSlotClear(k: Key, v: Value, objects: map<Key, Value>)
    requires k in objects
    ensures Get(Config(1, 1, true), Clear(OneSlot(k, v, objects)), k).1 == Some(objects[k])
  {
    assert Clear(OneSlot(k, v, objects)).files == map[];
  }

  /** With a cold tier, clear can even bring back a value that was overwritten: three puts into a new
      cache, and the first value is back. */
  lemma ClearRevivesStale(a: Key, b: Key, old1: Value, new1: Value)
    requires a != b && old1 != new1
    ensures
      var c := Config(1, 1, true);
      var s := Run(c, NEW_CACHE, [PutOp(a, old1)] + [PutOp(b, old1)] + [PutOp(a, new1)]);
      Get(c, s, a).1 == Some(new1) && Get(c, Clear(s), a).1 == Some(old1)
  {
    var c := Config(1, 1, true);
    FirstPut(a, old1);
    OneSlotPut(a, old1, map[], b, old1);
    OneSlotPut(b, old1, map[a := old1], a, new1);
    RunThree(c, NEW_CACHE, PutOp(a, old1), PutOp(b, old1), PutOp(a, new1));
    OneSlotClear(a, new1, map[a := old1, b := old1]);
  }

  // ---------------------------------------------------------------- least recently used

  /** The position of the last use of k. */
  function LastUse(trace: seq<Key>, k: Key): (i: nat)
    requires k in trace
    ensures i < |trace| && trace[i] == k && k !in trace[i + 1..]
  {
    if trace[|trace| - 1] == k then |trace| - 1 else
      assert trace == trace[..|trace| - 1] + [trace[|trace| - 1]];
      LastUse(trace[..|trace| - 1], k)
  }

  /** order holds the n keys used last, or all there are, in the order of their last uses. */
  ghost predicate MostRecent(order: seq<Key>, trace: seq<Key>, n: nat) {
    && |order| <= n && ByLastUse(order, trace)
    && (forall k :: k in trace && k !in order ==>
          |order| == n && forall i :: 0 <= i < |order| ==> LastUse(trace, k) < LastUse(trace, order[i]))
  }

  lemma UseAppended(trace: seq<Key>, k: Key, j: Key)
    requires j in trace || j == k
    ensures LastUse(trace + [k], j) == if j == k then |trace| else LastUse(trace, j)
  {
    assert (trace + [k])[..|trace|] == trace;
  }

  /** The keys of order were used, in this order. */
  ghost predicate ByLastUse(order: seq<Key>, trace: seq<Key>) {
    && (forall k :: k in order ==> k in trace)
    && (forall i, j :: 0 <= i < j < |order| ==> LastUse(trace, order[i]) < LastUse(trace, order[j]))
  }

  lemma WithoutByLastUse(order: seq<Key>, trace: seq<Key>, k: Key)
    requires ByLastUse(order, trace)
    ensures ByLastUse(Without(order, k), trace)
  {
    if k in order {
      SplicedByLastUse(order, trace, IndexOf(order, k));
    }
  }

  lemma SplicedByLastUse(order: seq<Key>, trace: seq<Key>, x: nat)
    requires ByLastUse(order, trace) && x < |order|
    ensures ByLastUse(order[..x] + order[x + 1..], trace)
  {
    var rest := order[..x] + order[x + 1..];
    forall k | k in rest
      ensures k in trace
    {
      assert k in order;
    }
    forall i, j | 0 <= i < j < |rest|
      ensures LastUse(trace, rest[i]) < LastUse(trace, rest[j])
    {
      assert rest[i] == order[if i < x then i else i + 1];
      assert rest[j] == order[if j < x then j else j + 1];
    }
  }

  lemma AppendByLastUse(order: seq<Key>, trace: seq<Key>, k: Key)
    requires ByLastUse(order, trace) && k !in order
    ensures ByLastUse(order + [k], trace + [k])
  {
    var next, trace' := order + [k], trace + [k];
    forall j | j in trace' {
      UseAppended(trace, k, j);
    }
    forall i, j | 0 <= i < j < |next|
      ensures LastUse(trace', next[i]) < LastUse(trace', next[j])
    {
      assert next[i] == order[i];
      if j < |order| {
        assert next[j] == order[j];
      }
    }
  }

  lemma UseKeepsMostRecent(order: seq<Key>, trace: seq<Key>, n: nat, k: Key)
    requires MostRecent(order, trace, n) && Distinct(order)
    ensures MostRecent(Used(order, k, n), trace + [k], n)
  {
    var next, kept, trace' := Without(order, k) + [k], Used(order, k, n), trace + [k];
    WithoutDistinct(order, k);
    WithoutByLastUse(order, trace, k);
    AppendByLastUse(Without(order, k), trace, k);
    var cut := Excess(next, n);
    SuffixByLastUse(next, trace', cut);
    forall j | j in trace' && j !in kept
      ensures |kept| == n && forall i :: 0 <= i < |kept| ==> LastUse(trace', j) < LastUse(trace', kept[i])
    {
      if j in next {
        DroppedIsOlder(next, trace', cut, j);
      } else {
        assert j != k by {
          assert next[|next| - 1] == k;
        }
        UnusedStaysOlder(order, trace, n, k, j, kept);
      }
    }
  }

  lemma SuffixByLastUse(order: seq<Key>, trace: seq<Key>, cut: nat)
    requires ByLastUse(order, trace) && cut <= |order|
    ensures ByLastUse(order[cut..], trace)
  {
    var kept := order[cut..];
    forall i, j | 0 <= i < j < |kept|
      ensures LastUse(trace, kept[i]) < LastUse(trace, kept[j])
    {
      assert kept[i] == order[cut + i] && kept[j] == order[cut + j];
    }
  }

  lemma DroppedIsOlder(order: seq<Key>, trace: seq<Key>, cut: nat, k: Key)
    requires ByLastUse(order, trace) && cut <= |order| && k in order && k !in order[cut..]
    ensures cut > 0
    ensures forall i :: 0 <= i < |order| - cut ==> LastUse(trace, k) < LastUse(trace, order[cut..][i])
  {
    var x := IndexOf(order, k);
    assert x < cut by {
      assert forall i :: cut <= i < |order| ==> order[i] in order[cut..];
    }
    forall i | 0 <= i < |order| - cut
      ensures LastUse(trace, k) < LastUse(trace, order[cut..][i])
    {
      assert order[cut..][i] == order[cut + i];
    }
  }

  lemma UnusedStaysOlder(order: seq<Key>, trace: seq<Key>, n: nat, k: Key, j: Key, kept: seq<Key>)
    requires MostRecent(order, trace, n) && j in trace && j != k && j !in Without(order, k)
    requires kept == Used(order, k, n)
    ensures |kept| == n
    ensures forall i :: 0 <= i < |kept| ==>
              kept[i] in trace + [k] && LastUse(trace + [k], j) < LastUse(trace + [k], kept[i])
  {
    var next := Without(order, k) + [k];
    assert j !in order && |order| == n;
    forall i | 0 <= i < |kept|
      ensures kept[i] in trace + [k] && LastUse(trace + [k], j) < LastUse(trace + [k], kept[i])
    {
      assert kept[i] == next[|next| - |kept| + i];
      assert kept[i] == k || kept[i] in order;
      NewerThanUnused(order, trace, n, k, j, kept[i]);
    }
  }

  lemma NewerThanUnused(order: seq<Key>, trace: seq<Key>, n: nat, k: Key, j: Key, x: Key)
    requires MostRecent(order, trace, n) && j in trace && j != k && j !in order && (x == k || x in order)
    ensures x in trace + [k] && LastUse(trace + [k], j) < LastUse(trace + [k], x)
  {
    UseAppended(trace, k, j);
    if x == k {
      UseAppended(trace, k, x);
    } else {
      var i :| 0 <= i < |order| && order[i] == x;
      assert LastUse(trace, j) < LastUse(trace, order[i]);
      UseAppended(trace, k, x);
    }
  }

  /** The keys put or successfully read, in order. */
  function Uses(c: Config, s: State, ops: seq<Op>): seq<Key> {
    if ops == [] then [] else
      var init, last := ops[..|ops| - 1], ops[|ops| - 1];
      Uses(c, s, init) +
      if last.PutOp? || (last.GetOp? && Get(c, Run(c, s, init), last.key).1.Some?) then [last.key] else []
  }

  /** Over every run without deletes or restarts the RAM tier holds exactly the max_l1 keys put or
      successfully read last, in that order. */
  lemma {:induction false} LruExact(c: Config, s: State, ops: seq<Op>)
    requires forall op :: op in ops ==> op.PutOp? || op.GetOp?
    ensures MostRecent(Run(c, Restart(s), ops).l1Order, Uses(c, Restart(s), ops), c.maxL1)
    ensures Run(c, Restart(s), ops).l1.Keys == ToSet(Run(c, Restart(s), ops).l1Order)
  {
    RunHolds(c, s, ops);
    if ops == [] {
    } else {
      var init, last := ops[..|ops| - 1], ops[|ops| - 1];
      assert forall op :: op in init ==> op in ops;
      assert last in ops;
      LruExact(c, s, init);
      RunHolds(c, s, init);
      var before, m := Run(c, Restart(s), init), MapRun(Found(c, s), init);
      UseKeepsMostRecent(before.l1Order, Uses(c, Restart(s), init), c.maxL1, last.key);
      if last.PutOp? {
        var _ := PutRefines(c, before, last.key, last.value, m);
      } else {
        var _, answer := GetRefines(c, before, last.key, m);
        assert answer == None ==> Uses(c, Restart(s), ops) == Uses(c, Restart(s), init);
      }
    }
  }
}

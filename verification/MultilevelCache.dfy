/** The mutable cache object of services/multilevel_cache.py, tied to CacheModel. The cache
    directory and the bucket are fields, since nobody else writes to them. */
module MultilevelCache {
  import opened Prelude
  import opened CacheModel

  class MultilevelCache {
    const config: Config
    var l1Order: seq<Key>
    var l1: map<Key, Value>
    var l2Order: seq<Key>
    var files: map<Key, Value>
    var objects: map<Key, Value>
    var stats: Stats

    constructor (config: Config, files: map<Key, Value>, objects: map<Key, Value>)
      ensures this.config == config
      ensures Contents() == State([], map[], [], files, objects, Stats(0, 0, 0, 0))
    {
      this.config := config;
      l1Order, l1, l2Order := [], map[], [];
      this.files, this.objects := files, objects;
      stats := Stats(0, 0, 0, 0);
    }

    function Contents(): State
      reads this
    {
      State(l1Order, l1, l2Order, files, objects, stats)
    }

    method PromoteToL1(key: Key, value: Value)
      modifies this
      ensures Contents() == CacheModel.PromoteToL1(config, old(Contents()), key, value)
    {
      if key in l1 {
        l1Order := Without(l1Order, key) + [key];
        l1 := l1[key := value];
        return;
      }
      l1 := l1[key := value];
      l1Order := l1Order + [key];
      EvictL1();
    }

    method EvictL1()
      modifies this
      ensures Contents() == CacheModel.EvictL1(config, old(Contents()))
    {
      while |l1Order| > config.maxL1
        invariant CacheModel.EvictL1(config, Contents()) == CacheModel.EvictL1(config, old(Contents()))
        decreases |l1Order|
      {
        EvictL1Step(config, Contents());
        var evicted := l1Order[0];
        l1Order := l1Order[1..];
        l1 := l1 - {evicted};
      }
      assert l1 - ToSet(l1Order[..0]) == l1;
    }

    method L2Get(key: Key) returns (value: Option<Value>)
      ensures value == if key in files then Some(files[key]) else None
    {
      value := if key in files then Some(files[key]) else None;
    }

    method L3Get(key: Key) returns (value: Option<Value>)
      ensures value == if config.l3 && key in objects then Some(objects[key]) else None
    {
      if !config.l3 {
        return None;
      }
      value := if key in objects then Some(objects[key]) else None;
    }

    method L3Demote(key: Key)
      modifies this
      ensures Contents() == old(Contents()).(objects := objects)
      ensures objects == if config.l3 && key in files then old(objects)[key := files[key]] else old(objects)
    {
      if !config.l3 {
        return;
      }
      var value := L2Get(key);
      if value.Some? {
        objects := objects[key := value.value];
      }
    }

    method L2Put(key: Key, value: Value)
      modifies this
      ensures Contents() == CacheModel.L2Put(config, old(Contents()), key, value)
    {
      files := files[key := value];
      l2Order := Without(l2Order, key) + [key];
      EvictL2();
    }

    method EvictL2()
      modifies this
      ensures Contents() == CacheModel.EvictL2(config, old(Contents()))
    {
      while |l2Order| > config.maxL2
        invariant CacheModel.EvictL2(config, Contents()) == CacheModel.EvictL2(config, old(Contents()))
        decreases |l2Order|
      {
        EvictL2Step(config, Contents());
        DropOldestFile();
      }
      assert files - ToSet(l2Order[..0]) == files && objects + Demoted(ToSet(l2Order[..0]), files) == objects;
    }

    method DropOldestFile()
      requires l2Order != []
      modifies this
      ensures Contents() == CacheModel.DropOldestFile(config, old(Contents()))
    {
      var oldKey := l2Order[0];
      l2Order := l2Order[1..];
      L3Demote(oldKey);
      files := files - {oldKey};
    }

    method Get(key: Key) returns (value: Option<Value>)
      modifies this
      ensures (Contents(), value) == CacheModel.Get(config, old(Contents()), key)
    {
      if key in l1 {
        l1Order := Without(l1Order, key) + [key];
        stats := stats.(l1Hits := stats.l1Hits + 1);
        return Some(l1[key]);
      }
      value := L2Get(key);
      if value.Some? {
        PromoteToL1(key, value.value);
        stats := stats.(l2Hits := stats.l2Hits + 1);
        return;
      }
      value := L3Get(key);
      if value.Some? {
        L2Put(key, value.value);
        PromoteToL1(key, value.value);
        stats := stats.(l3Hits := stats.l3Hits + 1);
        return;
      }
      stats := stats.(misses := stats.misses + 1);
    }

    method Put(key: Key, value: Value)
      modifies this
      ensures Contents() == CacheModel.Put(config, old(Contents()), key, value)
    {
      PromoteToL1(key, value);
      L2Put(key, value);
    }

    method Delete(key: Key)
      modifies this
      ensures Contents() == CacheModel.Delete(config, old(Contents()), key)
    {
      l1Order, l1 := Without(l1Order, key), l1 - {key};
      l2Order, files := Without(l2Order, key), files - {key};
      if config.l3 {
        objects := objects - {key};
      }
    }

    method Clear()
      modifies this
      ensures Contents() == CacheModel.Clear(old(Contents()))
    {
      l1Order, l1 := [], map[];
      ghost var found := files;
      for i := 0 to |l2Order|
        invariant Contents() == old(Contents()).(l1Order := [], l1 := map[], files := files)
        invariant l2Order == old(l2Order) && files == found - ToSet(l2Order[..i])
      {
        assert l2Order[..i + 1] == l2Order[..i] + [l2Order[i]];
        files := files - {l2Order[i]};
      }
      l2Order := [];
    }
  }
}

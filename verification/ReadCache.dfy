/** The container cache of Baseline/src/util/readCache.cc: an LRU index into a pool of slots. */
module ReadCache {
  import opened Basics
  import opened LruCache

  /** A slot of `size` bytes after the memset and memcpy of Insert. */
  function Slot(data: Bytes, size: nat): (r: Bytes)
    requires |data| <= size
    ensures |r| == size && r[..|data|] == data
  {
    data + seq(size - |data|, _ => 0)
  }

  /** Every cached name has a slot of its own among the first n, which holds the bytes of its last Insert. */
  predicate Slots(cache: map<Key, nat>, pool: seq<Bytes>, contents: map<Key, Bytes>, n: nat, itemSize: nat) {
    && n <= |pool| && contents.Keys == cache.Keys
    && (forall k | k in cache :: HasSlot(cache, pool, contents, n, itemSize, k))
    && forall k, l | k in cache && l in cache :: k != l ==> cache[k] != cache[l]
  }

  predicate HasSlot(cache: map<Key, nat>, pool: seq<Bytes>, contents: map<Key, Bytes>, n: nat, itemSize: nat, k: Key)
    requires k in cache
  {
    var i := cache[k];
    i < n <= |pool| && k in contents && |contents[k]| <= itemSize && pool[i] == Slot(contents[k], itemSize)
  }

  lemma SlotOf(cache: map<Key, nat>, pool: seq<Bytes>, contents: map<Key, Bytes>, n: nat, itemSize: nat, k: Key)
    requires Slots(cache, pool, contents, n, itemSize) && k in cache
    ensures cache[k] < n <= |pool| && k in contents && |contents[k]| <= itemSize
    ensures pool[cache[k]] == Slot(contents[k], itemSize)
  {
    assert HasSlot(cache, pool, contents, n, itemSize, k);
  }

  /** A new name takes the next slot. */
  lemma TakeSlot(cache: map<Key, nat>, pool: seq<Bytes>, contents: map<Key, Bytes>, n: nat, itemSize: nat,
                 name: Key, data: Bytes)
    requires Slots(cache, pool, contents, n, itemSize) && n < |pool| && name !in cache && |data| <= itemSize
    ensures Slots(cache[name := n], pool[n := Slot(data, itemSize)], contents[name := data], n + 1, itemSize)
  {
    hide Slot;
    var c, p, d := cache[name := n], pool[n := Slot(data, itemSize)], contents[name := data];
    forall k | k in c ensures HasSlot(c, p, d, n + 1, itemSize, k) {
      if k != name {
        assert HasSlot(cache, pool, contents, n, itemSize, k);
      }
    }
  }

  /** A new name takes the slot of one that goes. */
  lemma ReuseSlot(cache: map<Key, nat>, pool: seq<Bytes>, contents: map<Key, Bytes>, n: nat, itemSize: nat,
                  name: Key, data: Bytes, lru: Key)
    requires Slots(cache, pool, contents, n, itemSize) && lru in cache && name !in cache && |data| <= itemSize
    ensures cache[lru] < |pool|
    ensures Slots(Dropped(cache[name := cache[lru]], [lru]), pool[cache[lru] := Slot(data, itemSize)],
                  contents[name := data] - {lru}, n, itemSize)
  {
    hide Slot;
    SlotOf(cache, pool, contents, n, itemSize, lru);
    var i := cache[lru];
    var c, p, d := Dropped(cache[name := i], [lru]), pool[i := Slot(data, itemSize)], contents[name := data] - {lru};
    forall k | k in c ensures HasSlot(c, p, d, n, itemSize, k) {
      if k != name {
        assert HasSlot(cache, pool, contents, n, itemSize, k);
      }
    }
  }

  /** A name that is cached already, put into a full cache: it shares the slot of the least recently used
      name, which is not dropped.  All names still have their bytes exactly if that is the name itself,
      or its slot looks the same. */
  lemma CachedAgain(cache: map<Key, nat>, pool: seq<Bytes>, contents: map<Key, Bytes>, n: nat, itemSize: nat,
                    name: Key, data: Bytes, lru: Key)
    requires Slots(cache, pool, contents, n, itemSize) && lru in cache && name in cache && |data| <= itemSize
    ensures cache[lru] < |pool| && |contents[lru]| <= itemSize
    ensures var i := cache[lru];
            var c, p, d := cache[name := i], pool[i := Slot(data, itemSize)], contents[name := data];
            (forall k | k in c :: HasSlot(c, p, d, n, itemSize, k))
            <==> name == lru || Slot(contents[lru], itemSize) == Slot(data, itemSize)
  {
    hide Slot;
    SlotOf(cache, pool, contents, n, itemSize, lru);
    var i := cache[lru];
    var c, p, d := cache[name := i], pool[i := Slot(data, itemSize)], contents[name := data];
    if name == lru || Slot(contents[lru], itemSize) == Slot(data, itemSize) {
      forall k | k in c ensures HasSlot(c, p, d, n, itemSize, k) {
        assert HasSlot(cache, pool, contents, n, itemSize, k);
      }
    } else {
      assert !HasSlot(c, p, d, n, itemSize, lru);
    }
  }

  /** What prune leaves of a new key in front of the others. */
  lemma AllKeys(name: Key, keys: seq<Key>, c: Cache, n: nat)
    requires c.maxSize == n > 0 && c.elasticity == 0 && |keys| <= n
    ensures var all := [name] + keys;
            if |keys| < n then all[..c.Kept(|all|)] == all && all[c.Kept(|all|)..] == []
            else all[..c.Kept(|all|)] == [name] + keys[..n - 1] && all[c.Kept(|all|)..] == [keys[n - 1]]
  {
  }

  class ReadCache {
    const cacheSize: nat
    const itemSize: nat
    const readCache: Cache
    const pool: array<Bytes>
    var currentIndex: nat
    ghost var contents: map<Key, Bytes>

    ghost predicate Valid()
      reads this, readCache, pool
    {
      && readCache.Valid() && readCache.maxSize == cacheSize == pool.Length > 0 && readCache.elasticity == 0
      && currentIndex == |readCache.keys| <= cacheSize
      && Slots(readCache.cache, pool[..], contents, currentIndex, itemSize)
    }

    constructor (itemNum: nat, itemSize: nat)
      requires itemNum >= 1
      ensures Valid() && cacheSize == itemNum && this.itemSize == itemSize && contents == map[]
      ensures fresh(readCache) && fresh(pool)
    {
      cacheSize, this.itemSize := itemNum, itemSize;
      readCache := new Cache(itemNum, 0);
      pool := new Bytes[itemNum](_ => []);
      currentIndex := 0;
      contents := map[];
    }

    method Exist(name: Key) returns (b: bool)
      requires Valid()
      ensures b == (name in contents)
    {
      InCache(name);
      b := readCache.Contains(name);
    }

    /** Read: the bytes of the last Insert of the name, which becomes the most recently used. */
    method Read(name: Key) returns (slot: Bytes)
      requires Valid() && name in contents
      modifies readCache
      ensures Valid() && contents == old(contents) && |contents[name]| <= itemSize &&
              slot == Slot(contents[name], itemSize)
      ensures readCache.keys == [name] + Without(old(readCache.keys), name)
    {
      hide Recent, Matches, Without, Slots, Slot;
      InCache(name);
      var index := readCache.Get(name);
      SlotOf(readCache.cache, pool[..], contents, currentIndex, itemSize, name);
      slot := pool[index.value];
    }

    lemma InCache(name: Key)
      requires Valid()
      ensures name in contents <==> name in readCache.cache
    {
    }

    /** Insert of a name that is not cached: it takes a new slot, or when all are taken that of the least
        recently used name, which is dropped. */
    method Insert(name: Key, data: Bytes)
      requires Valid() && name !in contents && |data| <= itemSize
      modifies this, readCache, pool
      ensures Valid() && name in contents && contents[name] == data && readCache.keys[0] == name
      ensures |old(readCache.keys)| < cacheSize ==>
                contents == old(contents)[name := data] && readCache.keys == [name] + old(readCache.keys)
      ensures |old(readCache.keys)| == cacheSize ==>
                var lru := old(readCache.keys)[cacheSize - 1];
                contents == old(contents)[name := data] - {lru}
                && readCache.keys == [name] + old(readCache.keys)[..cacheSize - 1]
    {
      hide Recent, Matches, Without, Slots, Slot, Dropped;
      InCache(name);
      var size := readCache.Size();
      ghost var keys, cache, slots := readCache.keys, readCache.cache, pool[..];
      if size + 1 > cacheSize {
        var replaceIndex := readCache.PruneValue();
        ReuseSlot(cache, slots, contents, currentIndex, itemSize, name, data, keys[cacheSize - 1]);
        pool[replaceIndex] := Slot(data, itemSize);
        assert pool[..] == slots[replaceIndex := Slot(data, itemSize)];
        AllKeys(name, keys, readCache, cacheSize);
        readCache.Insert(name, replaceIndex);
        contents := contents[name := data] - {keys[cacheSize - 1]};
        InCache(name);
      } else {
        TakeSlot(cache, slots, contents, currentIndex, itemSize, name, data);
        pool[currentIndex] := Slot(data, itemSize);
        assert pool[..] == slots[currentIndex := Slot(data, itemSize)];
        AllKeys(name, keys, readCache, cacheSize);
        DropNone(cache[name := currentIndex], []);
        readCache.Insert(name, currentIndex);
        currentIndex := currentIndex + 1;
        contents := contents[name := data];
      }
    }
  }
}

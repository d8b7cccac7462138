/** Containers on disk, in the cache and being filled: Baseline/src/server/storage_core.cc. */
module StorageCore {
  import opened Basics
  import LruCache
  import opened ReadCache

  const MAX_CONTAINER_SIZE: nat := 4194304

  datatype Stat = CompDelta | UncompDelta | CompBase | UncompBase

  /** KeyForChunkHashDB_t */
  datatype Addr = Addr(stat: Stat, id: nat, offset: nat, len: nat, baseFp: nat)

  datatype Found = Bytes(value: Bytes) | Missing

  /** The bytes at an address: in a saved container, or in the one being filled. */
  function Lookup(disk: map<nat, Bytes>, id: nat, cur: Bytes, a: Addr): Found {
    if a.id in disk then Within(disk[a.id], a)
    else if a.id == id then Within(cur, a)
    else Missing
  }

  function Within(body: Bytes, a: Addr): Found {
    if a.offset + a.len <= |body| then Found.Bytes(body[a.offset..a.offset + a.len]) else Missing
  }

  /** What is found stays what it is. */
  ghost predicate Keeps(disk: map<nat, Bytes>, id: nat, cur: Bytes, disk': map<nat, Bytes>, id': nat, cur': Bytes) {
    && (forall i :: i in disk ==> i in disk' && disk'[i] == disk[i])
    && forall a :: Lookup(disk, id, cur, a).Bytes? ==> Lookup(disk', id', cur', a) == Lookup(disk, id, cur, a)
  }

  lemma SaveKeeps(disk: map<nat, Bytes>, id: nat, cur: Bytes, id': nat)
    requires id !in disk
    ensures Keeps(disk, id, cur, disk[id := cur], id', [])
    ensures Keeps(disk, id, cur, disk[id := cur], id, cur)
  {
  }

  lemma AppendKeeps(disk: map<nat, Bytes>, id: nat, cur: Bytes, data: Bytes, a: Addr)
    requires id !in disk && a.id == id && a.offset == |cur| && a.len == |data|
    ensures Keeps(disk, id, cur, disk, id, cur + data)
    ensures Lookup(disk, id, cur + data, a) == Found.Bytes(data)
  {
    forall b | Lookup(disk, id, cur, b).Bytes? ensures Lookup(disk, id, cur + data, b) == Lookup(disk, id, cur, b) {
      if b.id !in disk {
        assert (cur + data)[b.offset..b.offset + b.len] == cur[b.offset..b.offset + b.len];
      }
    }
    assert (cur + data)[|cur|..|cur| + |data|] == data;
  }

  lemma KeepsTrans(d1: map<nat, Bytes>, i1: nat, c1: Bytes, d2: map<nat, Bytes>, i2: nat, c2: Bytes,
                   d3: map<nat, Bytes>, i3: nat, c3: Bytes)
    requires Keeps(d1, i1, c1, d2, i2, c2) && Keeps(d2, i2, c2, d3, i3, c3)
    ensures Keeps(d1, i1, c1, d3, i3, c3)
  {
    hide Lookup;
  }

  /** A client's session: its container cache, and the container it is filling. */
  class ClientVar {
    const cache: ReadCache
    const body: array<Byte>
    var id: nat
    var curSize: nat

    /** A new session, whose container has the given new name. */
    constructor (cacheSize: nat, uuid: nat)
      requires cacheSize >= 1
      ensures cache.Valid() && cache.contents == map[] && cache.itemSize == MAX_CONTAINER_SIZE
      ensures body.Length == MAX_CONTAINER_SIZE && curSize == 0 && id == uuid
      ensures fresh(cache) && fresh(cache.readCache) && fresh(cache.pool) && fresh(body)
    {
      cache := new ReadCache(cacheSize, MAX_CONTAINER_SIZE);
      body := new Byte[MAX_CONTAINER_SIZE](_ => 0);
      id, curSize := uuid, 0;
    }

    ghost function Cur(): Bytes
      reads this, body
    {
      if curSize <= body.Length then body[..curSize] else []
    }
  }

  class StorageCore {
    var disk: map<nat, Bytes>

    constructor ()
      ensures disk == map[]
    {
      disk := map[];
    }

    /** The session's cache agrees with the disk; its container is not saved yet, or was saved last. */
    ghost predicate Valid(c: ClientVar)
      reads this, c, c.body, c.cache, c.cache.readCache, c.cache.pool
    {
      && c.cache.Valid() && c.cache.itemSize == MAX_CONTAINER_SIZE
      && c.body.Length == MAX_CONTAINER_SIZE && c.curSize <= MAX_CONTAINER_SIZE
      && (forall name :: name in c.cache.contents ==> name in disk && c.cache.contents[name] == disk[name])
      && (forall name :: name in disk ==> |disk[name]| <= MAX_CONTAINER_SIZE)
      && (c.id in disk ==> disk[c.id] == c.body[..c.curSize])
    }

    ghost function At(c: ClientVar, a: Addr): Found
      reads this, c, c.body
    {
      Lookup(disk, c.id, c.Cur(), a)
    }

    /** ReadChunk: cache, disk and current container agree; it fails only for a container that is
        neither saved nor the current one. */
    method ReadChunk(a: Addr, c: ClientVar) returns (ok: bool, data: Bytes)
      requires Valid(c) && (a.id in disk || a.id == c.id ==> At(c, a).Bytes?)
      modifies c.cache, c.cache.readCache, c.cache.pool
      ensures Valid(c) && (ok <==> a.id in disk || a.id == c.id)
      ensures ok ==> At(c, a) == Found.Bytes(data)
    {
      hide Recent, LruCache.Matches, Without, Slots, Slot;
      data := [];
      var cached := c.cache.Exist(a.id);
      if cached {
        var buf := c.cache.Read(a.id);
        ghost var saved := c.cache.contents[a.id];
        SlotWithin(saved, MAX_CONTAINER_SIZE, a);
        return true, buf[a.offset..a.offset + a.len];
      }
      if a.id !in disk {
        if c.id == a.id {
          data := c.body[a.offset..a.offset + a.len];
          assert data == c.Cur()[a.offset..a.offset + a.len];
          return true, data;
        }
        return false, [];
      }
      var container := disk[a.id];
      data := container[a.offset..a.offset + a.len];
      c.cache.Insert(a.id, container);
      ok := true;
    }

    lemma SlotWithin(saved: Bytes, size: nat, a: Addr)
      requires |saved| <= size && a.offset + a.len <= |saved|
      ensures Slot(saved, size)[a.offset..a.offset + a.len] == saved[a.offset..a.offset + a.len]
    {
    }

    /** SaveContainer */
    method SaveContainer(c: ClientVar)
      requires Valid(c) && c.id !in disk
      modifies this
      ensures Valid(c) && disk == old(disk)[c.id := c.body[..c.curSize]]
    {
      disk := disk[c.id := c.body[..c.curSize]];
    }

    /** WriteChunk: the chunk can be read at its new address, and so can all that could be read before;
        uuid is the name that CreateUUID gives a new container. */
    method WriteChunk(a: Addr, data: Bytes, c: ClientVar, uuid: nat) returns (a': Addr)
      requires Valid(c) && c.id !in disk && |data| <= MAX_CONTAINER_SIZE && uuid !in disk && uuid != c.id
      modifies this, c, c.body
      ensures Valid(c) && c.id !in disk && a'.id == c.id
      ensures if old(c.curSize) + |data| <= MAX_CONTAINER_SIZE
              then disk == old(disk) && c.id == old(c.id) && c.Cur() == old(c.Cur()) + data
              else disk == old(disk)[old(c.id) := old(c.Cur())] && c.id == uuid && c.Cur() == data
      ensures Keeps(old(disk), old(c.id), old(c.Cur()), disk, c.id, c.Cur())
      ensures At(c, a') == Found.Bytes(data)
      ensures a'.stat == a.stat && a'.baseFp == a.baseFp && a'.len == |data|
    {
      ghost var d0, i0, c0 := disk, c.id, c.Cur();
      if c.curSize + |data| > MAX_CONTAINER_SIZE {
        SaveKeeps(disk, c.id, c.Cur(), uuid);
        SaveContainer(c);
        c.curSize := 0;
        c.id := uuid;
        assert c.Cur() == [];
      } else {
        assert Keeps(d0, i0, c0, disk, c.id, c.Cur());
      }
      ghost var d1, i1, c1 := disk, c.id, c.Cur();
      CopyInto(c.body, c.curSize, data);
      a' := a.(id := c.id, len := |data|, offset := c.curSize);
      c.curSize := c.curSize + |data|;
      assert c.Cur() == c1 + data;
      AppendKeeps(d1, i1, c1, data, a');
      KeepsTrans(d0, i0, c0, d1, i1, c1, disk, c.id, c.Cur());
    }
  }
}

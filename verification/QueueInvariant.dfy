/** The invariant of the queue: what every step of either thread keeps. */
module QueueInvariant {
  import opened QueueModel

  predicate Full<T>(b: Block<T>)
    requires b.Ok()
  {
    b.Count() + 1 == b.Size()
  }

  function NextPos(n: nat, i: nat): nat {
    if i + 1 >= n then 0 else i + 1
  }

  predicate Linked<T>(blocks: seq<Block<T>>, ring: seq<nat>, i: nat)
    requires i < |ring| && ring[i] < |blocks|
  {
    blocks[ring[i]].next == ring[NextPos(|ring|, i)]
  }

  /** The `next` pointers go once round all blocks of the ring, starting at the front block. */
  ghost predicate RingOk<T>(m: Memory<T>)
    requires Shaped(m)
  {
    && m.ring[0] == m.frontBlock && m.ring[m.tailPos] == m.tailBlock
    && (forall i, j :: 0 <= i < j < |m.ring| ==> m.ring[i] != m.ring[j])
    && (forall i :: 0 <= i < |m.ring| ==> Linked(m.blocks, m.ring, i))
  }

  /** Behind the front block come full blocks, then the tail block, then empty blocks
      (but for the block the producer is about to make the tail block, when `pending`). */
  predicate Role<T>(m: Memory<T>, pending: bool, i: nat)
    requires Shaped(m) && i < |m.ring|
  {
    if i < m.tailPos then Full(m.blocks[m.ring[i]])
    else if i == m.tailPos then m.blocks[m.ring[i]].Count() > 0
    else (pending && i == m.tailPos + 1) || m.blocks[m.ring[i]].Count() == 0
  }

  ghost predicate RolesOk<T>(m: Memory<T>, pending: bool)
    requires Shaped(m)
  {
    forall i :: 1 <= i < |m.ring| ==> Role(m, pending, i)
  }

  /** Each shadow index lags behind the index it copies, never beyond it. */
  predicate ShadowsOk<T>(front: Block<T>, tail: Block<T>)
    requires front.Ok() && tail.Ok()
  {
    && front.Dist(front.front, front.localTail) <= front.Count()
    && tail.Dist(tail.localFront, tail.tail) >= tail.Count()
  }

  /** Room enough for the capacity the constructor was asked for. */
  ghost predicate CapacityOk<T>(m: Memory<T>, size: nat)
    requires Shaped(m)
  {
    && |m.ring| >= InitialBlocks(size, m.maxBlockSize)
    && 2 * m.maxBlockSize >= m.largestBlockSize >= FirstBlockSize(size, m.maxBlockSize) >= 2
    && (forall b :: 0 <= b < |m.blocks| ==> FirstBlockSize(size, m.maxBlockSize) <= m.blocks[b].Size() < WORD)
  }

  ghost predicate MemoryOk<T>(m: Memory<T>, pending: bool, size: nat) {
    && Shaped(m) && RingOk(m) && RolesOk(m, pending)
    && ShadowsOk(m.blocks[m.frontBlock], m.blocks[m.tailBlock])
    && CapacityOk(m, size)
  }

  /** The tail block, once found full, stays full unless the consumer works on it. */
  ghost predicate TailFull<T>(m: Memory<T>)
    requires Shaped(m)
  {
    m.tailPos >= 1 ==> Full(m.blocks[m.tailBlock])
  }

  ghost predicate AtNext<T>(m: Memory<T>, nx: nat)
    requires Shaped(m)
  {
    m.tailPos + 1 < |m.ring| && nx == m.ring[m.tailPos + 1] && TailFull(m)
  }

  /** A block the producer filled with x alone before the consumer may see it. */
  ghost predicate Fresh<T>(m: Memory<T>, nb: nat, x: T)
    requires Shaped(m)
  {
    nb < |m.blocks| && m.blocks[nb].Items() == [x] && m.blocks[nb].localFront == m.blocks[nb].front
  }

  ghost predicate ProducerOk<T>(m: Memory<T>, p: Producer<T>)
    requires Shaped(m)
  {
    match p
    case PDone(_) => true
    case PStart(_, _) => true
    case PTail(_, _, tb) => tb == m.tailBlock
    case PFront(_, _, tb, bt, nbt) =>
      tb == m.tailBlock && bt == m.blocks[tb].tail && nbt == m.blocks[tb].After(bt)
    case PWrite(_, tb, bt, nbt) =>
      && tb == m.tailBlock && bt == m.blocks[tb].tail && nbt == m.blocks[tb].After(bt)
      && m.blocks[tb].localFront != nbt
    case PStoreTail(x, tb, nbt) =>
      && tb == m.tailBlock && nbt == m.blocks[tb].After(m.blocks[tb].tail)
      && m.blocks[tb].localFront != nbt && m.blocks[tb].data[m.blocks[tb].tail] == x
    case PNext(_, _, tb, seen) =>
      tb == m.tailBlock && seen + 1 >= m.blocks[tb].Size() && TailFull(m)
    case PFrontBlock(_, _, tb, nx, seen) =>
      && tb == m.tailBlock && nx == m.blocks[tb].next && seen + 1 >= m.blocks[tb].Size() && TailFull(m)
    case PNextAgain(_, tb) => tb == m.tailBlock && m.tailPos + 1 < |m.ring| && TailFull(m)
    case PNextFront(_, nx) => AtNext(m, nx)
    case PNextTail(_, nx, nbf) => AtNext(m, nx) && nbf == m.blocks[nx].front
    case PNextWrite(_, nx, nbf, nt) =>
      AtNext(m, nx) && nbf == m.blocks[nx].front && nt == m.blocks[nx].tail
    case PNextStoreTail(x, nx, nt) =>
      && AtNext(m, nx) && nt == m.blocks[nx].tail
      && m.blocks[nx].localFront == m.blocks[nx].front && m.blocks[nx].data[nt] == x
    case PStoreTailBlock(x, nx) => AtNext(m, nx) && Fresh(m, nx, x)
    case PAlloc(_, tb) => tb == m.tailBlock && TailFull(m)
    case PLinkNew(x, tb, nb) => tb == m.tailBlock && TailFull(m) && nb !in m.ring && Fresh(m, nb, x)
    case PLinkTail(x, tb, nb) =>
      && tb == m.tailBlock && TailFull(m) && nb !in m.ring && Fresh(m, nb, x)
      && m.blocks[nb].next == m.blocks[tb].next
    case PAborted => false
    case POutside => false
  }

  /** There is a later block, the front block is used up, and nb is the block after it. */
  ghost predicate Advancing<T>(m: Memory<T>, nb: nat)
    requires Shaped(m)
  {
    m.tailPos > 0 && nb == m.ring[1] && m.blocks[m.frontBlock].Count() == 0
  }

  ghost predicate ConsumerOk<T>(m: Memory<T>, c: Consumer<T>)
    requires Shaped(m)
  {
    match c
    case CDone(_) => true
    case CStart => true
    case CFront(fb, bt) => fb == m.frontBlock && bt == m.blocks[fb].localTail
    case CTail(fb, bf) => fb == m.frontBlock && bf == m.blocks[fb].front
    case CTailBlock(fb, sawEmpty) => fb == m.frontBlock && (m.tailPos == 0 ==> sawEmpty)
    case CReload => m.tailPos > 0
    case CReloadTail(fb) => m.tailPos > 0 && fb == m.frontBlock
    case CReloadFront(fb, bt) =>
      m.tailPos > 0 && fb == m.frontBlock && bt == m.blocks[fb].tail == m.blocks[fb].localTail
    case CRead(fb, bf) =>
      && fb == m.frontBlock && bf == m.blocks[fb].front && m.blocks[fb].Count() > 0
      && m.blocks[fb].localTail != m.blocks[fb].front
    case CStoreFront(fb, bf, v) =>
      && fb == m.frontBlock && m.blocks[fb].Count() > 0 && m.blocks[fb].localTail != m.blocks[fb].front
      && bf == m.blocks[fb].After(m.blocks[fb].front) && v == m.blocks[fb].data[m.blocks[fb].front]
    case CNext(fb) => m.tailPos > 0 && fb == m.frontBlock && m.blocks[fb].Count() == 0
    case CNextFront(nb) => Advancing(m, nb)
    case CNextTail(nb, nbf) => Advancing(m, nb) && nbf == m.blocks[nb].front
    case CStoreFrontBlock(nb, nbf) =>
      && Advancing(m, nb) && nbf == m.blocks[nb].front && m.blocks[nb].localTail != nbf
      && m.blocks[nb].Dist(nbf, m.blocks[nb].localTail) <= m.blocks[nb].Count()
    case CAborted => false
  }

  /** What has come out, followed by what the queue holds, is what went in. */
  ghost predicate Fifo<T>(s: State<T>)
    requires Shaped(s.mem)
  {
    s.enqueued == s.dequeued + Live(s.mem)
  }

  ghost predicate Inv<T>(s: State<T>, size: nat) {
    && MemoryOk(s.mem, s.prod.PStoreTailBlock?, size)
    && ProducerOk(s.mem, s.prod) && ConsumerOk(s.mem, s.cons) && Fifo(s)
  }

  // ---------------------------------------------------------------- one block

  lemma ItemsLength<T>(b: Block<T>)
    requires b.Ok()
    ensures |b.Items()| == b.Count()
  {
  }

  /** Writing outside the live slots changes no item. */
  lemma WriteFree<T>(b: Block<T>, x: T)
    requires b.Ok()
    ensures b.(data := b.data[b.tail := x]).Items() == b.Items()
  {
  }

  lemma Append<T>(b: Block<T>)
    requires b.Ok() && b.Count() + 1 < b.Size()
    ensures b.(tail := b.After(b.tail)).Items() == b.Items() + [b.data[b.tail]]
  {
  }

  lemma PopFront<T>(b: Block<T>)
    requires b.Ok() && b.Count() > 0
    ensures b.Items() == [b.data[b.front]] + b.(front := b.After(b.front)).Items()
  {
  }

  // ---------------------------------------------------------------- several blocks

  lemma {:induction false} GatherSame<T>(blocks: seq<Block<T>>, blocks': seq<Block<T>>, ids: seq<nat>)
    requires forall b :: 0 <= b < |blocks| ==> blocks[b].Ok()
    requires forall b :: 0 <= b < |blocks'| ==> blocks'[b].Ok()
    requires forall i :: 0 <= i < |ids| ==> ids[i] < |blocks| && ids[i] < |blocks'|
    requires forall i :: 0 <= i < |ids| ==> blocks[ids[i]].Items() == blocks'[ids[i]].Items()
    ensures Gather(blocks, ids) == Gather(blocks', ids)
  {
    if ids != [] {
      assert blocks[ids[0]].Items() == blocks'[ids[0]].Items();
      GatherSame(blocks, blocks', ids[1..]);
    }
  }

  lemma {:induction false} GatherSnoc<T>(blocks: seq<Block<T>>, ids: seq<nat>, b: nat)
    requires forall b :: 0 <= b < |blocks| ==> blocks[b].Ok()
    requires forall i :: 0 <= i < |ids| ==> ids[i] < |blocks|
    requires b < |blocks|
    ensures Gather(blocks, ids + [b]) == Gather(blocks, ids) + blocks[b].Items()
  {
    if ids == [] {
      assert ids + [b] == [b] && [b][1..] == [];
    } else {
      assert (ids + [b])[1..] == ids[1..] + [b];
      GatherSnoc(blocks, ids[1..], b);
    }
  }

  /** Replacing a block keeps the ring if its next pointer stays or the block is not in it. */
  lemma PutRing<T>(m: Memory<T>, b: nat, nb: Block<T>)
    requires Shaped(m) && RingOk(m) && b < |m.blocks| && nb.Ok()
    requires nb.next == m.blocks[b].next || b !in m.ring
    ensures Shaped(Put(m, b, nb)) && RingOk(Put(m, b, nb))
  {
    forall i | 0 <= i < |m.ring| ensures Linked(Put(m, b, nb).blocks, m.ring, i) {
      assert Linked(m.blocks, m.ring, i);
    }
  }

  /** Replacing a block keeps the roles if the new block plays the old one's part. */
  lemma PutRoles<T>(m: Memory<T>, pending: bool, pending': bool, b: nat, nb: Block<T>)
    requires Shaped(m) && RolesOk(m, pending) && b < |m.blocks| && nb.Ok() && (pending ==> pending')
    requires forall i :: 1 <= i < |m.ring| && m.ring[i] == b ==> Role(Put(m, b, nb), pending', i)
    ensures RolesOk(Put(m, b, nb), pending')
  {
    forall i | 1 <= i < |m.ring| ensures Role(Put(m, b, nb), pending', i) {
      assert Role(m, pending, i);
    }
  }

  /** Replacing a block by one that differs in a shadow index or in unused slots only. */
  lemma PutPrivate<T>(m: Memory<T>, pending: bool, size: nat, b: nat, nb: Block<T>)
    requires MemoryOk(m, pending, size) && b < |m.blocks| && nb.Ok()
    requires nb.front == m.blocks[b].front && nb.tail == m.blocks[b].tail
    requires nb.next == m.blocks[b].next || b !in m.ring
    requires nb.Size() == m.blocks[b].Size() && nb.Items() == m.blocks[b].Items()
    requires b == m.frontBlock ==> nb.Dist(nb.front, nb.localTail) <= nb.Count()
    requires b == m.tailBlock ==> nb.Dist(nb.localFront, nb.tail) >= nb.Count()
    ensures MemoryOk(Put(m, b, nb), pending, size) && Live(Put(m, b, nb)) == Live(m)
  {
    hide Gather;
    PutRing(m, b, nb);
    forall i | 1 <= i < |m.ring| ensures Role(Put(m, b, nb), pending, i) {
      assert Role(m, pending, i);
    }
    GatherSame(m.blocks, Put(m, b, nb).blocks, m.ring[..m.tailPos + 1]);
  }

  /** The live part contains the items of each of its blocks. */
  lemma {:induction false} GatherHolds<T>(blocks: seq<Block<T>>, ids: seq<nat>, i: nat)
    requires forall b :: 0 <= b < |blocks| ==> blocks[b].Ok()
    requires forall j :: 0 <= j < |ids| ==> ids[j] < |blocks|
    requires i < |ids|
    ensures |Gather(blocks, ids)| >= |blocks[ids[i]].Items()|
  {
    if i > 0 {
      GatherHolds(blocks, ids[1..], i - 1);
    }
  }

  lemma LiveHolds<T>(m: Memory<T>, i: nat)
    requires Shaped(m) && i <= m.tailPos
    ensures |Live(m)| >= m.blocks[m.ring[i]].Count()
  {
    hide Gather, Block.Items, Block.Count;
    var ids := m.ring[..m.tailPos + 1];
    assert ids[i] == m.ring[i];
    ItemsLength(m.blocks[ids[i]]);
    GatherHolds(m.blocks, ids, i);
  }
}

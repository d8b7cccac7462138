/** Every step of the producer keeps the invariant. */
module QueueProducer {
  import opened QueueModel
  import opened QueueInvariant

  /** What the producer does to a block never disturbs the consumer: it leaves the front index and
      the front item alone, never shortens a block, and works on no block before the tail block. */
  lemma ConsumerSees<T>(m: Memory<T>, b: nat, b': Block<T>, c: Consumer<T>)
    requires Shaped(m) && RingOk(m) && b < |m.blocks| && b'.Ok() && ConsumerOk(m, c)
    requires b'.front == m.blocks[b].front && b'.localTail == m.blocks[b].localTail && b'.Size() == m.blocks[b].Size()
    requires b'.Count() >= m.blocks[b].Count()
    requires b == m.frontBlock && m.blocks[b].Count() > 0 ==> b'.data[b'.front] == m.blocks[b].data[b'.front]
    requires b == m.frontBlock && m.tailPos > 0 ==> b'.tail == m.blocks[b].tail && b'.next == m.blocks[b].next
    ensures Shaped(Put(m, b, b')) && ConsumerOk(Put(m, b, b'), c)
  {
    hide Live, Gather;
  }

  lemma StepPrivate<T>(s: State<T>, size: nat, blank: T, ok: bool)
    requires Inv(s, size)
    requires s.prod.PDone? || s.prod.PStart? || s.prod.PTail? || s.prod.PNext? || s.prod.PFrontBlock?
             || s.prod.PNextAgain?
    ensures Inv(ProducerStep(s, blank, ok), size)
  {
    hide Live;
    assert Linked(s.mem.blocks, s.mem.ring, s.mem.tailPos);
    assert s.mem.ring[0] == s.mem.frontBlock;
  }

  lemma StepNextTail<T>(s: State<T>, size: nat, blank: T, ok: bool)
    requires Inv(s, size) && s.prod.PNextTail?
    ensures Inv(ProducerStep(s, blank, ok), size)
  {
    hide Live;
    assert Role(s.mem, false, s.mem.tailPos + 1);
  }

  lemma StepFront<T>(s: State<T>, size: nat, blank: T, ok: bool)
    requires Inv(s, size) && s.prod.PFront?
    ensures Inv(ProducerStep(s, blank, ok), size)
  {
    hide Live;
    var m, tb := s.mem, s.prod.tb;
    var b := m.blocks[tb];
    PutPrivate(m, false, size, tb, b.(localFront := b.front));
    ConsumerSees(m, tb, b.(localFront := b.front), s.cons);
    LiveHolds(m, m.tailPos);
    ItemsLength(b);
  }

  lemma StepWrite<T>(s: State<T>, size: nat, blank: T, ok: bool)
    requires Inv(s, size) && s.prod.PWrite?
    ensures Inv(ProducerStep(s, blank, ok), size)
  {
    hide Live;
    var m, tb := s.mem, s.prod.tb;
    var b := m.blocks[tb];
    WriteFree(b, s.prod.x);
    PutPrivate(m, false, size, tb, b.(data := b.data[b.tail := s.prod.x]));
    ConsumerSees(m, tb, b.(data := b.data[b.tail := s.prod.x]), s.cons);
  }

  lemma StepNextFront<T>(s: State<T>, size: nat, blank: T, ok: bool)
    requires Inv(s, size) && s.prod.PNextFront?
    ensures Inv(ProducerStep(s, blank, ok), size)
  {
    hide Live, RingOk, RolesOk, AtNext, ConsumerOk;
    var m, nx := s.mem, s.prod.nx;
    NextShadow(m, size, nx);
    ConsumerSees(m, nx, m.blocks[nx].(localFront := m.blocks[nx].front), s.cons);
  }

  /** The block after a full tail block: its shadow index may be renewed. */
  lemma NextShadow<T>(m: Memory<T>, size: nat, nx: nat)
    requires MemoryOk(m, false, size) && AtNext(m, nx)
    ensures nx < |m.blocks| && nx != m.frontBlock
    ensures var m' := Put(m, nx, m.blocks[nx].(localFront := m.blocks[nx].front));
            Shaped(m') && MemoryOk(m', false, size) && Live(m') == Live(m) && AtNext(m', nx)
  {
    hide Live;
    PutPrivate(m, false, size, nx, m.blocks[nx].(localFront := m.blocks[nx].front));
    assert nx != m.tailBlock;
  }

  lemma StepNextWrite<T>(s: State<T>, size: nat, blank: T, ok: bool)
    requires Inv(s, size) && s.prod.PNextWrite?
    ensures Inv(ProducerStep(s, blank, ok), size)
  {
    hide Live;
    var m, nx := s.mem, s.prod.nx;
    var b := m.blocks[nx];
    assert Role(m, false, m.tailPos + 1);
    var b' := b.(localFront := b.front, data := b.data[b.tail := s.prod.x]);
    assert b'.Items() == b.Items() by { WriteFree(b, s.prod.x); }
    PutPrivate(m, false, size, nx, b');
    ConsumerSees(m, nx, b', s.cons);
  }

  /** Storing the tail index puts x at the end of the live part. */
  lemma LiveAppend<T>(m: Memory<T>, pending: bool, size: nat, x: T)
    requires MemoryOk(m, pending, size)
    requires var b := m.blocks[m.tailBlock]; b.Count() + 1 < b.Size() && b.data[b.tail] == x
    ensures var b := m.blocks[m.tailBlock];
            var m' := Put(m, m.tailBlock, b.(tail := b.After(b.tail)));
            Shaped(m') && Live(m') == Live(m) + [x]
  {
    hide Gather;
    var b := m.blocks[m.tailBlock];
    var b' := b.(tail := b.After(b.tail));
    var m' := Put(m, m.tailBlock, b');
    var ids := m.ring[..m.tailPos];
    assert m.ring[..m.tailPos + 1] == ids + [m.tailBlock];
    Append(b);
    GatherSame(m.blocks, m'.blocks, ids);
    GatherSnoc(m.blocks, ids, m.tailBlock);
    GatherSnoc(m'.blocks, ids, m.tailBlock);
  }

  lemma StepStoreTail<T>(s: State<T>, size: nat, blank: T, ok: bool)
    requires Inv(s, size) && s.prod.PStoreTail?
    ensures Inv(ProducerStep(s, blank, ok), size)
  {
    hide Live;
    var m, tb := s.mem, s.prod.tb;
    var b := m.blocks[tb];
    var b' := b.(tail := b.After(b.tail));
    assert b.Count() + 1 < b.Size() && b'.Count() == b.Count() + 1;
    LiveAppend(m, false, size, s.prod.x);
    PutRing(m, tb, b');
    PutRoles(m, false, false, tb, b');
    ConsumerSees(m, tb, b', s.cons);
  }

  lemma StepNextStoreTail<T>(s: State<T>, size: nat, blank: T, ok: bool)
    requires Inv(s, size) && s.prod.PNextStoreTail?
    ensures Inv(ProducerStep(s, blank, ok), size)
  {
    hide Gather;
    var m, nx := s.mem, s.prod.nx;
    var b := m.blocks[nx];
    var b' := b.(tail := b.After(b.tail));
    assert Role(m, false, m.tailPos + 1);
    assert b'.Items() == [s.prod.x] by { Append(b); ItemsLength(b); }
    PutRing(m, nx, b');
    PutRoles(m, false, true, nx, b');
    ConsumerSees(m, nx, b', s.cons);
    GatherSame(m.blocks, Put(m, nx, b').blocks, m.ring[..m.tailPos + 1]);
  }

  lemma StepStoreTailBlock<T>(s: State<T>, size: nat, blank: T, ok: bool)
    requires Inv(s, size) && s.prod.PStoreTailBlock?
    ensures Inv(ProducerStep(s, blank, ok), size)
  {
    hide Gather;
    var m, nx, s' := s.mem, s.prod.nx, ProducerStep(s, blank, ok);
    ItemsLength(m.blocks[nx]);
    assert Linked(m.blocks, m.ring, m.tailPos);
    forall i | 1 <= i < |m.ring| ensures Role(s'.mem, false, i) {
      assert Role(m, true, i);
    }
    assert m.ring[..m.tailPos + 2] == m.ring[..m.tailPos + 1] + [nx];
    GatherSnoc(m.blocks, m.ring[..m.tailPos + 1], nx);
  }

  /** A new block outside the ring changes nothing yet. */
  lemma GrowMemory<T>(m: Memory<T>, size: nat, b: Block<T>, largest: nat)
    requires MemoryOk(m, false, size) && b.Ok() && 2 * m.maxBlockSize >= largest >= m.largestBlockSize
    requires FirstBlockSize(size, m.maxBlockSize) <= b.Size() < WORD
    ensures var m' := m.(blocks := m.blocks + [b], largestBlockSize := largest);
            MemoryOk(m', false, size) && Live(m') == Live(m)
  {
    hide Gather;
    var m' := m.(blocks := m.blocks + [b], largestBlockSize := largest);
    forall i | 0 <= i < |m.ring| ensures Linked(m'.blocks, m.ring, i) {
      assert Linked(m.blocks, m.ring, i);
    }
    forall i | 1 <= i < |m.ring| ensures Role(m', false, i) {
      assert Role(m, false, i);
    }
    GatherSame(m.blocks, m'.blocks, m.ring[..m.tailPos + 1]);
  }

  lemma StepAlloc<T>(s: State<T>, size: nat, blank: T, ok: bool)
    requires Inv(s, size) && s.prod.PAlloc?
    ensures Inv(ProducerStep(s, blank, ok), size)
  {
    hide Live;
    var m, s' := s.mem, ProducerStep(s, blank, ok);
    if ok {
      GrowMemory(m, size, s'.mem.blocks[|m.blocks|], s'.mem.largestBlockSize);
    }
  }

  lemma StepLinkNew<T>(s: State<T>, size: nat, blank: T, ok: bool)
    requires Inv(s, size) && s.prod.PLinkNew?
    ensures Inv(ProducerStep(s, blank, ok), size)
  {
    hide Live;
    var m, nb := s.mem, s.prod.nb;
    PutPrivate(m, false, size, nb, m.blocks[nb].(next := m.blocks[s.prod.tb].next));
    ConsumerSees(m, nb, m.blocks[nb].(next := m.blocks[s.prod.tb].next), s.cons);
  }

  /** ring' is ring with nb put in behind position t. */
  ghost predicate Inserted(ring: seq<nat>, t: nat, nb: nat, ring': seq<nat>) {
    && t < |ring| && |ring'| == |ring| + 1 && ring'[t + 1] == nb
    && (forall i :: 0 <= i <= t ==> ring'[i] == ring[i])
    && (forall i :: t + 1 < i < |ring'| ==> ring'[i] == ring[i - 1])
  }

  lemma InsertHere(ring: seq<nat>, t: nat, nb: nat)
    requires t < |ring|
    ensures Inserted(ring, t, nb, ring[..t + 1] + [nb] + ring[t + 1..])
  {
  }

  /** Linking in the new block: the ring grows by one right after the tail block. */
  lemma LinkRing<T>(m: Memory<T>, nb: nat, ring': seq<nat>)
    requires Shaped(m) && RingOk(m) && nb < |m.blocks| && nb !in m.ring
    requires m.blocks[nb].next == m.blocks[m.tailBlock].next
    requires Inserted(m.ring, m.tailPos, nb, ring')
    ensures var m' := Put(m, m.tailBlock, m.blocks[m.tailBlock].(next := nb)).(ring := ring');
            Shaped(m') && RingOk(m')
  {
    hide Live, Gather;
    var t, m' := m.tailPos, Put(m, m.tailBlock, m.blocks[m.tailBlock].(next := nb)).(ring := ring');
    forall i | 0 <= i < |ring'| ensures Linked(m'.blocks, ring', i) {
      assert Linked(m.blocks, m.ring, if i <= t then i else i - 1);
      assert Linked(m.blocks, m.ring, t);
    }
  }

  lemma LinkRoles<T>(m: Memory<T>, nb: nat, ring': seq<nat>)
    requires Shaped(m) && RolesOk(m, false) && nb < |m.blocks|
    requires Inserted(m.ring, m.tailPos, nb, ring')
    ensures var m' := Put(m, m.tailBlock, m.blocks[m.tailBlock].(next := nb)).(ring := ring');
            Shaped(m') && RolesOk(m', true)
  {
    hide Live, Gather;
    var t, m' := m.tailPos, Put(m, m.tailBlock, m.blocks[m.tailBlock].(next := nb)).(ring := ring');
    assert forall b :: 0 <= b < |m.blocks| ==> m'.blocks[b].Ok() && m'.blocks[b].Count() == m.blocks[b].Count();
    forall i | 1 <= i < |ring'| ensures Role(m', true, i) {
      if i != t + 1 {
        var j := if i <= t then i else i - 1;
        assert ring'[i] == m.ring[j];
        assert Role(m, false, j);
      }
    }
  }

  lemma LinkLive<T>(m: Memory<T>, nb: nat, ring': seq<nat>)
    requires Shaped(m) && nb < |m.blocks|
    requires Inserted(m.ring, m.tailPos, nb, ring')
    ensures var m' := Put(m, m.tailBlock, m.blocks[m.tailBlock].(next := nb)).(ring := ring');
            Shaped(m') && Live(m') == Live(m)
  {
    hide Gather;
    var m' := Put(m, m.tailBlock, m.blocks[m.tailBlock].(next := nb)).(ring := ring');
    var ids, b := m.ring[..m.tailPos + 1], m.blocks[m.tailBlock];
    assert ring'[..m.tailPos + 1] == ids;
    assert b.(next := nb).Items() == b.Items();
    GatherSame(m.blocks, m'.blocks, ids);
  }

  lemma ConsumerSeesLink<T>(m: Memory<T>, nb: nat, ring': seq<nat>, c: Consumer<T>)
    requires Shaped(m) && RingOk(m) && nb < |m.blocks| && ConsumerOk(m, c)
    requires Inserted(m.ring, m.tailPos, nb, ring')
    ensures var m' := Put(m, m.tailBlock, m.blocks[m.tailBlock].(next := nb)).(ring := ring');
            Shaped(m') && ConsumerOk(m', c)
  {
    hide Live, Gather;
    assert m.tailPos > 0 ==> ring'[1] == m.ring[1];
  }

  lemma LinkMemory<T>(m: Memory<T>, size: nat, nb: nat, ring': seq<nat>)
    requires MemoryOk(m, false, size) && nb < |m.blocks| && nb !in m.ring
    requires m.blocks[nb].next == m.blocks[m.tailBlock].next
    requires Inserted(m.ring, m.tailPos, nb, ring')
    ensures var m' := Put(m, m.tailBlock, m.blocks[m.tailBlock].(next := nb)).(ring := ring');
            MemoryOk(m', true, size) && ring'[m.tailPos + 1] == nb && nb != m.tailBlock
  {
    hide Live, Gather;
    LinkRing(m, nb, ring');
    LinkRoles(m, nb, ring');
    assert nb != m.tailBlock by { assert m.ring[m.tailPos] == m.tailBlock; }
  }

  lemma StepLinkTail<T>(s: State<T>, size: nat, blank: T, ok: bool)
    requires Inv(s, size) && s.prod.PLinkTail?
    ensures Inv(ProducerStep(s, blank, ok), size)
  {
    hide Live, RingOk, RolesOk, CapacityOk, ShadowsOk;
    var m, nb := s.mem, s.prod.nb;
    var ring' := m.ring[..m.tailPos + 1] + [nb] + m.ring[m.tailPos + 1..];
    InsertHere(m.ring, m.tailPos, nb);
    LinkMemory(m, size, nb, ring');
    LinkLive(m, nb, ring');
    ConsumerSeesLink(m, nb, ring', s.cons);
  }

  /** Every step of the producer keeps the invariant. */
  lemma StepKeeps<T>(s: State<T>, size: nat, blank: T, ok: bool)
    requires Inv(s, size)
    ensures Inv(ProducerStep(s, blank, ok), size)
  {
    hide Live, Gather;
    match s.prod
    case PFront(_, _, _, _, _) => StepFront(s, size, blank, ok);
    case PWrite(_, _, _, _) => StepWrite(s, size, blank, ok);
    case PStoreTail(_, _, _) => StepStoreTail(s, size, blank, ok);
    case PNextFront(_, _) => StepNextFront(s, size, blank, ok);
    case PNextTail(_, _, _) => StepNextTail(s, size, blank, ok);
    case PNextWrite(_, _, _, _) => StepNextWrite(s, size, blank, ok);
    case PNextStoreTail(_, _, _) => StepNextStoreTail(s, size, blank, ok);
    case PStoreTailBlock(_, _) => StepStoreTailBlock(s, size, blank, ok);
    case PAlloc(_, _) => StepAlloc(s, size, blank, ok);
    case PLinkNew(_, _, _) => StepLinkNew(s, size, blank, ok);
    case PLinkTail(_, _, _) => StepLinkTail(s, size, blank, ok);
    case PAborted =>
    case POutside =>
    case _ => StepPrivate(s, size, blank, ok);
  }
}

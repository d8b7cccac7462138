/** Every step of the consumer keeps the invariant. */
module QueueConsumer {
  import opened QueueModel
  import opened QueueInvariant

  lemma StepPrivate<T>(s: State<T>, size: nat)
    requires Inv(s, size)
    requires s.cons.CDone? || s.cons.CStart? || s.cons.CFront? || s.cons.CTailBlock? || s.cons.CReload?
          || s.cons.CReloadFront? || s.cons.CRead? || s.cons.CNext? || s.cons.CNextFront?
    ensures Inv(ConsumerStep(s), size)
  {
    hide Live;
    assert Linked(s.mem.blocks, s.mem.ring, 0);
    assert s.mem.ring[s.mem.tailPos] == s.mem.tailBlock;
  }

  lemma EmptyLive<T>(m: Memory<T>)
    requires Shaped(m) && RingOk(m) && m.tailPos == 0 && m.blocks[m.frontBlock].Count() == 0
    ensures |Live(m)| == 0
  {
    ItemsLength(m.blocks[m.frontBlock]);
    assert m.ring[..1] == [] + [m.frontBlock];
    GatherSnoc(m.blocks, [], m.frontBlock);
  }

  lemma StepTail<T>(s: State<T>, size: nat)
    requires Inv(s, size) && (s.cons.CTail? || s.cons.CReloadTail?)
    ensures Inv(ConsumerStep(s), size)
  {
    hide Live;
    var m, fb := s.mem, s.cons.fb;
    var b := m.blocks[fb];
    PutPrivate(m, s.prod.PStoreTailBlock?, size, fb, b.(localTail := b.tail));
    if m.tailPos == 0 && b.front == b.tail {
      EmptyLive(m);
    }
    ProducerSeesShadow(m, fb, b.tail, s.prod);
  }

  /** The producer reads no localTail. */
  lemma ProducerSeesShadow<T>(m: Memory<T>, fb: nat, t: nat, p: Producer<T>)
    requires Shaped(m) && fb < |m.blocks| && t < m.blocks[fb].Size() && ProducerOk(m, p)
    ensures var m' := Put(m, fb, m.blocks[fb].(localTail := t)); Shaped(m') && ProducerOk(m', p)
  {
    hide Live, Gather, Block.Items, Block.Count, Block.Dist;
    SameItems(m.blocks[fb], t);
  }

  lemma SameItems<T>(b: Block<T>, t: nat)
    requires b.Ok() && t < b.Size()
    ensures var b' := b.(localTail := t);
            b'.Ok() && b'.Items() == b.Items() && b'.Count() == b.Count()
  {
  }

  lemma StepNextTail<T>(s: State<T>, size: nat)
    requires Inv(s, size) && s.cons.CNextTail?
    ensures Inv(ConsumerStep(s), size)
  {
    hide Live, MemoryOk, Advancing, ProducerOk;
    var m, nb := s.mem, s.cons.nb;
    NextShadow(m, s.prod.PStoreTailBlock?, size, nb);
    ProducerSeesShadow(m, nb, m.blocks[nb].tail, s.prod);
  }

  /** The block after a front block that is used up: its shadow index may be renewed. */
  lemma NextShadow<T>(m: Memory<T>, pending: bool, size: nat, nb: nat)
    requires MemoryOk(m, pending, size) && Advancing(m, nb)
    ensures Shaped(m) && nb < |m.blocks| && m.blocks[nb].front != m.blocks[nb].tail
    ensures var b := m.blocks[nb];
            var m' := Put(m, nb, b.(localTail := b.tail));
            && Shaped(m') && MemoryOk(m', pending, size) && Live(m') == Live(m) && Advancing(m', nb)
            && m'.blocks[nb].Dist(b.front, b.tail) <= m'.blocks[nb].Count()
  {
    hide Live;
    assert Role(m, pending, 1);
    PutPrivate(m, pending, size, nb, m.blocks[nb].(localTail := m.blocks[nb].tail));
    assert nb != m.frontBlock;
  }

  lemma GatherCons<T>(blocks: seq<Block<T>>, b: nat, ids: seq<nat>)
    requires forall b :: 0 <= b < |blocks| ==> blocks[b].Ok()
    requires b < |blocks| && forall i :: 0 <= i < |ids| ==> ids[i] < |blocks|
    ensures Gather(blocks, [b] + ids) == blocks[b].Items() + Gather(blocks, ids)
  {
    assert ([b] + ids)[1..] == ids;
  }

  lemma Assoc<T>(a: seq<T>, b: seq<T>, c: seq<T>)
    ensures a + b + c == a + (b + c)
  {
  }

  lemma FrontSlice(ring: seq<nat>, t: nat)
    requires t < |ring|
    ensures ring[..t + 1] == [ring[0]] + ring[1..t + 1]
  {
  }

  /** Storing the front index takes the oldest item off the live part. */
  lemma LivePop<T>(m: Memory<T>, b: Block<T>, m': Memory<T>)
    requires Shaped(m) && RingOk(m) && b == m.blocks[m.frontBlock] && b.Count() > 0
    requires m' == Put(m, m.frontBlock, b.(front := b.After(b.front)))
    ensures Shaped(m') && Live(m) == [b.data[b.front]] + Live(m')
  {
    hide Gather;
    var ids := m.ring[1..m.tailPos + 1];
    FrontSlice(m.ring, m.tailPos);
    GatherCons(m.blocks, m.frontBlock, ids);
    GatherCons(m'.blocks, m.frontBlock, ids);
    assert Gather(m.blocks, ids) == Gather(m'.blocks, ids) by {
      forall i | 0 <= i < |ids| ensures ids[i] < |m.blocks| && m'.blocks[ids[i]] == m.blocks[ids[i]] {
        assert ids[i] == m.ring[i + 1];
      }
      GatherSame(m.blocks, m'.blocks, ids);
    }
    var v, rest, g := b.data[b.front], m'.blocks[m.frontBlock].Items(), Gather(m.blocks, ids);
    assert b.Items() == [v] + rest by { PopFront(b); }
    Assoc([v], rest, g);
  }

  lemma ShadowPop<T>(b: Block<T>, b': Block<T>)
    requires b.Ok() && b.Count() > 0 && b.localTail != b.front && b.Dist(b.front, b.localTail) <= b.Count()
    requires b' == b.(front := b.After(b.front))
    ensures b'.Count() == b.Count() - 1 && b'.Dist(b'.front, b'.localTail) <= b'.Count()
  {
  }

  /** A shorter front block disturbs no step of the producer. */
  lemma ProducerSeesPop<T>(m: Memory<T>, b': Block<T>, p: Producer<T>)
    requires Shaped(m) && RingOk(m) && b'.Ok() && ProducerOk(m, p)
    requires var b := m.blocks[m.frontBlock]; b'.(front := b.front) == b
    ensures Shaped(Put(m, m.frontBlock, b')) && ProducerOk(Put(m, m.frontBlock, b'), p)
  {
    hide Live, Gather;
    assert m.frontBlock == m.ring[0];
  }

  lemma FrontStored<T>(m: Memory<T>, pending: bool, size: nat, b: Block<T>, b': Block<T>)
    requires MemoryOk(m, pending, size) && b == m.blocks[m.frontBlock]
    requires b.Count() > 0 && b.localTail != b.front && b' == b.(front := b.After(b.front))
    ensures MemoryOk(Put(m, m.frontBlock, b'), pending, size)
  {
    hide Live;
    ShadowPop(b, b');
    PutRing(m, m.frontBlock, b');
    assert m.frontBlock == m.ring[0];
    PutRoles(m, pending, pending, m.frontBlock, b');
  }

  lemma StepStoreFront<T>(s: State<T>, size: nat)
    requires Inv(s, size) && s.cons.CStoreFront?
    ensures Inv(ConsumerStep(s), size)
  {
    hide Live;
    var m, fb := s.mem, s.cons.fb;
    var b := m.blocks[fb];
    var b' := b.(front := b.After(b.front));
    var m' := Put(m, fb, b');
    FrontStored(m, s.prod.PStoreTailBlock?, size, b, b');
    ProducerSeesPop(m, b', s.prod);
    LivePop(m, b, m');
    Assoc(s.dequeued, [s.cons.v], Live(m'));
  }

  /** Moving to the next block: the used-up front block becomes the last of the ring. */
  lemma RotateRing<T>(m: Memory<T>, nb: nat)
    requires Shaped(m) && RingOk(m) && m.tailPos > 0 && nb == m.ring[1]
    ensures var m' := m.(frontBlock := nb, ring := m.ring[1..] + [m.ring[0]], tailPos := m.tailPos - 1);
            Shaped(m') && RingOk(m')
  {
    hide Live, Gather;
    var n, ring' := |m.ring|, m.ring[1..] + [m.ring[0]];
    forall i | 0 <= i < n ensures Linked(m.blocks, ring', i) {
      assert Linked(m.blocks, m.ring, NextPos(n, i));
    }
  }

  lemma RotateRoles<T>(m: Memory<T>, pending: bool, nb: nat)
    requires Shaped(m) && RingOk(m) && RolesOk(m, pending) && Advancing(m, nb)
    requires pending ==> m.tailPos + 1 < |m.ring|
    ensures var m' := m.(frontBlock := nb, ring := m.ring[1..] + [m.ring[0]], tailPos := m.tailPos - 1);
            Shaped(m') && RolesOk(m', pending)
  {
    hide Live, Gather;
    var n, ring' := |m.ring|, m.ring[1..] + [m.ring[0]];
    var m' := m.(frontBlock := nb, ring := ring', tailPos := m.tailPos - 1);
    forall i | 1 <= i < n ensures Role(m', pending, i) {
      if i + 1 < n {
        assert ring'[i] == m.ring[i + 1];
        assert Role(m, pending, i + 1);
      } else {
        assert ring'[i] == m.ring[0];
      }
    }
  }

  lemma RotateLive<T>(m: Memory<T>, nb: nat)
    requires Shaped(m) && RingOk(m) && Advancing(m, nb)
    ensures var m' := m.(frontBlock := nb, ring := m.ring[1..] + [m.ring[0]], tailPos := m.tailPos - 1);
            Shaped(m') && Live(m') == Live(m)
  {
    var ring' := m.ring[1..] + [m.ring[0]];
    var all := m.ring[..m.tailPos + 1];
    ItemsLength(m.blocks[m.frontBlock]);
    assert all[0] == m.frontBlock && all[1..] == m.ring[1..m.tailPos + 1] == ring'[..m.tailPos];
  }

  lemma ProducerSeesRotate<T>(m: Memory<T>, nb: nat, p: Producer<T>)
    requires Shaped(m) && RingOk(m) && m.tailPos > 0 && nb == m.ring[1] && ProducerOk(m, p)
    ensures var m' := m.(frontBlock := nb, ring := m.ring[1..] + [m.ring[0]], tailPos := m.tailPos - 1);
            Shaped(m') && ProducerOk(m', p)
  {
    hide Live, Gather;
    var ring' := m.ring[1..] + [m.ring[0]];
    assert forall i :: 0 <= i < |m.ring| - 1 ==> ring'[i] == m.ring[i + 1];
    assert forall b :: b in ring' ==> b in m.ring;
  }

  lemma StepStoreFrontBlock<T>(s: State<T>, size: nat)
    requires Inv(s, size) && s.cons.CStoreFrontBlock?
    ensures Inv(ConsumerStep(s), size)
  {
    hide Live;
    var m, nb := s.mem, s.cons.nb;
    assert Role(m, s.prod.PStoreTailBlock?, 1);
    RotateRing(m, nb);
    RotateRoles(m, s.prod.PStoreTailBlock?, nb);
    RotateLive(m, nb);
    ProducerSeesRotate(m, nb, s.prod);
  }

  /** Every step of the consumer keeps the invariant. */
  lemma StepKeeps<T>(s: State<T>, size: nat)
    requires Inv(s, size)
    ensures Inv(ConsumerStep(s), size)
  {
    hide Live, Gather;
    match s.cons
    case CTail(_, _) => StepTail(s, size);
    case CReloadTail(_) => StepTail(s, size);
    case CNextTail(_, _) => StepNextTail(s, size);
    case CStoreFront(_, _, _) => StepStoreFront(s, size);
    case CStoreFrontBlock(_, _) => StepStoreFrontBlock(s, size);
    case CAborted =>
    case _ => StepPrivate(s, size);
  }
}

/** `size_approx` of Baseline/include/message_queue/readerwriterqueue.h, which LckFreeMQ asks for IsEmpty:
    what its walk adds up while the other thread goes on. */
module QueueWalk {
  import opened QueueModel
  import opened QueueInvariant
  import QueueTheorems
  import QueueProducer

  function Counts<T>(blocks: seq<Block<T>>, ids: seq<nat>): nat
    requires forall b :: 0 <= b < |blocks| ==> blocks[b].Ok()
    requires forall i :: 0 <= i < |ids| ==> ids[i] < |blocks|
  {
    if ids == [] then 0 else blocks[ids[0]].Count() + Counts(blocks, ids[1..])
  }

  lemma {:induction false} CountsSnoc<T>(blocks: seq<Block<T>>, ids: seq<nat>, b: nat)
    requires forall b :: 0 <= b < |blocks| ==> blocks[b].Ok()
    requires forall i :: 0 <= i < |ids| ==> ids[i] < |blocks|
    requires b < |blocks|
    ensures Counts(blocks, ids + [b]) == Counts(blocks, ids) + blocks[b].Count()
  {
    if ids == [] {
      assert ids + [b] == [b] && [b][1..] == [];
    } else {
      assert (ids + [b])[1..] == ids[1..] + [b];
      CountsSnoc(blocks, ids[1..], b);
    }
  }

  /** `size_approx`: walk the `next` pointers once round, adding up the blocks. */
  method SizeApprox<T>(m: Memory<T>) returns (result: nat)
    requires Shaped(m) && RingOk(m)
    ensures result == Counts(m.blocks, m.ring)
  {
    result := 0;
    var block, again := m.frontBlock, true;
    ghost var i := 0;
    while again
      invariant i <= |m.ring| && block < |m.blocks|
      invariant result == Counts(m.blocks, m.ring[..i])
      invariant block == m.ring[if i == |m.ring| then 0 else i]
      invariant again <==> i < |m.ring|
      decreases |m.ring| - i
    {
      result := result + m.blocks[block].Count();
      assert m.ring[..i + 1] == m.ring[..i] + [m.ring[i]];
      CountsSnoc(m.blocks, m.ring[..i], m.ring[i]);
      assert Linked(m.blocks, m.ring, i);
      block := m.blocks[block].next;
      i := i + 1;
      again := block != m.frontBlock;
    }
    assert m.ring[..i] == m.ring;
  }

  /** Behind the tail block only the block that is about to become it holds anything. */
  lemma {:induction false} CountsAre<T>(m: Memory<T>, pending: bool, k: nat)
    requires Shaped(m) && RolesOk(m, pending) && m.tailPos < k <= |m.ring|
    ensures Counts(m.blocks, m.ring[..k]) == |Live(m)| +
            if pending && k > m.tailPos + 1 then m.blocks[m.ring[m.tailPos + 1]].Count() else 0
  {
    var ids := m.ring[..k - 1];
    assert m.ring[..k] == ids + [m.ring[k - 1]];
    CountsSnoc(m.blocks, ids, m.ring[k - 1]);
    if k - 1 == m.tailPos {
      CountsGather(m.blocks, m.ring[..k]);
    } else {
      assert Role(m, pending, k - 1);
      CountsAre(m, pending, k - 1);
    }
  }

  lemma {:induction false} CountsGather<T>(blocks: seq<Block<T>>, ids: seq<nat>)
    requires forall b :: 0 <= b < |blocks| ==> blocks[b].Ok()
    requires forall i :: 0 <= i < |ids| ==> ids[i] < |blocks|
    ensures Counts(blocks, ids) == |Gather(blocks, ids)|
  {
    if ids != [] {
      ItemsLength(blocks[ids[0]]);
      CountsGather(blocks, ids[1..]);
    }
  }

  /** An element that is written but not yet handed over. */
  function Pending<T>(p: Producer<T>): nat {
    if p.PStoreTailBlock? then 1 else 0
  }

  lemma CountsLive<T>(s: State<T>, size: nat)
    requires Inv(s, size)
    ensures Counts(s.mem.blocks, s.mem.ring) == |Live(s.mem)| + Pending(s.prod)
  {
    hide Live;
    var m := s.mem;
    CountsAre(m, s.prod.PStoreTailBlock?, |m.ring|);
    assert m.ring[..|m.ring|] == m.ring;
    if s.prod.PStoreTailBlock? {
      ItemsLength(m.blocks[s.prod.nx]);
    }
  }

  /** Between enqueues, size_approx is the number of queued items. */
  lemma SizeExact<T>(s: State<T>, size: nat)
    requires Inv(s, size) && s.prod.PDone?
    ensures Counts(s.mem.blocks, s.mem.ring) == |s.enqueued| - |s.dequeued| == |Live(s.mem)|
  {
    CountsLive(s, size);
  }

  // ---------------------------------------------------------------- sums of counts

  lemma {:induction false} CountsSplit<T>(blocks: seq<Block<T>>, a: seq<nat>, b: seq<nat>)
    requires forall b :: 0 <= b < |blocks| ==> blocks[b].Ok()
    requires (forall i :: 0 <= i < |a| ==> a[i] < |blocks|) && forall i :: 0 <= i < |b| ==> b[i] < |blocks|
    ensures Counts(blocks, a + b) == Counts(blocks, a) + Counts(blocks, b)
  {
    if a == [] {
      assert a + b == b;
    } else {
      assert (a + b)[1..] == a[1..] + b;
      CountsSplit(blocks, a[1..], b);
    }
  }

  /** No block gets shorter, and none has another front. */
  ghost predicate Grown<T>(blocks: seq<Block<T>>, blocks': seq<Block<T>>) {
    && (forall b :: 0 <= b < |blocks| ==> blocks[b].Ok()) && (forall b :: 0 <= b < |blocks'| ==> blocks'[b].Ok())
    && |blocks| <= |blocks'|
    && forall b :: 0 <= b < |blocks| ==> GrownAt(blocks, blocks', b)
  }

  ghost predicate GrownAt<T>(blocks: seq<Block<T>>, blocks': seq<Block<T>>, b: nat)
    requires b < |blocks| <= |blocks'| && blocks[b].Ok() && blocks'[b].Ok()
  {
    blocks'[b].front == blocks[b].front && blocks'[b].Count() >= blocks[b].Count()
  }

  lemma {:induction false} CountsGrow<T>(blocks: seq<Block<T>>, blocks': seq<Block<T>>, ids: seq<nat>)
    requires Grown(blocks, blocks') && forall i :: 0 <= i < |ids| ==> ids[i] < |blocks|
    ensures Counts(blocks', ids) >= Counts(blocks, ids)
  {
    if ids != [] {
      assert GrownAt(blocks, blocks', ids[0]);
      CountsGrow(blocks, blocks', ids[1..]);
    }
  }

  // ---------------------------------------------------------------- steps of the producer

  /** The ring after a step of the producer: it is as it was, or has a new block behind the tail block. */
  ghost predicate RingGrows<T>(m: Memory<T>, m': Memory<T>) {
    && m'.frontBlock == m.frontBlock && Grown(m.blocks, m'.blocks)
    && (m'.ring == m.ring ||
        (m.tailPos < |m.ring| && |m'.ring| == |m.ring| + 1
         && m'.ring[..m.tailPos + 1] == m.ring[..m.tailPos + 1] && m'.ring[m.tailPos + 2..] == m.ring[m.tailPos + 1..]))
  }

  lemma PutGrows<T>(m: Memory<T>, b: nat, nb: Block<T>)
    requires Shaped(m) && b < |m.blocks|
    requires nb.Ok() && nb.front == m.blocks[b].front && nb.Count() >= m.blocks[b].Count()
    ensures RingGrows(m, Put(m, b, nb))
  {
    hide Block.Count;
    var m' := Put(m, b, nb);
    forall k | 0 <= k < |m.blocks| ensures GrownAt(m.blocks, m'.blocks, k) {
    }
  }

  lemma SameGrows<T>(m: Memory<T>)
    requires Shaped(m)
    ensures RingGrows(m, m)
  {
    forall k | 0 <= k < |m.blocks| ensures GrownAt(m.blocks, m.blocks, k) {
    }
  }

  lemma LinkGrows<T>(m: Memory<T>, nb: nat)
    requires Shaped(m)
    ensures var m' := Put(m, m.tailBlock, m.blocks[m.tailBlock].(next := nb));
            RingGrows(m, m'.(ring := m.ring[..m.tailPos + 1] + [nb] + m.ring[m.tailPos + 1..]))
  {
    var b := m.blocks[m.tailBlock].(next := nb);
    assert b.Count() == m.blocks[m.tailBlock].Count();
    PutGrows(m, m.tailBlock, b);
  }

  lemma AllocGrows<T>(m: Memory<T>, b: Block<T>, largest: nat)
    requires Shaped(m) && b.Ok()
    ensures RingGrows(m, m.(blocks := m.blocks + [b], largestBlockSize := largest))
  {
    forall k | 0 <= k < |m.blocks| ensures GrownAt(m.blocks, m.blocks + [b], k) {
    }
  }

  lemma TailGrows<T>(b: Block<T>)
    requires b.Ok() && b.Count() + 1 < b.Size()
    ensures b.(tail := b.After(b.tail)).Count() == b.Count() + 1
  {
  }

  lemma ProducerGrows<T>(s: State<T>, size: nat, blank: T, ok: bool)
    requires Inv(s, size)
    ensures RingGrows(s.mem, ProducerStep(s, blank, ok).mem)
  {
    hide Live, RingOk, RolesOk, Linked, ConsumerOk, Fifo, RingGrows, CapacityOk;
    var m := s.mem;
    SameGrows(m);
    match s.prod
    case PFront(_, _, tb, _, _) => PutGrows(m, tb, m.blocks[tb].(localFront := m.blocks[tb].front));
    case PWrite(x, tb, bt, _) => PutGrows(m, tb, m.blocks[tb].(data := m.blocks[tb].data[bt := x]));
    case PStoreTail(_, tb, nbt) =>
      TailGrows(m.blocks[tb]);
      PutGrows(m, tb, m.blocks[tb].(tail := nbt));
    case PNextFront(_, nx) => NextGrows(s, size, blank, ok);
    case PNextWrite(_, nx, _, _) => NextGrows(s, size, blank, ok);
    case PNextStoreTail(_, nx, _) => NextGrows(s, size, blank, ok);
    case PAlloc(_, _) =>
      if ok {
        QueueProducer.StepKeeps(s, size, blank, ok);
        var m' := ProducerStep(s, blank, ok).mem;
        AllocGrows(m, m'.blocks[|m.blocks|], m'.largestBlockSize);
      }
    case PLinkNew(_, tb, nb) => PutGrows(m, nb, m.blocks[nb].(next := m.blocks[tb].next));
    case PLinkTail(_, _, nb) => LinkGrows(m, nb);
    case PStoreTailBlock(_, _) => StoreGrows(s, blank, ok);
    case _ =>
  }

  lemma StoreGrows<T>(s: State<T>, blank: T, ok: bool)
    requires Shaped(s.mem) && s.prod.PStoreTailBlock?
    ensures RingGrows(s.mem, ProducerStep(s, blank, ok).mem)
  {
    SameGrows(s.mem);
  }

  /** The steps on the block after a full tail block, which is empty. */
  lemma NextGrows<T>(s: State<T>, size: nat, blank: T, ok: bool)
    requires Inv(s, size) && (s.prod.PNextFront? || s.prod.PNextWrite? || s.prod.PNextStoreTail?)
    ensures RingGrows(s.mem, ProducerStep(s, blank, ok).mem)
  {
    hide Live, ConsumerOk, Fifo, RingGrows;
    var m, nx := s.mem, s.prod.nx;
    assert Role(m, false, m.tailPos + 1);
    var b := m.blocks[nx];
    if s.prod.PNextFront? {
      PutGrows(m, nx, b.(localFront := b.front));
    } else if s.prod.PNextWrite? {
      PutGrows(m, nx, b.(localFront := s.prod.nbf, data := b.data[s.prod.nt := s.prod.x]));
    } else {
      TailGrows(b);
      PutGrows(m, nx, b.(tail := b.After(s.prod.nt)));
    }
  }

  // ---------------------------------------------------------------- the walk, load by load

  /** Where the consumer is inside `size_approx`. */
  datatype Walker =
    | WStart                                                    // load frontBlock
    | WFront(first: nat, block: nat, sum: nat)                  // load block->front
    | WTail(first: nat, block: nat, sum: nat, bf: nat)          // load block->tail, add
    | WNext(first: nat, block: nat, sum: nat)                   // load block->next
    | WDone(sum: nat)

  datatype Walking<T> = Walking(q: State<T>, w: Walker)

  /** Meanwhile the producer may call enqueue or go on with it; the consumer does nothing else. */
  datatype Turn<T> = Calls(x: T, canAlloc: bool) | Moves(allocOk: bool) | Walks

  function WalkStep<T>(m: Memory<T>, w: Walker): Walker
    requires Shaped(m)
  {
    match w
    case WStart => WFront(m.frontBlock, m.frontBlock, 0)
    case WFront(first, block, sum) =>
      if block >= |m.blocks| then w else WTail(first, block, sum, m.blocks[block].front)
    case WTail(first, block, sum, bf) =>
      if block >= |m.blocks| || bf >= m.blocks[block].Size() then w
      else WNext(first, block, sum + m.blocks[block].Dist(bf, m.blocks[block].tail))
    case WNext(first, block, sum) =>
      if block >= |m.blocks| then w
      else if m.blocks[block].next == first then WDone(sum)
      else WFront(first, m.blocks[block].next, sum)
    case WDone(_) => w
  }

  function WalkingStep<T>(k: Walking<T>, t: Turn<T>, blank: T): Walking<T>
    requires Shaped(k.q.mem)
  {
    match t
    case Calls(x, ca) => k.(q := Step(k.q, Enqueue(x, ca), blank))
    case Moves(ok) => k.(q := Step(k.q, StepProducer(ok), blank))
    case Walks => k.(w := WalkStep(k.q.mem, k.w))
  }

  ghost predicate IsWalk<T>(tr: seq<Walking<T>>, ts: seq<Turn<T>>, blank: T) {
    && |tr| == |ts| + 1
    && (forall i :: 0 <= i < |tr| ==> Shaped(tr[i].q.mem))
    && (forall i :: 0 <= i < |ts| ==> Turned(tr, ts, blank, i))
  }

  ghost predicate Turned<T>(tr: seq<Walking<T>>, ts: seq<Turn<T>>, blank: T, i: nat)
    requires i < |ts| && i + 1 < |tr| && Shaped(tr[i].q.mem)
  {
    tr[i + 1] == WalkingStep(tr[i], ts[i], blank)
  }

  // ---------------------------------------------------------------- what the walk keeps

  function Head<T>(m: Memory<T>, i: nat): nat
    requires Shaped(m) && i <= |m.ring|
  {
    Counts(m.blocks, m.ring[..i])
  }

  function Rest<T>(m: Memory<T>, i: nat): nat
    requires Shaped(m) && i <= |m.ring|
  {
    Counts(m.blocks, m.ring[i..])
  }

  /** The walk stands at position i of the ring, and has added up `sum` before it: no more than there is
      by now, and with what is ahead no less than there was at first. */
  ghost predicate Between<T>(m: Memory<T>, i: nat, sum: nat, base: nat)
    requires Shaped(m)
  {
    i <= |m.ring| && sum <= Head(m, i) && base <= sum + Rest(m, i)
  }

  ghost predicate WalkOk<T>(m: Memory<T>, w: Walker, base: nat, i: nat)
    requires Shaped(m)
  {
    match w
    case WStart => Between(m, 0, 0, base)
    case WFront(first, block, sum) =>
      first == m.frontBlock && i < |m.ring| && block == m.ring[i] && Between(m, i, sum, base)
    case WTail(first, block, sum, bf) =>
      && first == m.frontBlock && i < |m.ring| && block == m.ring[i] && Between(m, i, sum, base)
      && bf == m.blocks[block].front
    case WNext(first, block, sum) =>
      first == m.frontBlock && i < |m.ring| && block == m.ring[i] && Between(m, i + 1, sum, base)
    case WDone(sum) => Between(m, |m.ring|, sum, base)
  }

  lemma OneMore<T>(m: Memory<T>, i: nat)
    requires Shaped(m) && i < |m.ring|
    ensures Head(m, i + 1) == Head(m, i) + m.blocks[m.ring[i]].Count()
    ensures Rest(m, i) == m.blocks[m.ring[i]].Count() + Rest(m, i + 1)
  {
    assert m.ring[..i + 1] == m.ring[..i] + [m.ring[i]];
    CountsSnoc(m.blocks, m.ring[..i], m.ring[i]);
    assert m.ring[i..][1..] == m.ring[i + 1..];
  }

  lemma WalkKeeps<T>(m: Memory<T>, w: Walker, base: nat, i: nat) returns (j: nat)
    requires Shaped(m) && RingOk(m) && WalkOk(m, w, base, i)
    ensures WalkOk(m, WalkStep(m, w), base, j)
  {
    hide Head, Rest;
    j := i;
    match w
    case WStart => j := 0;
    case WTail(_, _, _, _) => OneMore(m, i);
    case WNext(_, _, _) =>
      assert Linked(m.blocks, m.ring, i);
      j := if i + 1 < |m.ring| then i + 1 else i;
    case _ =>
  }

  /** Where position i goes when the ring grows. */
  lemma GrownBetween<T>(m: Memory<T>, m': Memory<T>, i: nat, j: nat, sum: nat, base: nat)
    requires Shaped(m) && Shaped(m') && RingGrows(m, m') && i <= |m.ring| && Between(m, i, sum, base)
    requires if m'.ring == m.ring then j == i else (j == i && i <= m.tailPos + 1) || (j == i + 1 && i > m.tailPos)
    ensures Between(m', j, sum, base)
  {
    CountsGrow(m.blocks, m'.blocks, m.ring[..i]);
    CountsGrow(m.blocks, m'.blocks, m.ring[i..]);
    if m'.ring != m.ring {
      RingParts(m, m', i, j);
    }
  }

  lemma Squeezed<T>(blocks: seq<Block<T>>, a: seq<nat>, nb: nat, b: seq<nat>)
    requires forall b :: 0 <= b < |blocks| ==> blocks[b].Ok()
    requires (forall i :: 0 <= i < |a| ==> a[i] < |blocks|) && forall i :: 0 <= i < |b| ==> b[i] < |blocks|
    requires nb < |blocks|
    ensures Counts(blocks, a + ([nb] + b)) >= Counts(blocks, a + b)
  {
    hide Counts, Block.Count, Block.Ok;
    CountsSplit(blocks, a, [nb] + b);
    CountsSplit(blocks, [nb], b);
    CountsSplit(blocks, a, b);
  }

  lemma RingParts<T>(m: Memory<T>, m': Memory<T>, i: nat, j: nat)
    requires Shaped(m) && Shaped(m') && RingGrows(m, m') && i <= |m.ring| && m'.ring != m.ring
    requires (j == i && i <= m.tailPos + 1) || (j == i + 1 && i > m.tailPos)
    ensures j <= |m'.ring| && Counts(m'.blocks, m'.ring[..j]) >= Counts(m'.blocks, m.ring[..i])
    ensures Counts(m'.blocks, m'.ring[j..]) >= Counts(m'.blocks, m.ring[i..])
  {
    hide Block.Count, Block.Ok, GrownAt, Counts;
    var t, nb := m.tailPos + 1, m'.ring[m.tailPos + 1];
    Slices(m.ring, m'.ring, t, i, j);
    if j == i {
      Squeezed(m'.blocks, m.ring[i..t], nb, m.ring[t..]);
    } else {
      Squeezed(m'.blocks, m.ring[..t], nb, m.ring[t..i]);
    }
  }

  /** r is ring with one element put in at t. */
  lemma Slices(ring: seq<nat>, r: seq<nat>, t: nat, i: nat, j: nat)
    requires t <= |ring| && |r| == |ring| + 1 && r[..t] == ring[..t] && r[t + 1..] == ring[t..] && i <= |ring|
    requires (j == i && i <= t) || (j == i + 1 && i >= t)
    ensures j == i ==> r[..j] == ring[..i] && ring[i..] == ring[i..t] + ring[t..]
                       && r[j..] == ring[i..t] + ([r[t]] + ring[t..])
    ensures j != i ==> r[j..] == ring[i..] && ring[..i] == ring[..t] + ring[t..i]
                       && r[..j] == ring[..t] + ([r[t]] + ring[t..i])
  {
    assert forall k :: 0 <= k < t ==> r[k] == r[..t][k] == ring[k];
    assert forall k :: t < k < |r| ==> r[k] == r[t + 1..][k - t - 1] == ring[k - 1];
  }

  lemma GrowsKeeps<T>(m: Memory<T>, m': Memory<T>, w: Walker, base: nat, i: nat) returns (j: nat)
    requires Shaped(m) && Shaped(m') && RingGrows(m, m') && WalkOk(m, w, base, i)
    ensures WalkOk(m', w, base, j)
  {
    hide Between;
    j := if m'.ring == m.ring || i <= m.tailPos then i else i + 1;
    match w
    case WStart => GrownBetween(m, m', 0, 0, 0, base);
    case WFront(_, _, sum) =>
      GrownBetween(m, m', i, j, sum, base);
      SameBlock(m, m', i, j);
    case WTail(_, block, sum, _) =>
      GrownBetween(m, m', i, j, sum, base);
      SameBlock(m, m', i, j);
      assert GrownAt(m.blocks, m'.blocks, block);
    case WNext(_, _, sum) =>
      GrownBetween(m, m', i + 1, j + 1, sum, base);
      SameBlock(m, m', i, j);
    case WDone(sum) =>
      GrownBetween(m, m', |m.ring|, |m'.ring|, sum, base);
  }

  lemma SameBlock<T>(m: Memory<T>, m': Memory<T>, i: nat, j: nat)
    requires RingGrows(m, m') && i < |m.ring| && j == if m'.ring == m.ring || i <= m.tailPos then i else i + 1
    ensures j < |m'.ring| && m'.ring[j] == m.ring[i]
  {
    if m'.ring != m.ring {
      var t := m.tailPos + 1;
      if i < t {
        assert m'.ring[..t][i] == m.ring[..t][i];
      } else {
        assert m'.ring[t + 1..][i - t] == m.ring[t..][i - t];
      }
    }
  }

  lemma TurnKeeps<T>(k: Walking<T>, t: Turn<T>, blank: T, size: nat, base: nat, i: nat) returns (j: nat)
    requires Inv(k.q, size) && WalkOk(k.q.mem, k.w, base, i)
    ensures var r := WalkingStep(k, t, blank); Inv(r.q, size) && WalkOk(r.q.mem, r.w, base, j)
  {
    hide Live, RingOk, RolesOk, CapacityOk, ProducerOk, ConsumerOk, WalkOk, RingGrows;
    match t
    case Calls(x, ca) =>
      QueueTheorems.StepKeeps(k.q, size, Enqueue(x, ca), blank);
      j := i;
    case Moves(ok) =>
      QueueTheorems.StepKeeps(k.q, size, StepProducer(ok), blank);
      ProducerGrows(k.q, size, blank, ok);
      j := GrowsKeeps(k.q.mem, ProducerStep(k.q, blank, ok).mem, k.w, base, i);
    case Walks => j := WalkKeeps(k.q.mem, k.w, base, i);
  }

  lemma {:induction false} WalkRun<T>(tr: seq<Walking<T>>, ts: seq<Turn<T>>, blank: T, size: nat, n: nat)
    returns (j: nat)
    requires IsWalk(tr, ts, blank) && n < |tr| && Inv(tr[0].q, size) && tr[0].w == WStart
    ensures Inv(tr[n].q, size) && WalkOk(tr[n].q.mem, tr[n].w, |Live(tr[0].q.mem)|, j)
  {
    hide Inv, WalkOk, WalkingStep;
    if n == 0 {
      StartsOk(tr[0].q, size);
      j := 0;
    } else {
      j := WalkRun(tr, ts, blank, size, n - 1);
      assert Turned(tr, ts, blank, n - 1);
      j := TurnKeeps(tr[n - 1], ts[n - 1], blank, size, |Live(tr[0].q.mem)|, j);
    }
  }

  lemma StartsOk<T>(s: State<T>, size: nat)
    requires Inv(s, size)
    ensures WalkOk(s.mem, WStart, |Live(s.mem)|, 0)
  {
    CountsLive(s, size);
    assert s.mem.ring[0..] == s.mem.ring && s.mem.ring[..0] == [];
  }

  /** A walk by the consumer while the producer goes on: the result is at least what was queued when the
      walk began and at most what is queued when it ends, with an element that is being handed over. */
  lemma SizeApproxBounds<T>(tr: seq<Walking<T>>, ts: seq<Turn<T>>, blank: T, size: nat, n: nat)
    requires IsWalk(tr, ts, blank) && n < |tr| && Inv(tr[0].q, size) && tr[0].w == WStart && tr[n].w.WDone?
    ensures |Live(tr[0].q.mem)| <= tr[n].w.sum <= |Live(tr[n].q.mem)| + Pending(tr[n].q.prod)
  {
    hide Live, Inv;
    var j := WalkRun(tr, ts, blank, size, n);
    CountsLive(tr[n].q, size);
    var m := tr[n].q.mem;
    assert m.ring[..|m.ring|] == m.ring && m.ring[|m.ring|..] == [];
  }
}

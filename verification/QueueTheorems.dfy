/** What the queue promises, over every run. */
module QueueTheorems {
  import opened QueueModel
  import opened QueueInvariant
  import QueueProducer
  import QueueConsumer

  /** tr lists the states of a run of the queue whose i-th event is es[i]. */
  ghost predicate IsRun<T>(tr: seq<State<T>>, es: seq<Event<T>>, blank: T) {
    && |tr| == |es| + 1
    && (forall i :: 0 <= i < |tr| ==> Shaped(tr[i].mem))
    && (forall i :: 0 <= i < |es| ==> Steps(tr, es, blank, i))
  }

  ghost predicate Steps<T>(tr: seq<State<T>>, es: seq<Event<T>>, blank: T, i: nat)
    requires i < |es| && i + 1 < |tr| && Shaped(tr[i].mem)
  {
    tr[i + 1] == Step(tr[i], es[i], blank)
  }

  lemma StepKeeps<T>(s: State<T>, size: nat, e: Event<T>, blank: T)
    requires Inv(s, size)
    ensures Inv(Step(s, e, blank), size)
  {
    hide Live;
    match e
    case Enqueue(_, _) =>
    case StepProducer(ok) => QueueProducer.StepKeeps(s, size, blank, ok);
    case Dequeue =>
    case StepConsumer => QueueConsumer.StepKeeps(s, size);
  }

  lemma InitialBlocksExact(size: nat, maxBlockSize: BlockLimit)
    requires 1 <= size < HALF
    ensures FirstBlockSize(size, maxBlockSize) >= 2
  {
    assert CeilToPow2(size + 1) >= size + 1 && size + 1 <= HALF;
  }

  lemma InitShape<T>(size: nat, maxBlockSize: BlockLimit, blank: T, i: nat)
    requires i < InitialBlocks(size, maxBlockSize)
    ensures var m, n := Init(size, maxBlockSize, blank).mem, InitialBlocks(size, maxBlockSize);
            && |m.blocks| == |m.ring| == n && m.ring[i] == i
            && m.blocks[i] == NewBlock(FirstBlockSize(size, maxBlockSize), NextPos(n, i), blank)
  {
  }

  lemma InitMemory<T>(size: nat, maxBlockSize: BlockLimit, blank: T)
    ensures var m := Init(size, maxBlockSize, blank).mem; Shaped(m) && RingOk(m) && RolesOk(m, false)
  {
    var m := Init(size, maxBlockSize, blank).mem;
    forall i | 0 <= i < InitialBlocks(size, maxBlockSize)
      ensures m.ring[i] == i && m.blocks[i].Ok() && m.blocks[i].Count() == 0 && m.blocks[i].next == NextPos(|m.ring|, i)
    {
      InitShape(size, maxBlockSize, blank, i);
    }
  }

  /** A queue built for at least one element, and fewer than half a word of them, satisfies the invariant. */
  lemma InitOk<T>(size: nat, maxBlockSize: BlockLimit, blank: T)
    requires 1 <= size < HALF
    ensures Inv(Init(size, maxBlockSize, blank), size)
  {
    hide Gather;
    var m := Init(size, maxBlockSize, blank).mem;
    InitMemory(size, maxBlockSize, blank);
    InitialBlocksExact(size, maxBlockSize);
    forall i | 0 <= i < |m.blocks| ensures m.blocks[i].Size() == FirstBlockSize(size, maxBlockSize) {
      InitShape(size, maxBlockSize, blank, i);
    }
    InitShape(size, maxBlockSize, blank, 0);
    QueueConsumer.EmptyLive(m);
  }

  lemma At<T>(tr: seq<State<T>>, es: seq<Event<T>>, blank: T, i: nat) returns (s: State<T>)
    requires IsRun(tr, es, blank) && i < |es|
    ensures s == tr[i] && Shaped(s.mem) && tr[i + 1] == Step(s, es[i], blank)
  {
    s := tr[i];
    assert Steps(tr, es, blank, i);
  }

  lemma {:induction false} RunKeeps<T>(tr: seq<State<T>>, es: seq<Event<T>>, blank: T, size: nat, i: nat)
    requires IsRun(tr, es, blank) && i < |tr| && Inv(tr[0], size)
    ensures Inv(tr[i], size)
  {
    hide Inv, Step;
    if i > 0 {
      var s := At(tr, es, blank, i - 1);
      RunKeeps(tr, es, blank, size, i - 1);
      StepKeeps(s, size, es[i - 1], blank);
    }
  }

  /** First in, first out, nothing lost and nothing twice, at every instant of every interleaving;
      and neither assertion of the block hand-off fails, nor is an element written outside a block. */
  lemma FirstInFirstOut<T>(tr: seq<State<T>>, es: seq<Event<T>>, blank: T, size: nat, maxBlockSize: BlockLimit, i: nat)
    requires 1 <= size < HALF
    requires IsRun(tr, es, blank) && tr[0] == Init(size, maxBlockSize, blank) && i < |tr|
    ensures tr[i].enqueued == tr[i].dequeued + Live(tr[i].mem)
    ensures !tr[i].prod.PAborted? && !tr[i].prod.POutside? && !tr[i].cons.CAborted?
  {
    hide Live, RingOk, RolesOk, CapacityOk, Shaped, QueueModel.Init;
    InitOk(size, maxBlockSize, blank);
    RunKeeps(tr, es, blank, size, i);
  }

  // ---------------------------------------------------------------- failing calls

  lemma EmptyStep<T>(s: State<T>, e: Event<T>, blank: T)
    requires Shaped(s.mem) && Step(s, e, blank).cons.CTailBlock? && Step(s, e, blank).cons.sawEmpty
    ensures (s.cons.CTailBlock? && s.cons.sawEmpty) || (s.cons.CTail? && |Live(s.mem)| == 0)
  {
    hide Live;
  }

  /** While the consumer stands before its second look at the tail block, the instant at which it
      found the front block empty is the last step before. */
  lemma {:induction false} EmptyInstant<T>(tr: seq<State<T>>, es: seq<Event<T>>, blank: T, size: nat,
      i: nat) returns (k: nat)
    requires IsRun(tr, es, blank) && i < |tr| && tr[0].cons.CDone?
    requires tr[i].cons.CTailBlock? && tr[i].cons.sawEmpty
    ensures k < i && tr[k].cons.CTail? && |Live(tr[k].mem)| == 0
    ensures forall j :: k < j <= i ==> tr[j].cons.CTailBlock?
  {
    hide Step, Live;
    var s := At(tr, es, blank, i - 1);
    EmptyStep(s, es[i - 1], blank);
    if s.cons.CTailBlock? {
      k := EmptyInstant(tr, es, blank, size, i - 1);
    } else {
      k := i - 1;
    }
  }

  /** A thread's step leaves the other thread's state alone. */
  lemma StaysApart<T>(s: State<T>, blank: T, ok: bool)
    requires Shaped(s.mem)
    ensures ProducerStep(s, blank, ok).cons == s.cons && ConsumerStep(s).prod == s.prod
  {
  }

  lemma FailedStep<T>(s: State<T>, size: nat, e: Event<T>, blank: T)
    requires Inv(s, size) && !s.cons.CDone? && Step(s, e, blank).cons == CDone([])
    ensures s.cons.CTailBlock? && s.cons.sawEmpty
  {
    hide Live, RolesOk, CapacityOk, ProducerOk, ProducerStep;
    if e.StepProducer? {
      StaysApart(s, blank, e.allocOk);
    }
    assert s.mem.ring[s.mem.tailPos] == s.mem.tailBlock;
  }

  /** try_dequeue returns false only if at some instant of that call the queue held nothing. */
  lemma FailedDequeueSawEmpty<T>(tr: seq<State<T>>, es: seq<Event<T>>, blank: T, size: nat, maxBlockSize: BlockLimit,
                                 i: nat)
    returns (k: nat)
    requires 1 <= size < HALF
    requires IsRun(tr, es, blank) && tr[0] == Init(size, maxBlockSize, blank) && i + 1 < |tr|
    requires !tr[i].cons.CDone? && tr[i + 1].cons == CDone([])
    ensures k < i && tr[k].dequeued == tr[k].enqueued
    ensures forall j :: k <= j <= i ==> !tr[j].cons.CDone?
  {
    hide Step, Live, ProducerOk, ConsumerOk, RingOk, RolesOk, CapacityOk;
    InitOk(size, maxBlockSize, blank);
    RunKeeps(tr, es, blank, size, i);
    var s := At(tr, es, blank, i);
    FailedStep(s, size, es[i], blank);
    k := EmptyInstant(tr, es, blank, size, i);
    FirstInFirstOut(tr, es, blank, size, maxBlockSize, k);
    assert tr[k].dequeued + [] == tr[k].dequeued;
  }

  // ---------------------------------------------------------------- capacity

  /** The sizes chosen by the constructor leave room for `size` elements outside one block. */
  lemma EnoughRoom(size: nat, maxBlockSize: BlockLimit, n: nat)
    requires size < HALF && n >= InitialBlocks(size, maxBlockSize)
    ensures n == 1 ==> FirstBlockSize(size, maxBlockSize) - 1 >= size
    ensures n >= 2 ==> (n - 1) * (FirstBlockSize(size, maxBlockSize) - 1) >= size
  {
    var unit, q := FirstBlockSize(size, maxBlockSize) - 1, InitialBlocks(size, maxBlockSize);
    if Rounded(Increment(size)) > 2 * maxBlockSize {
      DivisionFloor(size + maxBlockSize * 2 - 3, unit);
      assert q * unit >= size + unit;
      assert (n - 1) * unit >= (q - 1) * unit by { Monotone(q - 1, n - 1, unit); }
      assert (q - 1) * unit == q * unit - unit;
    } else if n >= 2 {
      Monotone(1, n - 1, unit);
    }
  }

  lemma DivisionFloor(a: nat, b: nat)
    requires b >= 1
    ensures (a / b) * b + b > a
  {
  }

  lemma Monotone(a: nat, b: nat, c: nat)
    requires a <= b
    ensures a * c <= b * c
  {
  }

  lemma {:induction false} GatherAtLeast<T>(blocks: seq<Block<T>>, ids: seq<nat>, unit: nat)
    requires forall b :: 0 <= b < |blocks| ==> blocks[b].Ok()
    requires forall i :: 0 <= i < |ids| ==> ids[i] < |blocks| && blocks[ids[i]].Count() >= unit
    ensures |Gather(blocks, ids)| >= |ids| * unit
  {
    if ids != [] {
      ItemsLength(blocks[ids[0]]);
      GatherAtLeast(blocks, ids[1..], unit);
      assert |ids| * unit == unit + (|ids| - 1) * unit;
    }
  }

  lemma BehindFull<T>(m: Memory<T>, size: nat, i: nat)
    requires MemoryOk(m, false, size) && TailFull(m) && 1 <= i <= m.tailPos
    ensures i < |m.ring| && m.ring[i] < |m.blocks|
    ensures m.blocks[m.ring[i]].Count() >= FirstBlockSize(size, m.maxBlockSize) - 1
  {
    hide Gather, FirstBlockSize, InitialBlocks;
    assert Role(m, false, i);
  }

  /** When the block after the full tail block is the front block, every other block is full. */
  lemma RingFull<T>(m: Memory<T>, size: nat)
    requires MemoryOk(m, false, size) && TailFull(m) && m.blocks[m.tailBlock].next == m.frontBlock && |m.ring| >= 2
    ensures |Live(m)| >= size
  {
    hide Gather, Role, Block.Count, Block.Items, FirstBlockSize, InitialBlocks, Rounded;
    var n, unit := |m.ring|, FirstBlockSize(size, m.maxBlockSize) - 1;
    assert m.tailPos == n - 1 by { assert Linked(m.blocks, m.ring, m.tailPos); }
    var ids := m.ring[1..n];
    assert |Gather(m.blocks, ids)| >= (n - 1) * unit by {
      forall i | 0 <= i < |ids| ensures ids[i] < |m.blocks| && m.blocks[ids[i]].Count() >= unit {
        assert ids[i] == m.ring[i + 1];
        BehindFull(m, size, i + 1);
      }
      GatherAtLeast(m.blocks, ids, unit);
    }
    QueueConsumer.FrontSlice(m.ring, m.tailPos);
    QueueConsumer.GatherCons(m.blocks, m.frontBlock, ids);
    SizeBelowHalf(size, m.maxBlockSize);
    EnoughRoom(size, m.maxBlockSize, n);
  }

  lemma SizeBelowHalf(size: nat, maxBlockSize: BlockLimit)
    requires FirstBlockSize(size, maxBlockSize) >= 2
    ensures size < HALF
  {
  }

  ghost predicate Remembers<T>(p: Producer<T>, seen: nat) {
    (p.PNext? || p.PFrontBlock?) && p.seen == seen
  }

  lemma SeenStep<T>(s: State<T>, e: Event<T>, blank: T)
    requires Shaped(s.mem)
    requires var p := Step(s, e, blank).prod; p.PNext? || p.PFrontBlock?
    ensures var seen := Step(s, e, blank).prod.seen;
            Remembers(s.prod, seen) || (s.prod.PFront? && |Live(s.mem)| == seen)
  {
    hide Live;
  }

  lemma {:induction false} SeenInstant<T>(tr: seq<State<T>>, es: seq<Event<T>>, blank: T, i: nat) returns (k: nat)
    requires IsRun(tr, es, blank) && i < |tr| && tr[0].prod.PDone?
    requires tr[i].prod.PNext? || tr[i].prod.PFrontBlock?
    ensures k < i && tr[k].prod.PFront? && |Live(tr[k].mem)| == tr[i].prod.seen
    ensures forall j :: k <= j <= i ==> !tr[j].prod.PDone?
  {
    hide Step, Live;
    var s := At(tr, es, blank, i - 1);
    SeenStep(s, es[i - 1], blank);
    if s.prod.PFront? {
      k := i - 1;
    } else {
      k := SeenInstant(tr, es, blank, i - 1);
    }
  }

  lemma RefusedStep<T>(s: State<T>, size: nat, e: Event<T>, blank: T)
    requires Inv(s, size) && !s.prod.PDone? && !s.prod.PAlloc? && Step(s, e, blank).prod == PDone(false)
    ensures s.prod.PFrontBlock? && s.mem.blocks[s.mem.tailBlock].next == s.mem.frontBlock
  {
    hide Live, RolesOk, CapacityOk, ConsumerOk, ConsumerStep;
    StaysApart(s, blank, true);
  }

  /** try_enqueue returns false only if at some instant of that call the queue held at least as
      many elements as it was built for. */
  lemma FailedEnqueueSawFull<T>(tr: seq<State<T>>, es: seq<Event<T>>, blank: T, size: nat, maxBlockSize: BlockLimit,
                                i: nat)
    returns (k: nat)
    requires 1 <= size < HALF
    requires IsRun(tr, es, blank) && tr[0] == Init(size, maxBlockSize, blank) && i + 1 < |tr|
    requires !tr[i].prod.PDone? && !tr[i].prod.PAlloc? && tr[i + 1].prod == PDone(false)
    ensures k <= i && |Live(tr[k].mem)| >= size
    ensures forall j :: k <= j <= i ==> !tr[j].prod.PDone?
  {
    hide Step, Live, ProducerStep, ConsumerOk, RolesOk;
    InitOk(size, maxBlockSize, blank);
    RunKeeps(tr, es, blank, size, i);
    var s := At(tr, es, blank, i);
    RefusedStep(s, size, es[i], blank);
    var m := s.mem;
    if |m.ring| >= 2 {
      RingFull(m, size);
      k := i;
    } else {
      k := SeenInstant(tr, es, blank, i);
      EnoughRoom(size, m.maxBlockSize, 1);
    }
  }
}

/** What the calls of the queue return: which of them may allocate, when an element is taken or refused,
    and how much a queue that never allocates can hold. */
module QueueBounded {
  import opened Basics
  import opened QueueModel
  import opened QueueInvariant
  import opened QueueTheorems

  /** Between i and k one call of enqueue or try_enqueue runs, with the steps of the consumer anywhere. */
  ghost predicate EnqueueCall<T>(tr: seq<State<T>>, es: seq<Event<T>>, i: nat, k: nat) {
    && i < k < |tr| && |tr| == |es| + 1 && es[i].Enqueue? && tr[i].prod.PDone? && tr[k].prod.PDone?
    && forall j :: i < j < k ==> !tr[j].prod.PDone?
  }

  /** The same of try_dequeue. */
  ghost predicate DequeueCall<T>(tr: seq<State<T>>, es: seq<Event<T>>, i: nat, k: nat) {
    && i < k < |tr| && |tr| == |es| + 1 && es[i].Dequeue? && tr[i].cons.CDone? && tr[k].cons.CDone?
    && forall j :: i < j < k ==> !tr[j].cons.CDone?
  }

  // ----- what comes out of a call -----

  /** The producer is about to enqueue x. */
  ghost predicate Holding<T>(p: Producer<T>, x: T) {
    match p
    case PDone(_) => false
    case PAborted => false
    case POutside => false
    case _ => p.x == x
  }

  lemma HoldingStep<T>(s: State<T>, e: Event<T>, blank: T, x: T)
    requires Shaped(s.mem) && Holding(s.prod, x)
    ensures var t := Step(s, e, blank);
            if t.prod.PDone? then t.enqueued == s.enqueued + (if t.prod.ok then [x] else [])
            else t.enqueued == s.enqueued && (Holding(t.prod, x) || t.prod.PAborted? || t.prod.POutside?)
  {
    hide Shaped, Live, Put, NewBlock, Block.After, Block.Ok, Block.Capacity;
    assert s.enqueued + [] == s.enqueued;
  }

  lemma {:induction false} HoldsOn<T>(tr: seq<State<T>>, es: seq<Event<T>>, blank: T, i: nat, k: nat, j: nat)
    requires IsRun(tr, es, blank) && EnqueueCall(tr, es, i, k) && i < j < k
    ensures tr[j].enqueued == tr[i].enqueued
    ensures Holding(tr[j].prod, es[i].x) || tr[j].prod.PAborted? || tr[j].prod.POutside?
  {
    hide Step, Shaped;
    if j == i + 1 {
      var s := At(tr, es, blank, i);
      EnqueueBegins(s, es[i], blank);
    } else {
      HoldsOn(tr, es, blank, i, k, j - 1);
      var s := At(tr, es, blank, j - 1);
      if Holding(s.prod, es[i].x) {
        HoldingStep(s, es[j - 1], blank, es[i].x);
      } else {
        StuckStep(s, es[j - 1], blank);
      }
    }
  }

  lemma EnqueueBegins<T>(s: State<T>, e: Event<T>, blank: T)
    requires Shaped(s.mem) && e.Enqueue? && s.prod.PDone?
    ensures Step(s, e, blank) == s.(prod := PStart(e.x, e.canAlloc))
  {
  }

  lemma StuckStep<T>(s: State<T>, e: Event<T>, blank: T)
    requires Shaped(s.mem) && (s.prod.PAborted? || s.prod.POutside?)
    ensures Step(s, e, blank).prod == s.prod && Step(s, e, blank).enqueued == s.enqueued
  {
    hide Shaped, Live, Put, Block.After, Block.Ok;
  }

  /** A call that returns true has enqueued just its element, one that returns false nothing. */
  lemma EnqueueReturns<T>(tr: seq<State<T>>, es: seq<Event<T>>, blank: T, i: nat, k: nat)
    requires IsRun(tr, es, blank) && EnqueueCall(tr, es, i, k)
    ensures tr[k].enqueued == tr[i].enqueued + if tr[k].prod.ok then [es[i].x] else []
  {
    hide Step, Shaped;
    var s := At(tr, es, blank, k - 1);
    if k == i + 1 {
      EnqueueBegins(s, es[i], blank);
    } else {
      HoldsOn(tr, es, blank, i, k, k - 1);
      if Holding(s.prod, es[i].x) {
        HoldingStep(s, es[k - 1], blank, es[i].x);
      } else {
        StuckStep(s, es[k - 1], blank);
      }
    }
  }

  lemma DequeueStep<T>(s: State<T>, e: Event<T>, blank: T)
    requires Shaped(s.mem) && !s.cons.CDone?
    ensures var t := Step(s, e, blank);
            t.dequeued == s.dequeued + if t.cons.CDone? then t.cons.result else []
  {
    hide Shaped, Live, Put, NewBlock, Block.After, Block.Ok, Block.Capacity;
    assert s.dequeued + [] == s.dequeued;
  }

  lemma {:induction false} DequeueRuns<T>(tr: seq<State<T>>, es: seq<Event<T>>, blank: T, i: nat, k: nat, j: nat)
    requires IsRun(tr, es, blank) && DequeueCall(tr, es, i, k) && i < j < k
    ensures tr[j].dequeued == tr[i].dequeued
  {
    hide Step, Shaped;
    var s := At(tr, es, blank, j - 1);
    if j == i + 1 {
      DequeueBegins(s, es[i], blank);
    } else {
      DequeueRuns(tr, es, blank, i, k, j - 1);
      DequeueStep(s, es[j - 1], blank);
    }
  }

  lemma DequeueBegins<T>(s: State<T>, e: Event<T>, blank: T)
    requires Shaped(s.mem) && e.Dequeue? && s.cons.CDone?
    ensures Step(s, e, blank) == s.(cons := CStart)
  {
  }

  /** What try_dequeue gives back has been dequeued, and nothing else has. */
  lemma DequeueReturns<T>(tr: seq<State<T>>, es: seq<Event<T>>, blank: T, i: nat, k: nat)
    requires IsRun(tr, es, blank) && DequeueCall(tr, es, i, k)
    ensures tr[k].dequeued == tr[i].dequeued + tr[k].cons.result
  {
    hide Step, Shaped;
    var s := At(tr, es, blank, k - 1);
    if k == i + 1 {
      DequeueBegins(s, es[i], blank);
    } else {
      DequeueRuns(tr, es, blank, i, k, k - 1);
      DequeueStep(s, es[k - 1], blank);
    }
  }

  // ----- a queue that never allocates -----

  /** Only try_enqueue is called. */
  ghost predicate NeverAllocates<T>(es: seq<Event<T>>) {
    forall i :: 0 <= i < |es| && es[i].Enqueue? ==> !es[i].canAlloc
  }

  /** The producer is in a call that may allocate only if `ca`. */
  predicate Flag<T>(p: Producer<T>, ca: bool) {
    match p
    case PStart(_, a) => a == ca
    case PTail(_, a, _) => a == ca
    case PFront(_, a, _, _, _) => a == ca
    case PNext(_, a, _, _) => a == ca
    case PFrontBlock(_, a, _, _, _) => a == ca
    case PAlloc(_, _) => ca
    case PLinkNew(_, _, _) => ca
    case PLinkTail(_, _, _) => ca
    case _ => true
  }

  /** The blocks are as many and as large as they were. */
  ghost predicate SameBlocks<T>(m: Memory<T>, n: Memory<T>) {
    && |n.blocks| == |m.blocks| && |n.ring| == |m.ring|
    && forall b :: 0 <= b < |m.blocks| ==> n.blocks[b].Size() == m.blocks[b].Size()
  }

  lemma FlagStep<T>(s: State<T>, e: Event<T>, blank: T, ca: bool)
    requires Shaped(s.mem) && Flag(s.prod, ca) && (e.Enqueue? ==> e.canAlloc == ca)
    ensures Flag(Step(s, e, blank).prod, ca)
  {
    hide Live, Put, NewBlock, Block.After, Block.Ok, Block.Capacity, Shaped;
  }

  lemma BlocksStep<T>(s: State<T>, e: Event<T>, blank: T)
    requires Shaped(s.mem) && !(e.StepProducer? && (s.prod.PAlloc? || s.prod.PLinkTail?))
    ensures SameBlocks(s.mem, Step(s, e, blank).mem)
  {
    hide Live, Block.After, Block.Ok, NewBlock;
  }

  lemma {:induction false} BlocksStay<T>(tr: seq<State<T>>, es: seq<Event<T>>, blank: T, i: nat)
    requires IsRun(tr, es, blank) && NeverAllocates(es) && tr[0].prod.PDone? && i < |tr|
    ensures Flag(tr[i].prod, false) && SameBlocks(tr[0].mem, tr[i].mem)
  {
    hide Step, Shaped;
    if i > 0 {
      BlocksStay(tr, es, blank, i - 1);
      var s := At(tr, es, blank, i - 1);
      FlagStep(s, es[i - 1], blank, false);
      BlocksStep(s, es[i - 1], blank);
    }
  }

  lemma {:induction false} GatherAtMost<T>(blocks: seq<Block<T>>, ids: seq<nat>, unit: nat)
    requires forall b :: 0 <= b < |blocks| ==> blocks[b].Ok() && blocks[b].Size() == unit + 1
    requires forall i :: 0 <= i < |ids| ==> ids[i] < |blocks|
    ensures |Gather(blocks, ids)| <= |ids| * unit
  {
    hide Block.Items;
    if ids != [] {
      ItemsLength(blocks[ids[0]]);
      assert blocks[ids[0]].Count() <= unit;
      hide Block.Count, Block.Ok;
      GatherAtMost(blocks, ids[1..], unit);
      assert |ids| * unit == unit + (|ids| - 1) * unit;
    }
  }

  lemma InitBlocks<T>(size: nat, maxBlockSize: BlockLimit, blank: T)
    requires 1 <= size < HALF
    ensures Init(size, maxBlockSize, blank).prod.PDone?
    ensures var m := Init(size, maxBlockSize, blank).mem;
            && |m.blocks| == |m.ring| == InitialBlocks(size, maxBlockSize) && FirstBlockSize(size, maxBlockSize) >= 2
            && forall b :: 0 <= b < |m.blocks| ==> m.blocks[b].Size() == FirstBlockSize(size, maxBlockSize)
  {
    hide InitialBlocks, FirstBlockSize;
    InitialBlocksExact(size, maxBlockSize);
    forall b | 0 <= b < InitialBlocks(size, maxBlockSize)
      ensures Init(size, maxBlockSize, blank).mem.blocks[b].Size() == FirstBlockSize(size, maxBlockSize)
    {
      InitShape(size, maxBlockSize, blank, b);
    }
    InitShape(size, maxBlockSize, blank, 0);
  }

  /** A queue of which only try_enqueue is called keeps the blocks it was built with, however the threads
      interleave; and never holds more than they have room for. */
  lemma NeverGrows<T>(tr: seq<State<T>>, es: seq<Event<T>>, blank: T, size: nat, maxBlockSize: BlockLimit, i: nat)
    requires 1 <= size < HALF
    requires IsRun(tr, es, blank) && tr[0] == Init(size, maxBlockSize, blank) && NeverAllocates(es) && i < |tr|
    ensures |tr[i].mem.blocks| == InitialBlocks(size, maxBlockSize)
    ensures forall b :: 0 <= b < |tr[i].mem.blocks| ==> tr[i].mem.blocks[b].Size() == FirstBlockSize(size, maxBlockSize)
    ensures |Live(tr[i].mem)| <= InitialBlocks(size, maxBlockSize) * (FirstBlockSize(size, maxBlockSize) - 1)
  {
    hide InitialBlocks, FirstBlockSize, QueueModel.Init, Gather;
    InitBlocks(size, maxBlockSize, blank);
    BlocksStay(tr, es, blank, i);
    var m, unit := tr[i].mem, FirstBlockSize(size, maxBlockSize) - 1;
    GatherAtMost(m.blocks, m.ring[..m.tailPos + 1], unit);
    MulLe(m.tailPos + 1, InitialBlocks(size, maxBlockSize), unit);
  }

  // ----- what decides -----

  /** There is a place for an element: in the tail block, or in the block behind it, if that is not the
      front block. */
  predicate Room<T>(m: Memory<T>)
    requires Shaped(m)
  {
    !Full(m.blocks[m.tailBlock]) || m.blocks[m.tailBlock].next != m.frontBlock
  }

  /** The producer has not decided yet. */
  predicate Undecided<T>(p: Producer<T>) {
    p.PStart? || p.PTail? || p.PFront? || p.PNext? || p.PFrontBlock?
  }

  /** The block behind the tail block stops being the front block when the front advances; it does not
      become it. */
  lemma AheadStays<T>(s: State<T>, size: nat, e: Event<T>, blank: T)
    requires Inv(s, size) && Undecided(s.prod) && !(s.prod.PFrontBlock? && e.StepProducer?)
    requires Shaped(Step(s, e, blank).mem)
    requires var m := Step(s, e, blank).mem; m.blocks[m.tailBlock].next == m.frontBlock
    ensures s.mem.blocks[s.mem.tailBlock].next == s.mem.frontBlock
  {
    hide Live, RolesOk, CapacityOk, Block.After, Block.Ok;
    var m := s.mem;
    assert Linked(m.blocks, m.ring, m.tailPos);
    if e.StepConsumer? && s.cons.CStoreFrontBlock? {
      assert m.tailPos > 0;
    }
  }

  /** The instant at which the tail block was found full, if the block behind it is still the front block. */
  lemma {:induction false} SawNoRoom<T>(tr: seq<State<T>>, es: seq<Event<T>>, blank: T, size: nat, i: nat, j: nat)
    returns (m: nat)
    requires IsRun(tr, es, blank) && Inv(tr[0], size) && i < j < |tr| && tr[i].prod.PDone?
    requires forall l :: i < l <= j ==> Undecided(tr[l].prod)
    requires tr[j].prod.PNext? || tr[j].prod.PFrontBlock?
    requires tr[j].mem.blocks[tr[j].mem.tailBlock].next == tr[j].mem.frontBlock
    ensures i < m < j && !Room(tr[m].mem)
  {
    hide Step, Inv, Shaped, Full, Block.Ok;
    RunKeeps(tr, es, blank, size, j - 1);
    var s := At(tr, es, blank, j - 1);
    SeenStep(s, es[j - 1], blank);
    StepOfSeen(s, size, es[j - 1], blank);
    if s.prod.PFront? {
      m := j - 1;
    } else {
      m := SawNoRoom(tr, es, blank, size, i, j - 1);
    }
  }

  lemma StepOfSeen<T>(s: State<T>, size: nat, e: Event<T>, blank: T)
    requires Inv(s, size) && Shaped(Step(s, e, blank).mem)
    requires Step(s, e, blank).prod.PNext? || Step(s, e, blank).prod.PFrontBlock?
    requires var m := Step(s, e, blank).mem; m.blocks[m.tailBlock].next == m.frontBlock
    ensures s.mem.blocks[s.mem.tailBlock].next == s.mem.frontBlock
    ensures s.prod.PFront? ==> !Room(s.mem)
    ensures s.prod.PFront? || s.prod.PNext? || s.prod.PFrontBlock?
  {
    hide Live, RolesOk, CapacityOk, RingOk;
    StaysApart(s, blank, true);
    AheadStays(s, size, e, blank);
  }

  // ----- the outcome of a call -----

  /** The producer has found a place and is filling it. */
  predicate Placing<T>(p: Producer<T>) {
    p.PWrite? || p.PStoreTail? || p.PNextAgain? || p.PNextFront? || p.PNextTail? || p.PNextWrite? || p.PNextStoreTail?
  }

  /** Where a call stands that found room, or none, at its deciding instant; `grown` is how many blocks
      it has made, and `failed` says whether an allocation just failed. */
  ghost predicate Outcome<T>(p: Producer<T>, room: bool, ca: bool, grown: int, failed: bool) {
    if room then (Placing(p) || p.PStoreTailBlock? || p == PDone(true)) && grown == 0
    else if !ca then p == PDone(false) && grown == 0
    else if p.PAlloc? then grown == 0
    else if p == PDone(false) then grown == 0 && failed
    else (p.PLinkNew? || p.PLinkTail? || p.PStoreTailBlock? || p == PDone(true)) && grown == 1
  }

  lemma OutcomeStep<T>(s: State<T>, size: nat, e: Event<T>, blank: T, room: bool, ca: bool, grown: int, failed: bool)
    requires Inv(s, size) && Inv(Step(s, e, blank), size)
    requires Outcome(s.prod, room, ca, grown, failed) && !s.prod.PDone?
    ensures var t := Step(s, e, blank);
            Outcome(t.prod, room, ca, grown + |t.mem.blocks| - |s.mem.blocks|, e == StepProducer(false))
            && !Undecided(t.prod)
  {
    hide Live, Block.After, Block.Ok, NewBlock, Shaped, Inv;
    NotStuck(s, size);
    NotStuck(Step(s, e, blank), size);
    StaysApart(s, blank, true);
    if !e.StepProducer? {
      BlocksStep(s, e, blank);
      hide ConsumerStep, ProducerStep;
    }
  }

  lemma NotStuck<T>(s: State<T>, size: nat)
    requires Inv(s, size)
    ensures Shaped(s.mem) && !s.prod.PAborted? && !s.prod.POutside?
  {
    hide Live, RolesOk, CapacityOk, RingOk, ShadowsOk, ConsumerOk, Shaped, Fifo;
  }

  /** A step of a call that has not decided yet: it finds a place where there is one; or it finds none, and
      the block behind the tail block is the front block. */
  lemma DecideStep<T>(s: State<T>, size: nat, e: Event<T>, blank: T, ca: bool)
    requires Inv(s, size) && Inv(Step(s, e, blank), size) && Undecided(s.prod) && Flag(s.prod, ca)
    ensures var p := Step(s, e, blank).prod;
            || (Undecided(p) && Flag(p, ca))
            || (Placing(p) && Room(s.mem))
            || (s.prod.PFrontBlock? && s.mem.blocks[s.mem.tailBlock].next == s.mem.frontBlock
                && if ca then p.PAlloc? else p == PDone(false))
  {
    hide Live, RolesOk, CapacityOk, RingOk, ConsumerOk, Fifo, ConsumerStep;
    StaysApart(s, blank, true);
    FoundPlace(s, size, blank);
  }

  /** An index that the consumer's has not come up to leaves a free slot. */
  lemma FoundPlace<T>(s: State<T>, size: nat, blank: T)
    requires Inv(s, size)
    ensures s.prod.PTail? && ProducerStep(s, blank, true).prod.PWrite? ==> Room(s.mem)
    ensures s.prod.PFront? && ProducerStep(s, blank, true).prod.PWrite? ==> Room(s.mem)
    ensures s.prod.PFrontBlock? && ProducerStep(s, blank, true).prod.PNextAgain? ==> Room(s.mem)
  {
    hide Live, RolesOk, CapacityOk, RingOk, ConsumerOk, Fifo;
  }

  lemma {:induction false} DecidesBy<T>(tr: seq<State<T>>, es: seq<Event<T>>, blank: T, size: nat, i: nat, k: nat,
      j: nat) returns (m: nat)
    requires IsRun(tr, es, blank) && Inv(tr[0], size) && EnqueueCall(tr, es, i, k) && i < j <= k
    ensures var p, grown := tr[j].prod, |tr[j].mem.blocks| - |tr[i].mem.blocks|;
            if Undecided(p)
            then grown == 0 && Flag(p, es[i].canAlloc) && forall l :: i < l <= j ==> Undecided(tr[l].prod)
            else i < m < j && Undecided(tr[m].prod)
                 && Outcome(p, Room(tr[m].mem), es[i].canAlloc, grown, es[j - 1] == StepProducer(false))
  {
    hide Step, Inv, Shaped, Room, Outcome;
    var ca := es[i].canAlloc;
    var s := At(tr, es, blank, j - 1);
    RunKeeps(tr, es, blank, size, j - 1);
    RunKeeps(tr, es, blank, size, j);
    m := i;
    if j == i + 1 {
      EnqueueBegins(s, es[i], blank);
    } else {
      m := DecidesBy(tr, es, blank, size, i, k, j - 1);
      if Undecided(s.prod) {
        DecideStep(s, size, es[j - 1], blank, ca);
        BlocksStep(s, es[j - 1], blank);
        if !Undecided(tr[j].prod) {
          if Placing(tr[j].prod) && Room(s.mem) {
            m := j - 1;
          } else {
            m := SawNoRoom(tr, es, blank, size, i, j - 1);
          }
          FirstOutcome(tr[j].prod, Room(tr[m].mem), ca, es[j - 1] == StepProducer(false));
        }
      } else {
        OutcomeStep(s, size, es[j - 1], blank, Room(tr[m].mem), ca, |s.mem.blocks| - |tr[i].mem.blocks|,
                    es[j - 2] == StepProducer(false));
      }
    }
  }

  lemma FirstOutcome<T>(p: Producer<T>, room: bool, ca: bool, failed: bool)
    requires (room && Placing(p)) || (!room && if ca then p.PAlloc? else p == PDone(false))
    ensures Outcome(p, room, ca, 0, failed)
  {
  }

  /** Every call of enqueue and try_enqueue, in every interleaving, has an instant that decides it. If there
      is room then, the element goes in and no block is made. If there is none, try_enqueue returns false
      and makes no block; enqueue makes one block, or returns false because the allocation failed. */
  lemma EnqueueDecides<T>(tr: seq<State<T>>, es: seq<Event<T>>, blank: T, size: nat, maxBlockSize: BlockLimit,
                          i: nat, k: nat) returns (m: nat)
    requires 1 <= size < HALF
    requires IsRun(tr, es, blank) && tr[0] == Init(size, maxBlockSize, blank) && EnqueueCall(tr, es, i, k)
    ensures i < m < k
    ensures Room(tr[m].mem) ==> tr[k].prod.ok
    ensures !Room(tr[m].mem) && !es[i].canAlloc ==> !tr[k].prod.ok
    ensures !Room(tr[m].mem) && es[i].canAlloc ==> tr[k].prod.ok || es[k - 1] == StepProducer(false)
    ensures |tr[k].mem.blocks| == |tr[i].mem.blocks| + if !Room(tr[m].mem) && tr[k].prod.ok then 1 else 0
  {
    hide Inv, QueueModel.Init, Room, Shaped;
    InitOk(size, maxBlockSize, blank);
    m := DecidesBy(tr, es, blank, size, i, k, k);
  }

  lemma RoomStep<T>(s: State<T>, e: Event<T>, blank: T)
    requires Shaped(s.mem) && Undecided(s.prod) && !e.StepConsumer?
    ensures Shaped(Step(s, e, blank).mem) && Room(Step(s, e, blank).mem) == Room(s.mem)
  {
    hide Live, ConsumerStep;
  }

  lemma {:induction false} RoomStays<T>(tr: seq<State<T>>, es: seq<Event<T>>, blank: T, i: nat, j: nat)
    requires IsRun(tr, es, blank) && i < j < |tr| && es[i].Enqueue? && tr[i].prod.PDone?
    requires (forall l :: i < l < j ==> Undecided(tr[l].prod)) && forall l :: i < l < j ==> !es[l].StepConsumer?
    ensures Room(tr[j].mem) == Room(tr[i].mem)
  {
    hide Step, Room, Shaped;
    var s := At(tr, es, blank, j - 1);
    if j == i + 1 {
      EnqueueBegins(s, es[i], blank);
    } else {
      RoomStays(tr, es, blank, i, j - 1);
      RoomStep(s, es[j - 1], blank);
    }
  }

  /** While the consumer takes no step, try_enqueue succeeds if and only if there was room when it was
      called; and so does enqueue, as long as no allocation fails. */
  lemma QuietEnqueue<T>(tr: seq<State<T>>, es: seq<Event<T>>, blank: T, size: nat, maxBlockSize: BlockLimit,
                        i: nat, k: nat)
    requires 1 <= size < HALF
    requires IsRun(tr, es, blank) && tr[0] == Init(size, maxBlockSize, blank) && EnqueueCall(tr, es, i, k)
    requires forall l :: i < l < k ==> !es[l].StepConsumer?
    ensures !es[i].canAlloc ==> (tr[k].prod.ok <==> Room(tr[i].mem))
    ensures es[i].canAlloc && es[k - 1] != StepProducer(false) ==> tr[k].prod.ok
    ensures |tr[k].mem.blocks| == |tr[i].mem.blocks| + if !Room(tr[i].mem) && tr[k].prod.ok then 1 else 0
  {
    hide Inv, QueueModel.Init, Room, Shaped, Undecided;
    InitOk(size, maxBlockSize, blank);
    var m := DecidesBy(tr, es, blank, size, i, k, k);
    DoneDecided(tr[k].prod);
    var _ := DecidesBy(tr, es, blank, size, i, k, m);
    RoomStays(tr, es, blank, i, m);
  }

  lemma DoneDecided<T>(p: Producer<T>)
    requires p.PDone?
    ensures !Undecided(p)
  {
  }
}

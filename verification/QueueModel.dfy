/** The lock-free single-producer single-consumer queue of
    Baseline/include/message_queue/readerwriterqueue.h, as a state machine.

    One step of a thread is one load or one store of a shared variable (plus the thread-private
    work around it), so a run is an arbitrary interleaving of such steps.  The fences of the
    source are read as making every load and store sequentially consistent. */
module QueueModel {

  /** `size_t` has 64 bits. */
  const WORD: nat := 0x1_0000_0000_0000_0000
  const HALF: nat := 0x8000_0000_0000_0000

  /** MAX_BLOCK_SIZE: a constant of the template; twice of it is a word. */
  type BlockLimit = m: nat | 2 <= m <= 0x4000_0000_0000_0000 witness 2

  /** A circular buffer.  `front` and `localTail` are written by the consumer, `tail` and
      `localFront` by the producer; `localTail`/`localFront` are the private shadow copies.
      `|data|` is `sizeMask + 1`, so `& sizeMask` of the source is `% Size()` here.  A block made with
      no slots has the greatest word as its mask. */
  datatype Block<T> = Block(front: nat, localTail: nat, tail: nat, localFront: nat, next: nat, data: seq<T>) {
    function Size(): nat { |data| }

    /** The slots that exist. */
    function Capacity(): nat {
      if Size() == WORD then 0 else Size()
    }

    /** `(i + 1) & sizeMask` */
    function After(i: nat): nat
      requires i < Size()
    {
      if i + 1 == Size() then 0 else i + 1
    }

    predicate Ok() {
      front < Size() && tail < Size() && localTail < Size() && localFront < Size()
    }

    /** Slots from `from` forward to `to`, going round the buffer. */
    function Dist(from: nat, to: nat): nat
      requires from < Size() && to < Size()
    {
      if from <= to then to - from else Size() - from + to
    }

    function Count(): nat
      requires Ok()
    {
      Dist(front, tail)
    }

    /** The elements between front and tail, oldest first. */
    function Items(): seq<T>
      requires Ok()
    {
      if front <= tail then data[front..tail] else data[front..] + data[..tail]
    }
  }

  /** Where the producer is inside `inner_enqueue`, with its local variables.
      `seen` is a history variable: the number of items queued when the tail block was found full. */
  datatype Producer<T> =
    | PDone(ok: bool)                                                          // outside a call; result of the last one
    | PStart(x: T, canAlloc: bool)                                             // load tailBlock
    | PTail(x: T, canAlloc: bool, tb: nat)                                     // load tb->tail
    | PFront(x: T, canAlloc: bool, tb: nat, bt: nat, nbt: nat)                 // load tb->front
    | PWrite(x: T, tb: nat, bt: nat, nbt: nat)                                 // construct the element
    | PStoreTail(x: T, tb: nat, nbt: nat)                                      // store tb->tail
    | PNext(x: T, canAlloc: bool, tb: nat, seen: nat)                          // load tb->next
    | PFrontBlock(x: T, canAlloc: bool, tb: nat, nx: nat, seen: nat)           // load frontBlock
    | PNextAgain(x: T, tb: nat)                                                // load tb->next
    | PNextFront(x: T, nx: nat)                                                // load nx->front
    | PNextTail(x: T, nx: nat, nbf: nat)                                       // load nx->tail, assert empty
    | PNextWrite(x: T, nx: nat, nbf: nat, nt: nat)                             // construct the element
    | PNextStoreTail(x: T, nx: nat, nt: nat)                                   // store nx->tail
    | PStoreTailBlock(x: T, nx: nat)                                           // store tailBlock
    | PAlloc(x: T, tb: nat)                                                    // make_block and fill slot 0
    | PLinkNew(x: T, tb: nat, nb: nat)                                         // newBlock->next = tb->next
    | PLinkTail(x: T, tb: nat, nb: nat)                                        // tb->next = newBlock
    | PAborted                                                                 // the hand-off's assertion failed
    | POutside                                                                 // wrote where the block has no slot

  /** Where the consumer is inside `try_dequeue`.
      `sawEmpty` is a history variable: the queue held nothing when the front block was found empty. */
  datatype Consumer<T> =
    | CDone(result: seq<T>)                                     // outside a call; [] is "returned false"
    | CStart                                                    // load frontBlock
    | CFront(fb: nat, bt: nat)                                  // load fb->front
    | CTail(fb: nat, bf: nat)                                   // load fb->tail
    | CTailBlock(fb: nat, sawEmpty: bool)                       // load tailBlock
    | CReload                                                   // load frontBlock
    | CReloadTail(fb: nat)                                      // load fb->tail
    | CReloadFront(fb: nat, bt: nat)                            // load fb->front
    | CRead(fb: nat, bf: nat)                                   // move the element out
    | CStoreFront(fb: nat, bf: nat, v: T)                       // store fb->front
    | CNext(fb: nat)                                            // load fb->next
    | CNextFront(nb: nat)                                       // load nb->front
    | CNextTail(nb: nat, nbf: nat)                              // load nb->tail, assert not empty
    | CStoreFrontBlock(nb: nat, nbf: nat)                       // store frontBlock
    | CAborted                                                  // the assertion of the block advance failed

  /** `ring`, `tailPos`, `enqueued` and `dequeued` are history variables: the circular list of
      blocks from the front block on, the place of the tail block in it, and the elements whose
      enqueue or dequeue took effect. */
  datatype Memory<T> = Memory(
    blocks: seq<Block<T>>, frontBlock: nat, tailBlock: nat, largestBlockSize: nat, maxBlockSize: BlockLimit,
    ring: seq<nat>, tailPos: nat)

  datatype State<T> = State(
    mem: Memory<T>, prod: Producer<T>, cons: Consumer<T>, enqueued: seq<T>, dequeued: seq<T>)

  /** The elements of the blocks named by `ids`, in order. */
  function Gather<T>(blocks: seq<Block<T>>, ids: seq<nat>): seq<T>
    requires forall b :: 0 <= b < |blocks| ==> blocks[b].Ok()
    requires forall i :: 0 <= i < |ids| ==> ids[i] < |blocks|
  {
    if ids == [] then [] else blocks[ids[0]].Items() + Gather(blocks, ids[1..])
  }

  predicate Shaped<T>(m: Memory<T>) {
    && (forall b :: 0 <= b < |m.blocks| ==> m.blocks[b].Ok())
    && (forall i :: 0 <= i < |m.ring| ==> m.ring[i] < |m.blocks|)
    && m.tailPos < |m.ring|
    && m.frontBlock < |m.blocks| && m.tailBlock < |m.blocks|
  }

  /** What the queue holds: the blocks from the front block to the tail block. */
  function Live<T>(m: Memory<T>): seq<T>
    requires Shaped(m)
  {
    Gather(m.blocks, m.ring[..m.tailPos + 1])
  }

  // ---------------------------------------------------------------- construction

  /** `ceilToPow2`: the least power of two that is not below x. */
  function CeilToPow2(x: nat, p: nat := 1): (r: nat)
    requires p >= 1
    ensures r >= x && r >= p
    decreases if p < x then x - p else 0
  {
    if p >= x then p else CeilToPow2(x, 2 * p)
  }

  /** The same in 64 bits: zero, and numbers above the greatest power of two that fits, give zero. */
  function Rounded(x: nat): nat {
    if 1 <= x <= HALF then CeilToPow2(x) else 0
  }

  /** `++x` in 64 bits */
  function Increment(x: nat): nat {
    if x + 1 == WORD then 0 else x + 1
  }

  /** `make_block` */
  function NewBlock<T>(capacity: nat, next: nat, blank: T): (b: Block<T>)
    ensures b.Ok() && b.Items() == [] && (0 < capacity < WORD ==> b.Size() == capacity)
    ensures capacity < WORD ==> b.Capacity() == capacity
  {
    Block(0, 0, 0, 0, next, seq(if capacity == 0 then WORD else capacity, _ => blank))
  }

  function FirstBlockSize(size: nat, maxBlockSize: BlockLimit): nat {
    var largest := Rounded(Increment(size));
    if largest > 2 * maxBlockSize then maxBlockSize else largest
  }

  function InitialBlocks(size: nat, maxBlockSize: BlockLimit): (n: nat)
    ensures n >= 1
  {
    if Rounded(Increment(size)) > 2 * maxBlockSize
    then
      assert size + maxBlockSize * 2 - 3 >= maxBlockSize - 1;
      (size + maxBlockSize * 2 - 3) / (maxBlockSize - 1)
    else 1
  }

  /** The queue right after `ReaderWriterQueue(size)`; `blank` stands for uninitialised memory. */
  function Init<T>(size: nat, maxBlockSize: BlockLimit, blank: T): State<T> {
    var n := InitialBlocks(size, maxBlockSize);
    var largest := FirstBlockSize(size, maxBlockSize);
    var blocks := seq(n, i requires 0 <= i < n => NewBlock(largest, if i + 1 == n then 0 else i + 1, blank));
    State(Memory(blocks, 0, 0, largest, maxBlockSize, seq(n, i => i), 0), PDone(true), CDone([]), [], [])
  }

  /** Memory with block b replaced. */
  function Put<T>(m: Memory<T>, b: nat, block: Block<T>): Memory<T>
    requires b < |m.blocks|
  {
    m.(blocks := m.blocks[b := block])
  }

  // ---------------------------------------------------------------- the producer: inner_enqueue

  /** One atomic step of the producer.  `allocOk` says whether malloc succeeds.  A step on a block
      that does not exist leaves everything as it is; the invariant shows that none is taken. */
  function ProducerStep<T>(s: State<T>, blank: T, allocOk: bool): State<T>
    requires Shaped(s.mem)
  {
    var m := s.mem;
    match s.prod
    case PDone(_) => s
    case PAborted => s
    case POutside => s
    case PStart(x, ca) => s.(prod := PTail(x, ca, m.tailBlock))
    case PTail(x, ca, tb) =>
      if tb >= |m.blocks| then s else
      var b := m.blocks[tb];
      var nbt := b.After(b.tail);
      s.(prod := if nbt != b.localFront then PWrite(x, tb, b.tail, nbt) else PFront(x, ca, tb, b.tail, nbt))
    case PFront(x, ca, tb, bt, nbt) =>
      if tb >= |m.blocks| then s else
      var b := m.blocks[tb];
      s.(mem := Put(m, tb, b.(localFront := b.front)),
         prod := if nbt != b.front then PWrite(x, tb, bt, nbt) else PNext(x, ca, tb, |Live(m)|))
    case PWrite(x, tb, bt, nbt) =>
      if tb >= |m.blocks| then s else
      var b := m.blocks[tb];
      if bt >= b.Capacity() then s.(prod := POutside) else
      s.(mem := Put(m, tb, b.(data := b.data[bt := x])), prod := PStoreTail(x, tb, nbt))
    case PStoreTail(x, tb, nbt) =>
      if tb >= |m.blocks| then s else
      s.(mem := Put(m, tb, m.blocks[tb].(tail := nbt)), prod := PDone(true), enqueued := s.enqueued + [x])
    case PNext(x, ca, tb, seen) =>
      if tb >= |m.blocks| then s else
      s.(prod := PFrontBlock(x, ca, tb, m.blocks[tb].next, seen))
    case PFrontBlock(x, ca, tb, nx, seen) =>
      s.(prod := if nx != m.frontBlock then PNextAgain(x, tb)
                 else if ca then PAlloc(x, tb)
                 else PDone(false))
    case PNextAgain(x, tb) =>
      if tb >= |m.blocks| then s else
      s.(prod := PNextFront(x, m.blocks[tb].next))
    case PNextFront(x, nx) =>
      if nx >= |m.blocks| then s else
      var b := m.blocks[nx];
      s.(mem := Put(m, nx, b.(localFront := b.front)), prod := PNextTail(x, nx, b.front))
    case PNextTail(x, nx, nbf) =>
      if nx >= |m.blocks| then s else
      s.(prod := if nbf == m.blocks[nx].tail then PNextWrite(x, nx, nbf, m.blocks[nx].tail) else PAborted)
    case PNextWrite(x, nx, nbf, nt) =>
      if nx >= |m.blocks| then s else
      var b := m.blocks[nx];
      if nt >= b.Capacity() then s.(prod := POutside) else
      s.(mem := Put(m, nx, b.(localFront := nbf, data := b.data[nt := x])), prod := PNextStoreTail(x, nx, nt))
    case PNextStoreTail(x, nx, nt) =>
      if nx >= |m.blocks| || nt >= m.blocks[nx].Size() then s else
      var b := m.blocks[nx];
      s.(mem := Put(m, nx, b.(tail := b.After(nt))), prod := PStoreTailBlock(x, nx))
    case PStoreTailBlock(x, nx) =>
      s.(mem := m.(tailBlock := nx, tailPos := m.tailPos + 1), prod := PDone(true), enqueued := s.enqueued + [x])
    case PAlloc(x, tb) =>
      if !allocOk then s.(prod := PDone(false)) else
      var size := if m.largestBlockSize >= m.maxBlockSize then m.largestBlockSize else m.largestBlockSize * 2;
      var b := NewBlock(size, 0, blank);
      if b.Capacity() == 0 then s.(prod := POutside) else
      s.(mem := m.(blocks := m.blocks + [b.(data := b.data[0 := x], tail := 1, localTail := 1)],
          largestBlockSize := size),
         prod := PLinkNew(x, tb, |m.blocks|))
    case PLinkNew(x, tb, nb) =>
      if tb >= |m.blocks| || nb >= |m.blocks| then s else
      s.(mem := Put(m, nb, m.blocks[nb].(next := m.blocks[tb].next)), prod := PLinkTail(x, tb, nb))
    case PLinkTail(x, tb, nb) =>
      if tb >= |m.blocks| then s else
      s.(mem := Put(m, tb,
          m.blocks[tb].(next := nb)).(ring := m.ring[..m.tailPos + 1] + [nb] + m.ring[m.tailPos + 1..]),
         prod := PStoreTailBlock(x, nb))
  }

  // ---------------------------------------------------------------- the consumer: try_dequeue

  /** One atomic step of the consumer. */
  function ConsumerStep<T>(s: State<T>): State<T>
    requires Shaped(s.mem)
  {
    var m := s.mem;
    match s.cons
    case CDone(_) => s
    case CAborted => s
    case CStart => s.(cons := CFront(m.frontBlock, m.blocks[m.frontBlock].localTail))
    case CFront(fb, bt) =>
      if fb >= |m.blocks| then s else
      var bf := m.blocks[fb].front;
      s.(cons := if bf != bt then CRead(fb, bf) else CTail(fb, bf))
    case CTail(fb, bf) =>
      if fb >= |m.blocks| then s else
      var t := m.blocks[fb].tail;
      s.(mem := Put(m, fb, m.blocks[fb].(localTail := t)),
         cons := if bf != t then CRead(fb, bf) else CTailBlock(fb, |Live(m)| == 0))
    case CTailBlock(fb, _) =>
      s.(cons := if fb != m.tailBlock then CReload else CDone([]))
    case CReload => s.(cons := CReloadTail(m.frontBlock))
    case CReloadTail(fb) =>
      if fb >= |m.blocks| then s else
      var t := m.blocks[fb].tail;
      s.(mem := Put(m, fb, m.blocks[fb].(localTail := t)), cons := CReloadFront(fb, t))
    case CReloadFront(fb, bt) =>
      if fb >= |m.blocks| then s else
      var bf := m.blocks[fb].front;
      s.(cons := if bf != bt then CRead(fb, bf) else CNext(fb))
    case CRead(fb, bf) =>
      if fb >= |m.blocks| || bf >= m.blocks[fb].Size() then s else
      s.(cons := CStoreFront(fb, m.blocks[fb].After(bf), m.blocks[fb].data[bf]))
    case CStoreFront(fb, bf, v) =>
      if fb >= |m.blocks| then s else
      s.(mem := Put(m, fb, m.blocks[fb].(front := bf)), cons := CDone([v]), dequeued := s.dequeued + [v])
    case CNext(fb) =>
      if fb >= |m.blocks| then s else
      s.(cons := CNextFront(m.blocks[fb].next))
    case CNextFront(nb) =>
      if nb >= |m.blocks| then s else
      s.(cons := CNextTail(nb, m.blocks[nb].front))
    case CNextTail(nb, nbf) =>
      if nb >= |m.blocks| then s else
      var t := m.blocks[nb].tail;
      s.(mem := Put(m, nb, m.blocks[nb].(localTail := t)),
         cons := if nbf != t then CStoreFrontBlock(nb, nbf) else CAborted)
    case CStoreFrontBlock(nb, nbf) =>
      s.(mem := m.(frontBlock := nb, ring := m.ring[1..] + [m.ring[0]],
                   tailPos := if m.tailPos > 0 then m.tailPos - 1 else 0),
         cons := CRead(nb, nbf))
  }

  // ---------------------------------------------------------------- runs

  datatype Event<T> =
    | Enqueue(x: T, canAlloc: bool)   // enqueue (canAlloc) or try_enqueue is called
    | StepProducer(allocOk: bool)
    | Dequeue                         // try_dequeue is called
    | StepConsumer

  function Step<T>(s: State<T>, e: Event<T>, blank: T): State<T>
    requires Shaped(s.mem)
  {
    match e
    case Enqueue(x, ca) => if s.prod.PDone? then s.(prod := PStart(x, ca)) else s
    case StepProducer(ok) => ProducerStep(s, blank, ok)
    case Dequeue => if s.cons.CDone? then s.(cons := CStart) else s
    case StepConsumer => ConsumerStep(s)
  }
}

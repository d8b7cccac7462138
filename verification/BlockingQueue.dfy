/** BlockingReaderWriterQueue: the queue with a semaphore that counts its elements. */
module BlockingQueue {
  import opened QueueModel
  import opened QueueInvariant
  import opened Semaphore
  import QueueTheorems

  datatype Putter = PutIdle | Putting | Signalling     // inside inner.enqueue; inside sema->signal
  datatype Taker = TakeIdle | Waiting | Taking | TakeAborted   // inside sema->wait; inside inner.try_dequeue

  datatype Blocking<T> = Blocking(q: State<T>, sema: Sema, putter: Putter, taker: Taker)

  datatype Call<T> =
    | Put(x: T, canAlloc: bool)          // enqueue or try_enqueue
    | PutStep(allocOk: bool)
    | Take(timed: bool)                  // wait_dequeue, wait_dequeue_timed (timed) or try_dequeue
    | TakeStep(timeout: bool)

  function BlockingStep<T>(b: Blocking<T>, c: Call<T>, blank: T): Blocking<T>
    requires Shaped(b.q.mem)
  {
    match c
    case Put(x, ca) =>
      if b.putter.PutIdle? then b.(q := Step(b.q, Enqueue(x, ca), blank), putter := Putting) else b
    case PutStep(ok) =>
      (match b.putter
       case PutIdle => b
       case Putting =>
         if !b.q.prod.PDone? then b.(q := ProducerStep(b.q, blank, ok))
         else if b.q.prod.ok then b.(sema := SignalStep(b.sema), putter := Signalling)
         else b.(putter := PutIdle)
       case Signalling =>
         if b.sema.signaller.SPost? then b.(sema := SignalStep(b.sema), putter := PutIdle) else b.(putter := PutIdle))
    case Take(timed) =>
      if b.taker.TakeIdle? then b.(sema := SemaStep(b.sema, CallWait(timed)), taker := Waiting) else b
    case TakeStep(timeout) =>
      (match b.taker
       case TakeIdle => b
       case TakeAborted => b
       case Waiting =>
         if !b.sema.waiter.WDone? then b.(sema := WaitStep(b.sema, timeout))
         else if b.sema.waiter.ok then b.(q := Step(b.q, Dequeue, blank), taker := Taking)
         else b.(taker := TakeIdle)
       case Taking =>
         if !b.q.cons.CDone? then b.(q := ConsumerStep(b.q))
         else b.(taker := if b.q.cons.result == [] then TakeAborted else TakeIdle))   // assert(success)
  }

  /** Elements enqueued but not yet signalled for. */
  function Unsignalled<T>(b: Blocking<T>): nat {
    if b.putter.Putting? && b.q.prod.PDone? && b.q.prod.ok then 1 else 0
  }

  /** Waits let through whose element is not yet out. */
  function Owed<T>(b: Blocking<T>): nat {
    if b.taker.Taking? && !b.q.cons.CDone? then 1
    else if b.taker.Waiting? && b.sema.waiter == WDone(true) then 1
    else 0
  }

  ghost predicate BlockingInv<T>(b: Blocking<T>, size: nat) {
    && Inv(b.q, size) && SemaInv(b.sema)
    && b.sema.signals + Unsignalled(b) == |b.q.enqueued|
    && b.sema.waits == |b.q.dequeued| + Owed(b)
    && (b.putter.PutIdle? || b.putter.Signalling? ==> b.q.prod.PDone?)
    && (!b.putter.Signalling? ==> b.sema.signaller.SIdle?)
    && (!b.taker.Taking? ==> b.q.cons.CDone?)
    && (!b.taker.Waiting? ==> b.sema.waiter.WDone?)
    && (b.q.cons.CTailBlock? ==> !b.q.cons.sawEmpty)
    && (b.taker.Taking? && b.q.cons.CDone? ==> b.q.cons.result != [])
    && !b.taker.TakeAborted?
  }

  lemma EnqueueCounts<T>(s: State<T>, blank: T, ok: bool)
    requires Shaped(s.mem) && !s.prod.PDone?
    ensures var s' := ProducerStep(s, blank, ok);
            && s'.cons == s.cons && s'.dequeued == s.dequeued
            && |s'.enqueued| == |s.enqueued| + (if s'.prod == PDone(true) then 1 else 0)
  {
  }

  /** A front block that was found empty while an element was queued is not the tail block. */
  lemma MoreBlocks<T>(m: Memory<T>, fb: nat, sawEmpty: bool)
    requires Shaped(m) && RingOk(m) && ConsumerOk(m, CTailBlock(fb, sawEmpty)) && !sawEmpty
    ensures fb != m.tailBlock
  {
    assert m.ring[m.tailPos] == m.tailBlock;
  }

  lemma SomethingLive<T>(s: State<T>)
    requires Shaped(s.mem) && Fifo(s) && |s.enqueued| > |s.dequeued|
    ensures |Live(s.mem)| > 0
  {
  }

  /** While an element is queued, an attempt to dequeue goes on until it has one. */
  lemma DequeueSucceeds<T>(s: State<T>, size: nat)
    requires Inv(s, size) && !s.cons.CDone? && |s.enqueued| > |s.dequeued|
    requires s.cons.CTailBlock? ==> !s.cons.sawEmpty
    ensures var s' := ConsumerStep(s);
            && s'.prod == s.prod && s'.enqueued == s.enqueued
            && (s'.cons.CTailBlock? ==> !s'.cons.sawEmpty)
            && (s'.cons.CDone? ==> s'.cons.result != [])
            && |s'.dequeued| == |s.dequeued| + (if s'.cons.CDone? then 1 else 0)
  {
    hide Live, RingOk, RolesOk, ShadowsOk, CapacityOk, ProducerOk, ConsumerOk, Fifo;
    SomethingLive(s);
    if s.cons.CTailBlock? {
      MoreBlocks(s.mem, s.cons.fb, s.cons.sawEmpty);
    }
  }

  lemma PutKeeps<T>(b: Blocking<T>, size: nat, c: Call<T>, blank: T)
    requires BlockingInv(b, size) && (c.Put? || c.PutStep?)
    ensures BlockingInv(BlockingStep(b, c, blank), size)
  {
    hide Live, RingOk, RolesOk, CapacityOk, ProducerOk, ConsumerOk;
    if c.Put? {
      QueueTheorems.StepKeeps(b.q, size, Enqueue(c.x, c.canAlloc), blank);
    } else if b.putter.Putting? && !b.q.prod.PDone? {
      QueueTheorems.StepKeeps(b.q, size, StepProducer(c.allocOk), blank);
      EnqueueCounts(b.q, blank, c.allocOk);
    } else {
      SemaStepKeeps(b.sema, Signal);
    }
  }

  lemma WaitKeeps<T>(b: Blocking<T>, size: nat, timeout: bool, blank: T)
    requires BlockingInv(b, size) && b.taker.Waiting?
    ensures BlockingInv(BlockingStep(b, TakeStep(timeout), blank), size)
  {
    if b.sema.waiter.WDone? {
      QueueTheorems.StepKeeps(b.q, size, Dequeue, blank);
    } else {
      SemaStepKeeps(b.sema, Wait(timeout));
      WaitCounts(b.sema, timeout);
    }
  }

  lemma WaitCounts(s: Sema, timeout: bool)
    requires !s.waiter.WDone?
    ensures var s' := WaitStep(s, timeout);
            && s'.signals == s.signals && s'.signaller == s.signaller
            && s'.waits == s.waits + (if s'.waiter == WDone(true) then 1 else 0)
  {
  }

  lemma TakeKeeps<T>(b: Blocking<T>, size: nat, c: Call<T>, blank: T)
    requires BlockingInv(b, size) && (c.Take? || c.TakeStep?)
    ensures BlockingInv(BlockingStep(b, c, blank), size)
  {
    if c.Take? {
      SemaStepKeeps(b.sema, CallWait(c.timed));
    } else if b.taker.Waiting? {
      WaitKeeps(b, size, c.timeout, blank);
    } else if b.taker.Taking? && !b.q.cons.CDone? {
      QueueTheorems.StepKeeps(b.q, size, StepConsumer, blank);
      DequeueSucceeds(b.q, size);
    }
  }

  ghost predicate IsBlockingRun<T>(tr: seq<Blocking<T>>, cs: seq<Call<T>>, blank: T) {
    && |tr| == |cs| + 1
    && (forall i :: 0 <= i < |tr| ==> Shaped(tr[i].q.mem))
    && (forall i :: 0 <= i < |cs| ==> Called(tr, cs, blank, i))
  }

  ghost predicate Called<T>(tr: seq<Blocking<T>>, cs: seq<Call<T>>, blank: T, i: nat)
    requires i < |cs| && i + 1 < |tr| && Shaped(tr[i].q.mem)
  {
    tr[i + 1] == BlockingStep(tr[i], cs[i], blank)
  }

  /** In every interleaving, with any timeouts: once a wait has succeeded the dequeue behind it
      succeeds (its assertion never fails), and what comes out is what went in, in order. */
  lemma {:induction false} WaitThenDequeue<T>(tr: seq<Blocking<T>>, cs: seq<Call<T>>, blank: T, size: nat,
      maxBlockSize: BlockLimit, i: nat)
    requires 1 <= size < HALF
    requires IsBlockingRun(tr, cs, blank) && i < |tr|
    requires tr[0] == Blocking(Init(size, maxBlockSize, blank), SemaInit(), PutIdle, TakeIdle)
    ensures BlockingInv(tr[i], size)
    ensures !tr[i].taker.TakeAborted? && tr[i].q.enqueued == tr[i].q.dequeued + Live(tr[i].q.mem)
  {
    if i == 0 {
      QueueTheorems.InitOk(size, maxBlockSize, blank);
    } else {
      hide BlockingStep, Inv, Live;
      WaitThenDequeue(tr, cs, blank, size, maxBlockSize, i - 1);
      assert Called(tr, cs, blank, i - 1);
      if cs[i - 1].Put? || cs[i - 1].PutStep? {
        PutKeeps(tr[i - 1], size, cs[i - 1], blank);
      } else {
        TakeKeeps(tr[i - 1], size, cs[i - 1], blank);
      }
    }
  }
}

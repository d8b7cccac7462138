/** Two stages of the server joined by LckFreeMQ (Baseline/include/message_queue/lck_free_mq.h):
    the producer pushes its items and then sets `_done`; the consumer loops until
    `_done && IsEmpty()`, as DataWriterThd::Run and DataDecoderThd::Run do. */
module Pipeline {
  import opened QueueModel
  import opened QueueInvariant
  import QueueTheorems
  import QueueConsumer
  import opened QueueWalk

  // ---------------------------------------------------------------- the two stages

  datatype Loop = TestDone | TestEmpty | CallPop | InPop | Exited

  /** `todo` holds the items whose Push has not returned; `pushing` says that a try_enqueue of
      todo[0] is under way or has just returned. */
  datatype Pipe<T> = Pipe(q: State<T>, todo: seq<T>, pushing: bool, done: bool, loop: Loop, popped: seq<T>)

  /** Push spins on try_enqueue; after the last item `_done` is set. */
  function PushStep<T>(p: Pipe<T>, blank: T): Pipe<T>
    requires Shaped(p.q.mem)
  {
    if p.pushing && !p.q.prod.PDone? then p.(q := ProducerStep(p.q, blank, true))
    else if p.pushing && p.q.prod.ok && p.todo != [] then p.(todo := p.todo[1..], pushing := false)
    else if p.todo != [] then p.(q := Step(p.q, Enqueue(p.todo[0], false), blank), pushing := true)
    else p.(done := true)
  }

  /** One step of the consumer's loop.  size_approx is one step here: it is called only after
      `_done` was seen, when the producer takes no step any more. */
  function PopStep<T>(p: Pipe<T>, blank: T): Pipe<T>
    requires Shaped(p.q.mem)
  {
    match p.loop
    case TestDone => p.(loop := if p.done then TestEmpty else CallPop)
    case TestEmpty => p.(loop := if Counts(p.q.mem.blocks, p.q.mem.ring) == 0 then Exited else CallPop)
    case CallPop => p.(q := Step(p.q, Dequeue, blank), loop := InPop)
    case InPop =>
      if p.q.cons.CDone? then p.(popped := p.popped + p.q.cons.result, loop := TestDone)
      else p.(q := ConsumerStep(p.q))
    case Exited => p
  }

  /** An interleaving: at each turn the flag says whether the producer stage moves. */
  ghost predicate IsPipeRun<T>(tr: seq<Pipe<T>>, turns: seq<bool>, blank: T) {
    && |tr| == |turns| + 1
    && (forall i :: 0 <= i < |tr| ==> Shaped(tr[i].q.mem))
    && (forall i :: 0 <= i < |turns| ==> Turn(tr, turns, blank, i))
  }

  ghost predicate Turn<T>(tr: seq<Pipe<T>>, turns: seq<bool>, blank: T, i: nat)
    requires i < |turns| && i + 1 < |tr| && Shaped(tr[i].q.mem)
  {
    tr[i + 1] == if turns[i] then PushStep(tr[i], blank) else PopStep(tr[i], blank)
  }

  function PipeInit<T>(size: nat, maxBlockSize: BlockLimit, blank: T, items: seq<T>): Pipe<T>
  {
    Pipe(Init(size, maxBlockSize, blank), items, false, false, TestDone, [])
  }

  // ---------------------------------------------------------------- what every step keeps

  /** The items that the queue has not yet taken. */
  function Untaken<T>(p: Pipe<T>): seq<T> {
    if p.pushing && p.q.prod.PDone? && p.q.prod.ok && p.todo != [] then p.todo[1..] else p.todo
  }

  /** A call under way carries item x. */
  ghost predicate Carries<T>(p: Producer<T>, x: T) {
    match p
    case PDone(_) => true
    case PAborted => false
    case POutside => false
    case _ => p.x == x
  }

  ghost predicate PipeInv<T>(p: Pipe<T>, size: nat, items: seq<T>) {
    && Inv(p.q, size)
    && (p.pushing ==> p.todo != [] && Carries(p.q.prod, p.todo[0]))
    && (!p.pushing ==> p.q.prod.PDone?)
    && (p.done ==> p.todo == [] && !p.pushing)
    && (p.loop != InPop ==> p.q.cons.CDone? && p.popped == p.q.dequeued)
    && (p.loop == InPop && !p.q.cons.CDone? ==> p.popped == p.q.dequeued)
    && (p.loop == InPop && p.q.cons.CDone? ==> p.popped + p.q.cons.result == p.q.dequeued)
    && (p.loop == TestEmpty || p.loop == Exited ==> p.done)
    && (p.loop == Exited ==> p.q.dequeued == p.q.enqueued)
    && p.q.enqueued + Untaken(p) == items
  }

  /** A step inside an enqueue of x either ends with x enqueued, or enqueues nothing. */
  lemma EnqueueEffect<T>(s: State<T>, x: T, blank: T)
    requires Shaped(s.mem) && Carries(s.prod, x) && !s.prod.PDone?
    ensures var s' := ProducerStep(s, blank, true);
            && s'.dequeued == s.dequeued && s'.cons == s.cons
            && (if s'.prod == PDone(true) then s'.enqueued == s.enqueued + [x] else s'.enqueued == s.enqueued)
            && (Carries(s'.prod, x) || s'.prod.PAborted? || s'.prod.POutside?)
  {
  }

  lemma DequeueEffect<T>(s: State<T>)
    requires Shaped(s.mem) && !s.cons.CDone?
    ensures var s' := ConsumerStep(s);
            && s'.enqueued == s.enqueued && s'.prod == s.prod
            && s'.dequeued == if s'.cons.CDone? then s.dequeued + s'.cons.result else s.dequeued
  {
  }

  lemma PushRuns<T>(p: Pipe<T>, size: nat, items: seq<T>, blank: T)
    requires PipeInv(p, size, items) && p.pushing && !p.q.prod.PDone?
    ensures PipeInv(PushStep(p, blank), size, items)
  {
    var p', x := PushStep(p, blank), p.todo[0];
    QueueTheorems.StepKeeps(p.q, size, StepProducer(true), blank);
    EnqueueEffect(p.q, x, blank);
    assert p'.q.enqueued + Untaken(p') == items by {
      QueueConsumer.Assoc(p.q.enqueued, [x], p.todo[1..]);
      assert [x] + p.todo[1..] == p.todo;
    }
  }

  lemma PushKeeps<T>(p: Pipe<T>, size: nat, items: seq<T>, blank: T)
    requires PipeInv(p, size, items)
    ensures PipeInv(PushStep(p, blank), size, items)
  {
    if p.pushing && !p.q.prod.PDone? {
      PushRuns(p, size, items, blank);
    } else if p.todo != [] {
      QueueTheorems.StepKeeps(p.q, size, Enqueue(p.todo[0], false), blank);
    }
  }

  lemma PopKeeps<T>(p: Pipe<T>, size: nat, items: seq<T>, blank: T)
    requires PipeInv(p, size, items)
    ensures PipeInv(PopStep(p, blank), size, items)
  {
    match p.loop
    case TestDone =>
    case TestEmpty => SizeExact(p.q, size);
    case CallPop => QueueTheorems.StepKeeps(p.q, size, Dequeue, blank);
    case InPop =>
      if !p.q.cons.CDone? {
        QueueTheorems.StepKeeps(p.q, size, StepConsumer, blank);
        DequeueEffect(p.q);
      }
    case Exited =>
  }

  lemma {:induction false} PipeRunKeeps<T>(tr: seq<Pipe<T>>, turns: seq<bool>, blank: T, size: nat, items: seq<T>,
      i: nat)
    requires IsPipeRun(tr, turns, blank) && i < |tr| && PipeInv(tr[0], size, items)
    ensures PipeInv(tr[i], size, items)
  {
    hide PushStep, PopStep, PipeInv;
    if i > 0 {
      PipeRunKeeps(tr, turns, blank, size, items, i - 1);
      assert Turn(tr, turns, blank, i - 1);
      if turns[i - 1] {
        PushKeeps(tr[i - 1], size, items, blank);
      } else {
        PopKeeps(tr[i - 1], size, items, blank);
      }
    }
  }

  /** A stage that has left its loop has popped exactly what its producer pushed, in order. */
  lemma ShutdownLosesNothing<T>(tr: seq<Pipe<T>>, turns: seq<bool>, blank: T, size: nat, maxBlockSize: BlockLimit,
      items: seq<T>, i: nat)
    requires 1 <= size < HALF
    requires IsPipeRun(tr, turns, blank) && tr[0] == PipeInit(size, maxBlockSize, blank, items) && i < |tr|
    ensures tr[i].popped <= items
    ensures tr[i].loop == Exited ==> tr[i].popped == items
  {
    QueueTheorems.InitOk(size, maxBlockSize, blank);
    assert [] + items == items;
    PipeRunKeeps(tr, turns, blank, size, items, i);
    var p := tr[i];
    QueueConsumer.Assoc(p.q.dequeued, Live(p.q.mem), Untaken(p));
  }
}

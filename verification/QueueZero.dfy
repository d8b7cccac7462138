/** A queue built for no element at all has a first block of one slot, which can hold nothing; one built
    for half a word of elements or more has a first block of no slots.  The run that shows the former
    calls `enqueue`, which allocates; a caller that only uses `try_enqueue`, as `LckFreeMQ` does, never
    gets to a second block. */
module QueueZero {
  import opened QueueModel
  import opened QueueInvariant
  import opened QueueTheorems

  /** First in first out, and no failed assertion, at every instant of every run. */
  ghost predicate Safe<T(!new)>(size: nat, maxBlockSize: BlockLimit, blank: T)
  {
    forall tr: seq<State<T>>, es: seq<Event<T>> ::
      IsRun(tr, es, blank) && tr[0] == Init(size, maxBlockSize, blank) ==> AlwaysFine(tr)
  }

  ghost predicate AlwaysFine<T>(tr: seq<State<T>>)
    requires forall i :: 0 <= i < |tr| ==> Shaped(tr[i].mem)
  {
    forall i :: 0 <= i < |tr| ==>
      tr[i].enqueued == tr[i].dequeued + Live(tr[i].mem) && !tr[i].prod.PAborted? &&
      !tr[i].prod.POutside? && !tr[i].cons.CAborted?
  }

  /** Some run leads from s to s'. */
  ghost predicate Leads<T(!new)>(s: State<T>, s': State<T>, blank: T) {
    exists tr: seq<State<T>>, es: seq<Event<T>> :: IsRun(tr, es, blank) && tr[0] == s && tr[|es|] == s'
  }

  lemma LeadsNowhere<T(!new)>(s: State<T>, blank: T)
    requires Shaped(s.mem)
    ensures Leads(s, s, blank)
  {
    assert IsRun([s], [], blank);
  }

  lemma LeadsOn<T(!new)>(s: State<T>, s': State<T>, e: Event<T>, blank: T)
    requires Leads(s, s', blank) && Shaped(s'.mem) && Shaped(Step(s', e, blank).mem)
    ensures Leads(s, Step(s', e, blank), blank)
  {
    var tr: seq<State<T>>, es: seq<Event<T>> :| IsRun(tr, es, blank) && tr[0] == s && tr[|es|] == s';
    var tr', es' := tr + [Step(s', e, blank)], es + [e];
    forall i | 0 <= i < |es'| ensures Steps(tr', es', blank, i) {
      if i < |es| {
        assert Steps(tr, es, blank, i);
      }
    }
    assert IsRun(tr', es', blank);
  }

  // A run on a queue built for no element, every element being x.

  function Small<T>(x: T, localTail: nat, next: nat): Block<T> {
    Block(0, localTail, 0, 0, next, [x])
  }

  /** One block of one slot. */
  function Start<T>(x: T, max: BlockLimit): State<T> {
    State(Memory([Small(x, 0, 0)], 0, 0, 1, max, [0], 0), PDone(true), CDone([]), [], [])
  }

  function Allocated<T>(x: T, max: BlockLimit): State<T> {
    State(Memory([Small(x, 0, 0), Block(0, 1, 1, 0, 0, [x, x])], 0, 0, 2, max, [0], 0), PLinkNew(x, 0, 1), CDone([]),
        [], [])
  }

  /** The first enqueue allocates a block of two slots. */
  function Grown<T>(x: T, max: BlockLimit): State<T> {
    State(Memory([Small(x, 0, 1), Block(0, 1, 1, 0, 0, [x, x])], 0, 1, 2, max, [0, 1], 1), PDone(true), CDone([]),
        [x], [])
  }

  /** try_dequeue moves on to it. */
  function Moved<T>(x: T, max: BlockLimit): State<T> {
    State(Memory([Small(x, 0, 1), Block(1, 1, 1, 0, 0, [x, x])], 1, 1, 2, max, [1, 0], 0), PDone(true), CDone([x]),
        [x], [x])
  }

  /** The second enqueue fills it. */
  function Filled<T>(x: T, max: BlockLimit): State<T> {
    State(Memory([Small(x, 0, 1), Block(1, 1, 0, 1, 0, [x, x])], 1, 1, 2, max, [1, 0], 0), PDone(true), CDone([x]),
        [x, x], [x])
  }

  /** The third enqueue takes the one-slot block, where its element does not count. */
  function Lost<T>(x: T, max: BlockLimit): State<T> {
    State(Memory([Small(x, 0, 1), Block(1, 1, 0, 1, 0, [x, x])], 1, 0, 2, max, [1, 0], 1), PDone(true), CDone([x]),
        [x, x, x], [x])
  }

  function Missing<T>(x: T, max: BlockLimit): State<T> {
    State(Memory([Small(x, 0, 1), Block(1, 0, 0, 1, 0, [x, x])], 1, 0, 2, max, [1, 0], 1), PDone(true), CDone([x]),
        [x, x, x], [x])
  }

  function Drained<T>(x: T, max: BlockLimit): State<T> {
    State(Memory([Small(x, 0, 1), Block(0, 0, 0, 1, 0, [x, x])], 1, 0, 2, max, [1, 0], 1), PDone(true), CDone([x]),
        [x, x, x], [x, x])
  }

  /** The next try_dequeue runs into the assertion on the block it moves to. */
  function Broken<T>(x: T, max: BlockLimit): State<T> {
    State(Memory([Small(x, 0, 1), Block(0, 0, 0, 1, 0, [x, x])], 1, 0, 2, max, [1, 0], 1), PDone(true), CAborted,
        [x, x, x], [x, x])
  }

  lemma StartEmpty<T>(x: T, max: BlockLimit)
    ensures |Live(Start(x, max).mem)| == 0
  {
    GatherSnoc(Start(x, max).mem.blocks, [], 0);
    assert Start(x, max).mem.ring[..1] == [] + [0];
  }

  /** One step further. */
  lemma Go<T(!new)>(z: State<T>, s: State<T>, e: Event<T>, blank: T) returns (r: State<T>)
    requires Leads(z, s, blank) && Shaped(s.mem) && Shaped(Step(s, e, blank).mem)
    ensures r == Step(s, e, blank) && Leads(z, r, blank)
  {
    r := Step(s, e, blank);
    LeadsOn(z, s, e, blank);
  }

  lemma SameSlots<T>(x: T)
    ensures [x, x][1 := x] == [x, x] && [x, x][0 := x] == [x, x] && [x][0 := x] == [x]
    ensures NewBlock(2, 0, x).data[0 := x] == [x, x]
  {
  }

  /** The first enqueue finds the one slot taken, */
  lemma FirstLook<T(!new)>(x: T, max: BlockLimit)
    requires Leads(Start(x, max), Start(x, max), x)
    ensures Leads(Start(x, max), Start(x, max).(prod := PNext(x, true, 0, 0)), x)
  {
    SameSlots(x);
    var z, s := Start(x, max), Start(x, max);
    s := Go(z, s, Enqueue(x, true), x);
    s := Go(z, s, StepProducer(true), x);
    assert s == Start(x, max).(prod := PTail(x, true, 0));
    StartEmpty(x, max);
    s := Go(z, s, StepProducer(true), x);
    s := Go(z, s, StepProducer(true), x);
    assert s == Start(x, max).(prod := PNext(x, true, 0, 0));
  }

  /** allocates a block of two slots */
  lemma FirstAllocated<T(!new)>(x: T, max: BlockLimit)
    requires Leads(Start(x, max), Start(x, max).(prod := PNext(x, true, 0, 0)), x)
    ensures Leads(Start(x, max), Allocated(x, max), x)
  {
    SameSlots(x);
    var z, s := Start(x, max), Start(x, max).(prod := PNext(x, true, 0, 0));
    s := Go(z, s, StepProducer(true), x);
    s := Go(z, s, StepProducer(true), x);
    assert s == Start(x, max).(prod := PAlloc(x, 0));
    s := Go(z, s, StepProducer(true), x);
    assert s == Allocated(x, max);
  }

  /** and links it in. */
  lemma FirstLinked<T(!new)>(x: T, max: BlockLimit)
    requires Leads(Start(x, max), Allocated(x, max), x)
    ensures Leads(Start(x, max), Grown(x, max), x)
  {
    SameSlots(x);
    var z, s := Start(x, max), Allocated(x, max);
    s := Go(z, s, StepProducer(true), x);
    s := Go(z, s, StepProducer(true), x);
    assert s == Grown(x, max).(prod := PStoreTailBlock(x, 1), mem := Grown(x, max).mem.(tailBlock := 0, tailPos := 0),
           enqueued := []);
    s := Go(z, s, StepProducer(true), x);
    assert s == Grown(x, max);
  }

  /** try_dequeue finds the one-slot block empty */
  lemma MoveLook<T(!new)>(x: T, max: BlockLimit)
    requires Leads(Start(x, max), Grown(x, max), x)
    ensures Leads(Start(x, max), Grown(x, max).(cons := CReload), x)
  {
    SameSlots(x);
    var z, s := Start(x, max), Grown(x, max);
    s := Go(z, s, Dequeue, x);
    s := Go(z, s, StepConsumer, x);
    s := Go(z, s, StepConsumer, x);
    s := Go(z, s, StepConsumer, x);
    s := Go(z, s, StepConsumer, x);
    assert s == Grown(x, max).(cons := CReload);
  }

  /** and so on a second look; */
  lemma MoveNext<T(!new)>(x: T, max: BlockLimit)
    requires Leads(Start(x, max), Grown(x, max).(cons := CReload), x)
    ensures Leads(Start(x, max), Grown(x, max).(cons := CNext(0)), x)
  {
    SameSlots(x);
    var z, s := Start(x, max), Grown(x, max).(cons := CReload);
    s := Go(z, s, StepConsumer, x);
    s := Go(z, s, StepConsumer, x);
    s := Go(z, s, StepConsumer, x);
    assert s == Grown(x, max).(cons := CNext(0));
  }

  /** it goes to the next block */
  lemma MoveOn<T(!new)>(x: T, max: BlockLimit)
    requires Leads(Start(x, max), Grown(x, max).(cons := CNext(0)), x)
    ensures Leads(Start(x, max), Grown(x, max).(cons := CStoreFrontBlock(1, 0)), x)
  {
    SameSlots(x);
    var z, s := Start(x, max), Grown(x, max).(cons := CNext(0));
    s := Go(z, s, StepConsumer, x);
    s := Go(z, s, StepConsumer, x);
    s := Go(z, s, StepConsumer, x);
    assert s == Grown(x, max).(cons := CStoreFrontBlock(1, 0));
  }

  /** and takes the element there. */
  lemma MoveDone<T(!new)>(x: T, max: BlockLimit)
    requires Leads(Start(x, max), Grown(x, max).(cons := CStoreFrontBlock(1, 0)), x)
    ensures Leads(Start(x, max), Moved(x, max), x)
  {
    SameSlots(x);
    var z, s := Start(x, max), Grown(x, max).(cons := CStoreFrontBlock(1, 0));
    s := Go(z, s, StepConsumer, x);
    s := Go(z, s, StepConsumer, x);
    s := Go(z, s, StepConsumer, x);
    assert s == Moved(x, max);
  }

  /** The second enqueue has room */
  lemma SecondLook<T(!new)>(x: T, max: BlockLimit)
    requires Leads(Start(x, max), Moved(x, max), x)
    ensures Leads(Start(x, max), Moved(x, max).(prod := PFront(x, true, 1, 1, 0)), x)
  {
    SameSlots(x);
    var z, s := Start(x, max), Moved(x, max);
    s := Go(z, s, Enqueue(x, true), x);
    s := Go(z, s, StepProducer(true), x);
    s := Go(z, s, StepProducer(true), x);
    assert s == Moved(x, max).(prod := PFront(x, true, 1, 1, 0));
  }

  /** and fills the block. */
  lemma SecondDone<T(!new)>(x: T, max: BlockLimit)
    requires Leads(Start(x, max), Moved(x, max).(prod := PFront(x, true, 1, 1, 0)), x)
    ensures Leads(Start(x, max), Filled(x, max), x)
  {
    SameSlots(x);
    var z, s := Start(x, max), Moved(x, max).(prod := PFront(x, true, 1, 1, 0));
    s := Go(z, s, StepProducer(true), x);
    s := Go(z, s, StepProducer(true), x);
    assert s == Filled(x, max).(prod := PStoreTail(x, 1, 0),
           mem := Put(Filled(x, max).mem, 1, Block(1, 1, 1, 1, 0, [x, x])), enqueued := [x]);
    s := Go(z, s, StepProducer(true), x);
    assert s == Filled(x, max);
  }

  /** The third enqueue finds it full */
  lemma ThirdLook<T(!new)>(x: T, max: BlockLimit)
    requires Leads(Start(x, max), Filled(x, max), x)
    ensures Leads(Start(x, max), Filled(x, max).(prod := PFront(x, true, 1, 0, 1)), x)
  {
    SameSlots(x);
    var z, s := Start(x, max), Filled(x, max);
    s := Go(z, s, Enqueue(x, true), x);
    s := Go(z, s, StepProducer(true), x);
    s := Go(z, s, StepProducer(true), x);
    assert s == Filled(x, max).(prod := PFront(x, true, 1, 0, 1));
  }

  /** but the next block not in front, */
  lemma ThirdFull<T(!new)>(x: T, max: BlockLimit)
    requires Leads(Start(x, max), Filled(x, max).(prod := PFront(x, true, 1, 0, 1)), x)
    ensures Leads(Start(x, max), Filled(x, max).(prod := PNextAgain(x, 1)), x)
  {
    SameSlots(x);
    var z, s := Start(x, max), Filled(x, max).(prod := PFront(x, true, 1, 0, 1));
    s := Go(z, s, StepProducer(true), x);
    s := Go(z, s, StepProducer(true), x);
    s := Go(z, s, StepProducer(true), x);
    assert s == Filled(x, max).(prod := PNextAgain(x, 1));
  }

  /** takes that block, of one slot, */
  lemma ThirdNext<T(!new)>(x: T, max: BlockLimit)
    requires Leads(Start(x, max), Filled(x, max).(prod := PNextAgain(x, 1)), x)
    ensures Leads(Start(x, max), Filled(x, max).(prod := PNextWrite(x, 0, 0, 0)), x)
  {
    SameSlots(x);
    var z, s := Start(x, max), Filled(x, max).(prod := PNextAgain(x, 1));
    s := Go(z, s, StepProducer(true), x);
    s := Go(z, s, StepProducer(true), x);
    s := Go(z, s, StepProducer(true), x);
    assert s == Filled(x, max).(prod := PNextWrite(x, 0, 0, 0));
  }

  /** and writes the element where it does not count. */
  lemma ThirdLost<T(!new)>(x: T, max: BlockLimit)
    requires Leads(Start(x, max), Filled(x, max).(prod := PNextWrite(x, 0, 0, 0)), x)
    ensures Leads(Start(x, max), Lost(x, max), x)
  {
    SameSlots(x);
    var z, s := Start(x, max), Filled(x, max).(prod := PNextWrite(x, 0, 0, 0));
    s := Go(z, s, StepProducer(true), x);
    s := Go(z, s, StepProducer(true), x);
    assert s == Filled(x, max).(prod := PStoreTailBlock(x, 0));
    s := Go(z, s, StepProducer(true), x);
    assert s == Lost(x, max);
  }

  /** The second dequeue finds the second element */
  lemma NextLook<T(!new)>(x: T, max: BlockLimit)
    requires Leads(Start(x, max), Lost(x, max), x)
    ensures Leads(Start(x, max), Missing(x, max).(cons := CRead(1, 1)), x)
  {
    SameSlots(x);
    var z, s := Start(x, max), Lost(x, max);
    s := Go(z, s, Dequeue, x);
    s := Go(z, s, StepConsumer, x);
    s := Go(z, s, StepConsumer, x);
    s := Go(z, s, StepConsumer, x);
    assert s == Missing(x, max).(cons := CRead(1, 1));
  }

  /** and takes it. */
  lemma NextDone<T(!new)>(x: T, max: BlockLimit)
    requires Leads(Start(x, max), Missing(x, max).(cons := CRead(1, 1)), x)
    ensures Leads(Start(x, max), Drained(x, max), x)
  {
    SameSlots(x);
    var z, s := Start(x, max), Missing(x, max).(cons := CRead(1, 1));
    s := Go(z, s, StepConsumer, x);
    s := Go(z, s, StepConsumer, x);
    assert s == Drained(x, max);
  }

  /** The third finds its block empty */
  lemma LastLook<T(!new)>(x: T, max: BlockLimit)
    requires Leads(Start(x, max), Drained(x, max), x)
    ensures Leads(Start(x, max), Drained(x, max).(cons := CReload), x)
  {
    SameSlots(x);
    var z, s := Start(x, max), Drained(x, max);
    s := Go(z, s, Dequeue, x);
    s := Go(z, s, StepConsumer, x);
    s := Go(z, s, StepConsumer, x);
    s := Go(z, s, StepConsumer, x);
    s := Go(z, s, StepConsumer, x);
    assert s == Drained(x, max).(cons := CReload);
  }

  /** and so on a second look; */
  lemma LastNext<T(!new)>(x: T, max: BlockLimit)
    requires Leads(Start(x, max), Drained(x, max).(cons := CReload), x)
    ensures Leads(Start(x, max), Drained(x, max).(cons := CNext(1)), x)
  {
    SameSlots(x);
    var z, s := Start(x, max), Drained(x, max).(cons := CReload);
    s := Go(z, s, StepConsumer, x);
    s := Go(z, s, StepConsumer, x);
    s := Go(z, s, StepConsumer, x);
    assert s == Drained(x, max).(cons := CNext(1));
  }

  /** in the next block the assertion fails. */
  lemma LastBroken<T(!new)>(x: T, max: BlockLimit)
    requires Leads(Start(x, max), Drained(x, max).(cons := CNext(1)), x)
    ensures Leads(Start(x, max), Broken(x, max), x)
  {
    SameSlots(x);
    var z, s := Start(x, max), Drained(x, max).(cons := CNext(1));
    s := Go(z, s, StepConsumer, x);
    s := Go(z, s, StepConsumer, x);
    s := Go(z, s, StepConsumer, x);
    assert s == Broken(x, max);
  }

  lemma StartIsInit<T>(x: T, max: BlockLimit)
    ensures Start(x, max) == Init(0, max, x)
  {
    var s := Init(0, max, x);
    assert CeilToPow2(1) == 1 && InitialBlocks(0, max) == 1;
    assert s.mem.ring == [0];
    InitShape(0, max, x, 0);
    assert NewBlock(1, 0, x).data == [x];
    assert s.mem.blocks == [Small(x, 0, 0)];
  }

  /** All of them, one after the other. */
  lemma WholeRun<T(!new)>(x: T, max: BlockLimit)
    requires Leads(Start(x, max), Start(x, max), x)
    ensures Leads(Start(x, max), Broken(x, max), x)
  {
    hide Leads;
    FirstLook(x, max);
    FirstAllocated(x, max);
    FirstLinked(x, max);
    MoveLook(x, max);
    MoveNext(x, max);
    MoveOn(x, max);
    MoveDone(x, max);
    SecondLook(x, max);
    SecondDone(x, max);
    ThirdLook(x, max);
    ThirdFull(x, max);
    ThirdNext(x, max);
    ThirdLost(x, max);
    NextLook(x, max);
    NextDone(x, max);
    LastLook(x, max);
    LastNext(x, max);
    LastBroken(x, max);
  }

  /** A run that loses the third element and then fails the assertion of the block advance. */
  lemma ZeroBreaks<T(!new)>(x: T, max: BlockLimit)
    ensures Leads(Init(0, max, x), Broken(x, max), x)
  {
    StartIsInit(x, max);
    LeadsNowhere(Start(x, max), x);
    WholeRun(x, max);
  }

  /** From half a word on, the rounding gives zero: the one block has no slots. */
  lemma HugeInit<T>(x: T, size: nat, max: BlockLimit)
    requires HALF <= size < WORD
    ensures Init(size, max, x) ==
            State(Memory([NewBlock(0, 0, x)], 0, 0, 0, max, [0], 0), PDone(true), CDone([]), [], [])
  {
    hide NewBlock;
    assert Rounded(Increment(size)) == 0 && InitialBlocks(size, max) == 1 && FirstBlockSize(size, max) == 0;
    InitShape(size, max, x, 0);
    var m := Init(size, max, x).mem;
    assert m.ring == [0] && m.blocks == [NewBlock(0, 0, x)];
  }

  /** An enqueue on it: no slot is seen to be taken, and the element goes where none is. */
  lemma OutsideSteps<T>(z: State<T>, x: T)
    requires Shaped(z.mem) && z.prod.PDone? && z.mem.tailBlock == 0
    requires var b := z.mem.blocks[0]; b.Size() == WORD && b.tail == b.localFront == 0
    ensures Step(z, Enqueue(x, false), x) == z.(prod := PStart(x, false))
    ensures Step(z.(prod := PStart(x, false)), StepProducer(true), x) == z.(prod := PTail(x, false, 0))
    ensures Step(z.(prod := PTail(x, false, 0)), StepProducer(true), x) == z.(prod := PWrite(x, 0, 0, 1))
    ensures Step(z.(prod := PWrite(x, 0, 0, 1)), StepProducer(true), x) == z.(prod := POutside)
  {
    hide Live;
  }

  /** The first element is written outside of it. */
  lemma HugeBreaks<T(!new)>(x: T, size: nat, max: BlockLimit)
    requires HALF <= size < WORD
    ensures Leads(Init(size, max, x), Init(size, max, x).(prod := POutside), x)
  {
    hide Leads, NewBlock, Live, QueueModel.Init, Block.Size, Step;
    var z := Init(size, max, x);
    HugeInit(x, size, max);
    NoSlots(x);
    assert Shaped(z.mem);
    OutsideSteps(z, x);
    LeadsNowhere(z, x);
    var s := Go(z, z, Enqueue(x, false), x);
    s := Go(z, s, StepProducer(true), x);
    s := Go(z, s, StepProducer(true), x);
    s := Go(z, s, StepProducer(true), x);
  }

  lemma NoSlots<T>(x: T)
    ensures var b := NewBlock(0, 0, x); b.Ok() && b.Size() == WORD && b.tail == b.localFront == 0
  {
  }

  /** The queue is first in first out, its assertions hold and it keeps to its blocks on every run,
      exactly when it was built for at least one element and for fewer than half a word of them. */
  lemma SafeIffSized<T(!new)>(size: nat, maxBlockSize: BlockLimit, blank: T)
    requires size < WORD
    ensures Safe(size, maxBlockSize, blank) <==> 1 <= size < HALF
  {
    if 1 <= size < HALF {
      forall tr: seq<State<T>>, es: seq<Event<T>>
        | IsRun(tr, es, blank) && tr[0] == Init(size, maxBlockSize, blank)
        ensures AlwaysFine(tr)
      {
        forall i | 0 <= i < |tr|
          ensures tr[i].enqueued == tr[i].dequeued + Live(tr[i].mem) && !tr[i].prod.PAborted? &&
                  !tr[i].prod.POutside? && !tr[i].cons.CAborted?
        {
          FirstInFirstOut(tr, es, blank, size, maxBlockSize, i);
        }
      }
    } else {
      var bad := BadEnd(size, maxBlockSize, blank);
      var tr: seq<State<T>>, es: seq<Event<T>> :|
        IsRun(tr, es, blank) && tr[0] == Init(size, maxBlockSize, blank) && tr[|es|] == bad;
      assert tr[|es|] == bad && !AlwaysFine(tr);
    }
  }

  lemma BadEnd<T(!new)>(size: nat, max: BlockLimit, x: T) returns (bad: State<T>)
    requires size == 0 || HALF <= size < WORD
    ensures Leads(Init(size, max, x), bad, x) && (bad.prod.POutside? || bad.cons.CAborted?)
  {
    hide Leads;
    if size == 0 {
      ZeroBreaks(x, max);
      bad := Broken(x, max);
    } else {
      HugeBreaks(x, size, max);
      bad := Init(size, max, x).(prod := POutside);
    }
  }
}

/** The merging routines themselves, on the buffers they fill. */
module MergeStream {
  import opened Basics
  import opened Delta
  import opened Merge

  /** XD3_INVALID_INPUT, XD3_INTERNAL, and an XD3_ASSERT that does not hold. */
  datatype Ret = Ok | InvalidInput | InternalError | AssertFailed

  datatype WinInfo = WinInfo(offset: nat, length: nat, adler32: bv32)

  // ---------------------------------------------------------------- what a copy comes to

  /** A copy of a's output: a start beyond the end is reported; an end beyond the end, or an empty
      instruction on the way, runs into an assertion. */
  function CopyRet(a: Delta, n: nat, addr: nat, size: nat): Ret
    requires WellFormed(a, n)
    decreases addr + size, size, 2
  {
    if addr >= a.length then InvalidInput else StepsRet(a, n, Locate(a.inst, |a.inst|, addr), addr, size)
  }

  /** The instructions from number num on, of which the first must cover the address. */
  function StepsRet(a: Delta, n: nat, num: nat, addr: nat, size: nat): Ret
    requires WellFormed(a, n) && num <= |a.inst|
    requires size > 0 && num < |a.inst| ==> a.inst[num].position <= addr
    decreases addr + size, size, 1
  {
    if size == 0 then Ok
    else if num == |a.inst| || a.inst[num].size <= addr - a.inst[num].position then AssertFailed
    else
      var s, off := a.inst[num], addr - a.inst[num].position;
      var take := Min(size, s.size - off);
      var r := TakeRet(a, n, s, off, take);
      assert num + 1 < |a.inst| ==> Follows(a.inst, num + 1);
      if r != Ok then r else StepsRet(a, n, num + 1, addr + take, size - take)
  }

  function TakeRet(a: Delta, n: nat, s: Inst, off: nat, take: nat): Ret
    requires WellFormed(a, n) && s in a.inst && off + take <= s.size
    decreases s.position + off + take, take, 0
  {
    assert InstOk(s, |a.adds|, n);
    if s.kind == Copy && s.mode == Self then CopyRet(a, n, s.addr + off, take) else Ok
  }

  /** A copy that comes to an end stays inside the output. */
  lemma {:induction false} StepsInside(a: Delta, n: nat, num: nat, addr: nat, size: nat)
    requires WellFormed(a, n) && num <= |a.inst|
    requires size > 0 && num < |a.inst| ==> a.inst[num].position <= addr
    requires StepsRet(a, n, num, addr, size) == Ok && size > 0
    ensures addr + size <= a.length
    decreases size
  {
    var s, off := a.inst[num], addr - a.inst[num].position;
    var take := Min(size, s.size - off);
    InsideLength(a, n, s);
    if take < size {
      assert num + 1 < |a.inst| ==> Follows(a.inst, num + 1);
      StepsInside(a, n, num + 1, addr + take, size - take);
    }
  }

  /** No empty instruction stands between two bytes of the output. */
  predicate Smooth(a: Delta) {
    forall i :: 0 <= i < |a.inst| && a.inst[i].size == 0 ==> a.inst[i].position == 0 || a.inst[i].position == a.length
  }

  /** Then only the bounds of the output count. */
  lemma {:induction false} BoundsDecide(a: Delta, n: nat, addr: nat, size: nat)
    requires WellFormed(a, n) && Smooth(a)
    ensures CopyRet(a, n, addr, size) ==
            if addr >= a.length then InvalidInput else if addr + size > a.length then AssertFailed else Ok
    decreases addr + size, size, 2
  {
    if addr < a.length {
      BoundsDecideFrom(a, n, Locate(a.inst, |a.inst|, addr), addr, size);
    }
  }

  lemma {:induction false} BoundsDecideFrom(a: Delta, n: nat, num: nat, addr: nat, size: nat)
    requires WellFormed(a, n) && Smooth(a) && num <= |a.inst| && (size > 0 ==> AtInst(a, addr, num))
    ensures StepsRet(a, n, num, addr, size) == if size > 0 && addr + size > a.length then AssertFailed else Ok
    decreases addr + size, size, 1
  {
    if size > 0 && addr < a.length {
      var s, off := a.inst[num], addr - a.inst[num].position;
      var take := Min(size, s.size - off);
      NextInst(a, n, addr, size, num);
      if s.kind == Copy && s.mode == Self {
        assert InstOk(s, |a.adds|, n);
        BoundsDecide(a, n, s.addr + off, take);
      }
      BoundsDecideFrom(a, n, num + 1, addr + take, size - take);
    }
  }

  /** num is the instruction that covers the address; at the end of the output, it covers nothing. */
  ghost predicate AtInst(a: Delta, addr: nat, num: nat)
    requires Contiguous(a.inst) && a.length == End(a.inst, |a.inst|)
  {
    && addr <= a.length && num <= |a.inst|
    && if addr < a.length then num == Locate(a.inst, |a.inst|, addr)
       else num < |a.inst| ==> a.inst[num].size == 0 && a.inst[num].position == a.length
  }

  /** Having taken what is left of an instruction, the next one is due. */
  lemma NextInst(a: Delta, n: nat, addr: nat, size: nat, num: nat)
    requires WellFormed(a, n) && Smooth(a) && AtInst(a, addr, num) && addr < a.length && size > 0
    ensures num < |a.inst| && a.inst[num].position <= addr < a.inst[num].position + a.inst[num].size
    ensures var take := Min(size, a.inst[num].size - (addr - a.inst[num].position));
            addr + take <= a.length && (size > take ==> AtInst(a, addr + take, num + 1))
  {
    InsideLength(a, n, a.inst[num]);
    if num + 1 < |a.inst| {
      assert Follows(a.inst, num + 1);
      InsideLength(a, n, a.inst[num + 1]);
      var take := Min(size, a.inst[num].size - (addr - a.inst[num].position));
      if take < size && addr + take < a.length {
        LocateUnique(a.inst, addr + take, num + 1);
      }
    }
  }

  /** Copies inside the output all succeed exactly if no empty instruction stands between two bytes. */
  lemma SmoothDecides(a: Delta, n: nat)
    requires WellFormed(a, n)
    ensures Smooth(a) <==> forall addr: nat, size: nat | addr < a.length && addr + size <= a.length ::
              CopyRet(a, n, addr, size) == Ok
  {
    if Smooth(a) {
      forall addr: nat, size: nat | addr < a.length && addr + size <= a.length ensures CopyRet(a, n, addr, size) == Ok {
        BoundsDecide(a, n, addr, size);
      }
    } else {
      var j :| 0 <= j < |a.inst| && a.inst[j].size == 0 && a.inst[j].position != 0 && a.inst[j].position != a.length;
      InsideLength(a, n, a.inst[j]);
      EmptyFails(a, n, j);
      assert CopyRet(a, n, a.inst[j].position - 1, 2) != Ok;
    }
  }

  /** The two bytes around an empty instruction cannot be copied. */
  lemma EmptyFails(a: Delta, n: nat, j: nat)
    requires WellFormed(a, n) && j < |a.inst| && a.inst[j].size == 0 && 0 < a.inst[j].position < a.length
    ensures CopyRet(a, n, a.inst[j].position - 1, 2) != Ok
  {
    hide TakeRet;
    var addr := a.inst[j].position - 1;
    var num := Locate(a.inst, |a.inst|, addr);
    var s := a.inst[num];
    if j < num {
      Ascending(a.inst, j, num);
    } else {
      Ascending(a.inst, num, j);
      assert Follows(a.inst, num + 1);
      if num + 1 < j {
        Ascending(a.inst, num + 1, j);
      }
      assert a.inst[num + 1].position == addr + 1 && a.inst[num + 1].size == 0;
      assert StepsRet(a, n, num + 1, addr + 1, 1) == AssertFailed;
    }
  }

  /** An empty instruction in the middle of what is copied: the delta can be decoded, but the assertion
      that a source instruction has bytes left does not hold. */
  lemma EmptyStops(b: Byte)
    ensures var a := Delta([Inst(Run, Self, 1, 0, 0), Inst(Run, Self, 0, 0, 1), Inst(Run, Self, 1, 0, 1)], [b], 2);
            WellFormed(a, 0) && CopyRet(a, 0, 0, 2) == AssertFailed && CopyRet(a, 0, 0, 1) == Ok == CopyRet(a, 0, 1, 1)
  {
    var a := Delta([Inst(Run, Self, 1, 0, 0), Inst(Run, Self, 0, 0, 1), Inst(Run, Self, 1, 0, 1)], [b], 2);
    assert forall i :: 0 <= i < 3 ==> Follows(a.inst, i);
    LocateUnique(a.inst, 0, 0);
    LocateUnique(a.inst, 1, 2);
  }

  function InstRet(i: Inst, a: Delta, n: nat): Ret
    requires WellFormed(a, n)
  {
    if i.kind != Copy || i.mode == Self then Ok
    else if i.mode == OldTarget then InvalidInput
    else CopyRet(a, n, i.addr, i.size)
  }

  /** The first complaint, if there is one. */
  function FirstRet(inst: seq<Inst>, k: nat, a: Delta, n: nat): Ret
    requires k <= |inst| && WellFormed(a, n)
  {
    if k == 0 then Ok
    else if FirstRet(inst, k - 1, a, n) != Ok then FirstRet(inst, k - 1, a, n)
    else InstRet(inst[k - 1], a, n)
  }

  /** A second delta as the decoder hands it over: its copies of the first delta's output are not
      yet checked. */
  ghost predicate Readable(d: Delta) {
    && Contiguous(d.inst) && d.length == End(d.inst, |d.inst|)
    && forall i :: 0 <= i < |d.inst| ==>
         (d.inst[i].kind == Copy && d.inst[i].mode != Self) || InstOk(d.inst[i], |d.adds|, 0)
  }

  /** A copy of the first delta's output begins and ends inside it. */
  predicate CopyInside(i: Inst, length: nat) {
    i.kind == Copy && i.mode != Self ==> i.mode == Source && i.addr < length && i.addr + i.size <= length
  }

  lemma {:induction false} AllOk(d: Delta, k: nat, a: Delta, n: nat)
    requires Readable(d) && k <= |d.inst| && WellFormed(a, n)
    ensures FirstRet(d.inst, k, a, n) == Ok ==> forall i :: 0 <= i < k ==> InstOk(d.inst[i], |d.adds|, a.length)
    ensures Smooth(a) ==>
              (FirstRet(d.inst, k, a, n) == Ok <==> forall i :: 0 <= i < k ==> CopyInside(d.inst[i], a.length))
  {
    if k > 0 {
      AllOk(d, k - 1, a, n);
      var i := d.inst[k - 1];
      if i.kind == Copy && i.mode == Source {
        if Smooth(a) {
          BoundsDecide(a, n, i.addr, i.size);
        }
        if CopyRet(a, n, i.addr, i.size) == Ok && i.size > 0 {
          StepsInside(a, n, Locate(a.inst, |a.inst|, i.addr), i.addr, i.size);
        }
      }
    }
  }

  class WholeState {
    var inst: seq<Inst>
    var adds: seq<Byte>
    var length: nat
    var wininfo: seq<WinInfo>

    constructor ()
      ensures inst == [] && adds == [] && length == 0 && wininfo == []
    {
      inst, adds, length, wininfo := [], [], 0, [];
    }

    function Value(): Delta
      reads this
    {
      Delta(inst, adds, length)
    }

    method MergeRun(target: WholeState, iinst: Inst)
      requires target != this && iinst.kind == Run && iinst.addr < |target.adds| && length == iinst.position
      modifies this
      ensures Value() == WithRun(old(Value()), iinst.mode, iinst.size, target.adds[iinst.addr], iinst.position)
                         .(length := old(length) + iinst.size)
      ensures wininfo == old(wininfo)
    {
      inst := inst + [Inst(iinst.kind, iinst.mode, iinst.size, |adds|, length)];
      length := length + iinst.size;
      adds := adds + [target.adds[iinst.addr]];
    }

    method MergeAdd(target: WholeState, iinst: Inst)
      requires target != this && iinst.kind == Add && iinst.addr + iinst.size <= |target.adds| &&
               length == iinst.position
      modifies this
      ensures Value() == WithAdd(old(Value()), iinst.mode, target.adds[iinst.addr..iinst.addr + iinst.size],
              iinst.position)
                         .(length := old(length) + iinst.size)
      ensures wininfo == old(wininfo)
    {
      inst := inst + [Inst(iinst.kind, iinst.mode, iinst.size, |adds|, length)];
      length := length + iinst.size;
      adds := adds + target.adds[iinst.addr..iinst.addr + iinst.size];
    }

    method MergeTargetCopy(iinst: Inst)
      requires iinst.kind == Copy && length == iinst.position
      modifies this
      ensures Value() == WithCopy(old(Value()), iinst.mode, iinst.size, iinst.addr, iinst.position)
      ensures wininfo == old(wininfo)
    {
      inst := inst + [iinst];
    }

    /** Binary search for the instruction of the source that covers the address. */
    method FindPosition(source: WholeState, address: nat, ghost n: nat) returns (ret: Ret, instNum: nat)
      requires WellFormed(source.Value(), n)
      ensures ret == if address >= source.length then InvalidInput else Ok
      ensures ret == Ok ==> instNum == Locate(source.inst, |source.inst|, address)
    {
      if address >= source.length {
        return InvalidInput, 0;
      }
      ghost var goal := Locate(source.inst, |source.inst|, address);
      ret, instNum := InternalError, 0;
      var low, high := 0, |source.inst|;
      while low != high
        invariant low <= goal < high <= |source.inst|
        decreases high - low
      {
        var mid := low + (high - low) / 2;
        var midLpos := source.inst[mid].position;
        if address < midLpos {
          if mid < goal {
            Ascending(source.inst, mid, goal);
          }
          high := mid;
          continue;
        }
        var midHpos := midLpos + source.inst[mid].size;
        if address >= midHpos {
          if goal < mid {
            Ascending(source.inst, goal, mid);
          }
          low := mid + 1;
          continue;
        }
        LocateUnique(source.inst, address, mid);
        return Ok, mid;
      }
      assert false;   // "Internal error in merge" cannot happen
    }

    /** One round of xd3_merge_source_copy: `take` bytes from `offset` into the source instruction. */
    method MergeTake(source: WholeState, sinst: Inst, offset: nat, take: nat, position: nat, ghost n: nat)
      returns (ret: Ret)
      requires source != this && WellFormed(source.Value(), n)
      requires sinst in source.inst && offset + take <= sinst.size && take > 0
      modifies this
      ensures ret == TakeRet(source.Value(), n, sinst, offset, take)
      ensures ret == Ok ==> Value() == TakeFrom(source.Value(), n, old(Value()), sinst, offset, take, position)
      ensures wininfo == old(wininfo) && length == old(length)
      decreases sinst.position + offset + take, 0
    {
      assert InstOk(sinst, |source.adds|, n);
      ret := Ok;
      match sinst.kind {
        case Run =>
          inst := inst + [Inst(Run, Self, take, |adds|, position)];
          adds := adds + [source.adds[sinst.addr]];
        case Add =>
          inst := inst + [Inst(Add, Self, take, |adds|, position)];
          adds := adds + source.adds[sinst.addr + offset..sinst.addr + offset + take];
        case Copy =>
          if sinst.mode != Self {
            inst := inst + [Inst(Copy, sinst.mode, take, sinst.addr + offset, position)];
          } else {
            // A copy of the source's own output: resolved in its turn.
            InsideLength(source.Value(), n, sinst);
            ret := MergeSourceCopy(source, Inst(Copy, Source, take, sinst.addr + offset, position), n);
          }
      }
    }

    method MergeSourceCopy(source: WholeState, iinstOrig: Inst, ghost n: nat) returns (ret: Ret)
      requires source != this && WellFormed(source.Value(), n) && iinstOrig.mode == Source
      modifies this
      ensures ret == CopyRet(source.Value(), n, iinstOrig.addr, iinstOrig.size)
      ensures ret == Ok && iinstOrig.size > 0 ==> iinstOrig.addr + iinstOrig.size <= source.length
      ensures ret == Ok ==>
        Value() == CopyRange(source.Value(), n, old(Value()), iinstOrig.addr, iinstOrig.size, iinstOrig.position)
      ensures wininfo == old(wininfo) && length == old(length)
      decreases iinstOrig.addr + iinstOrig.size, 1
    {
      hide Contiguous, InstOk, TakeFrom, TakeRet, CopyRet, StepsRet, CopyRange;
      var iinst := iinstOrig;
      var sinstNum: nat;
      ret, sinstNum := FindPosition(source, iinst.addr, n);
      ghost var a := source.Value();
      CopyRetIs(a, n, iinst.addr, iinst.size);
      if ret != Ok {
        return;
      }
      ghost var want := CopyRet(a, n, iinst.addr, iinst.size);
      ghost var good := want == Ok;
      if good && iinst.size > 0 {
        StepsInside(a, n, sinstNum, iinst.addr, iinst.size);
      }
      ghost var goal := if good then CopyRange(a, n, Value(), iinst.addr, iinst.size, iinst.position) else a;
      while iinst.size > 0
        invariant iinst.mode == Source && sinstNum <= |a.inst| && source.Value() == a
        invariant iinst.size > 0 && sinstNum < |a.inst| ==> a.inst[sinstNum].position <= iinst.addr
        invariant StepsRet(a, n, sinstNum, iinst.addr, iinst.size) == want
        invariant good && iinst.size > 0 ==> iinst.addr + iinst.size <= a.length
        invariant good ==> CopyRange(a, n, Value(), iinst.addr, iinst.size, iinst.position) == goal
        invariant wininfo == old(wininfo) && length == old(length)
        invariant iinst.addr + iinst.size == iinstOrig.addr + iinstOrig.size
        decreases iinst.size
      {
        StepsStop(a, n, sinstNum, iinst.addr, iinst.size);
        if sinstNum >= |source.inst| {
          return AssertFailed;
        }
        var sinst := source.inst[sinstNum];
        var sinstOffset := iinst.addr - sinst.position;
        if sinst.size <= sinstOffset {
          return AssertFailed;
        }
        OneRound(a, n, Value(), sinstNum, iinst.addr, iinst.size, iinst.position);
        var sinstLeft := sinst.size - sinstOffset;
        var thisTake := Min(iinst.size, sinstLeft);
        ret := MergeTake(source, sinst, sinstOffset, thisTake, iinst.position, n);
        if ret != Ok {
          return;
        }
        iinst := iinst.(position := iinst.position + thisTake, addr := iinst.addr + thisTake,
            size := iinst.size - thisTake);
        sinstNum := sinstNum + 1;
      }
      NothingLeft(a, n, Value(), sinstNum, iinst.addr, iinst.position);
      return Ok;
    }

    /** Applies `input` to `source`: the result is in this, which starts out empty. */
    method MergeInputs(source: WholeState, input: WholeState, ghost n: nat) returns (ret: Ret)
      requires source != this && input != this
      requires inst == [] && adds == [] && length == 0 && wininfo == []
      requires WellFormed(source.Value(), n) && Readable(input.Value())
      modifies this
      ensures ret == FirstRet(input.inst, |input.inst|, source.Value(), n)
      ensures Smooth(source.Value()) ==>
                (ret == Ok <==> forall i :: 0 <= i < |input.inst| ==> CopyInside(input.inst[i], source.length))
      ensures ret == Ok ==> WellFormed(input.Value(), source.length)
      ensures ret == Ok ==> wininfo == input.wininfo && Value() == Merged(source.Value(), n, input.Value())
      ensures ret == Ok ==> forall src: seq<Byte> | |src| == n ::
        WellFormed(Value(), n) && Decode(Value(), src) == Decode(input.Value(), Decode(source.Value(), src))
    {
      ghost var a, b := source.Value(), input.Value();
      var i := 0;
      while i < |input.wininfo|
        invariant i <= |input.wininfo| && wininfo == input.wininfo[..i]
        invariant inst == [] && adds == [] && length == 0
      {
        wininfo := wininfo + [input.wininfo[i]];
        i := i + 1;
      }
      ret := Ok;
      var inputI := 0;
      while ret == Ok && inputI < |input.inst|
        invariant inputI <= |input.inst| && wininfo == input.wininfo
        invariant ret == FirstRet(b.inst, inputI, a, n)
        invariant ret == Ok ==> length == End(b.inst, inputI)
        invariant ret == Ok ==> forall j :: 0 <= j < inputI ==> InstOk(b.inst[j], |b.adds|, a.length)
        invariant ret == Ok ==> Value() == MergeFirst(a, n, b, inputI)
      {
        var iinst := input.inst[inputI];
        assert Follows(b.inst, inputI);
        AllOk(b, inputI + 1, a, n);
        match iinst.kind {
          case Run => MergeRun(input, iinst);
          case Add => MergeAdd(input, iinst);
          case Copy =>
            if iinst.mode == Self {
              MergeTargetCopy(iinst);
            } else if iinst.mode == OldTarget {
              ret := InvalidInput;
            } else {
              ret := MergeSourceCopy(source, iinst, n);
            }
            length := length + iinst.size;
        }
        inputI := inputI + 1;
      }
      AllOk(b, |b.inst|, a, n);
      FirstStays(b.inst, inputI, |b.inst|, a, n);
      if ret == Ok {
        forall src: seq<Byte> | |src| == n
          ensures WellFormed(Value(), n) && Decode(Value(), src) == Decode(b, Decode(a, src))
        {
          MergePreservesMeaning(a, b, src);
        }
      }
    }
  }

  lemma CopyRetIs(a: Delta, n: nat, addr: nat, size: nat)
    requires WellFormed(a, n)
    ensures addr >= a.length ==> CopyRet(a, n, addr, size) == InvalidInput
    ensures addr < a.length ==>
              CopyRet(a, n, addr, size) == StepsRet(a, n, Locate(a.inst, |a.inst|, addr), addr, size)
  {
  }

  lemma NothingLeft(a: Delta, n: nat, m: Delta, num: nat, addr: nat, pos: nat)
    requires WellFormed(a, n) && num <= |a.inst|
    ensures StepsRet(a, n, num, addr, 0) == Ok && CopyRange(a, n, m, addr, 0, pos) == m
  {
  }

  lemma StepsStop(a: Delta, n: nat, num: nat, addr: nat, size: nat)
    requires WellFormed(a, n) && num <= |a.inst| && size > 0 && (num < |a.inst| ==> a.inst[num].position <= addr)
    ensures num == |a.inst| || a.inst[num].size <= addr - a.inst[num].position ==>
              StepsRet(a, n, num, addr, size) == AssertFailed
  {
  }

  /** One round of the loop, in what it returns and in what it puts out. */
  lemma OneRound(a: Delta, n: nat, m: Delta, num: nat, addr: nat, size: nat, pos: nat)
    requires WellFormed(a, n) && num < |a.inst| && size > 0
    requires a.inst[num].position <= addr < a.inst[num].position + a.inst[num].size
    ensures var s, off := a.inst[num], addr - a.inst[num].position;
            var take := Min(size, s.size - off);
            && (size > take && num + 1 < |a.inst| ==> a.inst[num + 1].position <= addr + take)
            && StepsRet(a, n, num, addr, size) ==
               (if TakeRet(a, n, s, off, take) != Ok then TakeRet(a, n, s, off, take)
                else StepsRet(a, n, num + 1, addr + take, size - take))
            && (addr + size <= a.length ==>
                  CopyRange(a, n, m, addr, size, pos) ==
                  CopyRange(a, n, TakeFrom(a, n, m, s, off, take, pos), addr + take, size - take, pos + take))
  {
    hide TakeFrom, TakeRet;
    LocateUnique(a.inst, addr, num);
    assert num + 1 < |a.inst| ==> Follows(a.inst, num + 1);
  }

  lemma {:induction false} FirstStays(inst: seq<Inst>, i: nat, j: nat, a: Delta, n: nat)
    requires i <= j <= |inst| && WellFormed(a, n)
    ensures FirstRet(inst, i, a, n) != Ok ==> FirstRet(inst, j, a, n) == FirstRet(inst, i, a, n)
  {
    if i < j {
      FirstStays(inst, i, j - 1, a, n);
    }
  }
}

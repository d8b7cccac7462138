/** Collecting the windows of a VCDIFF file into one delta over the whole source
    (xd3_whole_append_inst and xd3_whole_append_window of Baseline/third/xdelta/xdelta3-merge.h): what
    the merge starts from means what the decoder makes of the windows. */
module MergeWindow {
  import opened Basics
  import opened Delta
  import opened Merge
  import opened MergeStream
  import V = VcdEmit

  // ---------------------------------------------------------------- one instruction

  /** The whole delta d with a half-instruction of the window; the window's target begins at
      `winStart` and its data section is read from dpos on. */
  function Appended(d: Delta, w: V.Window, winStart: nat, h: V.Half, dpos: nat): Delta
    requires Supplied(w, h, dpos)
  {
    match h
    case Noop => d
    case Run(size) => WithRun(d, Self, size, w.data[dpos], d.length).(length := d.length + size)
    case Add(size) => WithAdd(d, Self, w.data[dpos..dpos + size], d.length).(length := d.length + size)
    case Copy(size, addr) =>
      (if addr < w.cpylen then WithCopy(d, Source, size, w.cpyoff + addr, d.length)
       else WithCopy(d, Self, size, winStart + addr - w.cpylen, d.length)).(length := d.length + size)
  }

  /** The data section has the bytes of the instruction. */
  predicate Supplied(w: V.Window, h: V.Half, dpos: nat) {
    match h
    case Noop => true
    case Bad => false
    case Run(_) => dpos < |w.data|
    case Add(size) => dpos + size <= |w.data|
    case Copy(_, _) => true
  }

  function DataUsed(h: V.Half): nat {
    match h
    case Run(_) => 1
    case Add(size) => size
    case _ => 0
  }

  /** The bytes a half-instruction adds to the output of the window. */
  function Grown(w: V.Window, h: V.Half, out: Bytes, dpos: nat): Bytes
    requires Supplied(w, h, dpos) && (h.Copy? && h.addr >= w.cpylen && h.size > 0 ==> h.addr - w.cpylen < |out|)
  {
    match h
    case Noop => out
    case Run(size) => out + Repeat(w.data[dpos], size)
    case Add(size) => out + w.data[dpos..dpos + size]
    case Copy(size, addr) =>
      if addr >= w.cpylen then V.CopyTarget(out, addr - w.cpylen, size)
      else out + V.Piece(w.src, w.cpyoff + addr, size)
  }

  /** The meaning of a window, one instruction at a time. */
  lemma MeanStep(w: V.Window, hs: seq<V.Half>, out: Bytes, dpos: nat)
    requires w.blksize > 0 && hs != [] && V.Mean(w, hs, out, dpos).Output?
    ensures var h := hs[0];
            && Supplied(w, h, dpos) && V.Parses(w, h, w.cpylen + |out|)
            && (h.Copy? && h.addr < w.cpylen && h.size > 0 ==> w.cpyoff + h.addr + h.size <= |w.src|)
            && V.Mean(w, hs, out, dpos) == V.Mean(w, hs[1..], Grown(w, h, out, dpos), dpos + DataUsed(h))
  {
  }

  // ---------------------------------------------------------------- the whole delta grows

  /** More instructions and literals behind them do not change what the first ones decode to. */
  lemma {:induction false} DecodeMore(d: Delta, r: Delta, src: seq<Byte>, n: nat)
    requires WellFormed(d, |src|) && WellFormed(r, |src|) && d.inst <= r.inst && d.adds <= r.adds && n <= |d.inst|
    ensures DecodeFirst(d, src, n) == DecodeFirst(r, src, n)
  {
    if n > 0 {
      DecodeMore(d, r, src, n - 1);
      assert Follows(d.inst, n - 1) && Follows(r.inst, n - 1) && d.inst[n - 1] == r.inst[n - 1];
      EmitMore(d.inst[n - 1], d.adds, r.adds, src, DecodeFirst(d, src, n - 1), d.inst[n - 1].size);
    }
  }

  lemma {:induction false} EmitMore(i: Inst, adds: seq<Byte>, more: seq<Byte>, src: seq<Byte>, out: seq<Byte>, k: nat)
    requires InstOk(i, |adds|, |src|) && adds <= more && k <= i.size && i.position == |out|
    ensures InstOk(i, |more|, |src|) && Emit(i, adds, src, out, k) == Emit(i, more, src, out, k)
  {
    if k > 0 {
      EmitMore(i, adds, more, src, out, k - 1);
    }
  }

  /** One more byte of a copy within the target. */
  lemma {:induction false} CopyTargetMore(out: Bytes, at: nat, n: nat)
    requires at < |out|
    ensures var r := V.CopyTarget(out, at, n); at + n < |r| && V.CopyTarget(out, at, n + 1) == r + [r[at + n]]
    decreases n
  {
    if n > 0 {
      CopyTargetMore(out + [out[at]], at + 1, n - 1);
    } else {
      assert V.CopyTarget(out + [out[at]], at + 1, 0) == out + [out[at]];
    }
  }

  lemma RepeatMore(x: Byte, n: nat)
    ensures Repeat(x, n + 1) == Repeat(x, n) + [x]
  {
  }

  lemma EmptyPiece(src: Bytes, at: nat, out: Bytes, from: int)
    ensures V.Piece(src, at, 0) == [] && (from >= 0 ==> V.CopyTarget(out, from, 0) == out)
  {
  }

  lemma PieceMore(src: Bytes, at: nat, n: nat)
    requires at + n < |src|
    ensures V.Piece(src, at, n + 1) == V.Piece(src, at, n) + [src[at + n]]
  {
  }

  /** The bytes of one instruction of the whole delta are those it adds in its window. */
  lemma {:induction false} EmitGrown(i: Inst, adds: seq<Byte>, src: seq<Byte>, prev: seq<Byte>, out: Bytes, k: nat)
    requires InstOk(i, |adds|, |src|) && k <= i.size && i.position == |prev| + |out|
    requires i.kind == Copy && i.mode == Self ==> |prev| <= i.addr
    ensures Emit(i, adds, src, prev + out, k) ==
            match i.kind
            case Run => prev + (out + Repeat(adds[i.addr], k))
            case Add => prev + (out + adds[i.addr..i.addr + k])
            case Copy =>
              if i.mode == Self then prev + V.CopyTarget(out, i.addr - |prev|, k)
              else prev + (out + V.Piece(src, i.addr, k))
  {
    hide V.Piece, V.CopyTarget;
    EmptyPiece(src, i.addr, out, i.addr - |prev|);
    if k > 0 {
      EmitGrown(i, adds, src, prev, out, k - 1);
      match i.kind
      case Run => RepeatMore(adds[i.addr], k - 1);
      case Add => assert adds[i.addr..i.addr + k] == adds[i.addr..i.addr + k - 1] + [adds[i.addr + k - 1]];
      case Copy =>
        if i.mode == Self {
          CopyTargetMore(out, i.addr - |prev|, k - 1);
        } else {
          PieceMore(src, i.addr, k - 1);
        }
    }
  }

  /** The instruction, and that the whole delta stays well formed. */
  lemma AppendOk(d: Delta, w: V.Window, winStart: nat, out: nat, h: V.Half, dpos: nat)
    requires WellFormed(d, |w.src|) && d.length == winStart + out
    requires Supplied(w, h, dpos) && V.Parses(w, h, w.cpylen + out) && !h.Noop?
    requires h.Copy? && h.addr < w.cpylen && h.size > 0 ==> w.cpyoff + h.addr + h.size <= |w.src|
    ensures var r := Appended(d, w, winStart, h, dpos);
            && WellFormed(r, |w.src|) && d.inst <= r.inst && d.adds <= r.adds && |r.inst| == |d.inst| + 1
            && r.inst[|d.inst|].position == d.length && r.inst[|d.inst|].size == V.Size(h)
  {
    var r, n := Appended(d, w, winStart, h, dpos), |d.inst|;
    forall j | 0 <= j < |r.inst| ensures Follows(r.inst, j) && InstOk(r.inst[j], |r.adds|, |w.src|) {
      if j < n {
        assert Follows(d.inst, j);
      }
    }
  }

  /** What xd3_whole_append_inst appends means what the decoder outputs. */
  lemma AppendMeans(d: Delta, w: V.Window, prev: seq<Byte>, out: Bytes, h: V.Half, dpos: nat)
    requires WellFormed(d, |w.src|) && Decode(d, w.src) == prev + out
    requires Supplied(w, h, dpos) && V.Parses(w, h, w.cpylen + |out|)
    requires h.Copy? && h.addr < w.cpylen && h.size > 0 ==> w.cpyoff + h.addr + h.size <= |w.src|
    ensures var r := Appended(d, w, |prev|, h, dpos);
            WellFormed(r, |w.src|) && Decode(r, w.src) == prev + Grown(w, h, out, dpos)
  {
    if !h.Noop? {
      var r, n := Appended(d, w, |prev|, h, dpos), |d.inst|;
      AppendOk(d, w, |prev|, |out|, h, dpos);
      DecodeMore(d, r, w.src, n);
      AppendDecodes(d, r, w, prev, out, h, dpos);
    }
  }

  lemma AppendDecodes(d: Delta, r: Delta, w: V.Window, prev: seq<Byte>, out: Bytes, h: V.Half, dpos: nat)
    requires Supplied(w, h, dpos) && V.Parses(w, h, w.cpylen + |out|) && !h.Noop?
    requires h.Copy? && h.addr < w.cpylen && h.size > 0 ==> w.cpyoff + h.addr + h.size <= |w.src|
    requires r == Appended(d, w, |prev|, h, dpos) && WellFormed(r, |w.src|) && |r.inst| == |d.inst| + 1
    requires d.length == |prev| + |out| && DecodeFirst(r, w.src, |d.inst|) == prev + out
    ensures Decode(r, w.src) == prev + Grown(w, h, out, dpos)
  {
    hide WellFormed, V.CopyTarget, Repeat, Emit;
    var i, n := r.inst[|d.inst|], |d.inst|;
    LastOk(r, |w.src|);
    assert DecodeFirst(r, w.src, n + 1) == Emit(i, r.adds, w.src, DecodeFirst(r, w.src, n), i.size);
    EmitGrown(i, r.adds, w.src, prev, out, i.size);
    if h.Add? {
      assert r.adds[i.addr..i.addr + i.size] == w.data[dpos..dpos + h.size];
    }
  }

  lemma LastOk(r: Delta, n: nat)
    requires WellFormed(r, n) && r.inst != []
    ensures var k := |r.inst| - 1; InstOk(r.inst[k], |r.adds|, n) && r.inst[k].position == End(r.inst, k)
  {
    assert Follows(r.inst, |r.inst| - 1);
  }

  // ---------------------------------------------------------------- the routines

  /** One instruction of a window that has a meaning, in the window and in the whole delta. */
  lemma StepMeans(d: Delta, w: V.Window, prev: seq<Byte>, out: Bytes, h: V.Half, more: seq<V.Half>, dpos: nat)
    requires w.blksize > 0 && V.Mean(w, [h] + more, out, dpos).Output?
    requires WellFormed(d, |w.src|) && Decode(d, w.src) == prev + out
    ensures Supplied(w, h, dpos) && V.Parses(w, h, w.cpylen + |out|)
    ensures var o, r := Grown(w, h, out, dpos), Appended(d, w, |prev|, h, dpos);
            && |o| == |out| + V.Size(h) && V.Mean(w, more, o, dpos + DataUsed(h)) == V.Mean(w, [h] + more, out, dpos)
            && WellFormed(r, |w.src|) && Decode(r, w.src) == prev + o
  {
    assert ([h] + more)[1..] == more;
    MeanStep(w, [h] + more, out, dpos);
    AppendMeans(d, w, prev, out, h, dpos);
  }

  class WindowReader {
    const w: V.Window
    const winStart: nat
    const pairs: seq<(V.Half, V.Half)>
    var next: nat        // inst_sect.buf
    var position: nat    // dec_position
    var dataPos: nat     // data_sect.buf

    constructor (w: V.Window, winStart: nat, pairs: seq<(V.Half, V.Half)>)
      ensures this.w == w && this.winStart == winStart && this.pairs == pairs
      ensures next == 0 && position == w.cpylen && dataPos == 0
    {
      this.w, this.winStart, this.pairs := w, winStart, pairs;
      next, position, dataPos := 0, w.cpylen, 0;
    }

    /** xd3_decode_instruction, the two half-instructions being read. */
    method DecodeInstruction() returns (ret: Ret, current1: V.Half, current2: V.Half)
      requires next < |pairs|
      modifies `next, `position
      ensures next == old(next) + 1 && current1 == pairs[old(next)].0 && current2 == pairs[old(next)].1
      ensures ret == if V.Parses(w, current1, old(position)) && V.Parses(w, current2, old(position) + V.Size(current1))
                     then Ok else InvalidInput
      ensures ret == Ok ==> position == old(position) + V.Size(current1) + V.Size(current2)
    {
      current1, current2 := pairs[next].0, pairs[next].1;
      next := next + 1;
      if !V.Parses(w, current1, position) {
        return InvalidInput, current1, current2;
      }
      if !V.Parses(w, current2, position + V.Size(current1)) {
        return InvalidInput, current1, current2;
      }
      position := position + V.Size(current1) + V.Size(current2);
      ret := Ok;
    }

    /** xd3_whole_append_inst */
    method AppendInst(whole: WholeState, inst: V.Half)
      requires !inst.Noop? && Supplied(w, inst, dataPos)
      modifies whole, `dataPos
      ensures whole.Value() == Appended(old(whole.Value()), w, winStart, inst, old(dataPos))
      ensures whole.wininfo == old(whole.wininfo) && dataPos == old(dataPos) + DataUsed(inst)
    {
      var position := whole.length;
      whole.length := whole.length + inst.size;
      match inst {
        case Run(size) =>
          whole.inst := whole.inst + [Inst(Run, Self, size, |whole.adds|, position)];
          whole.adds := whole.adds + [w.data[dataPos]];
          dataPos := dataPos + 1;
        case Add(size) =>
          whole.inst := whole.inst + [Inst(Add, Self, size, |whole.adds|, position)];
          whole.adds := whole.adds + w.data[dataPos..dataPos + size];
          dataPos := dataPos + size;
        case Copy(size, addr) =>
          if addr < w.cpylen {
            whole.inst := whole.inst + [Inst(Copy, Source, size, w.cpyoff + addr, position)];
          } else {
            whole.inst := whole.inst + [Inst(Copy, Self, size, winStart + addr - w.cpylen, position)];
          }
      }
    }

    /** A half-instruction of xd3_whole_append_window. */
    method AppendHalf(whole: WholeState, inst: V.Half)
      requires Supplied(w, inst, dataPos)
      modifies whole, `dataPos
      ensures whole.Value() == Appended(old(whole.Value()), w, winStart, inst, old(dataPos))
      ensures whole.wininfo == old(whole.wininfo) && dataPos == old(dataPos) + DataUsed(inst)
    {
      if inst != V.Noop {
        AppendInst(whole, inst);
      }
    }

    /** xd3_whole_append_window.  It reads the data section without looking for its end, so it may
        only be given a window that the decoder accepts. */
    method AppendWindow(whole: WholeState, adler32: bv32) returns (ret: Ret)
      requires next == 0 && position == w.cpylen && dataPos == 0 && whole.length == winStart
      requires WellFormed(whole.Value(), |w.src|) && w.blksize > 0
      requires V.Mean(w, V.Flatten(pairs), [], 0).Output?
      modifies this, whole
      ensures ret == Ok && whole.wininfo == old(whole.wininfo) + [WinInfo(winStart, w.tgtlen, adler32)]
      ensures WellFormed(whole.Value(), |w.src|)
      ensures Decode(whole.Value(), w.src) ==
              Decode(old(whole.Value()), w.src) + V.Mean(w, V.Flatten(pairs), [], 0).bytes
    {
      hide V.Mean, V.Parses, Supplied, Grown, Appended, WellFormed, Decode;
      whole.wininfo := whole.wininfo + [WinInfo(winStart, w.tgtlen, adler32)];
      ghost var infos := whole.wininfo;
      ghost var prev, goal := Decode(whole.Value(), w.src), V.Mean(w, V.Flatten(pairs), [], 0);
      ghost var out: Bytes := [];
      assert pairs[0..] == pairs && prev + out == prev;
      while next < |pairs|
        invariant next <= |pairs| && position == w.cpylen + |out| && whole.wininfo == infos
        invariant WellFormed(whole.Value(), |w.src|) && Decode(whole.Value(), w.src) == prev + out
        invariant V.Mean(w, V.Flatten(pairs[next..]), out, dataPos) == goal
        decreases |pairs| - next
      {
        ghost var h1, h2, rest := pairs[next].0, pairs[next].1, V.Flatten(pairs[next + 1..]);
        FlattenAt(pairs, next);
        StepMeans(whole.Value(), w, prev, out, h1, [h2] + rest, dataPos);
        out := Grown(w, h1, out, dataPos);
        StepMeans(Appended(whole.Value(), w, winStart, h1, dataPos), w, prev, out, h2, rest, dataPos + DataUsed(h1));
        out := Grown(w, h2, out, dataPos + DataUsed(h1));
        var current1, current2;
        ret, current1, current2 := DecodeInstruction();
        if ret != Ok {
          return;
        }
        AppendHalf(whole, current1);
        AppendHalf(whole, current2);
      }
      FlattenNone(w, pairs, next, out, dataPos);
      ret := Ok;
    }
  }

  lemma FlattenAt(pairs: seq<(V.Half, V.Half)>, k: nat)
    requires k < |pairs|
    ensures V.Flatten(pairs[k..]) == [pairs[k].0] + ([pairs[k].1] + V.Flatten(pairs[k + 1..]))
  {
    assert pairs[k..][0] == pairs[k] && pairs[k..][1..] == pairs[k + 1..];
  }

  lemma FlattenNone(w: V.Window, pairs: seq<(V.Half, V.Half)>, k: nat, out: Bytes, dpos: nat)
    requires k == |pairs| && w.blksize > 0 && V.Mean(w, V.Flatten(pairs[k..]), out, dpos).Output?
    ensures V.Mean(w, V.Flatten(pairs[k..]), out, dpos) == V.Output(out)
  {
    assert pairs[k..] == [];
  }

  // ---------------------------------------------------------------- two files

  /** A delta that was collected from windows is what xd3_merge_inputs asks for. */
  lemma CollectedIsReadable(d: Delta, n: nat)
    requires WellFormed(d, n)
    ensures Readable(d)
  {
  }

  /** xd3_merge_input_output: `source` is applied to the stream, whose whole delta is exchanged for the
      result.  When both were collected from windows, the windows of the stream over what those of
      the source decode to, the result decodes the same from the first source alone. */
  method MergeInputOutput(stream: WholeState, source: WholeState, ghost n: nat) returns (ret: Ret)
    requires stream != source && WellFormed(source.Value(), n) && Readable(stream.Value())
    modifies stream
    ensures ret == FirstRet(old(stream.inst), |old(stream.inst)|, source.Value(), n)
    ensures Smooth(source.Value()) ==>
              (ret == Ok <==>
                forall i :: 0 <= i < |old(stream.inst)| ==> CopyInside(old(stream.inst)[i], source.length))
    ensures ret == Ok ==> WellFormed(old(stream.Value()), source.length)
    ensures ret != Ok ==> stream.Value() == old(stream.Value()) && stream.wininfo == old(stream.wininfo)
    ensures ret == Ok ==> stream.wininfo == old(stream.wininfo) && forall src: seq<Byte> | |src| == n ::
      WellFormed(stream.Value(), n) &&
          Decode(stream.Value(), src) == Decode(old(stream.Value()), Decode(source.Value(), src))
  {
    var tmp := new WholeState();
    ret := tmp.MergeInputs(source, stream, n);
    if ret != Ok {
      return;
    }
    SwapWholeState(stream, tmp);
  }

  /** xd3_swap_whole_state */
  method SwapWholeState(a: WholeState, b: WholeState)
    requires a != b
    modifies a, b
    ensures a.Value() == old(b.Value()) && a.wininfo == old(b.wininfo)
    ensures b.Value() == old(a.Value()) && b.wininfo == old(a.wininfo)
  {
    var tmp := (a.inst, a.adds, a.length, a.wininfo);
    a.inst, a.adds, a.length, a.wininfo := b.inst, b.adds, b.length, b.wininfo;
    b.inst, b.adds, b.length, b.wininfo := tmp.0, tmp.1, tmp.2, tmp.3;
  }
}

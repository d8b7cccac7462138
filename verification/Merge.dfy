/** Merging two deltas without decoding either (xd3_merge_inputs of
    Baseline/third/xdelta/xdelta3-merge.h): first what the routines compute, then that it means
    the same as one delta after the other. */
module Merge {
  import opened Basics
  import opened Delta

  function Min(a: nat, b: nat): nat { if a < b then a else b }

  // ---------------------------------------------------------------- the instruction at an address

  function Locate(inst: seq<Inst>, n: nat, p: nat): (i: nat)
    requires Contiguous(inst) && n <= |inst| && p < End(inst, n)
    ensures i < n && inst[i].position <= p < inst[i].position + inst[i].size
  {
    assert Follows(inst, n - 1);
    if p >= inst[n - 1].position then n - 1 else Locate(inst, n - 1, p)
  }

  lemma {:induction false} Ascending(inst: seq<Inst>, i: nat, j: nat)
    requires Contiguous(inst) && i < j < |inst|
    ensures inst[i].position + inst[i].size <= inst[j].position
  {
    assert Follows(inst, j);
    if i + 1 < j {
      Ascending(inst, i, j - 1);
    }
  }

  /** No other instruction covers the address. */
  lemma LocateUnique(inst: seq<Inst>, p: nat, i: nat)
    requires Contiguous(inst) && i < |inst| && inst[i].position <= p < inst[i].position + inst[i].size
    ensures p < End(inst, |inst|) && Locate(inst, |inst|, p) == i
  {
    var n := |inst| - 1;
    if i < n {
      Ascending(inst, i, n);
    }
    var l := Locate(inst, |inst|, p);
    if l < i {
      Ascending(inst, l, i);
    } else if i < l {
      Ascending(inst, i, l);
    }
  }

  // ---------------------------------------------------------------- what the routines compute

  function WithRun(m: Delta, mode: Mode, size: nat, b: Byte, pos: nat): Delta {
    m.(inst := m.inst + [Inst(Run, mode, size, |m.adds|, pos)], adds := m.adds + [b])
  }

  function WithAdd(m: Delta, mode: Mode, bytes: seq<Byte>, pos: nat): Delta {
    m.(inst := m.inst + [Inst(Add, mode, |bytes|, |m.adds|, pos)], adds := m.adds + bytes)
  }

  function WithCopy(m: Delta, mode: Mode, size: nat, addr: nat, pos: nat): Delta {
    m.(inst := m.inst + [Inst(Copy, mode, size, addr, pos)])
  }

  /** One round of xd3_merge_source_copy: what `take` bytes from offset `off` of source
      instruction s become at output position pos. */
  function TakeFrom(a: Delta, n: nat, m: Delta, s: Inst, off: nat, take: nat, pos: nat): Delta
    requires WellFormed(a, n) && s in a.inst && off + take <= s.size
    decreases s.position + off + take, take, 0
  {
    match s.kind
    case Run =>
      assert InstOk(s, |a.adds|, n);
      WithRun(m, Self, take, a.adds[s.addr], pos)
    case Add =>
      assert InstOk(s, |a.adds|, n);
      WithAdd(m, Self, a.adds[s.addr + off..s.addr + off + take], pos)
    case Copy =>
      assert InstOk(s, |a.adds|, n);
      if s.mode != Self then WithCopy(m, s.mode, take, s.addr + off, pos)
      else
        InsideLength(a, n, s);
        CopyRange(a, n, m, s.addr + off, take, pos)
  }

  /** xd3_merge_source_copy: the bytes [addr, addr + size) of a's output, as instructions on a's source. */
  function CopyRange(a: Delta, n: nat, m: Delta, addr: nat, size: nat, pos: nat): Delta
    requires WellFormed(a, n) && (size > 0 ==> addr + size <= a.length)
    decreases addr + size, size, 1
  {
    if size == 0 then m
    else
      var s := a.inst[Locate(a.inst, |a.inst|, addr)];
      var off := addr - s.position;
      var take := Min(size, s.size - off);
      CopyRange(a, n, TakeFrom(a, n, m, s, off, take, pos), addr + take, size - take, pos + take)
  }

  lemma InsideLength(a: Delta, n: nat, s: Inst)
    requires WellFormed(a, n) && s in a.inst
    ensures s.position + s.size <= a.length
  {
    var i :| 0 <= i < |a.inst| && a.inst[i] == s;
    if i < |a.inst| - 1 {
      Ascending(a.inst, i, |a.inst| - 1);
    }
  }

  /** One instruction of the second delta. */
  function MergeInst(a: Delta, n: nat, b: Delta, m: Delta, i: Inst): Delta
    requires WellFormed(a, n) && InstOk(i, |b.adds|, a.length)
  {
    var m' := match i.kind
      case Run => WithRun(m, i.mode, i.size, b.adds[i.addr], i.position)
      case Add => WithAdd(m, i.mode, b.adds[i.addr..i.addr + i.size], i.position)
      case Copy =>
        if i.mode == Self then WithCopy(m, Self, i.size, i.addr, i.position)
        else CopyRange(a, n, m, i.addr, i.size, i.position);
    m'.(length := m.length + i.size)
  }

  /** The merge of the first k instructions of b. */
  function MergeFirst(a: Delta, n: nat, b: Delta, k: nat): Delta
    requires WellFormed(a, n) && k <= |b.inst|
    requires forall j :: 0 <= j < k ==> InstOk(b.inst[j], |b.adds|, a.length)
  {
    if k == 0 then Delta([], [], 0) else MergeInst(a, n, b, MergeFirst(a, n, b, k - 1), b.inst[k - 1])
  }

  /** The merged delta; n is the length of the source that a is for. */
  function Merged(a: Delta, n: nat, b: Delta): Delta
    requires WellFormed(a, n) && WellFormed(b, a.length)
  {
    MergeFirst(a, n, b, |b.inst|)
  }

  // ---------------------------------------------------------------- what it means

  /** So far m makes, of the source, exactly the bytes of `out` up to pos. */
  ghost predicate Good(m: Delta, src: seq<Byte>, out: seq<Byte>, pos: nat) {
    && Contiguous(m.inst) && End(m.inst, |m.inst|) == pos
    && forall i :: 0 <= i < |m.inst| ==> Meant(m.inst[i], m.adds, src, out)
  }

  lemma MeantMoreAdds(i: Inst, adds: seq<Byte>, adds': seq<Byte>, src: seq<Byte>, out: seq<Byte>)
    requires Meant(i, adds, src, out) && adds <= adds'
    ensures Meant(i, adds', src, out)
  {
    forall p | i.position <= p < i.position + i.size ensures out[p] == ByteOf(i, adds', src, out, p - i.position) {
      assert out[p] == ByteOf(i, adds, src, out, p - i.position);
    }
  }

  lemma Extend(m: Delta, m': Delta, i: Inst, src: seq<Byte>, out: seq<Byte>, pos: nat)
    requires Good(m, src, out, pos) && i.position == pos
    requires m'.inst == m.inst + [i] && m.adds <= m'.adds && Meant(i, m'.adds, src, out)
    ensures Good(m', src, out, pos + i.size)
  {
    var n := |m.inst|;
    forall j | 0 <= j < n + 1 ensures Follows(m'.inst, j) {
      if j < n {
        assert Follows(m.inst, j);
      }
    }
    forall j | 0 <= j < n + 1 ensures Meant(m'.inst[j], m'.adds, src, out) {
      if j < n {
        MeantMoreAdds(m.inst[j], m.adds, m'.adds, src, out);
      }
    }
  }

  /** `out` from pos on repeats `mid` from addr on. */
  ghost predicate Repeats(out: seq<Byte>, pos: nat, mid: seq<Byte>, addr: nat, size: nat) {
    && pos + size <= |out| && addr + size <= |mid|
    && forall p :: pos <= p < pos + size ==> out[p] == mid[addr + (p - pos)]
  }

  lemma RepeatsPart(out: seq<Byte>, pos: nat, mid: seq<Byte>, addr: nat, size: nat, take: nat)
    requires Repeats(out, pos, mid, addr, size) && take <= size
    ensures Repeats(out, pos, mid, addr, take) && Repeats(out, pos + take, mid, addr + take, size - take)
  {
  }

  /** Bytes of a at an instruction of a: what the instruction calls for, `off` bytes into it. */
  lemma PartMeant(s: Inst, adds: seq<Byte>, off: nat, take: nat, pos: nat, src: seq<Byte>, mid: seq<Byte>,
      out: seq<Byte>)
    requires Meant(s, adds, src, mid) && off + take <= s.size && Repeats(out, pos, mid, s.position + off, take)
    ensures forall p :: pos <= p < pos + take ==> out[p] == ByteOf(s, adds, src, mid, off + (p - pos))
  {
    forall p | pos <= p < pos + take ensures out[p] == ByteOf(s, adds, src, mid, off + (p - pos)) {
      var q := s.position + off + (p - pos);
      assert out[p] == mid[q];
      assert mid[q] == ByteOf(s, adds, src, mid, q - s.position);
    }
  }

  /** A piece that is not a copy of a's own output calls for the bytes of the instruction it is of. */
  lemma PieceMeant(s: Inst, adds: seq<Byte>, off: nat, take: nat, pos: nat, src: seq<Byte>, mid: seq<Byte>,
      out: seq<Byte>,
                   before: seq<Byte>)
    requires InstOk(s, |adds|, |src|) && !(s.kind == Copy && s.mode == Self)
    requires s.position + s.size <= |mid| && pos + take <= |out| && off + take <= s.size
    requires forall p :: pos <= p < pos + take ==> out[p] == ByteOf(s, adds, src, mid, off + (p - pos))
    ensures match s.kind
      case Run => Meant(Inst(Run, Self, take, |before|, pos), before + [adds[s.addr]], src, out)
      case Add => Meant(Inst(Add, Self, take, |before|, pos), before + adds[s.addr + off..s.addr + off + take], src,
          out)
      case Copy => Meant(Inst(Copy, s.mode, take, s.addr + off, pos), before, src, out)
  {
  }

  /** Part of an instruction of a, taken over, yields the bytes a makes there. */
  lemma {:induction false} TakeGood(a: Delta, m: Delta, s: Inst, off: nat, take: nat, pos: nat,
                   src: seq<Byte>, mid: seq<Byte>, out: seq<Byte>)
    requires WellFormed(a, |src|) && Means(a, src, mid) && s in a.inst && off + take <= s.size && take > 0
    requires Good(m, src, out, pos) && Repeats(out, pos, mid, s.position + off, take)
    ensures Good(TakeFrom(a, |src|, m, s, off, take, pos), src, out, pos + take)
    decreases s.position + off + take, take, 0
  {
    assert Meant(s, a.adds, src, mid);
    var m' := TakeFrom(a, |src|, m, s, off, take, pos);
    PartMeant(s, a.adds, off, take, pos, src, mid, out);
    if s.kind == Copy && s.mode == Self {
      InsideLength(a, |src|, s);
      assert Repeats(out, pos, mid, s.addr + off, take);
      CopyGood(a, m, s.addr + off, take, pos, src, mid, out);
    } else {
      hide Good, Meant, Means, WellFormed, Repeats;
      PieceMeant(s, a.adds, off, take, pos, src, mid, out, m.adds);
      Extend(m, m', m'.inst[|m.inst|], src, out, pos);
    }
  }

  lemma {:induction false} CopyGood(a: Delta, m: Delta, addr: nat, size: nat, pos: nat,
                   src: seq<Byte>, mid: seq<Byte>, out: seq<Byte>)
    requires WellFormed(a, |src|) && Means(a, src, mid) && addr + size <= a.length
    requires Good(m, src, out, pos) && Repeats(out, pos, mid, addr, size)
    ensures Good(CopyRange(a, |src|, m, addr, size, pos), src, out, pos + size)
    decreases addr + size, size, 1
  {
    if size > 0 {
      var s := a.inst[Locate(a.inst, |a.inst|, addr)];
      var off := addr - s.position;
      var take := Min(size, s.size - off);
      RepeatsPart(out, pos, mid, addr, size, take);
      TakeGood(a, m, s, off, take, pos, src, mid, out);
      CopyGood(a, TakeFrom(a, |src|, m, s, off, take, pos), addr + take, size - take, pos + take, src, mid, out);
    }
  }

  /** A source copy turns into runs, literals and source copies only, put behind what is there. */
  lemma {:induction false} CopyKinds(a: Delta, n: nat, m: Delta, addr: nat, size: nat, pos: nat)
    requires WellFormed(a, n) && (size > 0 ==> addr + size <= a.length)
    ensures var m' := CopyRange(a, n, m, addr, size, pos);
            m.inst <= m'.inst && m.adds <= m'.adds && m'.length == m.length
            && forall j :: |m.inst| <= j < |m'.inst| ==> m'.inst[j].kind != Copy || m'.inst[j].mode == Source
    decreases addr + size, size
  {
    if size > 0 {
      var s := a.inst[Locate(a.inst, |a.inst|, addr)];
      var off := addr - s.position;
      var take := Min(size, s.size - off);
      assert InstOk(s, |a.adds|, n);
      if s.kind == Copy && s.mode == Self {
        InsideLength(a, n, s);
        CopyKinds(a, n, m, s.addr + off, take, pos);
      }
      CopyKinds(a, n, TakeFrom(a, n, m, s, off, take, pos), addr + take, size - take, pos + take);
    }
  }

  lemma InstGood(a: Delta, b: Delta, m: Delta, i: Inst, src: seq<Byte>, mid: seq<Byte>, out: seq<Byte>)
    requires WellFormed(a, |src|) && Means(a, src, mid)
    requires Meant(i, b.adds, mid, out) && Good(m, src, out, i.position)
    ensures Good(MergeInst(a, |src|, b, m, i), src, out, i.position + i.size)
  {
    hide Contiguous, End;
    var m' := MergeInst(a, |src|, b, m, i);
    if i.kind == Copy && i.mode == Source && i.size == 0 {
      assert m'.inst == m.inst;
    } else if i.kind == Copy && i.mode == Source {
      assert Repeats(out, i.position, mid, i.addr, i.size);
      CopyGood(a, m, i.addr, i.size, i.position, src, mid, out);
      assert m'.inst == CopyRange(a, |src|, m, i.addr, i.size, i.position).inst;
    } else {
      Extend(m, m', m'.inst[|m.inst|], src, out, i.position);
    }
  }

  lemma {:induction false} FirstGood(a: Delta, b: Delta, k: nat, src: seq<Byte>, mid: seq<Byte>, out: seq<Byte>)
    requires WellFormed(a, |src|) && WellFormed(b, a.length) && Means(a, src, mid) && Means(b, mid, out)
    requires k <= |b.inst|
    ensures var m := MergeFirst(a, |src|, b, k);
            Good(m, src, out, End(b.inst, k)) && m.length == End(b.inst, k)
  {
    if k > 0 {
      var i := b.inst[k - 1];
      FirstGood(a, b, k - 1, src, mid, out);
      assert Follows(b.inst, k - 1);
      InstGood(a, b, MergeFirst(a, |src|, b, k - 1), i, src, mid, out);
    }
  }

  /** Merging preserves meaning: on every source, the merged delta makes the bytes that the second
      delta makes of the output of the first -- overlapping copies included. */
  lemma MergePreservesMeaning(a: Delta, b: Delta, src: seq<Byte>)
    requires WellFormed(a, |src|) && WellFormed(b, a.length)
    ensures var m := Merged(a, |src|, b);
            WellFormed(m, |src|) && Decode(m, src) == Decode(b, Decode(a, src))
  {
    var m, mid := Merged(a, |src|, b), Decode(a, src);
    var out := Decode(b, mid);
    DecodeMeans(a, src);
    DecodeMeans(b, mid);
    FirstGood(a, b, |b.inst|, src, mid, out);
    forall i | 0 <= i < |m.inst| ensures InstOk(m.inst[i], |m.adds|, |src|) {
      assert Meant(m.inst[i], m.adds, src, out);
    }
    MeansUnique(m, src, out);
  }
}

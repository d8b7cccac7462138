/** Whole-file deltas of Baseline/third/xdelta/xdelta3-merge.h: a list of instructions over a
    buffer of literal bytes, and what such a list means. */
module Delta {
  import opened Basics

  datatype Kind = Run | Add | Copy

  /** Where a copy reads: the output so far (mode 0), the source (VCD_SOURCE), or an earlier
      target window (VCD_TARGET). */
  datatype Mode = Self | Source | OldTarget

  datatype Inst = Inst(kind: Kind, mode: Mode, size: nat, addr: nat, position: nat)

  datatype Delta = Delta(inst: seq<Inst>, adds: seq<Byte>, length: nat)

  /** An instruction that can be carried out: literals exist, source copies of some bytes stay inside the
      n source bytes, copies of the output start strictly before the bytes they produce. */
  predicate InstOk(i: Inst, adds: nat, n: nat) {
    match i.kind
    case Run => i.addr < adds
    case Add => i.addr + i.size <= adds
    case Copy =>
      (i.mode == Source && (i.size > 0 ==> i.addr + i.size <= n)) || (i.mode == Self && i.addr < i.position)
  }

  /** Where the first n instructions end. */
  function End(inst: seq<Inst>, n: nat): nat
    requires n <= |inst|
  {
    if n == 0 then 0 else inst[n - 1].position + inst[n - 1].size
  }

  predicate Follows(inst: seq<Inst>, i: nat)
    requires i < |inst|
  {
    inst[i].position == End(inst, i)
  }

  /** The instructions follow each other without gap or overlap; some may be empty. */
  predicate Contiguous(inst: seq<Inst>) {
    forall i :: 0 <= i < |inst| ==> Follows(inst, i)
  }

  predicate WellFormed(d: Delta, n: nat) {
    && Contiguous(d.inst) && d.length == End(d.inst, |d.inst|)
    && forall i :: 0 <= i < |d.inst| ==> InstOk(d.inst[i], |d.adds|, n)
  }

  /** The k-th byte that instruction i produces, given the bytes of the whole output before it. */
  function ByteOf(i: Inst, adds: seq<Byte>, src: seq<Byte>, out: seq<Byte>, k: nat): Byte
    requires InstOk(i, |adds|, |src|) && k < i.size && i.position + k <= |out|
  {
    match i.kind
    case Run => adds[i.addr]
    case Add => adds[i.addr + k]
    case Copy => if i.mode == Source then src[i.addr + k] else out[i.addr + k]
  }

  // ---------------------------------------------------------------- decoding, byte by byte

  /** Append the first k bytes of instruction i; a copy may read bytes it has itself written. */
  function Emit(i: Inst, adds: seq<Byte>, src: seq<Byte>, out: seq<Byte>, k: nat): (r: seq<Byte>)
    requires InstOk(i, |adds|, |src|) && k <= i.size && i.position == |out|
    ensures |r| == |out| + k && out <= r
  {
    if k == 0 then out
    else
      var r := Emit(i, adds, src, out, k - 1);
      r + [ByteOf(i, adds, src, r, k - 1)]
  }

  function DecodeFirst(d: Delta, src: seq<Byte>, n: nat): (r: seq<Byte>)
    requires WellFormed(d, |src|) && n <= |d.inst|
    ensures |r| == End(d.inst, n)
  {
    if n == 0 then []
    else
      var i := d.inst[n - 1];
      assert Follows(d.inst, n - 1);
      Emit(i, d.adds, src, DecodeFirst(d, src, n - 1), i.size)
  }

  /** The bytes the delta makes of the source. */
  function Decode(d: Delta, src: seq<Byte>): (r: seq<Byte>)
    requires WellFormed(d, |src|)
    ensures |r| == d.length
  {
    DecodeFirst(d, src, |d.inst|)
  }

  // ---------------------------------------------------------------- meaning, byte for byte

  /** The bytes of `out` that instruction i covers are the ones it calls for. */
  ghost predicate Meant(i: Inst, adds: seq<Byte>, src: seq<Byte>, out: seq<Byte>) {
    && InstOk(i, |adds|, |src|) && i.position + i.size <= |out|
    && forall p :: i.position <= p < i.position + i.size ==> out[p] == ByteOf(i, adds, src, out, p - i.position)
  }

  ghost predicate Means(d: Delta, src: seq<Byte>, out: seq<Byte>) {
    |out| == d.length && forall i :: 0 <= i < |d.inst| ==> Meant(d.inst[i], d.adds, src, out)
  }

  lemma ByteOfPrefix(i: Inst, adds: seq<Byte>, src: seq<Byte>, out: seq<Byte>, more: seq<Byte>, k: nat)
    requires InstOk(i, |adds|, |src|) && k < i.size && i.position + k <= |out| && out <= more
    ensures ByteOf(i, adds, src, out, k) == ByteOf(i, adds, src, more, k)
  {
  }

  /** Extending the output keeps the meaning of the instructions before. */
  lemma MeantPrefix(i: Inst, adds: seq<Byte>, src: seq<Byte>, out: seq<Byte>, more: seq<Byte>)
    requires Meant(i, adds, src, out) && out <= more
    ensures Meant(i, adds, src, more)
  {
    forall p | i.position <= p < i.position + i.size ensures more[p] == ByteOf(i, adds, src, more, p - i.position) {
      assert out[p] == ByteOf(i, adds, src, out, p - i.position);
    }
  }

  lemma {:induction false} EmitMeant(i: Inst, adds: seq<Byte>, src: seq<Byte>, out: seq<Byte>, k: nat, j: nat)
    requires InstOk(i, |adds|, |src|) && j < k <= i.size && i.position == |out|
    ensures var r := Emit(i, adds, src, out, k); r[i.position + j] == ByteOf(i, adds, src, r, j)
  {
    var before, r := Emit(i, adds, src, out, k - 1), Emit(i, adds, src, out, k);
    ByteOfPrefix(i, adds, src, before, r, j);
    if j < k - 1 {
      EmitMeant(i, adds, src, out, k - 1, j);
    }
  }

  lemma {:induction false} DecodeFirstMeans(d: Delta, src: seq<Byte>, n: nat, i: nat)
    requires WellFormed(d, |src|) && i < n <= |d.inst|
    ensures Meant(d.inst[i], d.adds, src, DecodeFirst(d, src, n))
  {
    var last, before, all := d.inst[n - 1], DecodeFirst(d, src, n - 1), DecodeFirst(d, src, n);
    assert Follows(d.inst, n - 1);
    assert all == Emit(last, d.adds, src, before, last.size);
    if i < n - 1 {
      DecodeFirstMeans(d, src, n - 1, i);
      MeantPrefix(d.inst[i], d.adds, src, before, all);
    } else {
      forall p | last.position <= p < last.position + last.size
        ensures all[p] == ByteOf(last, d.adds, src, all, p - last.position)
      {
        EmitMeant(last, d.adds, src, before, last.size, p - last.position);
      }
    }
  }

  /** Decoding byte by byte gives bytes that every instruction agrees with ... */
  lemma DecodeMeans(d: Delta, src: seq<Byte>)
    requires WellFormed(d, |src|)
    ensures Means(d, src, Decode(d, src))
  {
    forall i | 0 <= i < |d.inst| ensures Meant(d.inst[i], d.adds, src, Decode(d, src)) {
      DecodeFirstMeans(d, src, |d.inst|, i);
    }
  }

  /** Every position before the end of the first n instructions belongs to one of them. */
  lemma {:induction false} Covered(inst: seq<Inst>, n: nat, p: nat) returns (i: nat)
    requires Contiguous(inst) && n <= |inst| && p < End(inst, n)
    ensures i < n && inst[i].position <= p < inst[i].position + inst[i].size
  {
    if p >= inst[n - 1].position {
      i := n - 1;
    } else {
      assert Follows(inst, n - 1);
      i := Covered(inst, n - 1, p);
    }
  }

  lemma {:induction false} MeansPointwise(d: Delta, src: seq<Byte>, out: seq<Byte>, out': seq<Byte>, p: nat)
    requires WellFormed(d, |src|) && Means(d, src, out) && Means(d, src, out') && p < d.length
    ensures out[p] == out'[p]
    decreases p
  {
    var i := Covered(d.inst, |d.inst|, p);
    var inst, k := d.inst[i], p - d.inst[i].position;
    assert Meant(inst, d.adds, src, out) && Meant(inst, d.adds, src, out');
    if inst.kind == Copy && inst.mode == Self {
      MeansPointwise(d, src, out, out', inst.addr + k);
    }
  }

  /** ... and no other bytes do. */
  lemma MeansUnique(d: Delta, src: seq<Byte>, out: seq<Byte>)
    requires WellFormed(d, |src|)
    ensures Means(d, src, out) <==> out == Decode(d, src)
  {
    DecodeMeans(d, src);
    if Means(d, src, out) {
      forall p | 0 <= p < d.length ensures out[p] == Decode(d, src)[p] {
        MeansPointwise(d, src, out, Decode(d, src), p);
      }
    }
  }
}

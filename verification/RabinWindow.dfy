/** The sliding window: what the fingerprint is after any bytes, from a reset context. */
module RabinWindow {
  import opened Basics
  import opened Gf2
  import opened Rabin

  /** 0xbfe6b8a5bf378d83 */
  const FP_POLY: Word := {0, 1, 7, 8, 10, 11, 15, 16, 17, 18, 20, 21, 24, 25, 26, 27, 28, 29, 31, 32, 34, 37, 39, 43,
    44, 45, 47, 49, 50, 53, 54, 55, 56, 57, 58, 59, 60, 61, 63}

  const UINT32: nat := 0x1_0000_0000

  lemma PolyDegree()
    ensures Degree(FP_POLY, 63)
  {
  }

  /** A byte string as a polynomial, the first byte highest. */
  function BytesPoly(s: seq<nat>): Poly {
    if s == [] then {} else Xor(Up(BytesPoly(s[..|s| - 1]), 8), Bits(s[|s| - 1]))
  }

  /** The last w bytes of h, with zeros before the first. */
  function Window(h: seq<nat>, w: nat): (r: seq<nat>)
    ensures |r| == w
  {
    (seq(w, _ => 0) + h)[|h|..]
  }

  lemma {:induction false} BytesPolyCons(b: nat, s: seq<nat>)
    ensures BytesPoly([b] + s) == Xor(Up(Bits(b), 8 * |s|), BytesPoly(s))
  {
    if s == [] {
      assert [b] + s == [b] && [b][..0] == [];
      assert Up({}, 8) == {} && Up(Bits(b), 0) == Bits(b);
    } else {
      var n := |s| - 1;
      assert ([b] + s)[..n + 1] == [b] + s[..n];
      BytesPolyCons(b, s[..n]);
      UpXor(Up(Bits(b), 8 * n), BytesPoly(s[..n]), 8);
      UpUp(Bits(b), 8 * n, 8);
      XorAssoc(Up(Bits(b), 8 * |s|), Up(BytesPoly(s[..n]), 8), Bits(s[n]));
    }
  }

  lemma XorAssoc(a: Poly, b: Poly, c: Poly)
    ensures Xor(Xor(a, b), c) == Xor(a, Xor(b, c))
  {
  }

  lemma WindowSlides(h: seq<nat>, w: nat, b: nat)
    requires w >= 1
    ensures Window(h + [b], w) == Window(h, w)[1..] + [b]
  {
    var z := seq(w, _ => 0);
    assert z + (h + [b]) == (z + h) + [b];
  }

  // ---------------------------------------------------------------- one byte appended

  /** What the table holds for the eight bits that leave the word: their remainder, and bit 63 to
      cancel the one bit that the shift keeps. */
  ghost predicate TableEntry(i: nat, t: Word, d: Poly) {
    && Below(t - {63}, 63) && (63 in t <==> i % 2 == 1)
    && Cong(Up(Bits(i), 63), t - {63}, d)
  }

  lemma NumberEven(w: Poly, k: nat)
    requires k > 0
    ensures Number(w, k) % 2 == 1 <==> 0 in w
  {
  }

  lemma BitsByte(m: nat)
    requires m < 256
    ensures Below(Bits(m), 8)
  {
    assert Pow2(8) == 2 * Pow2(7) == 4 * Pow2(6) == 8 * Pow2(5) == 16 * Pow2(4) == 32 * Pow2(3) == 256;
    BitsBelow(m, 8);
  }

  lemma TopByte(p: Word)
    requires Below(p, 63)
    ensures Number(Shr(p, 55), 8) < 256 && Bits(Number(Shr(p, 55), 8)) == Shr(p, 55)
  {
    forall j | j in Shr(p, 55) ensures j < 8 {
      assert j + 55 in p;
    }
    BitsNumber(Shr(p, 55), 8);
    assert Pow2(8) == 2 * Pow2(7) == 4 * Pow2(6) == 8 * Pow2(5) == 16 * Pow2(4) == 32 * Pow2(3) == 256;
  }

  lemma SplitUp(p: Word, m: nat)
    requires Below(p, 63) && m < 256
    ensures Up(p, 8) == Xor(Up(Low(p, 55), 8), Up(Shr(p, 55), 63))
    ensures Shl(p, 8) == Up(Low(p, 55), 8) + (if 55 in p then {63} else {})
    ensures Up(Low(p, 55), 8) + Bits(m) == Xor(Up(Low(p, 55), 8), Bits(m))
    ensures Below(Up(Low(p, 55), 8) + Bits(m), 63)
  {
    BitsByte(m);
    forall j: nat ensures j in Up(Shr(p, 55), 63) <==> j >= 63 && j - 8 in p {
      assert j >= 63 ==> (j - 63 in Shr(p, 55) <==> j - 63 + 55 in p);
    }
  }

  /** Append8 multiplies by x^8 and adds the byte, modulo the polynomial. */
  lemma AppendIsRem(p: Word, m: nat, t: Word, d: Poly)
    requires Below(p, 63) && m < 256 && TableEntry(Number(Shr(p, 55), 8), t, d)
    ensures IsRem(Xor(Shl(p, 8) + Bits(m), t), Xor(Up(p, 8), Bits(m)), d, 63)
  {
    TopByte(p);
    NumberEven(Shr(p, 55), 8);
    assert 0 in Shr(p, 55) <==> 55 in p;
    SplitUp(p, m);
    AppendSum(p, Up(Low(p, 55), 8), Bits(m), Up(Shr(p, 55), 63), t, d);
  }

  /** The same with the parts of p named: low * x^8 without overflow, and high * x^63. */
  lemma AppendSum(p: Word, low: Poly, m: Poly, high: Poly, t: Word, d: Poly)
    requires Below(low + m, 63) && Below(t - {63}, 63) && (63 in t <==> 55 in p) && Cong(high, t - {63}, d)
    requires Up(p, 8) == Xor(low, high) && low + m == Xor(low, m)
    requires Shl(p, 8) == low + (if 55 in p then {63} else {})
    ensures IsRem(Xor(Shl(p, 8) + m, t), Xor(Up(p, 8), m), d, 63)
  {
    assert Xor(Shl(p, 8) + m, t) == Xor(low + m, t - {63});
    CongRefl(low + m, d);
    CongXor(low + m, low + m, high, t - {63}, d);
    assert Xor(low + m, high) == Xor(Up(p, 8), m);
  }

  // ---------------------------------------------------------------- what the constructor computes

  /** The product with the remainder of x^n is the product with x^n, modulo the polynomial. */
  lemma MonomialFrom(i: nat, t: Word, n: nat, r: Poly, d: Poly)
    requires i < 256 && IsRem(t, {n}, d, 63) && IsRem(r, Mul(Bits(i), t, 64), d, 63)
    ensures IsRem(r, Up(Bits(i), n), d, 63)
  {
    BitsByte(i);
    assert Low(Bits(i), 64) == Bits(i);
    MulMonomial(Bits(i), n, 64);
    CongMul(Bits(i), {n}, t, d, 64);
    CongTrans(Up(Bits(i), n), Mul(Bits(i), t, 64), r, d);
  }

  lemma EntryFrom(i: nat, r: Poly, d: Poly)
    requires i < 256 && IsRem(r, Up(Bits(i), 63), d, 63)
    ensures Below(r + Shl(Bits(i), 63), 64) && TableEntry(i, r + Shl(Bits(i), 63), d)
  {
    BitsByte(i);
    assert Shl(Bits(i), 63) == if i % 2 == 1 then {63} else {};
    assert r + Shl(Bits(i), 63) - {63} == r;
  }

  lemma NothingAdded(p: Poly)
    ensures Bits(0) == {} && Xor(p, {}) == p
  {
  }

  lemma UpOne(n: nat, k: nat)
    ensures Up({n}, k) == {n + k}
  {
  }

  lemma ShiftFrom(p: Word, n: nat, t: Word, d: Poly)
    requires IsRem(p, {8 * n}, d, 63) && TableEntry(Number(Shr(p, 55), 8), t, d)
    ensures IsRem(Xor(Shl(p, 8) + Bits(0), t), {8 * (n + 1)}, d, 63)
  {
    hide Bits, Number, Up, Xor, Shl, Shr, Cong, TableEntry, Below, Mul;
    AppendIsRem(p, 0, t, d);
    NothingAdded(Up(p, 8));
    CongUp({8 * n}, p, d, 8);
    UpOne(8 * n, 8);
    CongTrans({8 * (n + 1)}, Up(p, 8), Xor(Shl(p, 8) + Bits(0), t), d);
  }

  // ---------------------------------------------------------------- sliding

  /** Adding the oldest byte's share takes it out of the fingerprint ... */
  lemma DropOldest(fp: Poly, w: seq<nat>, u: Poly, d: Poly)
    requires |w| >= 1 && IsRem(fp, BytesPoly(w), d, 63) && IsRem(u, Up(Bits(w[0]), 8 * (|w| - 1)), d, 63)
    ensures IsRem(Xor(fp, u), BytesPoly(w[1..]), d, 63)
  {
    var a, b := Up(Bits(w[0]), 8 * (|w| - 1)), BytesPoly(w[1..]);
    assert w == [w[0]] + w[1..];
    BytesPolyCons(w[0], w[1..]);
    CongXor(BytesPoly(w), fp, a, u, d);
    assert Xor(Xor(a, b), a) == b;
  }

  /** ... and one more step of Horner's rule brings the newest in. */
  lemma AddNewest(fp: Poly, s: seq<nat>, b: nat, r: Poly, d: Poly)
    requires IsRem(fp, BytesPoly(s), d, 63) && IsRem(r, Xor(Up(fp, 8), Bits(b)), d, 63)
    ensures IsRem(r, BytesPoly(s + [b]), d, 63)
  {
    assert (s + [b])[..|s|] == s;
    CongUp(BytesPoly(s), fp, d, 8);
    CongRefl(Bits(b), d);
    CongXor(Up(BytesPoly(s), 8), Up(fp, 8), Bits(b), Bits(b), d);
    CongTrans(BytesPoly(s + [b]), Xor(Up(fp, 8), Bits(b)), r, d);
  }

  /** A ring buffer read from slot n on, all the way round. */
  function RingFrom(c: seq<nat>, n: nat): (r: seq<nat>)
    requires n < |c|
    ensures |r| == |c| && r[0] == c[n]
  {
    c[n..] + c[..n]
  }

  lemma RingSteps(c: seq<nat>, n: nat, b: nat)
    requires n < |c|
    ensures RingFrom(c[n := b], if n + 1 >= |c| then 0 else n + 1) == RingFrom(c, n)[1..] + [b]
  {
  }

  lemma {:induction false} ZeroPoly(w: nat)
    ensures BytesPoly(seq(w, _ => 0)) == {}
  {
    if w > 0 {
      ZeroPoly(w - 1);
      assert seq(w, _ => 0)[..w - 1] == seq(w - 1, _ => 0);
      assert Up({}, 8) == {} && Bits(0) == {};
    }
  }

  lemma ZeroWindow(w: nat)
    ensures Window([], w) == seq(w, _ => 0) && IsRem({}, BytesPoly(Window([], w)), FP_POLY, 63)
  {
    assert Window([], w) == seq(w, _ => 0);
    ZeroPoly(w);
    CongRefl({}, FP_POLY);
  }

  class RabinFPUtil {
    const windowSize: nat
    const T: array<Word>
    const U: array<Word>

    ghost predicate TableT(n: nat)
      reads T
    {
      T.Length == 256 && n <= 256 && forall i :: 0 <= i < n ==> TableEntry(i, T[i], FP_POLY)
    }

    ghost predicate TableU(n: nat)
      reads U
    {
      U.Length == 256 && n <= 256 && windowSize >= 1 &&
      forall i :: 0 <= i < n ==> IsRem(U[i], Up(Bits(i), 8 * (windowSize - 1)), FP_POLY, 63)
    }

    ghost predicate Valid()
      reads T, U
    {
      T != U && 1 <= windowSize < UINT32 && TableT(256) && TableU(256)
    }

    constructor (windowSize: nat)
      requires 1 <= windowSize < UINT32
      ensures Valid() && this.windowSize == windowSize && fresh(T) && fresh(U)
    {
      this.windowSize := windowSize;
      T := new Word[256](i => {});
      U := new Word[256](i => {});
      new;
      FillT();
      FillU();
    }

    method FillT()
      requires T.Length == 256
      modifies T
      ensures TableT(256)
    {
      PolyDegree();
      var one: Word := {0};
      var xShift := Fls64(FP_POLY);
      xShift := xShift - 1;
      assert xShift == 63 && Shl(one, 63) == {63} && Wide({}, {63}) == {63};
      var t1 := PolyMod({}, Shl(one, xShift), FP_POLY, 63);
      var i := 0;
      while i < 256
        invariant i <= 256 && TableT(i)
      {
        BitsByte(i);
        var r := PolyMMult(Bits(i), t1, FP_POLY, 63);
        MonomialFrom(i, t1, 63, r, FP_POLY);
        EntryFrom(i, r, FP_POLY);
        T[i] := r + Shl(Bits(i), xShift);
        i := i + 1;
      }
    }

    /** x^8 to the power windowSize - 1, modulo the polynomial. */
    method SizeShift() returns (sizeshift: Word)
      requires TableT(256) && 1 <= windowSize < UINT32
      ensures IsRem(sizeshift, {8 * (windowSize - 1)}, FP_POLY, 63)
    {
      hide Bits, Number;
      sizeshift := {0};
      CongRefl({0}, FP_POLY);
      var i := 1;
      while i < windowSize
        invariant 1 <= i <= windowSize
        invariant IsRem(sizeshift, {8 * (i - 1)}, FP_POLY, 63)
      {
        TopByte(sizeshift);
        ShiftFrom(sizeshift, i - 1, T[Number(Shr(sizeshift, 55), 8)], FP_POLY);
        sizeshift := Append8(sizeshift, 0);
        i := i + 1;
      }
    }

    method FillU()
      requires T != U && TableT(256) && U.Length == 256 && 1 <= windowSize < UINT32
      modifies U
      ensures TableU(256)
    {
      hide Bits, TableEntry;
      PolyDegree();
      var sizeshift := SizeShift();
      var i := 0;
      while i < 256
        invariant i <= 256 && TableU(i)
      {
        BitsByte(i);
        U[i] := PolyMMult(Bits(i), sizeshift, FP_POLY, 63);
        MonomialFrom(i, sizeshift, 8 * (windowSize - 1), U[i], FP_POLY);
        i := i + 1;
      }
    }

    /** ((p << 8) | m) ^ T_[p >> shift_], the index being below 256 */
    function Append8(p: Word, m: nat): Word
      requires Below(p, 63) && m < 256 && TableT(256)
      reads T
    {
      TopByte(p);
      BitsByte(m);
      Xor(Shl(p, 8) + Bits(m), T[Number(Shr(p, 55), 8)])
    }

    lemma Append8IsRem(p: Word, m: nat)
      requires Below(p, 63) && m < 256 && TableT(256)
      ensures IsRem(Append8(p, m), Xor(Up(p, 8), Bits(m)), FP_POLY, 63)
    {
      hide Bits, Number;
      TopByte(p);
      AppendIsRem(p, m, T[Number(Shr(p, 55), 8)], FP_POLY);
    }

    lemma SlideIsRem(fp: Word, w: seq<nat>, b: nat)
      requires Valid() && |w| == windowSize && w[0] < 256 && b < 256 && IsRem(fp, BytesPoly(w), FP_POLY, 63)
      ensures Below(Xor(fp, U[w[0]]), 63)
      ensures IsRem(Append8(Xor(fp, U[w[0]]), b), BytesPoly(w[1..] + [b]), FP_POLY, 63)
    {
      hide Bits, Number, BytesPoly, Cong, TableEntry;
      var x := Xor(fp, U[w[0]]);
      DropOldest(fp, w, U[w[0]], FP_POLY);
      Append8IsRem(x, b);
      AddNewest(x, w[1..], b, Append8(x, b), FP_POLY);
    }

    method SlideOneByte(ctx: RabinCtx, inputByte: nat, ghost h: seq<nat>) returns (fp: Word)
      requires Valid() && ctx.Holds(h, windowSize) && inputByte < 256
      modifies ctx, ctx.circBuf
      ensures Valid() && ctx.circBuf == old(ctx.circBuf) && ctx.Holds(h + [inputByte], windowSize)
      ensures fp == ctx.fp && IsRem(fp, BytesPoly(Window(h + [inputByte], windowSize)), FP_POLY, 63)
    {
      hide Bits, Number, BytesPoly, Cong, TableEntry, Window, RingFrom, IsRem, Xor, Up, Shl, Shr, Append8, FP_POLY,
           RabinCtx.NextPos;
      ghost var w, c := Window(h, windowSize), ctx.circBuf[..];
      ctx.Advance(windowSize);
      var om := ctx.circBuf[ctx.curPos];
      ctx.circBuf[ctx.curPos] := inputByte;
      assert om == w[0] && ctx.circBuf[..] == c[ctx.curPos := inputByte];
      RingSteps(c, ctx.curPos, inputByte);
      WindowSlides(h, windowSize, inputByte);
      SlideIsRem(ctx.fp, w, inputByte);
      ctx.fp := Append8(Xor(ctx.fp, U[om]), inputByte);
      ctx.NextInRing();
      fp := ctx.fp;
    }
  }

  /** The fingerprint depends on the last windowSize bytes only: two strings that end alike, and no
      matter what came before, have the same one. */
  lemma WindowDecides(h: seq<nat>, h': seq<nat>, w: nat, fp: Poly, fp': Poly)
    requires Window(h, w) == Window(h', w)
    requires IsRem(fp, BytesPoly(Window(h, w)), FP_POLY, 63) && IsRem(fp', BytesPoly(Window(h', w)), FP_POLY, 63)
    ensures fp == fp'
  {
    PolyDegree();
    RemUnique(fp, fp', BytesPoly(Window(h, w)), FP_POLY, 63);
  }

  /** A fingerprint under way.  The buffer is a ring: the oldest byte of the window is where the
      next one goes. */
  class RabinCtx {
    var curPos: nat
    var circBuf: array<nat>
    var fp: Word

    function NextPos(): nat
      reads this
    {
      var p := (curPos + 1) % UINT32;
      if p >= circBuf.Length then 0 else p
    }

    /** The bytes of h have been slid in since the last reset. */
    ghost predicate Holds(h: seq<nat>, w: nat)
      reads this, circBuf
    {
      && 1 <= w < UINT32 && circBuf.Length == w && (curPos < w || curPos == UINT32 - 1)
      && (forall i :: 0 <= i < w ==> circBuf[i] < 256)
      && RingFrom(circBuf[..], NextPos()) == Window(h, w)
      && IsRem(fp, BytesPoly(Window(h, w)), FP_POLY, 63)
    }

    lemma NextInRing()
      requires curPos < circBuf.Length < UINT32
      ensures NextPos() == if curPos + 1 == circBuf.Length then 0 else curPos + 1
    {
    }

    /** The position of the oldest byte, in a 32 bit variable. */
    method Advance(windowSize: nat)
      requires windowSize == circBuf.Length > 0
      modifies this`curPos
      ensures curPos == old(NextPos()) < windowSize
    {
      curPos := (curPos + 1) % UINT32;
      if curPos >= windowSize {
        curPos := 0;
      }
    }

    /** NewCtx */
    constructor (w: nat)
      requires 1 <= w < UINT32
      ensures Holds([], w) && fresh(circBuf)
    {
      circBuf := new nat[w](i => 0);
      curPos := UINT32 - 1;
      fp := {};
      new;
      ZeroWindow(w);
    }

    method ResetCtx()
      requires 1 <= circBuf.Length < UINT32
      modifies this, circBuf
      ensures circBuf == old(circBuf) && Holds([], circBuf.Length)
    {
      forall i | 0 <= i < circBuf.Length {
        circBuf[i] := 0;
      }
      curPos := UINT32 - 1;
      fp := {};
      ZeroWindow(circBuf.Length);
    }
  }
}

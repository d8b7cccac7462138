/** The table-driven rolling fingerprint of Baseline/src/chunker/rabin_poly.cc. */
module Rabin {
  import opened Basics
  import opened Gf2

  type Word = w: Poly | Below(w, 64)

  // ---------------------------------------------------------------- machine words

  /** `w << k` in 64 bits */
  function Shl(w: Poly, k: nat): (r: Word)
    ensures forall j: nat :: j in r <==> j >= k && j < 64 && j - k in w
  {
    set i | i in w && i + k < 64 :: i + k
  }

  /** `w >> k` */
  function Shr(w: Poly, k: nat): (r: Poly)
    ensures forall j: nat :: j in r <==> j + k in w
  {
    set i | i in w && i >= k :: i - k
  }

  /** The bits of a number. */
  function Bits(n: nat): Poly {
    if n == 0 then {} else (if n % 2 == 1 then {0} else {}) + Up(Bits(n / 2), 1)
  }

  /** The number whose bits below 2^k are those of w. */
  function Number(w: Poly, k: nat): nat
    decreases k
  {
    if k == 0 then 0 else (if 0 in w then 1 else 0) + 2 * Number(Shr(w, 1), k - 1)
  }

  lemma ShrUp(w: Poly)
    ensures Up(Shr(w, 1), 1) == w - {0}
  {
    forall j: nat | j in w - {0} ensures j in Up(Shr(w, 1), 1) {
      assert j - 1 in Shr(w, 1);
    }
  }

  lemma {:induction false} BitsNumber(w: Poly, k: nat)
    requires Below(w, k)
    ensures Bits(Number(w, k)) == w && Number(w, k) < Pow2(k)
    decreases k
  {
    if k == 0 {
      assert w == {};
    } else {
      var rest := Shr(w, 1);
      BitsNumber(rest, k - 1);
      ShrUp(w);
      assert Number(w, k) / 2 == Number(rest, k - 1) && (Number(w, k) % 2 == 1 <==> 0 in w);
      assert Bits(Number(w, k)) == (if 0 in w then {0} else {}) + Up(Bits(Number(rest, k - 1)), 1) by {
        if Number(w, k) == 0 {
          assert Up(Bits(0), 1) == {};
        }
      }
    }
  }

  lemma {:induction false} BitsBelow(n: nat, k: nat)
    requires n < Pow2(k)
    ensures Below(Bits(n), k)
  {
    if n > 0 {
      BitsBelow(n / 2, k - 1);
    }
  }

  // ---------------------------------------------------------------- polynomial division

  /** The highest bit of x is one of the `span` bits below bit r. */
  ghost predicate TopWithin(x: Poly, r: nat, span: nat) {
    Below(x, r) && exists i :: i in x && i + span >= r
  }

  /** One halving of fls32: if the `step` highest of 32 bits are clear, shift them out. */
  method Halve(x: Poly, r: nat, step: nat, ghost x0: Poly) returns (x': Poly, r': nat)
    requires 0 < step && 2 * step <= r <= 32 && x == Up(x0, 32 - r)
    requires TopWithin(x0, r, 2 * step)
    ensures step <= r' <= 32 && x' == Up(x0, 32 - r') && TopWithin(x0, r', step)
  {
    if exists i | i in x :: i >= 32 - step {
      assert exists i: nat :: i in x && i >= 32 - step && i - (32 - r) in x0;
      x', r' := x, r;
    } else {
      forall i | i in x0 ensures i < r - step {
        assert i + (32 - r) in x;
      }
      UpUp(x0, 32 - r, step);
      x', r' := Up(x, step), r - step;
    }
  }

  /** fls32: one more than the position of the highest one bit, 0 for no bit. */
  method Fls32(x0: Poly) returns (r: nat)
    requires Below(x0, 32)
    ensures if x0 == {} then r == 0 else r >= 1 && Degree(x0, r - 1)
  {
    if x0 == {} {
      return 0;
    }
    assert Up(x0, 0) == x0;
    var x;
    assert TopWithin(x0, 32, 32) by { var i :| i in x0; }
    x, r := Halve(x0, 32, 16, x0);
    x, r := Halve(x, r, 8, x0);
    x, r := Halve(x, r, 4, x0);
    x, r := Halve(x, r, 2, x0);
    x, r := Halve(x, r, 1, x0);
  }

  method Fls64(v: Word) returns (r: nat)
    ensures if v == {} then r == 0 else 1 <= r <= 64 && Degree(v, r - 1)
  {
    var h := Shr(v, 32);
    if h != {} {
      forall i | i in h ensures i < 32 {
        assert i + 32 in v;
      }
      var low := Fls32(h);
      r := 32 + low;
      forall i | i in v ensures i < r {
        if i >= 32 { assert i - 32 in h; }
      }
    } else {
      forall i | i in v ensures i < 32 {
        assert i >= 32 ==> i - 32 in h;
      }
      r := Fls32(v);
    }
  }

  /** A number of two words. */
  function Wide(h: Poly, l: Poly): Poly {
    Xor(Up(h, 64), l)
  }

  lemma ShlUp(d: Poly, k: nat, n: nat)
    requires Below(d, n) && n + k <= 64
    ensures Shl(d, k) == Up(d, k)
  {
  }

  /** d shifted so that its top bit, bit 63, comes to bit 64 + i: the part above and the part below. */
  lemma WideShift(d: Word, i: nat)
    requires i <= 62
    ensures Wide(Shr(d, 63 - i), Shl(d, i + 1)) == Up(d, i + 1)
  {
    var h, l := Up(Shr(d, 63 - i), 64), Shl(d, i + 1);
    forall j: nat ensures j in Xor(h, l) <==> j in Up(d, i + 1) {
      assert j >= 64 ==> (j in h <==> j - 64 in Shr(d, 63 - i));
      assert j >= 64 ==> j - 64 + (63 - i) == j - (i + 1);
    }
  }

  lemma WideXor(h: Poly, l: Poly, h': Poly, l': Poly)
    ensures Wide(Xor(h, h'), Xor(l, l')) == Xor(Wide(h, l), Wide(h', l'))
  {
    UpXor(h, h', 64);
  }

  /** Taking d times a power of x off a number leaves it the same modulo d. */
  lemma CongLess(a: Poly, b: Poly, d: Poly, k: nat, start: Poly)
    requires Cong(start, a, d) && b == Xor(a, Up(d, k))
    ensures Cong(start, b, d)
  {
    CongAdd(a, d, k);
    CongTrans(start, a, b, d);
  }

  /** polymod: the remainder of the two-word number nh, nl modulo d. */
  method PolyMod(nh0: Word, nl0: Word, d0: Word, ghost deg: nat) returns (r: Word)
    requires Degree(d0, deg)
    ensures IsRem(r, Wide(nh0, nl0), d0, deg)
  {
    var nh: Word, nl: Word := nh0, nl0;
    var f := Fls64(d0);
    var k := f - 1;
    assert k == deg;
    var d := Shl(d0, 63 - k);
    ShlUp(d0, 63 - k, k + 1);
    CongRefl(Wide(nh0, nl0), d0);
    if nh != {} {
      if 63 in nh {
        NhTop(nh, nl, d0, d, k, Wide(nh0, nl0));
        nh := Xor(nh, d);
      }
      for i := 63 downto 0
        invariant Below(nh, i) && Cong(Wide(nh0, nl0), Wide(nh, nl), d0)
      {
        if i in nh {
          NhStep(nh, nl, d0, d, k, i, Wide(nh0, nl0));
          nh := Xor(nh, Shr(d, 63 - i));
          nl := Xor(nl, Shl(d, i + 1));
        }
      }
    }
    assert nh == {} && Wide({}, nl) == nl;
    for i := 64 downto k
      invariant Below(nl, i) && Cong(Wide(nh0, nl0), nl, d0)
    {
      if i in nl {
        NlStep(nl, d0, d, k, i, Wide(nh0, nl0));
        nl := Xor(nl, Shr(d, 63 - i));
      }
    }
    r := nl;
  }

  lemma NhTop(nh: Word, nl: Word, d0: Word, d: Word, k: nat, start: Poly)
    requires k <= 63 && Degree(d0, k) && d == Up(d0, 63 - k) && 63 in nh && Cong(start, Wide(nh, nl), d0)
    ensures Below(Xor(nh, d), 63) && Cong(start, Wide(Xor(nh, d), nl), d0)
  {
    WideXor(nh, nl, d, {});
    assert Xor(nl, {}) == nl && Wide(d, {}) == Up(d, 64);
    UpUp(d0, 63 - k, 64);
    assert 63 - (63 - k) in d0;
    CongLess(Wide(nh, nl), Wide(Xor(nh, d), nl), d0, 63 - k + 64, start);
  }

  lemma NhStep(nh: Word, nl: Word, d0: Word, d: Word, k: nat, i: nat, start: Poly)
    requires k <= 63 && Degree(d0, k) && d == Up(d0, 63 - k) && i <= 62 && i in nh && Below(nh, i + 1)
    requires Cong(start, Wide(nh, nl), d0)
    ensures Below(Xor(nh, Shr(d, 63 - i)), i)
    ensures Cong(start, Wide(Xor(nh, Shr(d, 63 - i)), Xor(nl, Shl(d, i + 1))), d0)
  {
    var h, l := Shr(d, 63 - i), Shl(d, i + 1);
    WideXor(nh, nl, h, l);
    WideShift(d, i);
    UpUp(d0, 63 - k, i + 1);
    assert 63 in d by { assert 63 - (63 - k) in d0; }
    assert i in h;
    CongLess(Wide(nh, nl), Wide(Xor(nh, h), Xor(nl, l)), d0, 63 - k + (i + 1), start);
  }

  lemma NlStep(nl: Word, d0: Word, d: Word, k: nat, i: nat, start: Poly)
    requires k <= i <= 63 && Degree(d0, k) && d == Up(d0, 63 - k) && i in nl && Below(nl, i + 1)
    requires Cong(start, nl, d0)
    ensures Below(Xor(nl, Shr(d, 63 - i)), i) && Cong(start, Xor(nl, Shr(d, 63 - i)), d0)
  {
    var s := Shr(d, 63 - i);
    forall j: nat ensures j in s <==> j in Up(d0, i - k) {
      assert j in s <==> j + (63 - i) in d;
      assert j >= i - k ==> j + (63 - i) - (63 - k) == j - (i - k);
    }
    assert i - (i - k) in d0;
    CongLess(nl, Xor(nl, s), d0, i - k, start);
  }

  /** polymult: the product, in two words. */
  method PolyMult(x: Word, y: Word) returns (ph: Word, pl: Word)
    ensures Wide(ph, pl) == Mul(x, y, 64)
  {
    ph, pl := {}, {};
    if 0 in x {
      pl := y;
    }
    assert Up(y, 0) == y;
    assert Wide(ph, pl) == Mul(x, y, 1) by { assert Mul(x, y, 0) == {}; }
    for i := 1 to 64
      invariant Wide(ph, pl) == Mul(x, y, i)
    {
      if i in x {
        MultStep(ph, pl, y, i);
        ph := Xor(ph, Shr(y, 64 - i));
        pl := Xor(pl, Shl(y, i));
      } else {
        assert Xor(Mul(x, y, i), {}) == Mul(x, y, i);
      }
    }
  }

  lemma MultStep(ph: Word, pl: Word, y: Word, i: nat)
    requires 1 <= i < 64
    ensures Below(Xor(ph, Shr(y, 64 - i)), 64)
    ensures Wide(Xor(ph, Shr(y, 64 - i)), Xor(pl, Shl(y, i))) == Xor(Wide(ph, pl), Up(y, i))
  {
    WideXor(ph, pl, Shr(y, 64 - i), Shl(y, i));
    WideShift(y, i - 1);
  }

  /** polymmult: the product modulo d. */
  method PolyMMult(x: Word, y: Word, d: Word, ghost deg: nat) returns (r: Word)
    requires Degree(d, deg)
    ensures IsRem(r, Mul(x, y, 64), d, deg)
  {
    var h, l := PolyMult(x, y);
    r := PolyMod(h, l, d, deg);
  }
}

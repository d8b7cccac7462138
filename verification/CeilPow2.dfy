/** Rounding up to a power of two by smearing bits (`ceilToPow2` of
    Baseline/include/message_queue/readerwriterqueue.h), and that the queue's block sizes, which are
    specified by repeated doubling and the wrap of a word, are what it computes. */
module CeilPow2 {
  import opened Basics
  import opened Gf2
  import opened Rabin
  import QueueModel

  lemma NextByte(k: nat)
    ensures Pow2(k + 8) == 256 * Pow2(k)
  {
    assert Pow2(k + 4) == 2 * Pow2(k + 3) == 4 * Pow2(k + 2) == 8 * Pow2(k + 1) == 16 * Pow2(k);
    assert Pow2(k + 8) == 2 * Pow2(k + 7) == 4 * Pow2(k + 6) == 8 * Pow2(k + 5) == 16 * Pow2(k + 4);
  }

  lemma Words()
    ensures Pow2(64) == QueueModel.WORD && Pow2(63) == QueueModel.HALF
  {
    hide Pow2;
    assert Pow2(0) == 1 by { Unit(); }
    NextByte(0);
    NextByte(8);
    NextByte(16);
    NextByte(24);
    NextByte(32);
    NextByte(40);
    NextByte(48);
    NextByte(56);
    TwicePow2(63);
  }

  /** Every bit of w together with the `span - 1` places below it. */
  ghost predicate Smeared(s: Poly, w: Poly, span: nat) {
    forall i :: i in s <==> Near(i, w, span)
  }

  ghost predicate Near(i: nat, w: Poly, span: nat) {
    exists j :: j in w && i <= j < i + span
  }

  /** One `x |= x >> span` doubles the span. */
  lemma SmearStep(s: Poly, w: Poly, span: nat)
    requires Smeared(s, w, span)
    ensures Smeared(s + Shr(s, span), w, 2 * span)
  {
    var t := s + Shr(s, span);
    forall i: nat ensures i in t <==> Near(i, w, 2 * span) {
      if Near(i, w, 2 * span) {
        var j :| j in w && i <= j < i + 2 * span;
        if j < i + span {
          assert Near(i, w, span);
        } else {
          assert Near(i + span, w, span);
        }
      }
      if i in t && i !in s {
        assert i + span in s;
        var j :| j in w && i + span <= j < i + span + span;
        assert i <= j < i + 2 * span;
      }
    }
  }

  /** k ones. */
  function Ones(k: nat): (s: Poly)
    ensures forall i: nat :: i in s <==> i < k
  {
    if k == 0 then {} else Ones(k - 1) + {k - 1}
  }

  lemma {:induction false} OnesNumber(k: nat, n: nat)
    requires k <= n
    ensures Number(Ones(k), n) == Pow2(k) - 1
    decreases n
  {
    if n > 0 {
      var j := if k == 0 then 0 else k - 1;
      assert Shr(Ones(k), 1) == Ones(j) by {
        hide Ones;
      }
      OnesNumber(j, n - 1);
    }
  }

  /** The highest bit says between which powers of two a number lies. */
  lemma {:induction false} TopBit(n: nat, t: nat)
    requires Degree(Bits(n), t)
    ensures Pow2(t) <= n < Pow2(t + 1)
  {
    hide Bits, Up;
    var rest := Bits(n / 2);
    forall i | i in rest ensures i < t {
      BitUp(n, i);
    }
    SomeBit(n);
    if t == 0 {
      if n / 2 != 0 {
        SomeBit(n / 2);
      }
      assert Pow2(1) == 2;
    } else {
      BitDown(n, t);
      TopBit(n / 2, t - 1);
    }
  }

  lemma BitDown(n: nat, i: nat)
    requires 0 < i && i in Bits(n)
    ensures i - 1 in Bits(n / 2)
  {
  }

  lemma BitUp(n: nat, i: nat)
    requires i in Bits(n / 2)
    ensures i + 1 in Bits(n)
  {
    assert i + 1 in Up(Bits(n / 2), 1);
  }

  lemma {:induction false} SomeBit(n: nat)
    ensures Bits(n) == {} <==> n == 0
  {
    if n % 2 == 1 {
      assert 0 in Bits(n);
    } else if n > 0 {
      SomeBit(n / 2);
      var i :| i in Bits(n / 2);
      BitUp(n, i);
    }
  }

  lemma {:induction false} Doubling(x: nat, j: nat, k: nat)
    requires j <= k && Pow2(k) >= x && (j == k || Pow2(k - 1) < x)
    ensures Pow2(j) >= 1 && QueueModel.CeilToPow2(x, Pow2(j)) == Pow2(k)
    decreases k - j
  {
    Positive(j);
    if j < k {
      Climb(j, k - 1);
      Doubling(x, j + 1, k);
    }
  }

  lemma {:induction false} Positive(k: nat)
    ensures Pow2(k) >= 1
  {
    if k > 0 {
      Positive(k - 1);
    }
  }

  lemma {:induction false} Climb(j: nat, k: nat)
    requires j <= k
    ensures Pow2(j) <= Pow2(k)
  {
    Positive(j);
    if j < k {
      Climb(j, k - 1);
    }
  }

  /** The size of a block: the least power of two that is not below x. */
  lemma LeastPower(x: nat, k: nat) returns (c: nat)
    ensures QueueModel.CeilToPow2(x) == Pow2(c) >= x
    ensures Pow2(k) >= x ==> Pow2(c) <= Pow2(k)
  {
    c := 0;
    Positive(0);
    while Pow2(c) < x
      invariant c == 0 || Pow2(c - 1) < x
      invariant Pow2(c) >= 1
      decreases x - Pow2(c)
    {
      c := c + 1;
    }
    Doubling(x, 0, c);
    if Pow2(k) >= x {
      if k < c {
        Climb(k, c - 1);
      } else {
        Climb(c, k);
      }
    }
  }

  /** What the smeared word is: all ones up to the highest bit. */
  lemma AllOnes(s: Poly, x: nat, t: nat)
    requires Degree(Bits(x), t) && t < 64 && Smeared(s, Bits(x), 64)
    ensures s == Ones(t + 1)
  {
    forall i: nat ensures i in s <==> i < t + 1 {
      if i <= t {
        assert Near(i, Bits(x), 64);
      }
    }
  }

  /** The six shifts of `ceilToPow2`: 1, 2, 4 and then 8, 16, 32 by its loop. */
  method Smear(w: Word) returns (s: Poly)
    ensures Smeared(s, w, 64)
  {
    s := w;
    forall i: nat ensures i in s <==> Near(i, w, 1) {
      if i in s {
        assert i <= i < i + 1;
      }
    }
    SmearStep(s, w, 1);
    s := s + Shr(s, 1);
    SmearStep(s, w, 2);
    s := s + Shr(s, 2);
    SmearStep(s, w, 4);
    s := s + Shr(s, 4);
    var i := 1;
    while i < 8
      invariant i == 1 || i == 2 || i == 4 || i == 8
      invariant Smeared(s, w, 8 * i)
      decreases 8 - i
    {
      SmearStep(s, w, 8 * i);
      s := s + Shr(s, 8 * i);
      i := 2 * i;
    }
  }

  /** `--x` in 64 bits */
  function Decrement(x: nat): nat {
    if x == 0 then QueueModel.WORD - 1 else x - 1
  }

  lemma RoundedOne()
    ensures QueueModel.Rounded(1) == QueueModel.Increment(0) && Decrement(0) > 0
  {
    hide QueueModel.CeilToPow2;
    Words();
    Climb(0, 63);
    assert Pow2(0) == 1;
    Doubling(1, 0, 0);
    Positive(63);
    TwicePow2(63);
  }

  lemma TwicePow2(k: nat)
    ensures Pow2(k + 1) == 2 * Pow2(k)
  {
  }

  /** The power of two above the highest bit of `x - 1` is the answer, or does not fit. */
  lemma RoundedAbove(x: nat, t: nat)
    requires x < QueueModel.WORD && t < 64 && Pow2(t) <= Decrement(x) < Pow2(t + 1)
    ensures Pow2(t + 1) >= 1 && QueueModel.Rounded(x) == QueueModel.Increment(Pow2(t + 1) - 1)
  {
    hide QueueModel.CeilToPow2;
    Words();
    Positive(t + 1);
    TwicePow2(63);
    if t < 63 {
      Climb(t + 1, 63);
      if x > 0 {
        Doubling(x, 0, t + 1);
        assert Pow2(0) == 1;
      }
    }
  }

  /** With 64 bit words: zero, and numbers above the greatest power of two that fits, wrap around
      to zero. */
  method CeilToPow2(x0: nat) returns (r: nat)
    requires x0 < QueueModel.WORD
    ensures r == QueueModel.Rounded(x0)
  {
    hide Pow2, Number, Bits, QueueModel.CeilToPow2, QueueModel.Rounded, QueueModel.Increment, Degree;
    Words();
    var x: nat := Decrement(x0);
    BitsBelow(x, 64);
    var s := Smear(Bits(x));
    if x == 0 {
      NoOnes(s);
      RoundedOne();
    } else {
      SomeBit(x);
      ghost var t := Top(Bits(x), 64);
      TopBit(x, t);
      AllOnes(s, x, t);
      OnesNumber(t + 1, 64);
      RoundedAbove(x0, t);
    }
    r := QueueModel.Increment(Number(s, 64));
  }

  lemma NoOnes(s: Poly)
    requires Smeared(s, Bits(0), 64)
    ensures Number(s, 64) == 0
  {
    hide Number, Pow2;
    assert s == Ones(0);
    OnesNumber(0, 64);
    assert Pow2(0) == 1 by { Unit(); }
  }

  lemma Unit()
    ensures Pow2(0) == 1
  {
  }

  /** The highest of some bits below n. */
  ghost function Top(w: Poly, n: nat): (t: nat)
    requires w != {} && Below(w, n)
    ensures t < n && Degree(w, t)
    decreases n
  {
    assert n > 0 by { var i :| i in w; }
    if n - 1 in w then n - 1 else Top(w, n - 1)
  }
}

/** Polynomials over GF(2).  A polynomial is the set of exponents with coefficient one; adding is
    exclusive or.  A machine word is such a set below the word size. */
module Gf2 {
  type Poly = set<nat>

  function Xor(a: Poly, b: Poly): Poly {
    (a - b) + (b - a)
  }

  /** a times x^k */
  function Up(a: Poly, k: nat): (r: Poly)
    ensures forall j: nat :: j in r <==> j >= k && j - k in a
  {
    set i | i in a :: i + k
  }

  predicate Below(a: Poly, n: nat) {
    forall i :: i in a ==> i < n
  }

  /** The part of the product q * d that the exponents of q below n contribute. */
  function Mul(q: Poly, d: Poly, n: nat): Poly {
    if n == 0 then {}
    else Xor(Mul(q, d, n - 1), if n - 1 in q then Up(d, n - 1) else {})
  }

  /** a and b differ by a multiple of d. */
  ghost predicate Cong(a: Poly, b: Poly, d: Poly) {
    exists q: Poly, n: nat :: Differ(a, b, d, q, n)
  }

  ghost predicate Differ(a: Poly, b: Poly, d: Poly, q: Poly, n: nat) {
    Below(q, n) && Xor(a, b) == Mul(q, d, n)
  }

  /** r is the remainder of a modulo d, where d has degree n. */
  ghost predicate IsRem(r: Poly, a: Poly, d: Poly, n: nat) {
    Below(r, n) && Cong(a, r, d)
  }

  /** The terms of a below x^n. */
  function Low(a: Poly, n: nat): Poly {
    set i | i in a && i < n
  }

  predicate Degree(d: Poly, n: nat) {
    n in d && Below(d, n + 1)
  }

  // ---------------------------------------------------------------- products

  lemma {:induction false} MulBelow(q: Poly, d: Poly, n: nat, deg: nat)
    requires Degree(d, deg)
    ensures Below(Mul(q, d, n), n + deg)
  {
    if n > 0 {
      MulBelow(q, d, n - 1, deg);
    }
  }

  lemma MulTop(q: Poly, d: Poly, n: nat, deg: nat)
    requires Degree(d, deg) && n > 0 && n - 1 in q
    ensures n - 1 + deg in Mul(q, d, n)
  {
    MulBelow(q, d, n - 1, deg);
    assert n - 1 + deg in Up(d, n - 1);
  }

  /** A multiple of d that is not zero has at least the degree of d. */
  lemma {:induction false} MulZero(q: Poly, d: Poly, n: nat, deg: nat)
    requires Degree(d, deg) && Below(Mul(q, d, n), deg)
    ensures Mul(q, d, n) == {}
  {
    if n > 0 {
      if n - 1 in q {
        MulTop(q, d, n, deg);
        assert false;
      }
      assert Mul(q, d, n) == Mul(q, d, n - 1);
      MulZero(q, d, n - 1, deg);
    }
  }

  lemma {:induction false} MulXor(q: Poly, p: Poly, d: Poly, n: nat)
    ensures Mul(Xor(q, p), d, n) == Xor(Mul(q, d, n), Mul(p, d, n))
  {
    if n > 0 {
      MulXor(q, p, d, n - 1);
    }
  }

  lemma {:induction false} MulMore(q: Poly, d: Poly, n: nat, m: nat)
    requires Below(q, n) && n <= m
    ensures Mul(q, d, m) == Mul(q, d, n)
  {
    if n < m {
      MulMore(q, d, n, m - 1);
    }
  }

  lemma UpUp(a: Poly, j: nat, k: nat)
    ensures Up(Up(a, j), k) == Up(a, j + k)
  {
  }

  lemma UpXor(a: Poly, b: Poly, k: nat)
    ensures Up(Xor(a, b), k) == Xor(Up(a, k), Up(b, k))
  {
  }

  lemma {:induction false} MulUp(q: Poly, d: Poly, n: nat, k: nat)
    ensures Mul(Up(q, k), d, n + k) == Up(Mul(q, d, n), k)
    decreases n + k
  {
    if n > 0 {
      MulUp(q, d, n - 1, k);
      UpXor(Mul(q, d, n - 1), if n - 1 in q then Up(d, n - 1) else {}, k);
      if n - 1 in q {
        UpUp(d, n - 1, k);
      }
    } else if k > 0 {
      MulUp(q, d, 0, k - 1);
      MulNothing(Up(q, k), d, k);
    }
  }

  lemma {:induction false} MulNothing(q: Poly, d: Poly, n: nat)
    requires forall i :: i in q ==> i >= n
    ensures Mul(q, d, n) == {}
  {
    if n > 0 {
      MulNothing(q, d, n - 1);
    }
  }

  /** q * x^k */
  lemma {:induction false} MulMonomial(q: Poly, k: nat, n: nat)
    ensures Mul(q, {k}, n) == Up(Low(q, n), k)
  {
    if n > 0 {
      MulMonomial(q, k, n - 1);
      assert Up({k}, n - 1) == {k + n - 1};
    }
  }

  // ---------------------------------------------------------------- congruence

  lemma CongRefl(a: Poly, d: Poly)
    ensures Cong(a, a, d)
  {
    assert Differ(a, a, d, {}, 0);
  }

  lemma CongSym(a: Poly, b: Poly, d: Poly)
    requires Cong(a, b, d)
    ensures Cong(b, a, d)
  {
    var q: Poly, n: nat :| Differ(a, b, d, q, n);
    assert Xor(b, a) == Xor(a, b);
    assert Differ(b, a, d, q, n);
  }

  /** Congruences may be added. */
  lemma CongXor(a: Poly, b: Poly, a': Poly, b': Poly, d: Poly)
    requires Cong(a, b, d) && Cong(a', b', d)
    ensures Cong(Xor(a, a'), Xor(b, b'), d)
  {
    var q: Poly, n: nat :| Differ(a, b, d, q, n);
    var p: Poly, m: nat :| Differ(a', b', d, p, m);
    var k := if n < m then m else n;
    MulMore(q, d, n, k);
    MulMore(p, d, m, k);
    MulXor(q, p, d, k);
    assert Xor(Xor(a, a'), Xor(b, b')) == Xor(Xor(a, b), Xor(a', b'));
    assert Differ(Xor(a, a'), Xor(b, b'), d, Xor(q, p), k);
  }

  lemma CongTrans(a: Poly, b: Poly, c: Poly, d: Poly)
    requires Cong(a, b, d) && Cong(b, c, d)
    ensures Cong(a, c, d)
  {
    CongXor(a, b, b, c, d);
    assert Xor(b, c) == Xor(c, b);
    assert Xor(Xor(a, b), Xor(b, c)) == Xor(a, c);
    CongDrop(a, b, c, d);
  }

  lemma CongDrop(a: Poly, b: Poly, c: Poly, d: Poly)
    requires Cong(Xor(a, b), Xor(b, c), d)
    ensures Cong(a, c, d)
  {
    var q: Poly, n: nat :| Differ(Xor(a, b), Xor(b, c), d, q, n);
    assert Xor(Xor(a, b), Xor(b, c)) == Xor(a, c);
    assert Differ(a, c, d, q, n);
  }

  /** Congruences may be multiplied by x^k ... */
  lemma CongUp(a: Poly, b: Poly, d: Poly, k: nat)
    requires Cong(a, b, d)
    ensures Cong(Up(a, k), Up(b, k), d)
  {
    var q: Poly, n: nat :| Differ(a, b, d, q, n);
    UpXor(a, b, k);
    MulUp(q, d, n, k);
    assert Differ(Up(a, k), Up(b, k), d, Up(q, k), n + k);
  }

  /** ... and by any polynomial. */
  lemma {:induction false} CongMul(q: Poly, a: Poly, b: Poly, d: Poly, n: nat)
    requires Cong(a, b, d)
    ensures Cong(Mul(q, a, n), Mul(q, b, n), d)
  {
    if n == 0 {
      CongRefl({}, d);
    } else {
      CongMul(q, a, b, d, n - 1);
      if n - 1 in q {
        CongUp(a, b, d, n - 1);
        CongXor(Mul(q, a, n - 1), Mul(q, b, n - 1), Up(a, n - 1), Up(b, n - 1), d);
      } else {
        CongRefl({}, d);
        CongXor(Mul(q, a, n - 1), Mul(q, b, n - 1), {}, {}, d);
      }
    }
  }

  /** Adding d * x^k changes nothing modulo d. */
  lemma CongAdd(a: Poly, d: Poly, k: nat)
    ensures Cong(a, Xor(a, Up(d, k)), d)
  {
    MulMonomialLeft(d, k);
    assert Xor(a, Xor(a, Up(d, k))) == Up(d, k);
    assert Differ(a, Xor(a, Up(d, k)), d, {k}, k + 1);
  }

  lemma MulMonomialLeft(d: Poly, k: nat)
    ensures Mul({k}, d, k + 1) == Up(d, k)
  {
    MulNothing({k}, d, k);
  }

  /** There is one remainder only. */
  lemma RemUnique(r: Poly, r': Poly, a: Poly, d: Poly, n: nat)
    requires Degree(d, n) && IsRem(r, a, d, n) && IsRem(r', a, d, n)
    ensures r == r'
  {
    CongSym(a, r, d);
    CongTrans(r, a, r', d);
    var q: Poly, m: nat :| Differ(r, r', d, q, m);
    MulZero(q, d, m, n);
    assert Xor(r, r') == {};
    assert forall i :: i in r <==> i in r';
  }
}

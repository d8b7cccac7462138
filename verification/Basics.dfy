/** What several modules count with. */
module Basics {
  type Byte = b: nat | b < 256
  type Bytes = seq<Byte>

  function Pow2(k: nat): (r: nat)
    ensures r >= 1
  {
    if k == 0 then 1 else 2 * Pow2(k - 1)
  }

  predicate Distinct<T(==)>(s: seq<T>) {
    forall i, j :: 0 <= i < j < |s| ==> s[i] != s[j]
  }

  /** Different numbers from lo below hi are no more than there are such numbers. */
  lemma {:induction false} Pigeonhole(s: seq<nat>, lo: nat, hi: nat)
    requires Distinct(s) && lo <= hi && forall i :: 0 <= i < |s| ==> lo <= s[i] < hi
    ensures |s| <= hi - lo
    decreases hi
  {
    if s != [] {
      if hi - 1 in s {
        var i :| 0 <= i < |s| && s[i] == hi - 1;
        var t := s[..i] + s[i + 1..];
        assert forall k :: 0 <= k < |t| ==> t[k] == s[if k < i then k else k + 1];
        Pigeonhole(t, lo, hi - 1);
      } else {
        Pigeonhole(s, lo, hi - 1);
      }
    }
  }

  function Repeat<T>(x: T, n: nat): seq<T> {
    seq(n, _ => x)
  }

  /** The list without the first x in it. */
  function Without(s: seq<nat>, x: nat): seq<nat> {
    if s == [] then [] else if s[0] == x then s[1..] else [s[0]] + Without(s[1..], x)
  }

  lemma {:induction false} WithoutOk(s: seq<nat>, x: nat)
    requires Distinct(s)
    ensures |Without(s, x)| == |s| - (if x in s then 1 else 0) && Distinct(Without(s, x))
    ensures forall y :: y in Without(s, x) <==> y in s && y != x
    ensures x in s && |s| > 1 ==> Without(s, x)[0] == if s[0] == x then s[1] else s[0]
  {
    if s != [] && s[0] != x {
      WithoutOk(s[1..], x);
      var rest := Without(s[1..], x);
      forall i, j | 0 <= i < j < |rest| + 1 ensures Without(s, x)[i] != Without(s, x)[j] {
        if i == 0 {
          assert rest[j - 1] in rest;
        }
      }
    }
  }

  lemma {:induction false} WithoutAbsent(s: seq<nat>, x: nat)
    requires x !in s
    ensures Without(s, x) == s
  {
    if s != [] {
      WithoutAbsent(s[1..], x);
    }
  }

  /** The keys ever used, the most recently used first. */
  function Recent(uses: seq<nat>): seq<nat> {
    if uses == [] then []
    else [uses[|uses| - 1]] + Without(Recent(uses[..|uses| - 1]), uses[|uses| - 1])
  }

  lemma {:induction false} RecentDistinct(uses: seq<nat>)
    ensures Distinct(Recent(uses)) && forall x :: x in Recent(uses) <==> x in uses
  {
    if uses != [] {
      var n := |uses| - 1;
      RecentDistinct(uses[..n]);
      WithoutOk(Recent(uses[..n]), uses[n]);
      assert uses == uses[..n] + [uses[n]];
    }
  }

  lemma {:induction false} WithoutConcat(s: seq<nat>, t: seq<nat>, k: nat)
    ensures k in s ==> Without(s + t, k) == Without(s, k) + t
    ensures k !in s ==> Without(s + t, k) == s + Without(t, k)
  {
    if s == [] {
      assert s + t == t;
    } else {
      WithoutConcat(s[1..], t, k);
      ConcatStep(s, t, k);
    }
  }

  lemma ConcatStep(s: seq<nat>, t: seq<nat>, k: nat)
    requires s != []
    requires k in s[1..] ==> Without(s[1..] + t, k) == Without(s[1..], k) + t
    requires k !in s[1..] ==> Without(s[1..] + t, k) == s[1..] + Without(t, k)
    ensures k in s ==> Without(s + t, k) == Without(s, k) + t
    ensures k !in s ==> Without(s + t, k) == s + Without(t, k)
  {
    hide Without;
    WithoutHead(s, k);
    WithoutHead(s + t, k);
    assert (s + t)[1..] == s[1..] + t;
    if s[0] != k && k !in s[1..] {
      assert [s[0]] + (s[1..] + Without(t, k)) == s + Without(t, k);
    }
  }

  lemma WithoutHead(s: seq<nat>, k: nat)
    requires s != []
    ensures Without(s, k) == if s[0] == k then s[1..] else [s[0]] + Without(s[1..], k)
  {
  }

  /** memcpy */
  method CopyInto<T>(to: array<T>, at: nat, data: seq<T>)
    requires at + |data| <= to.Length
    modifies to
    ensures to[..at + |data|] == old(to[..at]) + data
  {
    for i := 0 to |data|
      invariant to[..at] == old(to[..at])
      invariant to[at..at + i] == data[..i]
    {
      to[at + i] := data[i];
    }
    assert to[..at + |data|] == to[..at] + to[at..at + |data|];
  }

  lemma MulLe(a: nat, b: nat, p: nat)
    requires a <= b
    ensures a * p <= b * p
  {
  }

  lemma DivUnique(v: nat, p: nat, q: nat, r: nat)
    requires p >= 1 && v == q * p + r && r < p
    ensures v / p == q
  {
    var d := v / p;
    assert d * p <= v < (d + 1) * p;
    assert (q + 1) * p == q * p + p;
    if d < q {
      MulLe(d + 1, q, p);
    } else if d > q {
      MulLe(q + 1, d, p);
    }
  }
}

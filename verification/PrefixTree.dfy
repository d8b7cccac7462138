/** The forest that djw_build_prefix (Baseline/third/xdelta/xdelta3-djw.h) grows in its entries, and
    what the depths of its leaves come to: a complete code, and no deeper than the weights allow. */
module PrefixTree {
  import opened Basics
  import opened Canonical
  import opened Heap

  function Max(a: nat, b: nat): nat {
    if a < b then b else a
  }

  /** Two entries become the children of a new one. */
  function Join(es: seq<Heapen>, a: nat, b: nat): seq<Heapen>
    requires a < |es| && b < |es|
  {
    es[a := es[a].(parent := |es|)][b := es[b].(parent := |es|)]
    + [Heapen(1 + Max(es[a].depth, es[b].depth), es[a].freq + es[b].freq, 0)]
  }

  /** An entry that is the root of a tree. */
  predicate Active(es: seq<Heapen>, x: nat) {
    1 <= x < |es| && es[x].freq != 0 && es[x].parent == 0
  }

  /** A parent is an internal node that comes later and is deeper. */
  predicate Up(es: seq<Heapen>, asize: nat, x: nat)
    requires x < |es|
  {
    es[x].parent == 0 ||
    (1 <= x < es[x].parent < |es| && asize < es[x].parent && es[x].freq != 0
     && es[es[x].parent].freq != 0 && es[x].depth < es[es[x].parent].depth)
  }

  /** The children of m. */
  predicate Kids(es: seq<Heapen>, m: nat, c: nat, d: nat) {
    && 1 <= c < m < |es| && 1 <= d < m && c != d && es[c].freq != 0 && es[d].freq != 0 && es[m].freq != 0
    && forall x :: 0 <= x < |es| ==> (es[x].parent == m <==> x == c || x == d)
  }

  /** Leaves 1..asize, then one internal node for each pair of kids. */
  predicate Forest(es: seq<Heapen>, asize: nat, kids: seq<(nat, nat)>) {
    && |es| == asize + 1 + |kids| && es[0].freq == 0
    && (forall x :: 0 <= x < |es| ==> Up(es, asize, x))
    && (forall k :: 0 <= k < |kids| ==> Kids(es, asize + 1 + k, kids[k].0, kids[k].1))
  }

  lemma JoinForest(es: seq<Heapen>, asize: nat, kids: seq<(nat, nat)>, a: nat, b: nat)
    requires Forest(es, asize, kids) && Active(es, a) && Active(es, b) && a != b
    ensures Forest(Join(es, a, b), asize, kids + [(a, b)])
    ensures forall x: nat :: Active(Join(es, a, b), x) <==> (Active(es, x) && x != a && x != b) || x == |es|
  {
    var j, n := Join(es, a, b), |es|;
    forall x | 0 <= x < |j| ensures Up(j, asize, x) {
      if x < n {
        assert Up(es, asize, x);
      }
    }
    var ks := kids + [(a, b)];
    forall k | 0 <= k < |ks| ensures Kids(j, asize + 1 + k, ks[k].0, ks[k].1) {
      if k < |kids| {
        assert Kids(es, asize + 1 + k, kids[k].0, kids[k].1);
      } else {
        forall x | 0 <= x < n ensures es[x].parent != n {
          assert Up(es, asize, x);
        }
      }
    }
  }

  // ----- weights -----

  /** The total weight of the trees. */
  function Live(es: seq<Heapen>): nat {
    if es == [] then 0 else Live(es[..|es| - 1]) + Share(es[|es| - 1])
  }

  function Share(e: Heapen): nat {
    if e.parent == 0 then e.freq else 0
  }

  lemma {:induction false} LiveUpdate(es: seq<Heapen>, i: nat, e: Heapen)
    requires i < |es|
    ensures Live(es[i := e]) == Live(es) - Share(es[i]) + Share(e)
  {
    var n := |es| - 1;
    if i < n {
      assert es[i := e][..n] == es[..n][i := e];
      LiveUpdate(es[..n], i, e);
    } else {
      assert es[i := e][..n] == es[..n];
    }
  }

  lemma JoinLive(es: seq<Heapen>, a: nat, b: nat)
    requires Active(es, a) && Active(es, b) && a != b
    ensures Live(Join(es, a, b)) == Live(es)
  {
    var e1 := es[a := es[a].(parent := |es|)];
    var e2 := e1[b := es[b].(parent := |es|)];
    LiveUpdate(es, a, es[a].(parent := |es|));
    LiveUpdate(e1, b, es[b].(parent := |es|));
    assert Join(es, a, b)[..|es|] == e2;
  }

  lemma {:induction false} LiveBound(es: seq<Heapen>, x: nat)
    requires x < |es|
    ensures Share(es[x]) <= Live(es)
  {
    if x < |es| - 1 {
      LiveBound(es[..|es| - 1], x);
    }
  }

  /** The least weight of a tree of some depth: the Fibonacci numbers. */
  function MinWeight(depth: nat): (r: nat)
    ensures r > 0
  {
    if depth < 2 then depth + 1 else MinWeight(depth - 1) + MinWeight(depth - 2)
  }

  lemma {:induction false} MinWeightGrows(d: nat, e: nat)
    requires d <= e
    ensures MinWeight(d) <= MinWeight(e)
  {
    if d < e {
      MinWeightGrows(d, e - 1);
    }
  }

  /** No tree is lighter than the last ones merged, nor than its depth needs; its deepest subtrees
      are no heavier than the last ones merged. */
  predicate Heavy(es: seq<Heapen>, floor: nat, x: nat)
    requires x < |es|
  {
    && es[x].freq >= floor && es[x].freq >= MinWeight(es[x].depth)
    && (es[x].depth > 0 ==> MinWeight(es[x].depth - 1) <= floor)
  }

  lemma JoinHeavy(es: seq<Heapen>, floor: nat, a: nat, b: nat)
    requires Active(es, a) && Active(es, b) && a != b
    requires forall x: nat :: Active(es, x) ==> Heavy(es, floor, x)
    requires es[a].freq <= es[b].freq
    requires forall x: nat :: Active(es, x) && x != a ==> es[b].freq <= es[x].freq
    requires forall x: nat :: Active(Join(es, a, b), x) ==> (Active(es, x) && x != a && x != b) || x == |es|
    ensures forall x: nat :: Active(Join(es, a, b), x) ==> Heavy(Join(es, a, b), es[b].freq, x)
  {
    var j := Join(es, a, b);
    forall x: nat | Active(j, x) ensures Heavy(j, es[b].freq, x) {
      assert Heavy(es, floor, a) && Heavy(es, floor, b);
      if x < |es| {
        assert Heavy(es, floor, x);
      }
    }
  }

  // ----- depths -----

  /** The number of parents above x: what the length loop counts. */
  function Hops(es: seq<Heapen>, asize: nat, x: nat): (r: nat)
    requires x < |es| && forall x :: 0 <= x < |es| ==> Up(es, asize, x)
    ensures r <= |es| - x
    decreases |es| - x
  {
    if es[x].parent == 0 then 0
    else
      assert Up(es, asize, x);
      1 + Hops(es, asize, es[x].parent)
  }

  function Top(es: seq<Heapen>, asize: nat, x: nat): (r: nat)
    requires x < |es| && forall x :: 0 <= x < |es| ==> Up(es, asize, x)
    ensures r < |es| && es[r].parent == 0
    decreases |es| - x
  {
    if es[x].parent == 0 then x
    else
      assert Up(es, asize, x);
      Top(es, asize, es[x].parent)
  }

  lemma {:induction false} HopsDepth(es: seq<Heapen>, asize: nat, x: nat)
    requires 1 <= x < |es| && es[x].freq != 0 && forall x :: 0 <= x < |es| ==> Up(es, asize, x)
    ensures Hops(es, asize, x) + es[x].depth <= es[Top(es, asize, x)].depth
    ensures Active(es, Top(es, asize, x))
    decreases |es| - x
  {
    assert Up(es, asize, x);
    if es[x].parent != 0 {
      HopsDepth(es, asize, es[x].parent);
    }
  }

  /** A single tree remains. */
  ghost predicate Single(es: seq<Heapen>, root: nat) {
    Active(es, root) && forall x: nat :: Active(es, x) ==> x == root
  }

  /** A code length that overflows needs a total weight that grows as the Fibonacci numbers. */
  lemma DeepIsHeavy(es: seq<Heapen>, asize: nat, kids: seq<(nat, nat)>, floor: nat, root: nat, x: nat, maxlen: nat)
    requires Forest(es, asize, kids) && Single(es, root) && Heavy(es, floor, root)
    requires 1 <= x < |es| && es[x].freq != 0 && Hops(es, asize, x) > maxlen
    ensures MinWeight(maxlen + 1) <= Live(es)
  {
    HopsDepth(es, asize, x);
    MinWeightGrows(maxlen + 1, es[root].depth);
    LiveBound(es, root);
  }

  // ----- completeness -----

  function Weight(es: seq<Heapen>, asize: nat, size: nat, x: nat): nat
    requires x < |es| <= size && forall x :: 0 <= x < |es| ==> Up(es, asize, x)
  {
    Pow2(size - Hops(es, asize, x))
  }

  /** x's parent is not among the nodes below n. */
  predicate OnTop(es: seq<Heapen>, n: nat, x: nat) {
    x < |es| && es[x].freq != 0 && (es[x].parent == 0 || es[x].parent >= n)
  }

  /** The shares of the nodes below k whose parents are not below n. */
  function Frontier(es: seq<Heapen>, asize: nat, size: nat, n: nat, k: nat): nat
    requires k <= |es| <= size && forall x :: 0 <= x < |es| ==> Up(es, asize, x)
  {
    if k == 0 then 0
    else Frontier(es, asize, size, n, k - 1) + if OnTop(es, n, k - 1) then Weight(es, asize, size, k - 1) else 0
  }

  lemma {:induction false} FrontierSingle(es: seq<Heapen>, asize: nat, size: nat, root: nat, k: nat)
    requires k <= |es| <= size && (forall x :: 0 <= x < |es| ==> Up(es, asize, x)) && Single(es, root)
    requires es[0].freq == 0
    ensures Frontier(es, asize, size, |es|, k) == if root < k then Pow2(size) else 0
  {
    if k > 0 {
      FrontierSingle(es, asize, size, root, k - 1);
      assert Up(es, asize, k - 1);
      assert OnTop(es, |es|, k - 1) <==> Active(es, k - 1);
    }
  }

  /** Taking m away from the parents that count brings in its two children. */
  lemma {:induction false} FrontierStep(es: seq<Heapen>, asize: nat, size: nat, m: nat, c: nat, d: nat, k: nat)
    requires k <= m < |es| <= size && (forall x :: 0 <= x < |es| ==> Up(es, asize, x)) && Kids(es, m, c, d)
    ensures Frontier(es, asize, size, m, k) == Frontier(es, asize, size, m + 1, k)
              + (if c < k then Weight(es, asize, size, c) else 0) + (if d < k then Weight(es, asize, size, d) else 0)
  {
    if k > 0 {
      FrontierStep(es, asize, size, m, c, d, k - 1);
    }
  }

  lemma {:induction false} FrontierFull(es: seq<Heapen>, asize: nat, kids: seq<(nat, nat)>, size: nat, root: nat,
      n: nat)
    requires Forest(es, asize, kids) && Single(es, root) && asize + 1 <= n <= |es| <= size
    ensures Frontier(es, asize, size, n, n) == Pow2(size)
    decreases |es| - n
  {
    if n == |es| {
      FrontierSingle(es, asize, size, root, n);
    } else {
      FrontierFull(es, asize, kids, size, root, n + 1);
      var c, d := kids[n - asize - 1].0, kids[n - asize - 1].1;
      assert Kids(es, asize + 1 + (n - asize - 1), c, d);
      FrontierStep(es, asize, size, n, c, d, n);
      assert Up(es, asize, n);
      assert es[c].parent == n && es[d].parent == n;
    }
  }

  /** The lengths the length loop finds. */
  predicate Lengths(es: seq<Heapen>, asize: nat, clen: seq<nat>) {
    && |clen| == asize < |es| && (forall x :: 0 <= x < |es| ==> Up(es, asize, x))
    && forall i :: 0 <= i < asize ==> clen[i] == if es[i + 1].freq != 0 then Hops(es, asize, i + 1) else 0
  }

  /** The sum of 2^(size - length) over the used symbols. */
  function Sum(clen: seq<nat>, size: nat): nat
    requires forall i :: 0 <= i < |clen| ==> clen[i] <= size
  {
    if clen == [] then 0
    else Sum(clen[..|clen| - 1], size) + if clen[|clen| - 1] > 0 then Pow2(size - clen[|clen| - 1]) else 0
  }

  lemma {:induction false} UsedSnoc(clen: seq<nat>, l: nat)
    requires clen != []
    ensures var x := clen[|clen| - 1];
            Used(clen, l) == Used(clen[..|clen| - 1], l) + if 0 < x <= l then Pow2(l - x) else 0
  {
    if l > 0 {
      UsedSnoc(clen, l - 1);
    }
  }

  lemma {:induction false} UsedIsSum(clen: seq<nat>, size: nat)
    requires forall i :: 0 <= i < |clen| ==> clen[i] <= size
    ensures Used(clen, size) == Sum(clen, size)
  {
    if clen == [] {
      UsedNone(size);
    } else {
      UsedSnoc(clen, size);
      UsedIsSum(clen[..|clen| - 1], size);
    }
  }

  lemma {:induction false} UsedNone(l: nat)
    ensures Used([], l) == 0
  {
    if l > 0 {
      UsedNone(l - 1);
    }
  }

  /** Beyond the longest length the used share only doubles. */
  lemma {:induction false} UsedBeyond(clen: seq<nat>, l: nat, m: nat)
    requires l <= m && forall i :: 0 <= i < |clen| ==> clen[i] <= l
    ensures Used(clen, m) == Used(clen, l) * Pow2(m - l)
  {
    if l < m {
      UsedBeyond(clen, l, m - 1);
      CountZero(clen, m);
      Doubled(Used(clen, l), Pow2(m - 1 - l));
    }
  }

  lemma {:induction false} FrontierLeaves(es: seq<Heapen>, asize: nat, kids: seq<(nat, nat)>, clen: seq<nat>,
      size: nat, k: nat)
    requires Forest(es, asize, kids) && Lengths(es, asize, clen) && k <= asize && |es| <= size
    requires forall x :: 1 <= x <= asize && es[x].freq != 0 ==> es[x].parent != 0
    ensures (forall i :: 0 <= i < k ==> clen[i] <= size)
    ensures Frontier(es, asize, size, asize + 1, k + 1) == Sum(clen[..k], size)
  {
    if k > 0 {
      FrontierLeaves(es, asize, kids, clen, size, k - 1);
      assert clen[..k][..k - 1] == clen[..k - 1];
      assert Up(es, asize, k);
    } else {
      assert clen[..0] == [];
    }
  }

  /** The lengths use up all words: the code is complete. */
  lemma Complete(es: seq<Heapen>, asize: nat, kids: seq<(nat, nat)>, root: nat, clen: seq<nat>, maxlen: nat)
    requires Forest(es, asize, kids) && Single(es, root) && Lengths(es, asize, clen)
    requires forall x :: 1 <= x <= asize && es[x].freq != 0 ==> es[x].parent != 0
    requires forall i :: 0 <= i < |clen| ==> clen[i] <= maxlen
    ensures Used(clen, maxlen) == Pow2(maxlen)
  {
    hide Sum, Used, Pow2, Frontier, Kids, Up;
    var size := |es| + maxlen;
    FrontierFull(es, asize, kids, size, root, asize + 1);
    FrontierLeaves(es, asize, kids, clen, size, asize);
    assert clen[..asize] == clen;
    UsedIsSum(clen, size);
    UsedBeyond(clen, maxlen, size);
    PowSplit(maxlen, |es|);
    MulCancel(Used(clen, maxlen), Pow2(maxlen), Pow2(|es|));
    MulCancel(Pow2(maxlen), Used(clen, maxlen), Pow2(|es|));
  }
}

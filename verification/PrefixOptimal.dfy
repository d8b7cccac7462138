/** Joining the two lightest trees gives a code of the fewest bits: what the loop of djw_build_prefix
    (Baseline/third/xdelta/xdelta3-djw.h) is for. No lengths that leave room for a prefix code
    (Kraft's inequality) take fewer. */
module PrefixOptimal {
  import opened Basics
  import opened Canonical
  import opened Heap
  import opened PrefixTree

  // ----- what a code costs -----

  /** The bits that the words of one symbol take. */
  function Cost(length: nat, freq: nat): nat {
    length * freq
  }

  /** What the coded text takes: the sum of frequency times length. */
  function TotalBits(freq: seq<nat>, clen: seq<nat>): nat
    requires |freq| == |clen|
  {
    if freq == [] then 0
    else TotalBits(freq[..|freq| - 1], clen[..|clen| - 1]) + Cost(clen[|clen| - 1], freq[|freq| - 1])
  }

  /** Lengths, of at most l bits, of a prefix code for the symbols that have a weight. */
  ghost predicate CodeFor(w: seq<nat>, clen: seq<nat>, l: nat) {
    |clen| == |w| && (forall i :: 0 <= i < |w| && w[i] != 0 ==> clen[i] > 0) && Kraft(clen, l)
  }

  /** No prefix code for these symbols takes fewer bits. */
  ghost predicate Shortest(w: seq<nat>, clen: seq<nat>) {
    && |clen| == |w|
    && forall other: seq<nat>, l: nat :: CodeFor(w, other, l) ==> TotalBits(w, clen) <= TotalBits(w, other)
  }

  // ----- the least cost, of weights alone -----

  ghost function LeastOf(m: multiset<nat>): (a: nat)
    requires m != multiset{}
    ensures a in m && forall x :: x in m ==> a <= x
  {
    LeastExists(m);
    var a :| a in m && forall x :: x in m ==> a <= x;
    a
  }

  lemma {:induction false} LeastIn(m: multiset<nat>) returns (a: nat)
    requires m != multiset{}
    ensures a in m && forall x :: x in m ==> a <= x
    decreases |m|
  {
    a :| a in m;
    var n := m - multiset{a};
    if n != multiset{} {
      var b := LeastIn(n);
      a := if a < b then a else b;
    }
    forall x | x in m ensures a <= x {
      assert n[x] == m[x] || (m - n)[x] > 0;
    }
  }

  lemma LeastExists(m: multiset<nat>)
    requires m != multiset{}
    ensures exists a :: a in m && forall x :: x in m ==> a <= x
  {
    var a := LeastIn(m);
  }

  lemma LeastIs(m: multiset<nat>, a: nat)
    requires a in m && forall x :: x in m ==> a <= x
    ensures LeastOf(m) == a
  {
  }

  /** Without the least weight. */
  ghost function Rest(m: multiset<nat>): (r: multiset<nat>)
    requires m != multiset{}
    ensures |r| == |m| - 1
  {
    m - multiset{LeastOf(m)}
  }

  /** Joining the two least weights until one is left, each time at the cost of their sum. */
  ghost function Huffman(m: multiset<nat>): nat
    decreases |m|
  {
    if |m| < 2 then 0
    else
      var sum := LeastOf(m) + LeastOf(Rest(m));
      sum + Huffman(Rest(Rest(m)) + multiset{sum})
  }

  // ----- no code costs less -----

  datatype Item = Item(weight: nat, length: nat)

  predicate Fits(s: seq<Item>, size: nat) {
    forall i :: 0 <= i < |s| ==> s[i].length <= size
  }

  function Bits(s: seq<Item>): nat {
    if s == [] then 0 else Bits(s[..|s| - 1]) + Cost(s[|s| - 1].length, s[|s| - 1].weight)
  }

  /** The part of the words of `size` bits that the items' words take. */
  function Room(s: seq<Item>, size: nat): nat
    requires Fits(s, size)
  {
    if s == [] then 0 else Room(s[..|s| - 1], size) + Pow2(size - s[|s| - 1].length)
  }

  function Weights(s: seq<Item>): (m: multiset<nat>)
    ensures |m| == |s|
  {
    if s == [] then multiset{} else Weights(s[..|s| - 1]) + multiset{s[|s| - 1].weight}
  }

  function Cut(s: seq<Item>, i: nat): seq<Item>
    requires i < |s|
  {
    s[..i] + s[i + 1..]
  }

  lemma {:induction false} CutOut(s: seq<Item>, i: nat, size: nat)
    requires i < |s| && Fits(s, size)
    ensures Fits(Cut(s, i), size) && Bits(s) == Bits(Cut(s, i)) + Cost(s[i].length, s[i].weight)
    ensures Room(s, size) == Room(Cut(s, i), size) + Pow2(size - s[i].length)
    ensures Weights(s) == Weights(Cut(s, i)) + multiset{s[i].weight}
  {
    hide Cost;
    var n := |s| - 1;
    if i < n {
      CutOut(s[..n], i, size);
      assert Cut(s, i)[..n - 1] == Cut(s[..n], i);
    } else {
      assert Cut(s, i) == s[..n];
    }
  }

  lemma {:induction false} WeightAt(s: seq<Item>, a: nat) returns (i: nat)
    requires a in Weights(s)
    ensures i < |s| && s[i].weight == a
  {
    i := |s| - 1;
    if s[i].weight != a {
      i := WeightAt(s[..i], a);
    }
  }

  lemma {:induction false} Longest(s: seq<Item>) returns (i: nat)
    requires s != []
    ensures i < |s| && Fits(s, s[i].length)
  {
    var n := |s| - 1;
    i := n;
    if n > 0 {
      var j := Longest(s[..n]);
      i := if s[j].length < s[n].length then n else j;
      assert forall k :: 0 <= k < n ==> s[k] == s[..n][k];
    }
  }

  /** The heavier of two items may as well have the shorter word. */
  lemma SwapCost(v: nat, w: nat, k: nat, l: nat)
    requires v <= w && k <= l
    ensures Cost(l, v) + Cost(k, w) <= Cost(k, v) + Cost(l, w)
  {
    assert (l - k) * (w - v) >= 0;
    assert (l - k) * (w - v) == l * w - l * v - k * w + k * v;
  }

  /** The lightest item may as well have the longest word. */
  lemma TakeLightest(s: seq<Item>, size: nat) returns (r: seq<Item>, l: nat)
    requires s != [] && Fits(s, size)
    ensures l <= size && Fits(r, l) && Fits(r, size) && |r| == |s| - 1
    ensures |Weights(s)| == |s| && Weights(r) == Rest(Weights(s))
    ensures Bits(r) + Cost(l, LeastOf(Weights(s))) <= Bits(s)
    ensures Room(r, size) + Pow2(size - l) == Room(s, size)
  {
    hide Cost, Bits, Room, Weights, LeastOf;
    assert Weights(s) != multiset{};
    var a := LeastOf(Weights(s));
    var i := WeightAt(s, a);
    CutOut(s, i, size);
    r, l := Cut(s, i), s[i].length;
    if !Fits(r, l) {
      var m := Longest(r);
      CutOut(r, m, size);
      var t := r[m := Item(r[m].weight, l)];
      CutOut(t, m, size);
      assert Cut(t, m) == Cut(r, m);
      assert r[m].weight in Weights(s);
      SwapCost(a, r[m].weight, l, r[m].length);
      l := r[m].length;
      r := t;
    }
  }

  lemma PowPlus(a: nat, b: nat)
    ensures Pow2(a + b) == Pow2(a) * Pow2(b)
  {
    PowSplit(a, b);
  }

  lemma {:induction false} RoomScales(s: seq<Item>, size: nat, l: nat)
    requires l <= size && Fits(s, l)
    ensures Fits(s, size) && Room(s, size) == Room(s, l) * Pow2(size - l)
  {
    if s != [] {
      var n := |s| - 1;
      RoomScales(s[..n], size, l);
      PowPlus(l - s[n].length, size - l);
      MulDistributes(Room(s[..n], l), Pow2(l - s[n].length), Pow2(size - l));
    }
  }

  lemma MulDistributes(a: nat, b: nat, c: nat)
    ensures (a + b) * c == a * c + b * c
  {
  }

  /** Room beside an item of the longest length. */
  lemma RoomBeside(s: seq<Item>, size: nat, l: nat, more: nat)
    requires l <= size && Fits(s, l) && Fits(s, size)
    requires Room(s, size) + Pow2(size - l) * more <= Pow2(size)
    ensures Room(s, l) + more <= Pow2(l)
  {
    hide Room, Pow2, Fits;
    RoomScales(s, size, l);
    PowPlus(l, size - l);
    var x, p := Room(s, l), Pow2(size - l);
    MulDistributes(x, more, p);
    assert (x + more) * p == x * p + p * more;
    MulCancel(x + more, Pow2(l), p);
  }

  /** One item fewer, and the cost of a join. */
  lemma JoinItems(s: seq<Item>, size: nat) returns (u: seq<Item>, l: nat, sum: nat)
    requires |s| >= 2 && Fits(s, size) && Room(s, size) <= Pow2(size)
    ensures |u| == |s| - 1 && Fits(u, l) && Room(u, l) <= Pow2(l)
    ensures Bits(s) >= sum + Bits(u) && Huffman(Weights(s)) == sum + Huffman(Weights(u))
  {
    hide Cost, Bits, Room, Weights, LeastOf, Rest, Fits, Pow2;
    var t, k := TakeLightest(s, size);
    RoomBeside(t, size, k, 1);
    var r;
    r, l := TakeLightest(t, k);
    var a, b := LeastOf(Weights(s)), LeastOf(Weights(t));
    Beside(r, k, l);
    MergeItems(r, l, a, b);
    u, sum := r + [Item(a + b, l - 1)], a + b;
    MoreCost(a, b, k, l);
  }

  /** No lengths that leave room for a prefix code cost less than joining the two least weights. */
  lemma {:induction false} Lower(s: seq<Item>, size: nat)
    requires Fits(s, size) && Room(s, size) <= Pow2(size)
    ensures Bits(s) >= Huffman(Weights(s))
    decreases |s|
  {
    hide Bits, Room, Weights, Fits, Pow2;
    if |s| >= 2 {
      hide Huffman;
      var u, l, sum := JoinItems(s, size);
      Lower(u, l);
    }
  }

  /** Two items of the longest length. */
  lemma Beside(r: seq<Item>, k: nat, l: nat)
    requires l <= k && Fits(r, l) && Fits(r, k) && Room(r, k) + Pow2(k - l) + 1 <= Pow2(k)
    ensures l > 0 && Room(r, l) + 2 <= Pow2(l)
  {
    RoomScales(r, k, l);
    PowPlus(l, k - l);
    var p, q, x := Pow2(k - l), Pow2(l), Room(r, l);
    assert x * p + p + 1 <= q * p;
    MulDistributes(x, 1, p);
    if q <= x + 1 {
      MulLe(q, x + 1, p);
    }
    assert Pow2(0) == 1;
  }

  /** Two items of one length become one of their weight and a bit less. */
  lemma MergeItems(r: seq<Item>, l: nat, a: nat, b: nat)
    requires l > 0 && Fits(r, l) && Room(r, l) + 2 <= Pow2(l)
    ensures var u := r + [Item(a + b, l - 1)];
            && Fits(u, l) && Room(u, l) <= Pow2(l) && Weights(u) == Weights(r) + multiset{a + b}
            && Bits(u) == Bits(r) + Cost(l - 1, a + b)
  {
    var u := r + [Item(a + b, l - 1)];
    assert u[..|r|] == r;
    assert Pow2(1) == 2 * Pow2(0);
    hide Cost;
  }

  lemma MoreCost(a: nat, b: nat, k: nat, l: nat)
    requires 0 < l <= k
    ensures Cost(k, a) + Cost(l, b) >= Cost(l - 1, a + b) + a + b
  {
    MulLe(l, k, a);
    assert (l - 1) * (a + b) == l * a + l * b - a - b;
  }

  // ----- lengths of symbols as items -----

  /** The symbols that have a weight. */
  function ItemsOf(w: seq<nat>, clen: seq<nat>): seq<Item>
    requires |clen| == |w|
  {
    if w == [] then []
    else
      var n := |w| - 1;
      ItemsOf(w[..n], clen[..n]) + if w[n] != 0 then [Item(w[n], clen[n])] else []
  }

  /** The weights that are not zero. */
  function Positive(w: seq<nat>): multiset<nat> {
    if w == [] then multiset{}
    else Positive(w[..|w| - 1]) + if w[|w| - 1] != 0 then multiset{w[|w| - 1]} else multiset{}
  }

  lemma CostNothing(length: nat)
    ensures Cost(length, 0) == 0
  {
  }

  lemma {:induction false} ItemsCost(w: seq<nat>, clen: seq<nat>)
    requires |clen| == |w|
    ensures Bits(ItemsOf(w, clen)) == TotalBits(w, clen) && Weights(ItemsOf(w, clen)) == Positive(w)
  {
    hide Cost;
    if w != [] {
      var n := |w| - 1;
      ItemsCost(w[..n], clen[..n]);
      CostNothing(clen[n]);
      if w[n] != 0 {
        assert ItemsOf(w, clen)[..|ItemsOf(w[..n], clen[..n])|] == ItemsOf(w[..n], clen[..n]);
      } else {
        assert ItemsOf(w, clen) == ItemsOf(w[..n], clen[..n]);
      }
    }
  }

  lemma RoomSnoc(s: seq<Item>, x: Item, size: nat)
    requires Fits(s, size) && x.length <= size
    ensures Fits(s + [x], size) && Room(s + [x], size) == Room(s, size) + Pow2(size - x.length)
  {
    assert (s + [x])[..|s|] == s;
  }

  lemma {:induction false} ItemsRoom(w: seq<nat>, clen: seq<nat>, l: nat)
    requires |clen| == |w| && forall i :: 0 <= i < |w| ==> clen[i] <= l && (w[i] != 0 ==> clen[i] > 0)
    ensures Fits(ItemsOf(w, clen), l) && Room(ItemsOf(w, clen), l) <= Sum(clen, l)
  {
    hide Room, Pow2, Fits;
    if w == [] {
      NoRoom(l);
    } else {
      var n := |w| - 1;
      ItemsRoom(w[..n], clen[..n], l);
      if w[n] != 0 {
        RoomSnoc(ItemsOf(w[..n], clen[..n]), Item(w[n], clen[n]), l);
      } else {
        assert ItemsOf(w, clen) == ItemsOf(w[..n], clen[..n]);
      }
    }
  }

  lemma NoRoom(l: nat)
    ensures Fits([], l) && Room([], l) == 0
  {
  }

  /** A code that costs what the joining costs is a shortest one. */
  lemma ShortestIf(w: seq<nat>, clen: seq<nat>)
    requires |clen| == |w| && TotalBits(w, clen) == Huffman(Positive(w))
    ensures Shortest(w, clen)
  {
    forall other: seq<nat>, l: nat | CodeFor(w, other, l) ensures TotalBits(w, clen) <= TotalBits(w, other) {
      ItemsCost(w, other);
      ItemsRoom(w, other, l);
      UsedIsSum(other, l);
      Lower(ItemsOf(w, other), l);
    }
  }

  // ----- the forest -----

  function Root(e: Heapen): multiset<nat> {
    if e.parent == 0 && e.freq != 0 then multiset{e.freq} else multiset{}
  }

  /** The weights of the trees. */
  function Roots(es: seq<Heapen>): multiset<nat> {
    if es == [] then multiset{} else Roots(es[..|es| - 1]) + Root(es[|es| - 1])
  }

  lemma MoreRoots(a: multiset<nat>, x: multiset<nat>, b: multiset<nat>, y: multiset<nat>, r: multiset<nat>)
    requires a + x == b + y
    ensures a + r + x == b + r + y
  {
    assert a + r + x == a + x + r && b + r + y == b + y + r;
  }

  lemma {:induction false} RootsUpdate(es: seq<Heapen>, i: nat, e: Heapen)
    requires i < |es|
    ensures Roots(es[i := e]) + Root(es[i]) == Roots(es) + Root(e)
  {
    var n := |es| - 1;
    if i < n {
      assert es[i := e][..n] == es[..n][i := e];
      RootsUpdate(es[..n], i, e);
      MoreRoots(Roots(es[..n][i := e]), Root(es[i]), Roots(es[..n]), Root(e), Root(es[n]));
    } else {
      assert es[i := e][..n] == es[..n];
    }
  }

  lemma {:induction false} RootAt(es: seq<Heapen>, y: nat) returns (x: nat)
    requires y in Roots(es)
    ensures x < |es| && es[x].freq == y != 0 && es[x].parent == 0
  {
    x := |es| - 1;
    if y !in Root(es[x]) {
      x := RootAt(es[..x], y);
    }
  }

  lemma RootGone(es: seq<Heapen>, x: nat, p: nat)
    requires Active(es, x) && p != 0
    ensures es[x].freq in Roots(es) && Roots(es[x := es[x].(parent := p)]) == Roots(es) - multiset{es[x].freq}
  {
    hide Roots;
    RootsUpdate(es, x, es[x].(parent := p));
    assert Roots(es[x := es[x].(parent := p)]) + multiset{es[x].freq} == Roots(es);
  }

  /** The least weight is that of the lightest tree. */
  lemma LightestRoot(es: seq<Heapen>, a: nat, p: nat)
    requires es != [] && es[0].freq == 0 && Active(es, a) && p != 0
    requires forall x: nat :: Active(es, x) ==> es[a].freq <= es[x].freq
    ensures Roots(es) != multiset{} && LeastOf(Roots(es)) == es[a].freq
    ensures Roots(es[a := es[a].(parent := p)]) == Rest(Roots(es))
  {
    hide Roots;
    RootGone(es, a, p);
    forall y | y in Roots(es) ensures es[a].freq <= y {
      var x := RootAt(es, y);
      assert Active(es, x);
    }
    LeastIs(Roots(es), es[a].freq);
  }

  /** Joining the two lightest trees joins the two least weights. */
  lemma JoinRoots(es: seq<Heapen>, a: nat, b: nat)
    requires es != [] && es[0].freq == 0 && Active(es, a) && Active(es, b) && a != b && es[a].freq <= es[b].freq
    requires forall x: nat :: Active(es, x) && x != a ==> es[b].freq <= es[x].freq
    ensures var m, fa, fb := Roots(es), es[a].freq, es[b].freq;
            && |m| >= 2 && LeastOf(m) == fa && LeastOf(Rest(m)) == fb
            && Roots(Join(es, a, b)) == Rest(Rest(m)) + multiset{fa + fb}
  {
    hide Roots, LeastOf, Rest, Root;
    var e1 := es[a := es[a].(parent := |es|)];
    var e2 := e1[b := es[b].(parent := |es|)];
    LightestRoot(es, a, |es|);
    assert forall x: nat :: Active(e1, x) ==> Active(es, x) && x != a;
    LightestRoot(e1, b, |es|);
    assert e1[b].freq == es[b].freq;
    LastRoot(e2, Heapen(1 + Max(es[a].depth, es[b].depth), es[a].freq + es[b].freq, 0));
  }

  lemma LastRoot(es: seq<Heapen>, e: Heapen)
    ensures Roots(es + [e]) == Roots(es) + Root(e)
    ensures e.parent == 0 && e.freq != 0 ==> Root(e) == multiset{e.freq}
  {
    assert (es + [e])[..|es|] == es;
  }

  /** The weights of the nodes from n on. */
  function Inner(es: seq<Heapen>, n: nat): nat
    decreases |es| - n
  {
    if n >= |es| then 0 else es[n].freq + Inner(es, n + 1)
  }

  lemma {:induction false} InnerSnoc(es: seq<Heapen>, fs: seq<Heapen>, n: nat)
    requires n <= |es| && |fs| == |es| + 1 && forall x :: 0 <= x < |es| ==> fs[x].freq == es[x].freq
    ensures Inner(fs, n) == Inner(es, n) + fs[|es|].freq
    decreases |es| - n
  {
    if n < |es| {
      InnerSnoc(es, fs, n + 1);
    } else {
      assert Inner(fs, n + 1) == 0;
    }
  }

  /** Every node made weighs what its children weigh; and what is left to join costs what is missing. */
  ghost predicate Merged(w: seq<nat>, es: seq<Heapen>, asize: nat, kids: seq<(nat, nat)>) {
    && |es| == asize + 1 + |kids| && (forall k :: 0 <= k < |kids| ==> Adds(es, asize + 1 + k, kids[k].0, kids[k].1))
    && Huffman(Roots(es)) + Inner(es, asize + 1) == Huffman(Positive(w))
  }

  predicate Adds(es: seq<Heapen>, m: nat, c: nat, d: nat) {
    m < |es| && c < |es| && d < |es| && es[m].freq == es[c].freq + es[d].freq
  }

  lemma MergedStep(w: seq<nat>, es: seq<Heapen>, asize: nat, kids: seq<(nat, nat)>, a: nat, b: nat)
    requires Merged(w, es, asize, kids)
    requires es[0].freq == 0 && Active(es, a) && Active(es, b) && a != b && es[a].freq <= es[b].freq
    requires forall x: nat :: Active(es, x) && x != a ==> es[b].freq <= es[x].freq
    ensures Merged(w, Join(es, a, b), asize, kids + [(a, b)])
  {
    hide Roots, Inner, LeastOf, Rest;
    var j, ks := Join(es, a, b), kids + [(a, b)];
    JoinRoots(es, a, b);
    InnerSnoc(es, j, asize + 1);
    forall k | 0 <= k < |ks| ensures Adds(j, asize + 1 + k, ks[k].0, ks[k].1) {
      if k < |kids| {
        assert Adds(es, asize + 1 + k, kids[k].0, kids[k].1);
      }
    }
  }

  /** Leaves only: nothing is joined yet. */
  lemma {:induction false} BareRoots(es: seq<Heapen>, w: seq<nat>)
    requires |es| == |w| + 1 && es[0].freq == 0
    requires forall x :: 1 <= x < |es| ==> es[x].parent == 0 && es[x].freq == w[x - 1]
    ensures Roots(es) == Positive(w)
  {
    var n := |w|;
    if n > 0 {
      BareRoots(es[..n], w[..n - 1]);
    } else {
      assert es[..0] == [] && Roots(es) == Roots(es[..0]) + Root(es[0]);
    }
  }

  lemma MergedStart(w: seq<nat>, es: seq<Heapen>)
    requires |es| == |w| + 1 && es[0].freq == 0
    requires forall x :: 1 <= x < |es| ==> es[x].parent == 0 && es[x].freq == w[x - 1]
    ensures Merged(w, es, |w|, [])
  {
    BareRoots(es, w);
  }

  // ----- weight times depth -----

  function Load(es: seq<Heapen>, asize: nat, x: nat): nat
    requires x < |es| && forall x :: 0 <= x < |es| ==> Up(es, asize, x)
  {
    Cost(Hops(es, asize, x), es[x].freq)
  }

  /** The costs of the nodes below k whose parents are not below n. */
  function Loads(es: seq<Heapen>, asize: nat, n: nat, k: nat): nat
    requires k <= |es| && forall x :: 0 <= x < |es| ==> Up(es, asize, x)
  {
    if k == 0 then 0 else Loads(es, asize, n, k - 1) + if OnTop(es, n, k - 1) then Load(es, asize, k - 1) else 0
  }

  lemma {:induction false} LoadsSingle(es: seq<Heapen>, asize: nat, root: nat, k: nat)
    requires k <= |es| && (forall x :: 0 <= x < |es| ==> Up(es, asize, x)) && Single(es, root) && es[0].freq == 0
    ensures Loads(es, asize, |es|, k) == 0 && (forall x :: 0 <= x < k && x != root ==> Root(es[x]) == multiset{})
    ensures |Roots(es[..k])| <= 1
  {
    if k > 0 {
      LoadsSingle(es, asize, root, k - 1);
      assert es[..k][..k - 1] == es[..k - 1];
      assert Up(es, asize, k - 1);
      assert OnTop(es, |es|, k - 1) <==> Active(es, k - 1);
      if k - 1 == root {
        RootsNone(es[..k - 1]);
      }
    }
  }

  lemma {:induction false} RootsNone(es: seq<Heapen>)
    requires forall x :: 0 <= x < |es| ==> Root(es[x]) == multiset{}
    ensures Roots(es) == multiset{}
  {
    if es != [] {
      RootsNone(es[..|es| - 1]);
    }
  }

  /** Taking m away from the parents that count brings in its two children. */
  lemma {:induction false} LoadsStep(es: seq<Heapen>, asize: nat, m: nat, c: nat, d: nat, k: nat)
    requires k <= m < |es| && (forall x :: 0 <= x < |es| ==> Up(es, asize, x)) && Kids(es, m, c, d)
    ensures Loads(es, asize, m, k) == Loads(es, asize, m + 1, k)
              + (if c < k then Load(es, asize, c) else 0) + (if d < k then Load(es, asize, d) else 0)
  {
    hide Load;
    if k > 0 {
      LoadsStep(es, asize, m, c, d, k - 1);
    }
  }

  lemma ChildLoads(es: seq<Heapen>, asize: nat, m: nat, c: nat, d: nat)
    requires m < |es| && (forall x :: 0 <= x < |es| ==> Up(es, asize, x)) && Kids(es, m, c, d) && Adds(es, m, c, d)
    ensures Load(es, asize, c) + Load(es, asize, d) == Load(es, asize, m) + es[m].freq
  {
    assert es[c].parent == m && es[d].parent == m;
    var h := Hops(es, asize, m);
    assert (h + 1) * es[c].freq + (h + 1) * es[d].freq == h * es[m].freq + es[m].freq;
  }

  lemma {:induction false} LoadsFull(es: seq<Heapen>, asize: nat, kids: seq<(nat, nat)>, root: nat, n: nat)
    requires Forest(es, asize, kids) && Single(es, root) && asize + 1 <= n <= |es|
    requires forall k :: 0 <= k < |kids| ==> Adds(es, asize + 1 + k, kids[k].0, kids[k].1)
    ensures Loads(es, asize, n, n) == Inner(es, n)
    decreases |es| - n
  {
    hide Load;
    if n == |es| {
      LoadsSingle(es, asize, root, n);
    } else {
      LoadsFull(es, asize, kids, root, n + 1);
      var k := n - asize - 1;
      var c, d := kids[k].0, kids[k].1;
      assert Kids(es, asize + 1 + k, c, d) && Adds(es, asize + 1 + k, c, d);
      LoadsStep(es, asize, n, c, d, n);
      ChildLoads(es, asize, n, c, d);
      assert Up(es, asize, n);
    }
  }

  lemma {:induction false} LoadsLeaves(es: seq<Heapen>, asize: nat, w: seq<nat>, clen: seq<nat>, k: nat)
    requires Lengths(es, asize, clen) && k <= asize == |w| && es[0].freq == 0
    requires forall i :: 0 <= i < asize ==> w[i] == es[i + 1].freq
    ensures Loads(es, asize, asize + 1, k + 1) == TotalBits(w[..k], clen[..k])
  {
    hide Cost;
    if k > 0 {
      LoadsLeaves(es, asize, w, clen, k - 1);
      assert w[..k][..k - 1] == w[..k - 1] && clen[..k][..k - 1] == clen[..k - 1];
      assert Up(es, asize, k);
      CostNothing(clen[k - 1]);
    } else {
      assert Loads(es, asize, asize + 1, 0) == 0;
    }
  }

  /** The depths of the leaves of the one tree are the lengths of a shortest code. */
  lemma TreeShortest(es: seq<Heapen>, asize: nat, kids: seq<(nat, nat)>, root: nat, w: seq<nat>, clen: seq<nat>)
    requires Forest(es, asize, kids) && Single(es, root) && Merged(w, es, asize, kids)
    requires Lengths(es, asize, clen) && |w| == asize && forall i :: 0 <= i < asize ==> w[i] == es[i + 1].freq
    ensures Shortest(w, clen)
  {
    hide Shortest, Loads, Inner, Up, TotalBits, Roots, Kids;
    LoadsFull(es, asize, kids, root, asize + 1);
    LoadsLeaves(es, asize, w, clen, asize);
    LoadsSingle(es, asize, root, |es|);
    assert es[..|es|] == es && w[..asize] == w && clen[..asize] == clen;
    ShortestIf(w, clen);
  }
}

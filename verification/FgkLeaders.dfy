/** Which position leads the block of a position, and how that changes when a node is counted.
    Between two symbols a block is a run of equal weights; while the weights are being counted up it
    may hold a node that is one ahead or not counted yet. */
module FgkLeaders {
  import opened FgkBlocks
  import opened FgkTree

  /** The weights by which the blocks are formed when x is about to be counted. */
  function Keys(v: Tree, x: int): (k: seq<nat>)
    requires Shape(v)
    ensures |k| == |v.w|
  {
    if v.zeros != [] && |v.up| >= 1 && 1 <= x <= 2 && v.w[x] == 0 then v.w[1 := 1][2 := 1]
    else if Skew(v, x) && v.Root() > 2 then v.w[1 := v.w[2]]
    else if v.zeros == [] && x == 0 && v.w[0] == 0 then v.w[0 := 1]
    else v.w
  }

  function Last(v: Tree, x: int, p: nat): (r: nat)
    requires Shape(v) && p <= v.Root()
    ensures p <= r <= v.Root()
  {
    if p == v.Root() then p
    else if p > 0 then LastEqual(Keys(v, x), p, v.Root())
    else if v.loose then 0
    else LastEqual(Keys(v, x), 1, v.Root())
  }

  function Lasts(v: Tree, x: int): (s: seq<nat>)
    requires Shape(v)
    ensures |s| == |v.lab| && forall p :: 0 <= p < |s| ==> s[p] == Last(v, x, p) <= v.Root()
  {
    seq(|v.lab|, p requires 0 <= p < |v.lab| => Last(v, x, p))
  }

  /** The positions whose nodes are in blocks: all but that of the unseen symbols. */
  ghost function On(v: Tree): (s: set<nat>)
    ensures forall p: nat :: p in s <==> (p > 0 || v.zeros == []) && p <= v.Root()
  {
    Range(v.Root() + 1) - if v.zeros == [] then {} else {0}
  }

  lemma {:induction false} LastIs(w: seq<nat>, p: nat, end: nat, r: nat)
    requires p <= r < end <= |w| && (forall i :: p <= i <= r ==> w[i] == w[p])
    requires r + 1 < end ==> w[r + 1] != w[r]
    ensures LastEqual(w, p, end) == r
    decreases r - p
  {
    if p < r {
      LastIs(w, p + 1, end, r);
    }
  }

  /** Equal keys over a stretch give equal leaders. */
  lemma LastSame(w: seq<nat>, w': seq<nat>, p: nat, end: nat)
    requires p < end <= |w| == |w'| && forall i :: p <= i < end ==> w[i] == w'[i]
    ensures LastEqual(w, p, end) == LastEqual(w', p, end)
  {
    LastIs(w', p, end, LastEqual(w, p, end));
  }

  /** Leaders lead themselves, and all positions between. */
  lemma LastBetween(v: Tree, x: int, p: nat, i: nat)
    requires Shape(v) && p <= v.Root() && p <= i <= Last(v, x, p) && (i > 0 || v.loose || |v.up| == 0)
    ensures Last(v, x, i) == Last(v, x, p)
  {
    var to := Last(v, x, p);
    if 0 < i < v.Root() {
      LastIs(Keys(v, x), i, v.Root(), to);
    }
  }

  /** A node that has a weight is led by its `Leader`. */
  lemma LastLeader(v: Tree, x: nat)
    requires Mid(v, x) && x < v.Root() && v.w[x] > 0
    ensures Last(v, x, x) == Leader(v, x)
  {
    LastSame(v.w, Keys(v, x), if x > 0 then x else 1, v.Root());
  }

  lemma LastSwap(v: Tree, p: nat)
    requires Mid(v, p) && p < v.Root()
    ensures var r := Swap(v, p, Target(v, p)); Shape(r) && Lasts(r, Target(v, p)) == Lasts(v, p)
  {
    var q := Target(v, p);
    var r := Swap(v, p, q);
    SwapOk(v, p);
    if q != p {
      LeaderWeight(v, p);
      assert Keys(r, q) == Keys(v, p) == v.w;
    } else {
      assert r.lab == v.lab && r.up == v.up;
      assert r == v;
    }
    forall i | 0 <= i <= v.Root() ensures Last(r, q, i) == Last(v, p, i) {
    }
  }

  /** The node at q keeps its block. */
  predicate Stays(v: Tree, q: nat)
    requires Shape(v) && q < v.Root()
  {
    v.w[q] == 0 || q == 0 || (q == 1 && v.zeros != [])
  }

  lemma LastStays(v: Tree, q: nat, p: nat)
    requires Mid(v, q) && q < v.Root() && CanGrow(v, q) && Stays(v, q) && p in On(v)
    ensures var r := Bump(v, q); Shape(r) && Last(r, r.up[q / 2], p) == Last(v, q, p)
  {
    var r, x := Bump(v, q), v.up[q / 2];
    BumpOk(v, q);
    assert v.zeros != [] ==> PairSum(v, q, 0);
    assert ParentOk(v, q / 2);
    PositiveAt(v, q, q);
    if v.Root() == 2 && p == 1 {
      LastIs(Keys(v, q), 1, 2, 1);
      LastIs(Keys(r, x), 1, 2, 1);
    } else if 0 < p < v.Root() {
      LastSame(Keys(v, q), Keys(r, x), p, v.Root());
    } else if p == 0 && !r.loose {
      LastSame(Keys(v, q), Keys(r, x), 1, v.Root());
    }
  }

  /** The parent of the unseen symbols, whose right child was counted before it. */
  lemma LastSkew(v: Tree, p: nat)
    requires Mid(v, 2) && 2 < v.Root() && v.zeros != [] && v.w[2] > 0 && p in On(v)
    ensures var r := Bump(v, 2);
            && Shape(r) && 3 < v.Root() && Last(v, 2, 1) == Last(v, 2, 2) == 2 && (p > 2 ==> Last(v, 2, p) > 2)
            && Last(r, r.up[1], p) == if p > 2 then Last(v, 2, p) else if v.w[3] == v.w[2] + 1 then Last(v, 2, 3) else 2
  {
    var r := Bump(v, 2);
    assert CanGrow(v, 2) by { TargetGrows(v, 2); LeaderWeight(v, 2); }
    BumpOk(v, 2);
    assert ParentOk(v, 1) && PairSum(v, 2, 0);
    LastIs(Keys(v, 2), 1, v.Root(), 2);
    if 2 < p < v.Root() {
      LastSame(Keys(v, 2), Keys(r, r.up[1]), p, v.Root());
    } else if p <= 2 {
      assert Keys(r, r.up[1]) == r.w;
      LastSame(Keys(v, 2), r.w, 3, v.Root());
      var to := if v.w[3] == v.w[2] + 1 then Last(v, 2, 3) else 2;
      LastIs(r.w, p, v.Root(), to);
    }
  }

  /** The node at q leads its block. */
  lemma LastLeads(v: Tree, q: nat, p: nat)
    requires Mid(v, q) && q < v.Root() && CanGrow(v, q) && !Stays(v, q) && !Skew(v, q) && p in On(v)
    ensures Last(v, q, q) == q && (p != q && Last(v, q, p) == q - 1 ==> Last(v, q, q - 1) != q)
  {
    hide LastEqual, CanGrow, Stays, Keys, Named, Sum, Sorted, Positive, LooseOk;
    MovesKeys(v, q);
    LastBump(v.w, q, q, v.Root());
    if 0 < p < v.Root() {
      LastBump(v.w, q, p, v.Root());
    }
    if q > 1 {
      LastBump(v.w, q, q - 1, v.Root());
    }
  }

  /** The leader at q goes on to the next block, or to one of its own. */
  function Moved(v: Tree, q: nat, p: nat): nat
    requires Shape(v) && q < v.Root() && p <= v.Root()
  {
    if p == q then (if q + 1 < v.Root() && v.w[q + 1] == v.w[q] + 1 then Last(v, q, q + 1) else q)
    else if Last(v, q, p) == q then q - 1 else Last(v, q, p)
  }

  lemma LastMoves(v: Tree, q: nat, p: nat)
    requires Mid(v, q) && q < v.Root() && CanGrow(v, q) && !Stays(v, q) && !Skew(v, q) && p in On(v)
    ensures var r := Bump(v, q); Shape(r) && q / 2 < |r.up| && Last(r, r.up[q / 2], p) == Moved(v, q, p)
  {
    hide LastEqual, CanGrow, Stays, Keys, Named, Sum, Sorted, Positive, LooseOk;
    MovesKeys(v, q);
    var start := if p == 0 then 1 else p;
    if p == v.Root() {
    } else {
      LastBump(v.w, q, start, v.Root());
    }
  }

  lemma MovesKeys(v: Tree, q: nat)
    requires Mid(v, q) && q < v.Root() && CanGrow(v, q) && !Stays(v, q) && !Skew(v, q)
    ensures var r := Bump(v, q); Shape(r) && q / 2 < |r.up| && Keys(v, q) == v.w && Keys(r, r.up[q / 2]) == r.w
    ensures q >= 1 && (forall i :: 1 <= i <= q ==> v.w[i] <= v.w[q]) && (q + 1 < v.Root() ==> v.w[q] < v.w[q + 1])
    ensures q == 1 ==> Bump(v, q).loose
  {
    BumpOk(v, q);
    assert ParentOk(v, q / 2);
  }

  /** One more for the last of a run of equal weights. */
  lemma LastBump(w: seq<nat>, q: nat, p: nat, end: nat)
    requires 1 <= p < end <= |w| && 1 <= q < end && forall i :: 1 <= i <= q ==> w[i] <= w[q]
    requires q + 1 < end ==> w[q] < w[q + 1]
    ensures LastEqual(w, q, end) == q && (p != q ==> LastEqual(w, p, end) != q - 1 || w[q - 1] != w[q])
    ensures LastEqual(w[q := w[q] + 1], p, end) ==
            if p == q then (if q + 1 < end && w[q + 1] == w[q] + 1 then LastEqual(w, q + 1, end) else q)
            else if LastEqual(w, p, end) == q then q - 1 else LastEqual(w, p, end)
  {
    var w', to := w[q := w[q] + 1], LastEqual(w, p, end);
    LastIs(w, q, end, q);
    if p == q {
      LastIs(w', q, end, if q + 1 < end && w[q + 1] == w[q] + 1 then LastEqual(w, q + 1, end) else q);
    } else if to == q {
      LastIs(w', p, end, q - 1);
    } else {
      LastIs(w', p, end, to);
    }
  }

  lemma LastRoot(v: Tree, p: nat)
    requires Mid(v, v.Root()) && p in On(v)
    ensures var r := Bump(v, v.Root()); Shape(r) && Last(r, -1, p) == Last(v, v.Root(), p)
  {
    var r := Bump(v, v.Root());
    RootOk(v);
    assert v.zeros != [] && |v.up| >= 1 ==> PairSum(v, v.Root(), 0);
    if 0 < p < v.Root() {
      LastSame(Keys(v, v.Root()), Keys(r, -1), p, v.Root());
    } else if p == 0 {
      LastSame(Keys(v, v.Root()), Keys(r, -1), 1, v.Root());
    }
  }

  lemma LastLeaf(v: Tree, x: nat, p: nat)
    requires Valid(v) && Mid(v, x) && x < v.Root() && x !in v.up && v.w[x] > 0 && p in On(v)
    ensures Last(v, x, p) == Last(v, -1, p)
  {
    assert Keys(v, x) == v.w;
  }

  lemma {:induction false} LastShift(w: seq<nat>, w': seq<nat>, p: nat, end: nat, d: nat)
    requires p < end <= |w| && end + d <= |w'| && forall i :: p <= i < end ==> w'[i + d] == w[i]
    ensures LastEqual(w', p + d, end + d) == LastEqual(w, p, end) + d
  {
    var to := LastEqual(w, p, end);
    forall i | p + d <= i <= to + d ensures w'[i] == w'[p + d] {
      assert w'[(i - d) + d] == w[i - d];
    }
    LastIs(w', p + d, end + d, to + d);
  }

  /** A new symbol: the nodes further to the right keep their blocks. */
  lemma LastGrows(v: Tree, n: nat, p: nat)
    requires Valid(v) && n in v.zeros && |v.zeros| > 1 && p in On(v)
    ensures Shape(Insert(v, n)) && Last(Insert(v, n), 1, p + 2) == Last(v, -1, p) + 2
  {
    var r := Insert(v, n);
    InsertOk(v, n);
    if p < v.Root() {
      LastShift(Keys(v, -1), Keys(r, 1), p, v.Root(), 2);
    }
  }

  /** The new symbol and its parent share a block, with the nodes of weight one if there are any;
      the very first symbol and the root do not. */
  lemma LastNew(v: Tree, n: nat)
    requires Valid(v) && n in v.zeros && |v.zeros| > 1
    ensures var r := Insert(v, n);
            && Shape(r) && r.Root() >= 2
            && Last(r, 1, 2) == (if r.Root() > 2 && r.w[3] == 1 then Last(r, 1, 3) else 2)
            && Last(r, 1, 1) == (if r.Root() > 2 then Last(r, 1, 2) else 1)
            && (v.up == [] <==> r.Root() == 2) && (r.Root() > 2 ==> r.Root() > 3)
  {
    var r := Insert(v, n);
    InsertOk(v, n);
    if r.Root() > 2 {
      var to := if r.w[3] == 1 then Last(r, 1, 3) else 2;
      LastIs(Keys(r, 1), 2, r.Root(), to);
      LastIs(Keys(r, 1), 1, r.Root(), to);
    }
  }

  /** The last symbol joins the nodes of weight one, if there are any. */
  lemma LastOfAll(v: Tree, n: nat, p: nat)
    requires Valid(v) && n in v.zeros && |v.zeros| == 1
    ensures var r := Insert(v, n);
            && Shape(r) && r.Root() >= 2 && (p in On(v) ==> Last(r, 0, p) == Last(v, -1, p))
            && Last(r, 0, 0) == if v.w[1] == 1 then Last(v, -1, 1) else 0
  {
    var r := Insert(v, n);
    InsertOk(v, n);
    LastSame(Keys(v, -1), Keys(r, 0), 1, v.Root());
    if 0 < p < v.Root() {
      LastSame(Keys(v, -1), Keys(r, 0), p, v.Root());
    }
  }
}

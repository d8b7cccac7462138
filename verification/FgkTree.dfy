/** The adaptive Huffman tree of Baseline/third/xdelta/xdelta3-fgk.h as a value, listed by position.

    The nodes stand in one list from the lightest to the root, and the two children of a node are
    neighbours in it.  So the tree is known once each pair of neighbours names the position of its
    parent, and exchanging two subtrees is exchanging two positions.  `FgkStream` holds the same
    tree in linked nodes. */
module FgkTree {
  import opened Basics

  /** `lab` is the node at each position (a symbol, or `size` and above for an inner node), `up[j]`
      the parent of the positions 2j (its left child) and 2j + 1 (its right child), `w` the weights.
      `zeros` are the symbols not seen yet; the first of them stands at position 0.  Once all have
      been seen, `loose` says that the node at position 0 is no longer in a block with others. */
  datatype Tree = Tree(size: nat, lab: seq<nat>, up: seq<nat>, w: seq<nat>, zeros: seq<nat>, loose: bool) {
    function Root(): nat { 2 * |up| }
  }

  // ---------------------------------------------------------------- what holds of a tree

  /** Parents stand to the right of their children, and no node is parent of two pairs. */
  predicate Shape(v: Tree) {
    && |v.lab| == v.Root() + 1 == |v.w|
    && Distinct(v.up)
    && forall j :: 0 <= j < |v.up| ==> ParentOk(v, j)
  }

  predicate ParentOk(v: Tree, j: nat)
    requires j < |v.up|
  {
    2 * j + 1 < v.up[j] <= v.Root()
  }

  /** Inner nodes are numbered from `size`; every symbol is in the tree or not yet seen. */
  predicate Named(v: Tree) {
    && v.size >= 2
    && |v.lab| == v.Root() + 1 && |v.up| + Count(v) == v.size
    && Distinct(v.lab) && Distinct(v.zeros)
    && (forall p :: 0 <= p < |v.lab| ==> LabelOk(v, p))
    && (forall n :: 0 <= n < v.size ==> n in v.lab || n in v.zeros)
    && (forall i :: 0 <= i < |v.zeros| ==> v.zeros[i] < v.size && (v.zeros[i] in v.lab <==> i == 0))
    && (v.zeros != [] ==> v.zeros[0] == v.lab[0])
  }

  predicate LabelOk(v: Tree, p: nat)
    requires p < |v.lab|
  {
    v.lab[p] < v.size + |v.up| && (v.lab[p] < v.size <==> p !in v.up)
  }

  /** zero_freq_count, which stays one after the last symbol was seen */
  function Count(v: Tree): nat {
    if v.zeros == [] then 1 else |v.zeros|
  }

  /** The weight of a node is the sum of its children, but x, whose child was just counted, is
      one behind. */
  predicate PairSum(v: Tree, x: int, j: nat)
    requires Shape(v) && j < |v.up|
  {
    assert ParentOk(v, j);
    v.w[2 * j] + v.w[2 * j + 1] == v.w[v.up[j]] + if v.up[j] == x then 1 else 0
  }

  predicate Sum(v: Tree, x: int)
    requires Shape(v)
  {
    forall j :: 0 <= j < |v.up| ==> PairSum(v, x, j)
  }

  /** The parent of the unseen symbols is about to be counted after its right child, which was its
      equal. */
  predicate Skew(v: Tree, x: int) {
    v.zeros != [] && x == 2
  }

  /** Weights do not fall from position 1 up to the root. */
  predicate Sorted(v: Tree, x: int)
    requires Shape(v)
  {
    && (forall i, j :: 1 <= i <= j < v.Root() && !(Skew(v, x) && i == 1) ==> v.w[i] <= v.w[j])
    && (Skew(v, x) ==> forall j :: 3 <= j < v.Root() ==> v.w[2] < v.w[j])
  }

  predicate MayBeZero(v: Tree, x: int, i: nat)
    requires Shape(v) && i <= v.Root()
  {
    if v.zeros == [] then i == 0 == x
    else i == 0 || (i == x && i <= 2) || (i == 2 && x == 1 && v.w[1] == 0)
  }

  predicate Positive(v: Tree, x: int)
    requires Shape(v)
  {
    && (forall i :: 0 <= i <= v.Root() ==> v.w[i] > 0 || MayBeZero(v, x, i))
    && (v.zeros != [] ==> v.w[0] == 0 && x != 0)
  }

  predicate LooseOk(v: Tree, x: int)
    requires Shape(v)
  {
    v.zeros == [] ==>
      && |v.up| >= 1
      && (v.loose || v.w[0] == v.w[1] || (x == 0 && v.w[0] == 0 && v.w[1] == 1))
  }

  /** What holds when the node at position x is about to be counted; x is -1 between two symbols. */
  predicate Mid(v: Tree, x: int) {
    && Shape(v) && Named(v) && Sum(v, x) && Sorted(v, x) && Positive(v, x) && LooseOk(v, x)
    && -1 <= x <= v.Root()
    && (v.zeros != [] && |v.up| >= 1 ==> v.up[0] == 2)
  }

  predicate Valid(v: Tree) {
    Mid(v, -1)
  }

  // ---------------------------------------------------------------- fgk_update_tree

  /** The last of the equal weights from position p on, before the root. */
  function LastEqual(w: seq<nat>, p: nat, end: nat): (r: nat)
    requires p < end <= |w|
    ensures p <= r < end && (forall i :: p <= i <= r ==> w[i] == w[p])
    ensures r + 1 < end ==> w[r + 1] != w[r]
    decreases end - p
  {
    if p + 1 < end && w[p + 1] == w[p] then LastEqual(w, p + 1, end) else p
  }

  /** The leader of the block of position p. */
  function Leader(v: Tree, p: nat): (r: nat)
    requires Shape(v) && p < v.Root()
    ensures p <= r < v.Root()
  {
    if p > 0 then LastEqual(v.w, p, v.Root()) else if v.loose then 0 else LastEqual(v.w, 1, v.Root())
  }

  /** Where fgk_move_right puts the node at position p. */
  function Target(v: Tree, p: nat): (r: nat)
    requires Shape(v) && p < v.Root()
    ensures p <= r < v.Root()
  {
    if v.w[p] == 0 || Leader(v, p) == v.up[p / 2] then p else Leader(v, p)
  }

  function Other(i: nat, p: nat, q: nat): nat {
    if i == p then q else if i == q then p else i
  }

  /** The subtrees at p and q exchanged. */
  function Swap(v: Tree, p: nat, q: nat): (r: Tree)
    requires Shape(v) && p <= q < v.Root()
  {
    v.(lab := v.lab[p := v.lab[q]][q := v.lab[p]],
       up := seq(|v.up|, j requires 0 <= j < |v.up| => Other(v.up[j], p, q)))
  }

  /** One more for the node at q. */
  function Bump(v: Tree, q: nat): (r: Tree)
    requires Shape(v) && q <= v.Root()
  {
    v.(w := v.w[q := v.w[q] + 1], loose := v.loose || (v.zeros == [] && q == 1))
  }

  ghost function Step(v: Tree, p: nat): (r: Tree)
    requires Mid(v, p) && p < v.Root()
  {
    SwapOk(v, p);
    Bump(Swap(v, p, Target(v, p)), Target(v, p))
  }

  /** Counts the node at p and all above it. */
  ghost function Climb(v: Tree, p: nat): (r: Tree)
    requires Mid(v, p)
    ensures Valid(r) && r.size == v.size && r.zeros == v.zeros
    decreases v.Root() - p
  {
    if p == v.Root() then
      RootOk(v);
      Bump(v, p)
    else
      StepOk(v, p);
      Climb(Step(v, p), Step(v, p).up[Target(v, p) / 2])
  }

  /** fgk_increase_zero_weight: the symbol n leaves the unseen ones and stands at position 1, under
      a new parent which it shares with those; the last one takes their place. */
  function Insert(v: Tree, n: nat): (r: Tree)
    requires Named(v) && n in v.zeros && |v.w| == |v.lab|
  {
    if |v.zeros| == 1 then
      assert |v.up| >= 1;
      v.(zeros := [], loose := v.w[1] != 1)
    else
      var zeros := Without(v.zeros, n);
      WithoutOk(v.zeros, n);
      v.(zeros := zeros,
         lab := [zeros[0], n, v.size + |v.up|] + v.lab[1..],
         up := [2] + seq(|v.up|, j requires 0 <= j < |v.up| => v.up[j] + 2),
         w := [0, 0, 0] + v.w[1..])
  }

  function Start(v: Tree): nat {
    if |v.zeros| == 1 then 0 else 1
  }

  function Find(s: seq<nat>, n: nat): (i: nat)
    requires n in s
    ensures i < |s| && s[i] == n
  {
    if s[0] == n then 0 else 1 + Find(s[1..], n)
  }

  /** fgk_update_tree */
  ghost function Updated(v: Tree, n: nat): (r: Tree)
    requires Valid(v) && n < v.size
    ensures Valid(r) && r.size == v.size
    ensures r.zeros == if n in v.zeros then (if |v.zeros| == 1 then [] else Without(v.zeros, n)) else v.zeros
  {
    if n in v.zeros then
      InsertOk(v, n);
      Climb(Insert(v, n), Start(v))
    else
      LeafOk(v, n);
      Climb(v, Find(v.lab, n))
  }

  // ---------------------------------------------------------------- the invariant is kept

  lemma DistinctNodes(v: Tree)
    requires Named(v)
    ensures Distinct(v.lab) && Distinct(v.zeros)
  {
  }

  lemma RootIsParent(v: Tree)
    requires Shape(v) && |v.up| >= 1
    ensures v.Root() in v.up
  {
    assert ParentOk(v, |v.up| - 1);
  }

  lemma LeafOk(v: Tree, n: nat)
    requires Valid(v) && n < v.size && n !in v.zeros
    ensures Mid(v, Find(v.lab, n)) && Find(v.lab, n) < v.Root()
  {
    var p := Find(v.lab, n);
    assert LabelOk(v, p);
    if |v.up| >= 1 {
      RootIsParent(v);
    }
    assert v.zeros != [] ==> p != 0;
    assert |v.up| >= 1 ==> v.up[0] in v.up;
    forall j | 0 <= j < |v.up| ensures PairSum(v, p, j) {
      assert PairSum(v, -1, j) && v.up[j] in v.up;
    }
    forall i | 0 <= i <= v.Root() ensures v.w[i] > 0 || MayBeZero(v, p, i) {
      PositiveAt(v, -1, i);
    }
  }

  lemma BumpShape(v: Tree, q: nat)
    requires Shape(v) && Named(v) && q <= v.Root()
    ensures Shape(Bump(v, q)) && Named(Bump(v, q))
  {
    var r := Bump(v, q);
    forall j | 0 <= j < |r.up| ensures ParentOk(r, j) {
      assert ParentOk(v, j);
    }
    forall i | 0 <= i < |r.lab| ensures LabelOk(r, i) {
      assert LabelOk(v, i);
    }
  }

  lemma RootOk(v: Tree)
    requires Mid(v, v.Root())
    ensures Valid(Bump(v, v.Root()))
  {
    var r, x := Bump(v, v.Root()), v.Root();
    BumpShape(v, x);
    forall j | 0 <= j < |v.up| ensures PairSum(r, -1, j) {
      assert PairSum(v, x, j) && ParentOk(v, j);
    }
    forall i | 0 <= i <= v.Root() ensures r.w[i] > 0 || MayBeZero(r, -1, i) {
      PositiveAt(v, x, i);
    }
  }

  /** The leader of a block is an ancestor only as the parent of the unseen symbols. */
  lemma LeaderParent(v: Tree, p: nat)
    requires Mid(v, p) && p < v.Root() && v.w[p] > 0 && Leader(v, p) == v.up[p / 2]
    ensures v.zeros != [] && p == 1 && v.up[0] == 2
  {
    var j := p / 2;
    var sibling := if p % 2 == 0 then p + 1 else p - 1;
    assert PairSum(v, p, j) && ParentOk(v, j);
    assert v.w[sibling] == 0;
    assert MayBeZero(v, p, sibling);
  }

  /** A node left of its leader, which is not its parent, can change places with it: the children
      of the leader are lighter, so they stand further to the left. */
  lemma ChildrenLeft(v: Tree, p: nat, j: nat)
    requires Mid(v, p) && p < v.Root() && j < |v.up| && p < Target(v, p) == v.up[j]
    ensures 2 * j + 1 < p
  {
    var q := Target(v, p);
    assert PairSum(v, p, j) && ParentOk(v, j);
    LeaderWeight(v, p);
    PositiveAt(v, p, 2 * j);
    PositiveAt(v, p, 2 * j + 1);
  }

  lemma PositiveAt(v: Tree, x: int, i: nat)
    requires Shape(v) && Positive(v, x) && i <= v.Root()
    ensures v.w[i] == 0 ==> MayBeZero(v, x, i)
  {
    assert v.w[i] > 0 || MayBeZero(v, x, i);
  }

  lemma LeaderWeight(v: Tree, p: nat)
    requires Mid(v, p) && p < v.Root() && v.w[p] > 0
    ensures var q := Leader(v, p); v.w[q] == v.w[p]
    ensures var q := Leader(v, p); q >= 1 && q + 1 < v.Root() ==> v.w[q] < v.w[q + 1]
    ensures Skew(v, p) ==> Leader(v, p) == p
  {
  }

  lemma SwapOk(v: Tree, p: nat)
    requires Mid(v, p) && p < v.Root()
    ensures var r := Swap(v, p, Target(v, p)); Mid(r, Target(v, p)) && r.w == v.w
  {
    var q := Target(v, p);
    var r := Swap(v, p, q);
    if q == p {
      assert r.up == v.up && r.lab == v.lab && r == v;
    } else {
      LeaderWeight(v, p);
      SwapShape(v, p);
      SwapNamed(v, p);
      forall j | 0 <= j < |v.up| ensures PairSum(r, q, j) {
        assert PairSum(v, p, j) && ParentOk(v, j);
      }
      forall i | 0 <= i <= v.Root() ensures r.w[i] > 0 || MayBeZero(r, q, i) {
        PositiveAt(v, p, i);
      }
      assert v.zeros != [] ==> q != 2;
    }
  }

  lemma SwapShape(v: Tree, p: nat)
    requires Mid(v, p) && p < v.Root() && Target(v, p) != p
    ensures Shape(Swap(v, p, Target(v, p)))
  {
    var q := Target(v, p);
    var r := Swap(v, p, q);
    forall j | 0 <= j < |r.up| ensures ParentOk(r, j) {
      assert ParentOk(v, j);
      if v.up[j] == q {
        ChildrenLeft(v, p, j);
      }
    }
  }

  lemma SwapNamed(v: Tree, p: nat)
    requires Mid(v, p) && p < v.Root() && Target(v, p) != p
    ensures Named(Swap(v, p, Target(v, p)))
  {
    var q := Target(v, p);
    var r := Swap(v, p, q);
    forall i | 0 <= i < |r.lab| ensures r.lab[i] == v.lab[Other(i, p, q)] && LabelOk(r, i) {
      assert LabelOk(v, Other(i, p, q));
      SwapParent(v, p, q, i);
    }
    forall n ensures n in r.lab <==> n in v.lab {
      if n in v.lab {
        var i :| 0 <= i < |v.lab| && v.lab[i] == n;
        assert r.lab[Other(i, p, q)] == n;
      }
    }
  }

  lemma SwapParent(v: Tree, p: nat, q: nat, i: nat)
    requires Shape(v) && p <= q < v.Root()
    ensures i in Swap(v, p, q).up <==> Other(i, p, q) in v.up
  {
    var r := Swap(v, p, q);
    if i in r.up {
      var j :| 0 <= j < |r.up| && r.up[j] == i;
      assert v.up[j] == Other(i, p, q);
    }
    if Other(i, p, q) in v.up {
      var j :| 0 <= j < |r.up| && v.up[j] == Other(i, p, q);
      assert r.up[j] == i;
    }
  }

  /** The node at q can be counted without passing the next one. */
  predicate CanGrow(v: Tree, q: nat)
    requires Shape(v) && q < v.Root()
  {
    if q == 0 then v.zeros == [] && (v.loose || v.w[0] == 0)
    else if q == 1 && v.zeros != [] then forall j :: 3 <= j < v.Root() ==> v.w[2] < v.w[j]
    else q + 1 < v.Root() ==> v.w[q] < v.w[q + 1]
  }

  lemma TargetGrows(v: Tree, p: nat)
    requires Mid(v, p) && p < v.Root()
    ensures var q := Target(v, p); CanGrow(v, q)
  {
    var q := Target(v, p);
    if v.w[p] > 0 {
      LeaderWeight(v, p);
      if Leader(v, p) == v.up[p / 2] {
        LeaderParent(v, p);
      } else if q == 1 && v.zeros != [] {
        assert PairSum(v, p, 0);
      }
    } else {
      assert MayBeZero(v, p, p);
      forall j | 3 <= j < v.Root() ensures v.w[j] > 0 {
        PositiveAt(v, p, j);
      }
      if p == 1 && v.zeros != [] {
        assert PairSum(v, p, 0);
      }
    }
  }

  lemma BumpOk(v: Tree, q: nat)
    requires Mid(v, q) && q < v.Root() && CanGrow(v, q)
    ensures var r := Bump(v, q); q < v.up[q / 2] && Mid(r, r.up[q / 2])
  {
    var r, x := Bump(v, q), v.up[q / 2];
    BumpShape(v, q);
    assert ParentOk(v, q / 2);
    forall j | 0 <= j < |v.up| ensures PairSum(r, x, j) {
      assert PairSum(v, q, j) && ParentOk(v, j);
    }
    assert v.zeros != [] ==> PairSum(v, q, 0);
    forall i | 0 <= i <= v.Root() ensures r.w[i] > 0 || MayBeZero(r, x, i) {
      PositiveAt(v, q, i);
    }
  }

  lemma StepOk(v: Tree, p: nat)
    requires Mid(v, p) && p < v.Root()
    ensures var q := Target(v, p); Mid(Step(v, p), Step(v, p).up[q / 2]) && q < Step(v, p).up[q / 2]
  {
    SwapOk(v, p);
    TargetGrows(v, p);
    BumpOk(Swap(v, p, Target(v, p)), Target(v, p));
  }

  lemma GrowShape(v: Tree, n: nat)
    requires Valid(v) && n in v.zeros && |v.zeros| > 1
    ensures Shape(Insert(v, n)) && Insert(v, n).up[0] == 2
  {
    var r := Insert(v, n);
    WithoutOk(v.zeros, n);
    forall j | 0 <= j < |r.up| ensures ParentOk(r, j) {
      if j > 0 {
        assert ParentOk(v, j - 1);
      }
    }
    forall i, j | 0 <= i < j < |r.up| ensures r.up[i] != r.up[j] {
      assert ParentOk(v, j - 1);
    }
  }

  lemma GrowNamed(v: Tree, n: nat)
    requires Valid(v) && n in v.zeros && |v.zeros| > 1
    ensures Named(Insert(v, n))
  {
    var r := Insert(v, n);
    WithoutOk(v.zeros, n);
    var zeros := r.zeros;
    GrowLow(v, n);
    forall p | 0 <= p < |r.lab| ensures LabelOk(r, p) &&
        (p >= 3 ==> r.lab[p] != v.size + |v.up| && r.lab[p] !in v.zeros) {
      if p >= 3 {
        GrowHigh(v, n, p);
      }
    }
    forall k | 0 <= k < v.size ensures k in r.lab || k in zeros {
      GrowKeeps(v, n, k);
    }
    forall i | 0 <= i < |zeros| ensures zeros[i] < v.size && (zeros[i] in r.lab <==> i == 0) {
      assert zeros[i] in zeros && zeros[i] in v.zeros;
      assert r.lab[0] == zeros[0];
    }
    assert r.lab[3..] == v.lab[1..];
  }

  lemma GrowKeeps(v: Tree, n: nat, k: nat)
    requires Valid(v) && n in v.zeros && |v.zeros| > 1 && k < v.size
    ensures k in Insert(v, n).lab || k in Insert(v, n).zeros
  {
    var r := Insert(v, n);
    WithoutOk(v.zeros, n);
    if k == n {
      assert r.lab[1] == n;
    } else if k !in r.zeros {
      var p :| 0 <= p < |v.lab| && v.lab[p] == k;
      assert p > 0 && r.lab[p + 2] == k;
    }
  }

  lemma GrowHigh(v: Tree, n: nat, p: nat)
    requires Valid(v) && n in v.zeros && |v.zeros| > 1 && 3 <= p <= v.Root() + 2
    ensures var r := Insert(v, n); LabelOk(r, p) && r.lab[p] != v.size + |v.up| && r.lab[p] !in v.zeros
  {
    var r := Insert(v, n);
    WithoutOk(v.zeros, n);
    assert LabelOk(v, p - 2) && v.lab[p - 2] in v.lab && r.lab[p] == v.lab[p - 2];
    assert v.lab[p - 2] != v.lab[0];
    if p in r.up {
      var j :| 0 <= j < |r.up| && r.up[j] == p;
      assert v.up[j - 1] == p - 2;
    }
    if p - 2 in v.up {
      var j :| 0 <= j < |v.up| && v.up[j] == p - 2;
      assert r.up[j + 1] == p;
    }
  }

  lemma GrowLow(v: Tree, n: nat)
    requires Valid(v) && n in v.zeros && |v.zeros| > 1
    ensures var r := Insert(v, n); LabelOk(r, 0) && LabelOk(r, 1) && LabelOk(r, 2)
  {
    var r := Insert(v, n);
    WithoutOk(v.zeros, n);
    assert r.zeros[0] in r.zeros;
    assert r.up[0] == 2;
    forall j | 0 <= j < |r.up| ensures r.up[j] >= 2 {
    }
  }

  lemma GrowWeights(v: Tree, n: nat)
    requires Valid(v) && n in v.zeros && |v.zeros| > 1 && Shape(Insert(v, n))
    ensures var r := Insert(v, n); Sum(r, 1) && Sorted(r, 1) && Positive(r, 1) && LooseOk(r, 1)
  {
    var r := Insert(v, n);
    WithoutOk(v.zeros, n);
    forall j | 0 <= j < |r.up| ensures PairSum(r, 1, j) {
      if j > 0 {
        assert PairSum(v, -1, j - 1) && ParentOk(v, j - 1);
      }
    }
    forall i | 0 <= i <= r.Root() ensures r.w[i] > 0 || MayBeZero(r, 1, i) {
      if i >= 2 {
        PositiveAt(v, -1, i - 2);
      }
    }
  }

  lemma InsertOk(v: Tree, n: nat)
    requires Valid(v) && n in v.zeros
    ensures Mid(Insert(v, n), Start(v))
  {
    var r := Insert(v, n);
    if |v.zeros| > 1 {
      GrowShape(v, n);
      GrowNamed(v, n);
      GrowWeights(v, n);
    } else {
      assert n == v.zeros[0] == v.lab[0];
      forall j | 0 <= j < |v.up| ensures ParentOk(r, j) {
        assert ParentOk(v, j);
      }
      forall p | 0 <= p < |v.lab| ensures LabelOk(r, p) {
        assert LabelOk(v, p);
      }
      forall j | 0 <= j < |v.up| ensures PairSum(r, 0, j) {
        assert PairSum(v, -1, j) && ParentOk(v, j);
      }
      forall i | 0 <= i <= r.Root() ensures r.w[i] > 0 || MayBeZero(r, 0, i) {
        PositiveAt(v, -1, i);
      }
    }
  }
}

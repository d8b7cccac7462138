/** A new symbol in the links and blocks of Baseline/third/xdelta/xdelta3-fgk.h: what
    fgk_increase_zero_weight leaves behind is the tree with the symbol inserted. */
module FgkGrow {
  import opened Basics
  import opened BitStream
  import opened FgkBlocks
  import opened FgkLinks
  import opened FgkTree

  /** Where the pieces of the tree with the symbol n are. */
  lemma GrowShapeAt(v: Tree, n: nat)
    requires Valid(v) && n in v.zeros && |v.zeros| > 1
    ensures var r := Insert(v, n);
            && Shape(v) && Shape(r) && Named(r) && Distinct(v.lab) && Distinct(r.zeros) && r.Root() == v.Root() + 2
            && |v.lab| == v.Root() + 1 && |r.lab| == r.Root() + 1 && v.size + |v.up| < 2 * v.size - 1 && n < v.size
            && |r.zeros| == |v.zeros| - 1 && r.zeros == Without(v.zeros, n)
            && r.lab[0] == r.zeros[0] && r.lab[1] == n && r.lab[2] == v.size + |v.up|
            && r.zeros[0] == (if v.zeros[0] == n then v.zeros[1] else v.zeros[0]) && v.zeros[0] == v.lab[0]
            && (|v.up| > 0 ==> v.up[0] == 2 && r.up[1] == 4)
  {
    InsertOk(v, n);
    WithoutOk(v.zeros, n);
  }

  /** The nodes in the list, whatever their place, are no unseen symbols but for the first, and the
      new node is not among them. */
  lemma GrowFresh(v: Tree, n: nat, p: nat)
    requires Valid(v) && n in v.zeros && |v.zeros| > 1 && p <= v.Root()
    ensures v.lab[p] < v.size + |v.up| < 2 * v.size - 1 && (p > 0 ==> v.lab[p] !in v.zeros)
    ensures n != v.size + |v.up| && n < v.size
    ensures p > 0 ==> Insert(v, n).lab[p + 2] == v.lab[p]
  {
    assert LabelOk(v, p);
    assert v.lab[p] in v.lab;
  }

  /** The symbols still unseen. */
  lemma GrowUnseen(v: Tree, n: nat, i: nat)
    requires Valid(v) && n in v.zeros && |v.zeros| > 1 && i < |Insert(v, n).zeros|
    ensures var z := Insert(v, n).zeros[i]; z in v.zeros && z != n && z < v.size
  {
    WithoutOk(v.zeros, n);
    assert Insert(v, n).zeros[i] in Insert(v, n).zeros;
  }

  // ---------------------------------------------------------------- the list

  function GrownRight(v: Tree, n: nat, right: seq<int>): (r: seq<int>)
    requires Valid(v) && n in v.zeros && |v.zeros| > 1 && |right| == 2 * v.size - 1
    ensures |r| == |right|
  {
    GrowShapeAt(v, n);
    var new_ := v.size + |v.up|;
    right[new_ := right[v.zeros[0]]][n := new_][Insert(v, n).zeros[0] := n]
  }

  function GrownLeft(v: Tree, n: nat, left: seq<int>): (r: seq<int>)
    requires Valid(v) && n in v.zeros && |v.zeros| > 1 && |left| == 2 * v.size - 1
    ensures |r| == |left|
  {
    GrowShapeAt(v, n);
    var new_ := v.size + |v.up|;
    var l := left[new_ := n];
    assert |v.up| > 0 ==> LabelOk(v, 1);
    (if |v.up| > 0 then l[v.lab[1] := new_] else l)[n := Insert(v, n).zeros[0]]
  }

  lemma GrowListLow(v: Tree, n: nat, left: seq<int>, right: seq<int>, p: nat)
    requires Valid(v) && n in v.zeros && |v.zeros| > 1 && p < 3
    requires |left| == |right| == 2 * v.size - 1 && ListOk(v.lab, left, right) && ZerosLeft(v.zeros, left)
    ensures p < |Insert(v, n).lab| && ListAt(Insert(v, n).lab, GrownLeft(v, n, left), GrownRight(v, n, right), p)
  {
    hide Named, Sum, Sorted, Positive, LooseOk, Without, ParentOk;
    GrowShapeAt(v, n);
    assert ListAt(v.lab, left, right, 0);
    GrowFresh(v, n, 0);
    GrowUnseen(v, n, 0);
    var l := left[v.size + |v.up| := n];
    if |v.up| > 0 {
      GrowFresh(v, n, 1);
      assert GrownLeft(v, n, left) == l[v.lab[1] := v.size + |v.up|][n := Insert(v, n).zeros[0]];
    } else {
      assert GrownLeft(v, n, left) == l[n := Insert(v, n).zeros[0]];
    }
  }

  lemma GrowListHigh(v: Tree, n: nat, left: seq<int>, right: seq<int>, p: nat)
    requires Valid(v) && n in v.zeros && |v.zeros| > 1 && 1 <= p <= v.Root()
    requires |left| == |right| == 2 * v.size - 1 && ListOk(v.lab, left, right)
    ensures p + 2 < |Insert(v, n).lab| &&
            ListAt(Insert(v, n).lab, GrownLeft(v, n, left), GrownRight(v, n, right), p + 2)
  {
    hide Named, Sum, Sorted, Positive, LooseOk, Without, ParentOk;
    GrowShapeAt(v, n);
    GrowUnseen(v, n, 0);
    GrowFresh(v, n, p);
    GrowFresh(v, n, 1);
    assert GrownLeft(v, n, left) == left[v.size + |v.up| := n][v.lab[1] := v.size + |v.up|][n := Insert(v, n).zeros[0]];
    assert ListAt(v.lab, left, right, p);
    if p < v.Root() {
      GrowFresh(v, n, p + 1);
    }
    if p > 1 {
      GrowFresh(v, n, p - 1);
    }
  }

  lemma GrowList(v: Tree, n: nat, left: seq<int>, right: seq<int>)
    requires Valid(v) && n in v.zeros && |v.zeros| > 1
    requires |left| == |right| == 2 * v.size - 1 && ListOk(v.lab, left, right) && ZerosLeft(v.zeros, left)
    ensures ListOk(Insert(v, n).lab, GrownLeft(v, n, left), GrownRight(v, n, right))
  {
    hide Without, Insert, ListAt, ZerosLeft, GrownLeft, GrownRight, Sum, Sorted, Positive, LooseOk;
    GrowShapeAt(v, n);
    var lab, l', r' := Insert(v, n).lab, GrownLeft(v, n, left), GrownRight(v, n, right);
    forall p | 0 <= p < |lab| ensures ListAt(lab, l', r', p) {
      if p < 3 {
        GrowListLow(v, n, left, right, p);
      } else {
        GrowListHigh(v, n, left, right, p - 2);
      }
    }
  }

  lemma GrowZerosLeft(v: Tree, n: nat, left: seq<int>)
    requires Valid(v) && n in v.zeros && |v.zeros| > 1 && |left| == 2 * v.size - 1 && ZerosLeft(v.zeros, left)
    ensures ZerosLeft(Insert(v, n).zeros, GrownLeft(v, n, left))
  {
    hide Named, Sum, Sorted, Positive, LooseOk, Without, ParentOk;
    GrowShapeAt(v, n);
    var zeros, l' := Insert(v, n).zeros, GrownLeft(v, n, left);
    var l := left[v.size + |v.up| := n];
    forall i | 0 <= i < |zeros| ensures zeros[i] < |l'| && l'[zeros[i]] == NIL {
      GrowUnseen(v, n, i);
      if |v.up| > 0 {
        GrowFresh(v, n, 1);
        assert l' == l[v.lab[1] := v.size + |v.up|][n := zeros[0]];
      } else {
        assert l' == l[n := zeros[0]];
      }
    }
  }

  // ---------------------------------------------------------------- parents and weights

  function GrownParent(v: Tree, n: nat, parent: seq<int>): (r: seq<int>)
    requires Valid(v) && n in v.zeros && |v.zeros| > 1 && |parent| == 2 * v.size - 1
    ensures |r| == |parent|
  {
    GrowShapeAt(v, n);
    var new_ := v.size + |v.up|;
    parent[new_ := parent[v.zeros[0]]][n := new_][Insert(v, n).zeros[0] := new_]
  }

  lemma GrowParentAt(v: Tree, n: nat, parent: seq<int>, p: nat)
    requires Valid(v) && n in v.zeros && |v.zeros| > 1 && |parent| == 2 * v.size - 1 && ParentsOk(v, parent)
    requires p <= v.Root() + 2
    ensures var r := Insert(v, n); Shape(r) && p <= r.Root() && ParentAt(r, GrownParent(v, n, parent), p)
  {
    hide Named, Sum, Sorted, Positive, LooseOk, Without;
    var r := Insert(v, n);
    GrowShapeAt(v, n);
    assert ParentAt(v, parent, 0);
    GrowFresh(v, n, 0);
    GrowUnseen(v, n, 0);
    if p >= 3 {
      assert ParentAt(v, parent, p - 2);
      GrowFresh(v, n, p - 2);
      if p < r.Root() {
        assert ParentOk(v, (p - 2) / 2) && p / 2 == (p - 2) / 2 + 1;
        GrowFresh(v, n, v.up[(p - 2) / 2]);
      }
    } else if p == 2 && |v.up| > 0 {
      assert ParentOk(v, 0);
      GrowFresh(v, n, v.up[0]);
    }
  }

  lemma GrowParents(v: Tree, n: nat, parent: seq<int>)
    requires Valid(v) && n in v.zeros && |v.zeros| > 1 && |parent| == 2 * v.size - 1 && ParentsOk(v, parent)
    ensures Shape(Insert(v, n)) && ParentsOk(Insert(v, n), GrownParent(v, n, parent))
  {
    GrowShapeAt(v, n);
    var r, parent' := Insert(v, n), GrownParent(v, n, parent);
    forall p | 0 <= p <= r.Root() ensures ParentAt(r, parent', p) {
      GrowParentAt(v, n, parent, p);
    }
  }

  lemma GrowWeightsOk(v: Tree, n: nat, weight: seq<nat>)
    requires Valid(v) && n in v.zeros && |v.zeros| > 1 && |weight| == 2 * v.size - 1 && WeightsOk(v, weight)
    ensures Shape(Insert(v, n)) && WeightsOk(Insert(v, n), weight[v.size + |v.up| := 0])
  {
    hide Named, Sum, Sorted, Positive, LooseOk, Without, ParentOk;
    GrowShapeAt(v, n);
    var r, weight' := Insert(v, n), weight[v.size + |v.up| := 0];
    forall i | 0 <= i < |r.zeros| ensures r.zeros[i] < |weight'| && weight'[r.zeros[i]] == 0 {
      GrowUnseen(v, n, i);
    }
    forall p | 0 <= p <= r.Root() ensures r.lab[p] < |weight'| && weight'[r.lab[p]] == r.w[p] {
      if p >= 3 {
        GrowFresh(v, n, p - 2);
      } else if p == 0 {
        GrowUnseen(v, n, 0);
      } else if p == 1 {
        GrowFresh(v, n, 0);
      }
    }
  }

  // ---------------------------------------------------------------- children

  /** The child pointers of the nodes that were in the tree, and of the unseen symbols that remain,
      before the new node gets its left child. */
  ghost predicate KidsBetween(v: Tree, n: nat, lc: seq<int>, rc: seq<int>, lc': seq<int>, rc': seq<int>)
    requires Shape(v)
  {
    && |lc| == |rc| == |lc'| == |rc'|
    && forall p :: 1 <= p <= v.Root() ==> KidsKept(v, lc, rc, lc', rc', p)
  }

  predicate KidsKept(v: Tree, lc: seq<int>, rc: seq<int>, lc': seq<int>, rc': seq<int>, p: nat)
    requires Shape(v) && p <= v.Root() && |lc| == |rc| == |lc'| == |rc'|
  {
    && v.lab[p] < |lc| && rc'[v.lab[p]] == rc[v.lab[p]]
    && lc'[v.lab[p]] == if |v.up| > 0 && p == v.up[0] then v.size + |v.up| else lc[v.lab[p]]
  }

  lemma GrowKids(v: Tree, n: nat, lc: seq<int>, rc: seq<int>, lc': seq<int>, rc': seq<int>)
    requires Valid(v) && n in v.zeros && |v.zeros| > 1 && KidsOk(v, lc, rc) && KidsBetween(v, n, lc, rc, lc', rc')
    requires |lc| == 2 * v.size - 1
    requires var r, new_ := Insert(v, n), v.size + |v.up|;
             && lc'[n] == rc'[n] == NIL && lc'[new_] == r.zeros[0] && rc'[new_] == n
             && forall i :: 0 <= i < |r.zeros| ==> ZeroAt(r.zeros, lc', rc', i)
    ensures Shape(Insert(v, n)) && KidsOk(Insert(v, n), lc', rc')
  {
    GrowShapeAt(v, n);
    var r := Insert(v, n);
    forall j | 0 <= j < |r.up| ensures KidsAt(r, lc', rc', j) {
      if j > 0 {
        GrowKidsAt(v, n, lc, rc, lc', rc', j);
      }
    }
    forall p | 0 <= p <= r.Root() ensures LeafAt(r, lc', rc', p) {
      GrowLeafAt(v, n, lc, rc, lc', rc', p);
    }
  }

  lemma GrowKidsAt(v: Tree, n: nat, lc: seq<int>, rc: seq<int>, lc': seq<int>, rc': seq<int>, j: nat)
    requires Valid(v) && n in v.zeros && |v.zeros| > 1 && KidsOk(v, lc, rc) && KidsBetween(v, n, lc, rc, lc', rc')
    requires 0 < j <= |v.up|
    ensures var r := Insert(v, n); Shape(r) && j < |r.up| && KidsAt(r, lc', rc', j)
  {
    hide Named, Sum, Sorted, Positive, LooseOk, Without;
    GrowShapeAt(v, n);
    var r, p := Insert(v, n), v.up[j - 1];
    assert ParentOk(v, j - 1) && KidsAt(v, lc, rc, j - 1) && KidsKept(v, lc, rc, lc', rc', p);
    GrowFresh(v, n, p);
    GrowFresh(v, n, 2 * j - 1);
    if j > 1 {
      GrowFresh(v, n, 2 * j - 2);
    }
  }

  lemma GrowLeafAt(v: Tree, n: nat, lc: seq<int>, rc: seq<int>, lc': seq<int>, rc': seq<int>, p: nat)
    requires Valid(v) && n in v.zeros && |v.zeros| > 1 && KidsOk(v, lc, rc) && KidsBetween(v, n, lc, rc, lc', rc')
    requires p <= v.Root() + 2 && |lc| == 2 * v.size - 1 && lc'[n] == rc'[n] == NIL
    ensures var r := Insert(v, n); Shape(r) && p <= r.Root() && LeafAt(r, lc', rc', p)
  {
    GrowShapeAt(v, n);
    var r := Insert(v, n);
    if p >= 3 {
      assert LeafAt(v, lc, rc, p - 2) && KidsKept(v, lc, rc, lc', rc', p - 2);
      GrowFresh(v, n, p - 2);
      if p - 2 in v.up {
        var j :| 0 <= j < |v.up| && v.up[j] == p - 2;
        assert r.up[j + 1] == p;
      }
      if |v.up| > 0 {
        assert v.up[0] in v.up;
      }
    } else if p == 2 {
      assert r.up[0] == 2;
    } else {
      GrowUnseen(v, n, 0);
    }
  }

  // ---------------------------------------------------------------- the list of unseen symbols

  lemma {:induction false} WithoutAt(s: seq<nat>, n: nat)
    requires n in s
    ensures Without(s, n) == s[..Find(s, n)] + s[Find(s, n) + 1..]
  {
    if s[0] != n {
      WithoutAt(s[1..], n);
      var t, k := s[1..], Find(s[1..], n);
      assert Find(s, n) == k + 1;
      assert s[..k + 1] == [s[0]] + t[..k];
      assert s[k + 2..] == t[k + 1..];
      assert Without(s, n) == [s[0]] + Without(t, n);
    }
  }

  /** fgk_eliminate_zero: the neighbours of the symbol n are linked to each other. */
  function CutLeft(zeros: seq<nat>, k: nat, lc: seq<int>): (r: seq<int>)
    requires k < |zeros| && NodesIn(zeros, |lc|)
    ensures |r| == |lc|
  {
    if k + 1 < |zeros| then lc[zeros[k + 1] := if k == 0 then NIL else zeros[k - 1]] else lc
  }

  function CutRight(zeros: seq<nat>, k: nat, rc: seq<int>): (r: seq<int>)
    requires k < |zeros| && NodesIn(zeros, |rc|)
    ensures |r| == |rc|
  {
    if k > 0 then rc[zeros[k - 1] := if k + 1 < |zeros| then zeros[k + 1] else NIL] else rc
  }

  predicate ZerosLinked(zeros: seq<nat>, lc: seq<int>, rc: seq<int>) {
    |lc| == |rc| && forall i :: 0 <= i < |zeros| ==> ZeroAt(zeros, lc, rc, i)
  }

  lemma CutAt(zeros: seq<nat>, k: nat, lc: seq<int>, rc: seq<int>, i: nat)
    requires k < |zeros| && ZerosLinked(zeros, lc, rc) && Distinct(zeros) && NodesIn(zeros, |lc|) && i < |zeros| - 1
    ensures ZeroAt(zeros[..k] + zeros[k + 1..], CutLeft(zeros, k, lc), CutRight(zeros, k, rc), i)
  {
    var i' := if i < k then i else i + 1;
    assert ZeroAt(zeros, lc, rc, i') && (zeros[..k] + zeros[k + 1..])[i] == zeros[i'];
    if i > 0 {
      assert (zeros[..k] + zeros[k + 1..])[i - 1] == zeros[if i - 1 < k then i - 1 else i];
    }
    if i + 1 < |zeros| - 1 {
      assert (zeros[..k] + zeros[k + 1..])[i + 1] == zeros[if i + 1 < k then i + 1 else i + 2];
    }
  }

  lemma CutOk(zeros: seq<nat>, n: nat, lc: seq<int>, rc: seq<int>)
    requires n in zeros && ZerosLinked(zeros, lc, rc) && Distinct(zeros) && NodesIn(zeros, |lc|)
    ensures ZerosLinked(Without(zeros, n), CutLeft(zeros, Find(zeros, n), lc), CutRight(zeros, Find(zeros, n), rc))
  {
    var k := Find(zeros, n);
    WithoutAt(zeros, n);
    var rest, l, r := Without(zeros, n), CutLeft(zeros, k, lc), CutRight(zeros, k, rc);
    forall i | 0 <= i < |rest| ensures ZeroAt(rest, l, r, i) {
      CutAt(zeros, k, lc, rc, i);
    }
  }

  /** The child pointers once the new parent stands in the place of the unseen symbols. */
  function SlotLeft(v: Tree, lc: seq<int>): (r: seq<int>)
    requires Valid(v) && |lc| == 2 * v.size - 1
    ensures |r| == |lc|
  {
    if |v.up| > 0 then
      assert LabelOk(v, 2);
      lc[v.lab[2] := v.size + |v.up|]
    else lc
  }

  /** ... and the symbol has left the unseen ones. */
  function GrownLc(v: Tree, n: nat, lc: seq<int>): (r: seq<int>)
    requires Valid(v) && n in v.zeros && |v.zeros| > 1 && |lc| == 2 * v.size - 1 && NodesIn(v.zeros, |lc|)
    ensures |r| == |lc|
  {
    GrowShapeAt(v, n);
    CutLeft(v.zeros, Find(v.zeros, n), SlotLeft(v, lc))[v.size + |v.up| := Insert(v, n).zeros[0]][n := NIL]
  }

  function GrownRc(v: Tree, n: nat, rc: seq<int>): (r: seq<int>)
    requires Valid(v) && n in v.zeros && |v.zeros| > 1 && |rc| == 2 * v.size - 1 && NodesIn(v.zeros, |rc|)
    ensures |r| == |rc|
  {
    GrowShapeAt(v, n);
    CutRight(v.zeros, Find(v.zeros, n), rc[v.size + |v.up| := n])[n := NIL]
  }

  lemma SlotZeros(v: Tree, n: nat, lc: seq<int>, rc: seq<int>)
    requires Valid(v) && n in v.zeros && |v.zeros| > 1 && |lc| == 2 * v.size - 1 && KidsOk(v, lc, rc)
    ensures NodesIn(v.zeros, |lc|) && v.size + |v.up| < |rc|
    ensures ZerosLinked(v.zeros, SlotLeft(v, lc), rc[v.size + |v.up| := n])
  {
    KidsZeros(v, lc, rc);
    GrowFresh(v, n, 0);
    var l, r := SlotLeft(v, lc), rc[v.size + |v.up| := n];
    forall i | 0 <= i < |v.zeros| ensures ZeroAt(v.zeros, l, r, i) {
      assert ZeroAt(v.zeros, lc, rc, i);
      if |v.up| > 0 {
        GrowFresh(v, n, 2);
      }
    }
  }

  lemma GrownZeros(v: Tree, n: nat, lc: seq<int>, rc: seq<int>)
    requires Valid(v) && n in v.zeros && |v.zeros| > 1 && |lc| == 2 * v.size - 1 && KidsOk(v, lc, rc)
    requires NodesIn(v.zeros, |lc|)
    ensures ZerosLinked(Insert(v, n).zeros, GrownLc(v, n, lc), GrownRc(v, n, rc))
  {
    hide Named, Sum, Sorted, Positive, LooseOk, Without, ParentOk;
    GrowShapeAt(v, n);
    SlotZeros(v, n, lc, rc);
    var l, r := SlotLeft(v, lc), rc[v.size + |v.up| := n];
    DistinctNodes(v);
    CutOk(v.zeros, n, l, r);
    var k, zeros := Find(v.zeros, n), Insert(v, n).zeros;
    var cl, cr, new_ := CutLeft(v.zeros, k, l), CutRight(v.zeros, k, r), v.size + |v.up|;
    forall i | 0 <= i < |zeros| ensures zeros[i] != n && zeros[i] != new_ {
      GrowUnseen(v, n, i);
    }
    ZerosElsewhere(zeros, cl, cr, new_, n, zeros[0]);
  }

  lemma ZerosElsewhere(zeros: seq<nat>, lc: seq<int>, rc: seq<int>, new_: nat, n: nat, z: int)
    requires ZerosLinked(zeros, lc, rc) && new_ < |lc| && n < |lc|
    requires forall i :: 0 <= i < |zeros| ==> zeros[i] != n && zeros[i] != new_
    ensures ZerosLinked(zeros, lc[new_ := z][n := NIL], rc[n := NIL])
  {
    var l, r := lc[new_ := z][n := NIL], rc[n := NIL];
    forall i | 0 <= i < |zeros| ensures ZeroAt(zeros, l, r, i) {
      assert ZeroAt(zeros, lc, rc, i);
    }
  }

  lemma GrownKept(v: Tree, n: nat, lc: seq<int>, rc: seq<int>, p: nat)
    requires Valid(v) && n in v.zeros && |v.zeros| > 1 && |lc| == 2 * v.size - 1 && KidsOk(v, lc, rc)
    requires NodesIn(v.zeros, |lc|) && 1 <= p <= v.Root()
    ensures KidsKept(v, lc, rc, GrownLc(v, n, lc), GrownRc(v, n, rc), p)
  {
    hide Named, Sum, Sorted, Positive, LooseOk, Without, ParentOk;
    GrowShapeAt(v, n);
    GrowFresh(v, n, p);
    var k := Find(v.zeros, n);
    assert n in v.zeros && (k > 0 ==> v.zeros[k - 1] in v.zeros) && (k + 1 < |v.zeros| ==> v.zeros[k + 1] in v.zeros);
    GrowFresh(v, n, 2);
    assert SlotLeft(v, lc) == lc[v.lab[2] := v.size + |v.up|];
  }

  /** The child pointers after all these changes. */
  lemma GrownKids(v: Tree, n: nat, lc: seq<int>, rc: seq<int>)
    requires Valid(v) && n in v.zeros && |v.zeros| > 1 && |lc| == 2 * v.size - 1 && KidsOk(v, lc, rc)
    ensures NodesIn(v.zeros, |lc|) && Shape(Insert(v, n)) && KidsOk(Insert(v, n), GrownLc(v, n, lc), GrownRc(v, n, rc))
  {
    KidsZeros(v, lc, rc);
    GrowShapeAt(v, n);
    var lc', rc' := GrownLc(v, n, lc), GrownRc(v, n, rc);
    GrownZeros(v, n, lc, rc);
    forall p | 1 <= p <= v.Root() ensures KidsKept(v, lc, rc, lc', rc', p) {
      GrownKept(v, n, lc, rc, p);
    }
    GrownNew(v, n, lc, rc);
    GrowKids(v, n, lc, rc, lc', rc');
  }

  lemma GrownNew(v: Tree, n: nat, lc: seq<int>, rc: seq<int>)
    requires Valid(v) && n in v.zeros && |v.zeros| > 1 && |lc| == |rc| == 2 * v.size - 1 && NodesIn(v.zeros, |lc|)
    ensures var r, new_, lc', rc' := Insert(v, n), v.size + |v.up|, GrownLc(v, n, lc), GrownRc(v, n, rc);
            n < |lc| && new_ < |lc| && r.zeros != [] && lc'[n] == rc'[n] == NIL && lc'[new_] == r.zeros[0] &&
                rc'[new_] == n
  {
    GrowShapeAt(v, n);
    GrowFresh(v, n, 0);
    var k := Find(v.zeros, n);
    assert k > 0 ==> v.zeros[k - 1] in v.zeros;
  }

  // ---------------------------------------------------------------- what fgk_increase_zero_weight sees

  /** The first unseen symbol in the tree, its right neighbour and its parent. */
  lemma ZeroFacts(v: Tree, n: nat, left: seq<int>, right: seq<int>, parent: seq<int>, lc: seq<int>, rc: seq<int>,
                  weight: seq<nat>, zeros: int, root: int, free: int)
    requires Valid(v) && n in v.zeros && ListOk(v.lab, left, right) && ParentsOk(v, parent) && KidsOk(v, lc, rc)
    requires WeightsOk(v, weight) && HeadsOk(v, zeros, root, free)
    ensures |left| == |right| && |lc| == |rc| && v.lab[0] < |right| && v.lab[0] < |parent| && n < v.size
    ensures zeros == v.lab[0] == v.zeros[0] && free == v.size + |v.up| && (root == zeros <==> |v.up| == 0)
    ensures v.lab[0] < v.size && |v.lab| == v.Root() + 1 && (|v.up| > 0 ==> v.lab[1] < free && v.lab[2] < free)
    ensures |v.up| > 0 ==> right[v.lab[0]] == v.lab[1] < |weight| && v.lab[1] < |left| && weight[v.lab[1]] == v.w[1]
    ensures |v.up| > 0 ==> parent[v.lab[0]] == v.lab[2] < |rc| && v.up[0] == 2 && rc[v.lab[2]] != v.lab[0]
  {
    assert ListAt(v.lab, left, right, 0) && ParentAt(v, parent, 0);
    if |v.up| > 0 {
      assert ListAt(v.lab, left, right, 1) && KidsAt(v, lc, rc, 0) && v.up[0] == 2;
      assert LabelOk(v, 1) && LabelOk(v, 2);
      assert Distinct(v.lab);
    }
  }

  // ---------------------------------------------------------------- the last unseen symbol

  lemma FinalLinks(v: Tree, n: nat, left: seq<int>, right: seq<int>, parent: seq<int>, lc: seq<int>, rc: seq<int>,
                   weight: seq<nat>, zeros: int, root: int, free: int)
    requires Valid(v) && n in v.zeros && |v.zeros| == 1 && ListOk(v.lab, left, right) && ParentsOk(v, parent)
    requires KidsOk(v, lc, rc) && WeightsOk(v, weight) && HeadsOk(v, zeros, root, free)
    ensures var r := Insert(v, n);
            && Shape(r) && n < |rc| && r.lab == v.lab && r.zeros == []
            && ParentsOk(r, parent) && KidsOk(r, lc, rc[n := NIL]) && WeightsOk(r, weight) &&
                HeadsOk(r, NIL, root, free)
  {
    InsertOk(v, n);
    var r := Insert(v, n);
    assert ZeroAt(v.zeros, lc, rc, 0) && n == v.lab[0];
    var rc' := rc[n := NIL];
    forall p | 0 <= p <= r.Root() ensures ParentAt(r, parent, p) {
      assert ParentAt(v, parent, p);
    }
    forall j | 0 <= j < |r.up| ensures KidsAt(r, lc, rc', j) {
      assert KidsAt(v, lc, rc, j) && ParentOk(v, j);
    }
    forall p | 0 <= p <= r.Root() ensures LeafAt(r, lc, rc', p) {
      assert LeafAt(v, lc, rc, p);
    }
  }
}

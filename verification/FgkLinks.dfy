/** What the linked nodes of Baseline/third/xdelta/xdelta3-fgk.h say about the tree of `FgkTree`, and
    that exchanging two nodes in all links is exchanging two positions. */
module FgkLinks {
  import opened Basics
  import opened FgkBlocks
  import opened FgkCode
  import opened FgkLeaders
  import opened FgkPromote
  import opened FgkTree

  // ---------------------------------------------------------------- what the links say

  predicate NodesIn(lab: seq<nat>, n: nat) {
    forall p :: 0 <= p < |lab| ==> lab[p] < n
  }

  /** `left` and `right` run through the list of nodes. */
  predicate ListAt(lab: seq<nat>, left: seq<int>, right: seq<int>, p: nat)
    requires p < |lab|
  {
    && lab[p] < |left| == |right|
    && left[lab[p]] == (if p == 0 then NIL else lab[p - 1])
    && right[lab[p]] == (if p + 1 == |lab| then NIL else lab[p + 1])
  }

  predicate ListOk(lab: seq<nat>, left: seq<int>, right: seq<int>) {
    |left| == |right| && forall p :: 0 <= p < |lab| ==> ListAt(lab, left, right, p)
  }

  /** Nothing stands to the left of the symbols not seen yet. */
  predicate ZerosLeft(zeros: seq<nat>, left: seq<int>) {
    forall i :: 0 <= i < |zeros| ==> zeros[i] < |left| && left[zeros[i]] == NIL
  }

  predicate ParentAt(v: Tree, parent: seq<int>, p: nat)
    requires Shape(v) && p <= v.Root()
  {
    && v.lab[p] < |parent|
    && parent[v.lab[p]] == if p == v.Root() then NIL else assert ParentOk(v, p / 2); v.lab[v.up[p / 2]]
  }

  predicate KidsAt(v: Tree, lc: seq<int>, rc: seq<int>, j: nat)
    requires Shape(v) && j < |v.up|
  {
    assert ParentOk(v, j);
    && v.lab[v.up[j]] < |lc| == |rc|
    && lc[v.lab[v.up[j]]] == v.lab[2 * j] && rc[v.lab[v.up[j]]] == v.lab[2 * j + 1]
  }

  predicate LeafAt(v: Tree, lc: seq<int>, rc: seq<int>, p: nat)
    requires Shape(v) && p <= v.Root()
  {
    && v.lab[p] < |lc| == |rc|
    && (p !in v.up && (p > 0 || v.zeros == []) ==> lc[v.lab[p]] == NIL && rc[v.lab[p]] == NIL)
  }

  /** The symbols not seen yet are linked by their child pointers. */
  predicate ZeroAt(zeros: seq<nat>, lc: seq<int>, rc: seq<int>, i: nat)
    requires i < |zeros|
  {
    && zeros[i] < |lc| == |rc|
    && lc[zeros[i]] == (if i == 0 then NIL else zeros[i - 1])
    && rc[zeros[i]] == (if i + 1 == |zeros| then NIL else zeros[i + 1])
  }

  predicate ParentsOk(v: Tree, parent: seq<int>)
    requires Shape(v)
  {
    forall p :: 0 <= p <= v.Root() ==> ParentAt(v, parent, p)
  }

  predicate KidsOk(v: Tree, lc: seq<int>, rc: seq<int>)
    requires Shape(v)
  {
    && |lc| == |rc|
    && (forall j :: 0 <= j < |v.up| ==> KidsAt(v, lc, rc, j))
    && (forall p :: 0 <= p <= v.Root() ==> LeafAt(v, lc, rc, p))
    && (forall i :: 0 <= i < |v.zeros| ==> ZeroAt(v.zeros, lc, rc, i))
  }

  predicate WeightsOk(v: Tree, weight: seq<nat>)
    requires Shape(v)
  {
    && (forall p :: 0 <= p <= v.Root() ==> v.lab[p] < |weight| && weight[v.lab[p]] == v.w[p])
    && (forall i :: 0 <= i < |v.zeros| ==> v.zeros[i] < |weight| && weight[v.zeros[i]] == 0)
  }

  predicate HeadsOk(v: Tree, zeros: int, root: int, free: int) {
    && |v.lab| == v.Root() + 1
    && zeros == (if v.zeros == [] then NIL else v.zeros[0])
    && root == v.lab[v.Root()] && free == v.size + |v.up|
  }

  predicate CountsOk(v: Tree, count: nat, exp: nat, rem: nat) {
    count == Count(v) && count >= 1 && exp == Exponent(count) && rem == count - Pow2(exp)
  }

  // ---------------------------------------------------------------- two nodes change places

  lemma ListIn(v: Tree, left: seq<int>, right: seq<int>)
    requires ListOk(v.lab, left, right)
    ensures NodesIn(v.lab, |left|) && |left| == |right|
  {
    forall p | 0 <= p < |v.lab| ensures v.lab[p] < |left| {
      assert ListAt(v.lab, left, right, p);
    }
  }

  lemma SwapHeads(v: Tree, p: nat, q: nat, zeros: int, root: int, free: int, count: nat, exp: nat, rem: nat)
    requires Shape(v) && p <= q < v.Root() && HeadsOk(v, zeros, root, free) && CountsOk(v, count, exp, rem)
    ensures HeadsOk(Swap(v, p, q), zeros, root, free) && CountsOk(Swap(v, p, q), count, exp, rem)
  {
  }

  lemma SwapRest(v: Tree, p: nat, q: nat)
    requires Shape(v) && p <= q < v.Root()
    ensures var r := Swap(v, p, q);
            && r.lab == v.lab[p := v.lab[q]][q := v.lab[p]] && r.Root() == v.Root()
            && r.zeros == v.zeros && r.size == v.size && Count(r) == Count(v) && r.lab[v.Root()] == v.lab[v.Root()]
  {
  }

  lemma SwapSelf(v: Tree, p: nat)
    requires Shape(v) && p < v.Root()
    ensures Swap(v, p, p) == v
  {
    assert Swap(v, p, p).lab == v.lab && Swap(v, p, p).up == v.up;
  }

  /** The neighbours after the nodes at i and k have changed places. */
  function SwappedRight(lab: seq<nat>, right: seq<int>, i: nat, k: nat): (r: seq<int>)
    requires i < k < |lab| - 1 && NodesIn(lab, |right|)
    ensures |r| == |right|
  {
    var r := if i == 0 then right else right[lab[i - 1] := lab[k]];
    if k == i + 1 then r[lab[i] := lab[k + 1]][lab[k] := lab[i]]
    else r[lab[i] := lab[k + 1]][lab[k] := lab[i + 1]][lab[k - 1] := lab[i]]
  }

  function SwappedLeft(lab: seq<nat>, left: seq<int>, i: nat, k: nat): (r: seq<int>)
    requires i < k < |lab| - 1 && NodesIn(lab, |left|)
    ensures |r| == |left|
  {
    var before := if i == 0 then NIL else lab[i - 1];
    if k == i + 1 then left[lab[k + 1] := lab[i]][lab[k] := before][lab[i] := lab[k]]
    else left[lab[k + 1] := lab[i]][lab[i + 1] := lab[k]][lab[k] := before][lab[i] := lab[k - 1]]
  }

  lemma SwappedListOk(v: Tree, left: seq<int>, right: seq<int>, i: nat, k: nat)
    requires Named(v) && i < k < |v.lab| - 1 && ListOk(v.lab, left, right) && NodesIn(v.lab, |left|)
    requires v.zeros == [] || i > 0
    requires ZerosLeft(v.zeros, left)
    ensures ListOk(v.lab[i := v.lab[k]][k := v.lab[i]], SwappedLeft(v.lab, left, i, k),
            SwappedRight(v.lab, right, i, k))
    ensures ZerosLeft(v.zeros, SwappedLeft(v.lab, left, i, k))
  {
    var lab' := v.lab[i := v.lab[k]][k := v.lab[i]];
    forall p | 0 <= p < |v.lab|
        ensures ListAt(lab', SwappedLeft(v.lab, left, i, k), SwappedRight(v.lab, right, i, k), p) {
      ListSwapped(v.lab, left, right, i, k, p);
    }
    var l := SwappedLeft(v.lab, left, i, k);
    forall z | 0 <= z < |v.zeros| ensures v.zeros[z] < |l| && l[v.zeros[z]] == NIL {
      assert v.zeros[z] in v.lab ==> v.zeros[z] == v.lab[0];
    }
  }

  lemma ListSwapped(lab: seq<nat>, left: seq<int>, right: seq<int>, i: nat, k: nat, p: nat)
    requires Distinct(lab) && i < k < |lab| - 1 && p < |lab| && |left| == |right|
    requires NodesIn(lab, |left|) && ListAt(lab, left, right, p)
    ensures ListAt(lab[i := lab[k]][k := lab[i]], SwappedLeft(lab, left, i, k), SwappedRight(lab, right, i, k), p)
  {
  }

  lemma SwappedKidsOk(v: Tree, lc: seq<int>, rc: seq<int>, i: nat, k: nat)
    requires Shape(v) && Named(v) && i < k < v.Root() && KidsOk(v, lc, rc) && Shape(Swap(v, i, k)) &&
             NodesIn(v.lab, |lc|)
    requires v.zeros == [] || i > 0
    ensures KidsOk(Swap(v, i, k), SwappedKids(v, lc, i, k, 0), SwappedKids(v, rc, i, k, 1))
  {
    var v', lc', rc' := Swap(v, i, k), SwappedKids(v, lc, i, k, 0), SwappedKids(v, rc, i, k, 1);
    assert ParentOk(v, i / 2) && ParentOk(v, k / 2);
    assert v.up[i / 2] in v.up && v.up[k / 2] in v.up;
    forall j | 0 <= j < |v.up| ensures KidsAt(v', lc', rc', j) {
      KidsSwapped(v, lc, rc, i, k, j);
    }
    forall p | 0 <= p <= v.Root() ensures LeafAt(v', lc', rc', p) {
      assert LeafAt(v, lc, rc, Other(p, i, k)) && v'.lab[p] == v.lab[Other(p, i, k)];
      SwapParent(v, i, k, p);
    }
    forall z | 0 <= z < |v.zeros| ensures ZeroAt(v'.zeros, lc', rc', z) {
      assert ZeroAt(v.zeros, lc, rc, z);
      assert v.zeros[z] in v.lab ==> v.zeros[z] == v.lab[0];
    }
  }

  lemma SwappedParentsOk(v: Tree, parent: seq<int>, i: nat, k: nat)
    requires Shape(v) && Distinct(v.lab) && i < k < v.Root() && NodesIn(v.lab, |parent|)
    requires Shape(Swap(v, i, k)) && ParentsOk(v, parent)
    ensures ParentsOk(Swap(v, i, k), parent[v.lab[i] := parent[v.lab[k]]][v.lab[k] := parent[v.lab[i]]])
  {
    var r, parent' := Swap(v, i, k), parent[v.lab[i] := parent[v.lab[k]]][v.lab[k] := parent[v.lab[i]]];
    forall p | 0 <= p <= v.Root() ensures ParentAt(r, parent', p) {
      assert ParentAt(v, parent, i) && ParentAt(v, parent, k) && ParentAt(v, parent, p);
      ParentSwapped(v, parent, i, k, p);
    }
  }

  lemma SwappedWeightsOk(v: Tree, weight: seq<nat>, i: nat, k: nat)
    requires Shape(v) && i < k < v.Root() && WeightsOk(v, weight) && v.w[i] == v.w[k] && Shape(Swap(v, i, k))
    ensures WeightsOk(Swap(v, i, k), weight)
  {
    var r := Swap(v, i, k);
    forall p | 0 <= p <= r.Root() ensures r.lab[p] < |weight| && weight[r.lab[p]] == r.w[p] {
      assert r.lab[p] == v.lab[Other(p, i, k)];
    }
  }

  /** When fgk_move_right leaves the node where it is. */
  lemma MoveFacts(v: Tree, p: nat, parent: seq<int>, weight: seq<nat>, my: seq<int>, pool: Pool, free: seq<nat>)
    requires Mid(v, p) && p < v.Root() && ParentsOk(v, parent) && WeightsOk(v, weight)
    requires Blocked(v, p, my, pool, free)
    ensures v.lab[p] < |my| && v.lab[p] < |parent| && v.lab[p] < |weight| && 0 <= my[v.lab[p]] < |pool.un|
    ensures var fwd, q := v.lab[p], Target(v, p);
            var back := pool.un[my[fwd]];
            && (fwd == back || parent[fwd] == back || weight[fwd] == 0 <==> q == p)
            && (q != p ==> back == v.lab[q] && v.w[q] == v.w[p])
    ensures v.zeros == [] || p > 0
  {
    assert p in On(v) && PartAt(v.lab, Lasts(v, p), my, pool.un, p) && ParentAt(v, parent, p) && ParentOk(v, p / 2);
    if v.w[p] > 0 {
      LastLeader(v, p);
      LeaderWeight(v, p);
    }
  }

  lemma ParentsIn(v: Tree, parent: seq<int>)
    requires Shape(v) && ParentsOk(v, parent)
    ensures NodesIn(v.lab, |parent|)
  {
    forall p | 0 <= p < |v.lab| ensures v.lab[p] < |parent| {
      assert ParentAt(v, parent, p);
    }
  }

  lemma ParentSwapped(v: Tree, parent: seq<int>, i: nat, k: nat, p: nat)
    requires Shape(v) && Distinct(v.lab) && i < k < v.Root() && NodesIn(v.lab, |parent|) && p <= v.Root()
    requires Shape(Swap(v, i, k)) && ParentAt(v, parent, i) && ParentAt(v, parent, k) && ParentAt(v, parent, p)
    ensures ParentAt(Swap(v, i, k), parent[v.lab[i] := parent[v.lab[k]]][v.lab[k] := parent[v.lab[i]]], p)
  {
    var r := Swap(v, i, k);
    if p < v.Root() {
      assert ParentOk(v, p / 2) && ParentOk(v, i / 2) && ParentOk(v, k / 2);
      assert r.lab[r.up[p / 2]] == v.lab[v.up[p / 2]];
    }
  }

  lemma KidsIn(v: Tree, lc: seq<int>, rc: seq<int>)
    requires Shape(v) && KidsOk(v, lc, rc)
    ensures NodesIn(v.lab, |lc|)
  {
    forall p | 0 <= p < |v.lab| ensures v.lab[p] < |lc| {
      assert LeafAt(v, lc, rc, p);
    }
  }

  /** The left (`side` 0) or right (`side` 1) child pointers after the nodes at i and k have changed
      places. */
  function SwappedKids(v: Tree, c: seq<int>, i: nat, k: nat, side: nat): (r: seq<int>)
    requires Shape(v) && i < k < v.Root() && NodesIn(v.lab, |c|)
    ensures |r| == |c|
  {
    assert ParentOk(v, i / 2) && ParentOk(v, k / 2);
    var d := if i % 2 == side then c[v.lab[v.up[i / 2]] := v.lab[k]] else c;
    if k % 2 == side then d[v.lab[v.up[k / 2]] := v.lab[i]] else d
  }

  lemma KidsSwapped(v: Tree, lc: seq<int>, rc: seq<int>, i: nat, k: nat, j: nat)
    requires Shape(v) && Distinct(v.lab) && i < k < v.Root() && NodesIn(v.lab, |lc|) && |lc| == |rc|
    requires Shape(Swap(v, i, k)) && j < |v.up| && KidsAt(v, lc, rc, j)
    ensures KidsAt(Swap(v, i, k), SwappedKids(v, lc, i, k, 0), SwappedKids(v, rc, i, k, 1), j)
  {
    var r := Swap(v, i, k);
    assert ParentOk(v, j) && ParentOk(v, i / 2) && ParentOk(v, k / 2) && ParentOk(r, j);
    assert r.lab[r.up[j]] == v.lab[v.up[j]];
    assert v.lab[v.up[j]] == v.lab[v.up[i / 2]] <==> j == i / 2;
    assert v.lab[v.up[j]] == v.lab[v.up[k / 2]] <==> j == k / 2;
  }

  // ---------------------------------------------------------------- what fgk_promote sees

  /** The neighbours and the weights. */
  lemma ListFacts(v: Tree, q: nat, left: seq<int>, right: seq<int>, weight: seq<nat>, zeros: int, root: int, free: int)
    requires Mid(v, q) && q < v.Root() && ListOk(v.lab, left, right) && WeightsOk(v, weight) &&
             HeadsOk(v, zeros, root, free)
    ensures v.lab[q] < |weight| && v.lab[q] < |left| && |left| == |right| && weight[v.lab[q]] == v.w[q]
    ensures right[v.lab[q]] == v.lab[q + 1] < |weight| && weight[v.lab[q + 1]] == v.w[q + 1]
    ensures left[v.lab[q]] == (if q == 0 then NIL else v.lab[q - 1])
    ensures left[v.lab[q]] == zeros <==> q == 0 || (q == 1 && v.zeros != [])
    ensures v.lab[q + 1] == root <==> q + 1 == v.Root()
  {
    assert ListAt(v.lab, left, right, q);
  }

  /** Only the parent of the unseen symbols has its right child for a left neighbour and an unseen
      symbol for a left child. */
  lemma KidFacts(v: Tree, q: nat, lc: seq<int>, rc: seq<int>, weight: seq<nat>)
    requires Mid(v, q) && 1 <= q < v.Root() && v.w[q] > 0 && KidsOk(v, lc, rc) && WeightsOk(v, weight)
    ensures v.lab[q] < |lc| == |rc| && (lc[v.lab[q]] != NIL ==> 0 <= lc[v.lab[q]] < |weight|)
    ensures var node, myLeft := v.lab[q], v.lab[q - 1];
            && (myLeft == rc[node] && lc[node] != NIL && weight[lc[node]] == 0 <==> Skew(v, q))
            && (Skew(v, q) ==> lc[node] == v.zeros[0] && rc[node] == v.lab[1] && weight[v.lab[1]] == v.w[2] + 1)
  {
    assert LeafAt(v, lc, rc, q);
    assert v.zeros != [] ==> v.up[0] in v.up;
    if q in v.up {
      var j := Find(v.up, q);
      assert KidsAt(v, lc, rc, j) && ParentOk(v, j);
      PositiveAt(v, q, 2 * j);
      if Skew(v, q) {
        assert v.up[0] == 2 && j == 0;
        assert PairSum(v, 2, 0);
      }
    }
  }

  /** A leaf that is the first of all nodes. */
  lemma FirstFacts(v: Tree, lc: seq<int>, rc: seq<int>, weight: seq<nat>)
    requires Mid(v, 0) && 0 < v.Root() && KidsOk(v, lc, rc)
    ensures v.lab[0] < |lc| == |rc| && lc[v.lab[0]] == NIL
  {
    LeftmostLeaf(v);
    assert LeafAt(v, lc, rc, 0);
  }

  lemma BlockFacts(v: Tree, q: nat, my: seq<int>, pool: Pool, free: seq<nat>)
    requires Mid(v, q) && q < v.Root() && CanGrow(v, q) && Blocked(v, q, my, pool, free)
    ensures v.lab[q] < |my| && 0 <= my[v.lab[q]] < |pool.un|
    ensures q + 1 < v.Root() ==> v.lab[q + 1] < |my|
    ensures v.w[q] > 0 && !Stays(v, q) ==>
            && q - 1 in On(v) && v.lab[q - 1] < |my|
            && (!Skew(v, q) ==> (my[v.lab[q - 1]] == my[v.lab[q]] <==> Last(v, q, q - 1) == q))
  {
    assert q in On(v) && PartAt(v.lab, Lasts(v, q), my, pool.un, q);
    if q + 1 < v.Root() {
      assert q + 1 in On(v) && PartAt(v.lab, Lasts(v, q), my, pool.un, q + 1);
    }
    if v.w[q] > 0 && !Stays(v, q) {
      assert q - 1 in On(v) && SameAt(v.lab, Lasts(v, q), my, q - 1, q);
      if !Skew(v, q) {
        LastLeads(v, q, q);
      }
    }
  }

  lemma KidsZeros(v: Tree, lc: seq<int>, rc: seq<int>)
    requires Shape(v) && KidsOk(v, lc, rc)
    ensures forall i :: 0 <= i < |v.zeros| ==> ZeroAt(v.zeros, lc, rc, i)
    ensures NodesIn(v.zeros, |lc|) && |lc| == |rc|
  {
    forall i | 0 <= i < |v.zeros| ensures v.zeros[i] < |lc| {
      assert ZeroAt(v.zeros, lc, rc, i);
    }
  }
}

/** Two properties on which adaptive Huffman coding rests: the weight of a leaf is the number of times
    that its symbol was coded, which the coder of Baseline/third/xdelta/xdelta3-fgk.h keeps, and no
    node is lighter than one to its left, which it does not. */
module FgkOrder {
  import opened Basics
  import opened FgkCode
  import opened FgkTree

  // ---------------------------------------------------------------- the weights are the counts

  /** The weights of the leaves are the counts of their symbols, and no unseen symbol has one. */
  ghost predicate Counted(v: Tree, m: multiset<nat>)
    requires Shape(v)
  {
    (forall p :: 0 <= p <= v.Root() ==> LeafCounted(v, m, p)) && forall n :: n in v.zeros ==> n !in m
  }

  ghost predicate LeafCounted(v: Tree, m: multiset<nat>, p: nat)
    requires Shape(v) && p <= v.Root()
  {
    p !in v.up && (v.zeros == [] || p > 0) ==> v.w[p] == m[v.lab[p]]
  }

  /** The counts after position p is counted. */
  ghost function Plus(v: Tree, p: nat, m: multiset<nat>): multiset<nat>
    requires p < |v.lab|
  {
    if p in v.up then m else m + multiset{v.lab[p]}
  }

  lemma NotUnseen(v: Tree, p: nat)
    requires Named(v) && p < |v.lab| && (v.zeros == [] || p > 0)
    ensures v.lab[p] !in v.zeros
  {
    forall i | 0 <= i < |v.zeros| ensures v.zeros[i] != v.lab[p] {
      assert v.lab[p] in v.lab;
    }
  }

  /** Two nodes of the same weight change places, and the one moved is counted. */
  lemma StepCounted(v: Tree, p: nat, m: multiset<nat>)
    requires Mid(v, p) && p < v.Root() && (v.zeros == [] || p > 0) && Counted(v, m)
    ensures Shape(Step(v, p)) && Counted(Step(v, p), Plus(v, p, m))
  {
    hide Leader, LastEqual;
    StepOk(v, p);
    SwapOk(v, p);
    var q, r, m' := Target(v, p), Step(v, p), Plus(v, p, m);
    NotUnseen(v, p);
    if q != p {
      LeaderWeight(v, p);
    }
    forall i | 0 <= i <= r.Root() ensures LeafCounted(r, m', i) {
      StepLeaf(v, p, q, m, i);
    }
  }

  lemma StepLeaf(v: Tree, p: nat, q: nat, m: multiset<nat>, i: nat)
    requires Shape(v) && Named(v) && p <= q < v.Root() && v.w[p] == v.w[q] && (v.zeros == [] || p > 0)
    requires Counted(v, m) && i <= v.Root() && Shape(Swap(v, p, q)) && Shape(Bump(Swap(v, p, q), q))
    ensures LeafCounted(Bump(Swap(v, p, q), q), Plus(v, p, m), i)
  {
    SwapParent(v, p, q, i);
    var o := Other(i, p, q);
    assert LeafCounted(v, m, o);
    DistinctNodes(v);
  }

  lemma {:induction false} ClimbCounted(v: Tree, p: nat, m: multiset<nat>)
    requires Mid(v, p) && (v.zeros == [] || p > 0) && Counted(v, m)
    ensures Shape(Climb(v, p)) && Counted(Climb(v, p), Plus(v, p, m))
    decreases v.Root() - p
  {
    hide Leader, LastEqual, Named, Sum, Sorted, Positive;
    if p < v.Root() {
      StepOk(v, p);
      var r, m' := Step(v, p), Plus(v, p, m);
      StepCounted(v, p, m);
      var x := r.up[Target(v, p) / 2];
      ClimbCounted(r, x, m');
    } else {
      RootOk(v);
      RootIsParent(v);
      RootCounted(v, m);
    }
  }

  lemma RootCounted(v: Tree, m: multiset<nat>)
    requires Shape(v) && v.Root() in v.up && Counted(v, m) && Shape(Bump(v, v.Root()))
    ensures Counted(Bump(v, v.Root()), m)
  {
    forall i | 0 <= i <= v.Root() ensures LeafCounted(Bump(v, v.Root()), m, i) {
      assert LeafCounted(v, m, i);
    }
  }

  /** A symbol that gets a leaf has not been counted yet. */
  lemma InsertCounted(v: Tree, n: nat, m: multiset<nat>)
    requires Valid(v) && n in v.zeros && Counted(v, m)
    ensures var r := Insert(v, n);
            && Shape(r) && Counted(r, m) && Start(v) < |r.lab| && Start(v) !in r.up && r.lab[Start(v)] == n
  {
    InsertOk(v, n);
    WithoutOk(v.zeros, n);
    var r := Insert(v, n);
    forall j | 0 <= j < |r.up| ensures r.up[j] > 1 {
      assert ParentOk(r, j);
    }
    if |v.zeros| == 1 {
      assert v.zeros == [n];
    } else {
      assert r.lab[1] == n;
    }
    forall p | 0 <= p <= r.Root() ensures LeafCounted(r, m, p) {
      if |v.zeros| == 1 {
        assert LeafCounted(v, m, p);
      } else if p >= 3 {
        assert LeafCounted(v, m, p - 2);
        if p - 2 in v.up {
          var j :| 0 <= j < |v.up| && v.up[j] == p - 2;
          assert r.up[j + 1] == p;
        }
      }
    }
  }

  lemma UpdatedCounted(v: Tree, n: nat, m: multiset<nat>)
    requires Valid(v) && n < v.size && Counted(v, m)
    ensures Shape(Updated(v, n)) && Counted(Updated(v, n), m + multiset{n})
  {
    hide Climb, Counted;
    if n in v.zeros {
      InsertOk(v, n);
      InsertCounted(v, n, m);
      ClimbCounted(Insert(v, n), Start(v), m);
    } else {
      LeafOk(v, n);
      var p := Find(v.lab, n);
      assert LabelOk(v, p);
      assert v.zeros != [] ==> p != 0;
      ClimbCounted(v, p, m);
    }
  }

  lemma {:induction false} TrainedCounted(v: Tree, syms: seq<nat>, m: multiset<nat>)
    requires Valid(v) && (forall i :: 0 <= i < |syms| ==> syms[i] < v.size) && Counted(v, m)
    ensures Shape(Trained(v, syms)) && Counted(Trained(v, syms), m + multiset(syms))
    decreases |syms|
  {
    hide Mid, Valid, Shape, Updated, Counted;
    ShapeOf(v);
    if syms != [] {
      UpdatedCounted(v, syms[0], m);
      TrainedCounted(Updated(v, syms[0]), syms[1..], m + multiset{syms[0]});
      assert syms == [syms[0]] + syms[1..];
      assert m + multiset{syms[0]} + multiset(syms[1..]) == m + multiset(syms);
    } else {
      assert m + multiset(syms) == m;
    }
  }

  lemma ShapeOf(v: Tree)
    requires Valid(v)
    ensures Shape(v)
  {
  }

  /** After any symbols, the weight of the leaf of a symbol is the number of times it was coded. */
  lemma WeightsAreCounts(size: nat, syms: seq<nat>, p: nat)
    requires size >= 2 && forall i :: 0 <= i < |syms| ==> syms[i] < size
    ensures var v := Trained(Initial(size), syms);
            && (p < |v.lab| == |v.w| && v.lab[p] < size && (v.zeros == [] || p > 0) ==>
                  v.w[p] == multiset(syms)[v.lab[p]])
            && forall n :: 0 <= n < size ==> (n in v.zeros <==> n !in syms)
  {
    var z := Initial(size);
    assert Counted(z, multiset{});
    TrainedCounted(z, syms, multiset{});
    assert multiset{} + multiset(syms) == multiset(syms);
    var v := Trained(z, syms);
    if p < |v.lab| {
      assert LabelOk(v, p) && LeafCounted(v, multiset(syms), p);
    }
    forall n | 0 <= n < size ensures n in v.zeros <==> n !in syms {
      if n !in v.zeros {
        var i :| 0 <= i < |v.lab| && v.lab[i] == n;
        assert LabelOk(v, i) && LeafCounted(v, multiset(syms), i);
        SeenPositive(v, i);
        assert multiset(syms)[n] > 0;
      }
    }
  }

  lemma SeenPositive(v: Tree, p: nat)
    requires Valid(v) && p <= v.Root() && v.lab[p] !in v.zeros
    ensures v.w[p] > 0 && (v.zeros == [] || p > 0)
  {
    PositiveAt(v, -1, p);
  }

  // ---------------------------------------------------------------- the order of the weights

  /** No node is lighter than one to its left: the property on which adaptive Huffman coding
      rests. */
  predicate Ordered(v: Tree)
    requires Shape(v)
  {
    forall i, j :: 0 <= i < j <= v.Root() ==> v.w[i] <= v.w[j]
  }

  /** While a symbol is unseen the order holds.  Afterwards only the node at position 0 can be out
      of order: `my_left == remaining_zeros` compares two null pointers there, and the node is not
      moved to another block. */
  lemma OrderedUnlessLoose(v: Tree)
    requires Valid(v) && |v.up| >= 1
    ensures Ordered(v) <==> v.zeros != [] || v.w[0] <= v.w[1]
  {
    assert ParentOk(v, |v.up| - 1) && PairSum(v, -1, |v.up| - 1);
  }

  /** Counting from position 2 on leaves the two nodes before alone. */
  lemma {:induction false} ClimbLow(v: Tree, p: nat)
    requires Mid(v, p) && p >= 2
    ensures Climb(v, p).w[0] == v.w[0] && Climb(v, p).w[1] == v.w[1]
    decreases v.Root() - p
  {
    if p < v.Root() {
      StepOk(v, p);
      ClimbLow(Step(v, p), Step(v, p).up[Target(v, p) / 2]);
    }
  }

  /** Once all symbols have been seen, a count raises the first weight only at a node that is loose. */
  lemma LowWeights(v: Tree, p: nat)
    requires Mid(v, p) && v.zeros == [] && p < v.Root() && v.w[p] > 0
    ensures var r := Climb(v, p);
            && r.w[0] == (if p == 0 && v.loose then v.w[0] + 1 else v.w[0])
            && r.w[1] >= v.w[1] && (p == 0 && v.loose ==> r.w[1] == v.w[1])
  {
    StepOk(v, p);
    if Leader(v, p) == v.up[p / 2] {
      LeaderParent(v, p);
    }
    assert ParentOk(Step(v, p), Target(v, p) / 2);
    ClimbLow(Step(v, p), Step(v, p).up[Target(v, p) / 2]);
  }

  /** A count keeps the order except in one case, which can be told before it: all symbols have been
      seen, and the counted one stands loose at position 0 with the weight of its right neighbour. */
  lemma OrderKept(v: Tree, n: nat)
    requires Valid(v) && n < v.size && Ordered(v)
    ensures var r := Updated(v, n);
            Ordered(r) <==> !(v.zeros == [] && v.loose && n == v.lab[0] && v.w[0] == v.w[1])
  {
    var r := Updated(v, n);
    assert v.zeros == [] ==> |v.up| >= 1;
    if n in v.zeros {
      if |v.zeros| == 1 {
        InsertOk(v, n);
        var u := Insert(v, n);
        StepOk(u, 0);
        assert ParentOk(Step(u, 0), 0);
        ClimbLow(Step(u, 0), Step(u, 0).up[0]);
        PositiveAt(v, -1, 1);
      } else {
        WithoutOk(v.zeros, n);
      }
    } else {
      LeafOk(v, n);
      assert |v.up| >= 1;
      var p := Find(v.lab, n);
      PositiveAt(v, -1, p);
      if v.zeros == [] {
        LowWeights(v, p);
      }
    }
    SomeInner(r);
    OrderedUnlessLoose(r);
  }

  /** A tree that was changed has an inner node. */
  lemma SomeInner(r: Tree)
    requires Valid(r) && |r.zeros| < r.size
    ensures |r.up| >= 1
  {
  }

  // ---------------------------------------------------------------- symbols after which it fails

  /** Counting from position p on leaves the nodes before alone. */
  lemma {:induction false} ClimbBelow(v: Tree, p: nat, i: nat)
    requires Mid(v, p) && i < p && p >= 2
    ensures i <= Climb(v, p).Root() && Climb(v, p).w[i] == v.w[i] && Climb(v, p).loose == v.loose
    decreases v.Root() - p
  {
    if p < v.Root() {
      StepOk(v, p);
      ClimbBelow(Step(v, p), Step(v, p).up[Target(v, p) / 2], i);
    }
  }

  /** All symbols were seen, the node at position 0 is in a block with the nodes up to q, and these
      have weight 1. */
  ghost predicate Ones(v: Tree, q: nat) {
    && Valid(v) && v.zeros == [] && !v.loose && 1 <= q < v.Root()
    && (forall i :: 0 <= i <= q ==> v.w[i] == 1) && (q + 1 < v.Root() ==> v.w[q + 1] != 1)
  }

  /** The symbol at position 0. */
  lemma FirstSymbol(v: Tree)
    requires Valid(v) && v.zeros == []
    ensures |v.lab| > 0 && v.lab[0] < v.size && Find(v.lab, v.lab[0]) == 0 && v.Root() > 0
  {
    assert LabelOk(v, 0);
    LeftmostLeaf(v);
  }

  lemma LastOne(v: Tree, q: nat)
    requires Ones(v, q)
    ensures Leader(v, 0) == q == Target(v, 0) && v.up[0] > 1
  {
    assert ParentOk(v, 0);
    FirstSymbol(v);
    LeafOk(v, v.lab[0]);
    if Leader(v, 0) == v.up[0] {
      LeaderParent(v, 0);
    }
  }

  /** Counting the symbol at position 0 makes the block of weight 1 shorter by one. */
  lemma CountFirst(v: Tree, q: nat)
    requires Ones(v, q)
    ensures |v.lab| > 0 && v.lab[0] < v.size
    ensures var r := Updated(v, v.lab[0]);
            if q > 1 then Ones(r, q - 1) else r.zeros == [] && r.loose && r.Root() >= 2 && r.w[0] == 1 && r.w[1] == 2
  {
    FirstSymbol(v);
    LeafOk(v, v.lab[0]);
    LastOne(v, q);
    StepOk(v, 0);
    var s := Step(v, 0);
    assert ParentOk(s, q / 2);
    var p := s.up[q / 2];
    forall i | 0 <= i <= q ensures Climb(s, p).w[i] == s.w[i] && Climb(s, p).loose == s.loose {
      ClimbBelow(s, p, i);
    }
  }

  /** A count at position 0, where the node is loose. */
  lemma CountLoose(v: Tree)
    requires Valid(v) && v.zeros == [] && v.loose
    ensures |v.lab| > 0 && v.lab[0] < v.size
    ensures var r := Updated(v, v.lab[0]);
            && r.zeros == [] && r.loose && r.Root() >= 2 && v.Root() >= 2
            && r.w[0] == v.w[0] + 1 && r.w[1] == v.w[1]
  {
    FirstSymbol(v);
    LeafOk(v, v.lab[0]);
    PositiveAt(v, -1, 0);
    LowWeights(v, 0);
    StepOk(v, 0);
    assert ParentOk(v, 0) && ParentOk(Step(v, 0), 0);
    ClimbBelow(Step(v, 0), Step(v, 0).up[0], 0);
  }

  predicate OutOfOrder(v: Tree)
    requires Shape(v)
  {
    |v.up| >= 1 && v.w[0] > v.w[1]
  }

  /** Symbols of the alphabet that bring the tree out of order. */
  ghost predicate Breaks(v: Tree, syms: seq<nat>) {
    && Valid(v) && (forall i :: 0 <= i < |syms| ==> syms[i] < v.size)
    && Shape(Trained(v, syms)) && OutOfOrder(Trained(v, syms))
  }

  lemma BreaksNext(v: Tree, syms: seq<nat>)
    requires Valid(v) && |v.lab| > 0 && v.lab[0] < v.size && Breaks(Updated(v, v.lab[0]), syms)
    ensures Breaks(v, [v.lab[0]] + syms)
  {
    assert ([v.lab[0]] + syms)[1..] == syms;
  }

  /** Once loose, the node at position 0 overtakes its sibling. */
  lemma {:induction false} Overtakes(v: Tree) returns (syms: seq<nat>)
    requires Valid(v) && v.zeros == [] && v.loose && v.Root() >= 2 && v.w[0] <= v.w[1]
    ensures |syms| == v.w[1] - v.w[0] + 1 && Breaks(v, syms)
    decreases v.w[1] - v.w[0]
  {
    CountLoose(v);
    var r := Updated(v, v.lab[0]);
    if v.w[0] == v.w[1] {
      syms := [];
      assert Trained(r, []) == r;
    } else {
      syms := Overtakes(r);
    }
    BreaksNext(v, syms);
    syms := [v.lab[0]] + syms;
  }

  /** The block of weight 1 is used up, position by position, until the first node is loose. */
  lemma {:induction false} UsesUp(v: Tree, q: nat) returns (syms: seq<nat>)
    requires Ones(v, q)
    ensures |syms| == q + 2 && Breaks(v, syms)
    decreases q
  {
    CountFirst(v, q);
    var r := Updated(v, v.lab[0]);
    if q > 1 {
      syms := UsesUp(r, q - 1);
    } else {
      syms := Overtakes(r);
    }
    BreaksNext(v, syms);
    syms := [v.lab[0]] + syms;
  }

  /** Every symbol once. */
  function Alphabet(size: nat): (s: seq<nat>)
    ensures |s| == size && forall i :: 0 <= i < size ==> s[i] == i
  {
    seq(size, i => i)
  }

  lemma {:induction false} OnceEach(size: nat, n: nat)
    requires n < size
    ensures multiset(Alphabet(size))[n] == 1
  {
    var s := Alphabet(size);
    assert s == Alphabet(size - 1) + [size - 1];
    if n < size - 1 {
      OnceEach(size - 1, n);
    } else {
      assert size - 1 !in Alphabet(size - 1);
    }
  }

  lemma NoneUnseen(v: Tree)
    requires Named(v) && forall n :: 0 <= n < v.size ==> n !in v.zeros
    ensures v.zeros == []
  {
    forall i | 0 <= i < |v.zeros| ensures v.zeros[i] >= v.size {
      assert v.zeros[i] in v.zeros;
    }
  }

  /** After them, exactly the leaves have weight 1. */
  lemma AllSeen(size: nat, p: nat)
    requires size >= 2 && p <= Trained(Initial(size), Alphabet(size)).Root()
    ensures var v := Trained(Initial(size), Alphabet(size));
            v.zeros == [] && p < |v.w| && (v.w[p] == 1 <==> p !in v.up)
  {
    hide Trained, Alphabet, Sum, Sorted, Positive, LooseOk;
    var v := Trained(Initial(size), Alphabet(size));
    WeightsAreCounts(size, Alphabet(size), p);
    forall n | 0 <= n < size ensures n in Alphabet(size) {
      assert Alphabet(size)[n] == n;
    }
    NoneUnseen(v);
    assert LabelOk(v, p);
    if p in v.up {
      InnerHeavy(v, p);
    } else {
      OnceEach(size, v.lab[p]);
    }
  }

  lemma InnerHeavy(v: Tree, p: nat)
    requires Valid(v) && v.zeros == [] && p in v.up
    ensures p < |v.w| && v.w[p] >= 2
  {
    var j :| 0 <= j < |v.up| && v.up[j] == p;
    assert ParentOk(v, j) && PairSum(v, -1, j);
    PositiveAt(v, -1, 2 * j);
    PositiveAt(v, -1, 2 * j + 1);
  }

  /** At most half of the nodes are leaves. */
  lemma OnesFew(v: Tree, q: nat)
    requires Valid(v) && v.zeros == [] && q <= v.Root() && forall i :: 0 <= i <= q ==> v.w[i] == 1
    ensures q < v.size
  {
    forall j | 0 <= j < |v.up| ensures q + 1 <= v.up[j] < v.Root() + 1 {
      assert ParentOk(v, j) && v.up[j] in v.up;
      InnerHeavy(v, v.up[j]);
    }
    Pigeonhole(v.up, q + 1, v.Root() + 1);
  }

  /** Exactly the leaves have weight 1. */
  ghost predicate LeavesOne(v: Tree) {
    Valid(v) && v.zeros == [] && forall p :: 0 <= p <= v.Root() ==> (v.w[p] == 1 <==> p !in v.up)
  }

  lemma FromOnes(v: Tree) returns (syms: seq<nat>)
    requires LeavesOne(v)
    ensures |syms| <= v.size + 1 && Breaks(v, syms)
  {
    hide Named, Sum, Breaks;
    LeftmostLeaf(v);
    SecondLeaf(v);
    assert v.Root() >= 2 && v.w[0] == v.w[1] == 1;
    if v.loose {
      syms := Overtakes(v);
    } else {
      var q := LastEqual(v.w, 1, v.Root());
      syms := UsesUp(v, q);
      OnesFew(v, q);
    }
  }

  /** In every alphabet, that of 256 symbols included, some 2 * size + 1 symbols or fewer lead from the
      beginning to a tree whose weights are out of order. */
  lemma OrderFails(size: nat) returns (syms: seq<nat>)
    requires size >= 2
    ensures |syms| <= 2 * size + 1 && forall i :: 0 <= i < |syms| ==> syms[i] < size
    ensures var v := Trained(Initial(size), syms); Shape(v) && !Ordered(v)
  {
    hide Mid, Trained, Shape, Named;
    var first := Alphabet(size);
    var v := Trained(Initial(size), first);
    ShapeOf(v);
    forall p | 0 <= p <= v.Root() ensures v.zeros == [] && p < |v.w| && (v.w[p] == 1 <==> p !in v.up) {
      AllSeen(size, p);
    }
    AllSeen(size, 0);
    assert LeavesOne(v);
    var rest := FromOnes(v);
    syms := first + rest;
    TrainedOn(Initial(size), first, rest);
    Disordered(Trained(v, rest));
  }

  lemma Disordered(v: Tree)
    requires Shape(v) && OutOfOrder(v)
    ensures !Ordered(v)
  {
  }

  lemma SecondLeaf(v: Tree)
    requires Shape(v)
    ensures 1 !in v.up
  {
    forall j | 0 <= j < |v.up| ensures v.up[j] != 1 {
      assert ParentOk(v, j);
    }
  }

  lemma {:induction false} TrainedOn(v: Tree, a: seq<nat>, b: seq<nat>)
    requires Valid(v) && (forall i :: 0 <= i < |a| ==> a[i] < v.size) && forall i :: 0 <= i < |b| ==> b[i] < v.size
    ensures Trained(v, a + b) == Trained(Trained(v, a), b)
    decreases |a|
  {
    hide Mid, Updated;
    if a == [] {
      assert a + b == b;
    } else {
      assert (a + b)[1..] == a[1..] + b;
      TrainedOn(Updated(v, a[0]), a[1..], b);
    }
  }
}

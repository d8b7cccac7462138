/** The adaptive Huffman coder of Baseline/third/xdelta/xdelta3-fgk.h: linked nodes, changed in place,
    that hold the tree of `FgkTree`. */
module FgkStream {
  import opened Basics
  import opened BitStream
  import opened FgkBlocks
  import opened FgkCode
  import opened FgkGrow
  import opened FgkLeaders
  import opened FgkLinks
  import opened FgkPromote
  import opened FgkTree

  /** All links, weights and counters together. */
  ghost predicate LinksOk(v: Tree, left: seq<int>, right: seq<int>, parent: seq<int>, lc: seq<int>, rc: seq<int>,
                          weight: seq<nat>, zeros: int, root: int, free: int, count: nat, exp: nat, rem: nat)
  {
    && Shape(v) && ListOk(v.lab, left, right) && ZerosLeft(v.zeros, left)
    && ParentsOk(v, parent) && KidsOk(v, lc, rc) && WeightsOk(v, weight)
    && HeadsOk(v, zeros, root, free) && CountsOk(v, count, exp, rem)
  }

  predicate Fresh(i: nat, size: nat, left: seq<int>, right: seq<int>, parent: seq<int>, lc: seq<int>, rc: seq<int>,
      weight: seq<nat>)
    requires i < size <= |left| == |right| == |parent| == |lc| == |rc| == |weight|
  {
    && weight[i] == 0 && left[i] == right[i] == parent[i] == NIL
    && lc[i] == (if i == 0 then NIL else i - 1) && rc[i] == if i + 1 == size then NIL else i + 1
  }

  class FgkStream {
    const alphabetSize: nat
    var zeroFreqCount: nat
    var zeroFreqExp: nat
    var zeroFreqRem: nat
    var codedBits: seq<bool>
    var codedDepth: nat

    // the blocks and the nodes, field by field
    var blocks: Pool
    var weight: seq<nat>
    var parent: seq<int>
    var leftChild: seq<int>
    var rightChild: seq<int>
    var left: seq<int>
    var right: seq<int>
    var myBlock: seq<int>

    var decodePtr: int
    var remainingZeros: int
    var rootNode: int
    var freeNode: int

    ghost var tree: Tree
    ghost var free: seq<nat>
    ghost var cursor: Cursor

    /** The arrays have the sizes that fgk_alloc gives them. */
    ghost predicate Sized()
      reads this
    {
      && alphabetSize >= 2 && |codedBits| == alphabetSize && |blocks.un| == 2 * (2 * alphabetSize - 1)
      && |weight| == |parent| == |leftChild| == |rightChild| == |left| == |right| == |myBlock| == 2 * alphabetSize - 1
    }

    /** The links hold the tree; x is the position about to be counted. */
    ghost predicate Holds(x: int)
      reads this
    {
      && Sized() && Mid(tree, x) && tree.size == alphabetSize
      && LinksOk(tree, left, right, parent, leftChild, rightChild, weight, remainingZeros, rootNode, freeNode,
                 zeroFreqCount, zeroFreqExp, zeroFreqRem)
      && Blocked(tree, x, myBlock, blocks, free)
    }

    // -------------------------------------------------------------- fgk_alloc and fgk_init

    /** fgk_alloc, and fgk_init: no symbol was seen, and coder and decoder stand at the root. */
    constructor (size: nat)
      requires size >= 2
      ensures Reading() && alphabetSize == size && tree == Initial(size) && cursor == Top(tree)
    {
      alphabetSize := size;
      var total := 2 * size - 1;
      blocks := Pool(seq(2 * total, _ => 0), NIL);
      codedBits := seq(size, _ => false);
      weight := seq(total, _ => 0);
      parent, leftChild, rightChild := seq(total, _ => NIL), seq(total, _ => NIL), seq(total, _ => NIL);
      left, right, myBlock := seq(total, _ => NIL), seq(total, _ => NIL), seq(total, _ => NIL);
      new;
      Init();
    }

    /** fgk_init */
    method Init()
      requires Sized()
      modifies this
      ensures Reading() && tree == Initial(alphabetSize) && cursor == Top(tree)
    {
      hide LinksOk, Blocked, Mid, Fresh, Exponent, Initial;
      InitHeads();
      InitBlocks();
      InitNodes();
      tree := Initial(alphabetSize);
      cursor := Top(tree);
      InitialParts(alphabetSize);
      InitialLinks(alphabetSize, left, right, parent, leftChild, rightChild, weight);
      free := seq(|blocks.un|, b => b);
      InitialBlocked(tree, myBlock, blocks, free);
    }

    method InitHeads()
      requires alphabetSize >= 2
      modifies `rootNode, `decodePtr, `freeNode, `remainingZeros, `codedDepth, `zeroFreqCount, `zeroFreqExp,
               `zeroFreqRem
      ensures rootNode == decodePtr == remainingZeros == codedDepth == 0 && freeNode == alphabetSize == zeroFreqCount
      ensures zeroFreqExp == Exponent(alphabetSize) && zeroFreqRem == alphabetSize - Pow2(Exponent(alphabetSize))
    {
      rootNode := 0;
      decodePtr := rootNode;
      freeNode := alphabetSize;
      remainingZeros := 0;
      codedDepth := 0;
      zeroFreqCount := alphabetSize + 2;
      FactorRemaining();
      FactorRemaining();
    }

    /** All blocks are free, each linked to the next. */
    method InitBlocks()
      requires |blocks.un| >= 1
      modifies `blocks
      ensures |blocks.un| == old(|blocks.un|) && blocks.head == 0
      ensures forall b :: 0 <= b < |blocks.un| ==> blocks.un[b] == if b + 1 < |blocks.un| then b + 1 else NIL
    {
      var ui: nat := 0;
      while ui < |blocks.un| - 1
        invariant ui < |blocks.un| == old(|blocks.un|)
        invariant forall b :: 0 <= b < ui ==> blocks.un[b] == b + 1
      {
        blocks := blocks.(un := blocks.un[ui := ui + 1]);
        ui := ui + 1;
      }
      blocks := blocks.(un := blocks.un[|blocks.un| - 1 := NIL]);
      blocks := blocks.(head := 0);
    }

    method InitNodes()
      requires Sized()
      modifies `weight, `parent, `leftChild, `rightChild, `left, `right, `myBlock
      ensures Sized() && forall i :: 0 <= i < alphabetSize ==>
              Fresh(i, alphabetSize, left, right, parent, leftChild, rightChild, weight)
    {
      var si: nat := alphabetSize;
      while si > 0
        invariant si <= alphabetSize && Sized()
        invariant forall i :: si <= i < alphabetSize ==>
                  Fresh(i, alphabetSize, left, right, parent, leftChild, rightChild, weight)
      {
        si := si - 1;
        InitNode(si);
      }
    }

    /** fgk_init_node: an unseen symbol, linked to the ones before and after it. */
    method InitNode(i: nat)
      requires Sized() && i < alphabetSize
      modifies `weight, `parent, `leftChild, `rightChild, `left, `right, `myBlock
      ensures Sized() && Fresh(i, alphabetSize, left, right, parent, leftChild, rightChild, weight)
      ensures forall k :: 0 <= k < alphabetSize && k != i &&
                          old(Fresh(k, alphabetSize, left, right, parent, leftChild, rightChild, weight)) ==>
                          Fresh(k, alphabetSize, left, right, parent, leftChild, rightChild, weight)
    {
      rightChild := rightChild[i := if i < alphabetSize - 1 then i + 1 else NIL];
      leftChild := leftChild[i := if i >= 1 then i - 1 else NIL];
      weight := weight[i := 0];
      parent := parent[i := NIL];
      right := right[i := NIL];
      left := left[i := NIL];
      myBlock := myBlock[i := NIL];
    }

    // -------------------------------------------------------------- blocks

    method MakeBlock(lead: nat) returns (ret: nat)
      requires 0 <= blocks.head < |blocks.un|
      modifies `blocks
      ensures ret == old(blocks.head) && blocks == Make(old(blocks), lead)
    {
      ret := blocks.head;
      blocks := blocks.(head := blocks.un[ret]);
      blocks := blocks.(un := blocks.un[ret := lead]);
    }

    method FreeBlock(b: nat)
      requires b < |blocks.un|
      modifies `blocks
      ensures blocks == Free(old(blocks), b)
    {
      blocks := blocks.(un := blocks.un[b := blocks.head]);
      blocks := blocks.(head := b);
    }

    // -------------------------------------------------------------- fgk_move_right

    /** The nodes `fwd` and `back`, at positions i < k of the list, change places in it. */
    method SwapInList(fwd: nat, back: nat, ghost lab: seq<nat>, ghost i: nat, ghost k: nat)
      requires ListOk(lab, left, right) && Distinct(lab)
      requires i < k < |lab| - 1 && NodesIn(lab, |left|) && lab[i] == fwd && lab[k] == back
      modifies `left, `right
      ensures left == SwappedLeft(lab, old(left), i, k) && right == SwappedRight(lab, old(right), i, k)
    {
      ghost var l, r := left, right;
      assert ListAt(lab, l, r, i) && ListAt(lab, l, r, k) && ListAt(lab, l, r, k + 1);
      assert ListAt(lab, l, r, i + 1) && ListAt(lab, l, r, k - 1) && (i > 0 ==> ListAt(lab, l, r, i - 1));
      left := left[right[back] := fwd];
      if left[fwd] != NIL {
        right := right[left[fwd] := back];
      }
      var tmp := right[fwd];
      right := right[fwd := right[back]];
      if tmp == back {
        right := right[back := fwd];
      } else {
        left := left[tmp := back];
        right := right[back := tmp];
      }
      tmp := left[back];
      left := left[back := left[fwd]];
      if tmp == fwd {
        left := left[fwd := back];
      } else {
        right := right[tmp := fwd];
        left := left[fwd := tmp];
      }
    }

    /** The subtrees `fwd` and `back`, at positions i < k, change places. */
    method SwapInTree(fwd: nat, back: nat, ghost v: Tree, ghost i: nat, ghost k: nat)
      requires Shape(v) && Named(v) && ParentsOk(v, parent) && KidsOk(v, leftChild, rightChild)
      requires i < k < v.Root() && v.lab[i] == fwd && v.lab[k] == back && NodesIn(v.lab, |leftChild|) &&
               NodesIn(v.lab, |parent|)
      modifies `parent, `leftChild, `rightChild
      ensures parent == old(parent)[fwd := old(parent)[back]][back := old(parent)[fwd]]
      ensures leftChild == SwappedKids(v, old(leftChild), i, k, 0)
      ensures rightChild == SwappedKids(v, old(rightChild), i, k, 1)
    {
      assert ParentAt(v, parent, i) && ParentAt(v, parent, k) && ParentOk(v, i / 2) && ParentOk(v, k / 2);
      assert KidsAt(v, leftChild, rightChild, i / 2) && KidsAt(v, leftChild, rightChild, k / 2);
      var pf, pb := parent[fwd], parent[back];
      var fwdRight, backRight := rightChild[pf] == fwd, rightChild[pb] == back;
      assert (fwdRight <==> i % 2 == 1) && (backRight <==> k % 2 == 1);
      parent := parent[fwd := pb][back := pf];
      if fwdRight {
        rightChild := rightChild[pf := back];
      } else {
        leftChild := leftChild[pf := back];
      }
      if backRight {
        rightChild := rightChild[pb := fwd];
      } else {
        leftChild := leftChild[pb := fwd];
      }
    }

    /** fgk_move_right: the node at position p changes places with the leader of its block. */
    method MoveRight(fwd: nat, ghost p: nat)
      requires Holds(p) && p < tree.Root() && fwd == tree.lab[p]
      modifies `parent, `leftChild, `rightChild, `left, `right, `blocks, `tree
      ensures tree == Swap(old(tree), p, Target(old(tree), p)) && Holds(Target(old(tree), p))
    {
      hide ListOk, ZerosLeft, ParentsOk, KidsOk, WeightsOk, NodesIn, Named, Sum, Sorted, Positive, LooseOk,
           Swap, Target, HeadsOk, CountsOk, Blocked;
      MoveFacts(tree, p, parent, weight, myBlock, blocks, free);
      var back := blocks.un[myBlock[fwd]];
      if fwd == back || parent[fwd] == back || weight[fwd] == 0 {
        SwapSelf(tree, p);
        return;
      }
      MoveTo(fwd, back, p, Target(tree, p));
    }

    method MoveTo(fwd: nat, back: nat, ghost p: nat, ghost q: nat)
      requires Holds(p) && p < tree.Root() && fwd == tree.lab[p] && p < q == Target(tree, p) && back == tree.lab[q]
      requires (tree.zeros == [] || p > 0) && tree.w[p] == tree.w[q]
      modifies `parent, `leftChild, `rightChild, `left, `right, `blocks, `tree
      ensures tree == Swap(old(tree), p, q) && Holds(q)
    {
      ghost var v := tree;
      hide ListOk, ZerosLeft, ParentsOk, KidsOk, WeightsOk, Blocked, NodesIn, Named, Sum, Sorted, Positive, LooseOk,
           SwappedLeft, SwappedRight, SwappedKids, Swap, Target, ParentOk, Distinct, HeadsOk, CountsOk;
      SwapOk(v, p);
      SwapRest(v, p, q);
      SwapListAt(fwd, back, p, q);
      SwapTreeAt(fwd, back, p, q);
      SwappedBlocksOk(v, myBlock, blocks, free, p);
      blocks := blocks.(un := blocks.un[myBlock[fwd] := fwd]);
      SwappedWeightsOk(v, weight, p, q);
      SwapHeads(v, p, q, remainingZeros, rootNode, freeNode, zeroFreqCount, zeroFreqExp, zeroFreqRem);
      tree := Swap(v, p, q);
    }

    method SwapListAt(fwd: nat, back: nat, ghost p: nat, ghost q: nat)
      requires Shape(tree) && Named(tree) && ListOk(tree.lab, left, right) && ZerosLeft(tree.zeros, left)
      requires p < q < tree.Root() && fwd == tree.lab[p] && back == tree.lab[q] && (tree.zeros == [] || p > 0)
      modifies `left, `right
      ensures ListOk(Swap(tree, p, q).lab, left, right) && ZerosLeft(tree.zeros, left)
      ensures |left| == old(|left|) && |right| == old(|right|)
    {
      hide ListOk, ZerosLeft, NodesIn, Named, Distinct, Swap, SwappedLeft, SwappedRight;
      ListIn(tree, left, right);
      DistinctNodes(tree);
      SwapRest(tree, p, q);
      SwapInList(fwd, back, tree.lab, p, q);
      SwappedListOk(tree, old(left), old(right), p, q);
    }

    method SwapTreeAt(fwd: nat, back: nat, ghost p: nat, ghost q: nat)
      requires Shape(tree) && Named(tree) && ParentsOk(tree, parent) && KidsOk(tree, leftChild, rightChild)
      requires p < q < tree.Root() && fwd == tree.lab[p] && back == tree.lab[q] && Shape(Swap(tree, p, q))
      requires tree.zeros == [] || p > 0
      modifies `parent, `leftChild, `rightChild
      ensures ParentsOk(Swap(tree, p, q), parent) && KidsOk(Swap(tree, p, q), leftChild, rightChild)
      ensures |parent| == old(|parent|) && |leftChild| == old(|leftChild|) && |rightChild| == old(|rightChild|)
    {
      hide ParentsOk, KidsOk, NodesIn, Named, Distinct, Swap, ParentOk, SwappedKids;
      ParentsIn(tree, parent);
      KidsIn(tree, leftChild, rightChild);
      DistinctNodes(tree);
      SwapInTree(fwd, back, tree, p, q);
      SwappedKidsOk(tree, old(leftChild), old(rightChild), p, q);
      SwappedParentsOk(tree, old(parent), p, q);
    }

    // -------------------------------------------------------------- fgk_promote

    /** fgk_promote: the node, the leader of its block, goes on to the next block, or to a new one. */
    method Promote(node: nat, ghost q: nat)
      requires Holds(q) && q < tree.Root() && CanGrow(tree, q) && node == tree.lab[q]
      modifies `blocks, `myBlock, `free
      ensures Sized() && Blocked(Bump(tree, q), tree.up[q / 2], myBlock, blocks, free)
    {
      ghost var v := tree;
      hide ListOk, ZerosLeft, ParentsOk, KidsOk, WeightsOk, Blocked, Named, Sum, Sorted, Positive, LooseOk,
           HeadsOk, CountsOk, Bump, CanGrow, Make, Free;
      ListFacts(v, q, left, right, weight, remainingZeros, rootNode, freeNode);
      BlockFacts(v, q, myBlock, blocks, free);
      if weight[node] == 0 {
        StaysBlocked(v, q, myBlock, blocks, free);
        return;
      }
      var myRight, myLeft := right[node], left[node];
      if q == 0 {
        FirstFacts(v, leftChild, rightChild, weight);
      } else {
        KidFacts(v, q, leftChild, rightChild, weight);
      }
      if myLeft == rightChild[node] && leftChild[node] != NIL && weight[leftChild[node]] == 0 {
        SkewHeads(v, remainingZeros, rootNode, freeNode);
        assert leftChild[node] == remainingZeros && weight[rightChild[node]] == weight[node] + 1;
        PromoteParent(node, myLeft, myRight);
        return;
      }
      if myLeft == remainingZeros {
        StaysBlocked(v, q, myBlock, blocks, free);
        return;
      }
      LeaveBlock(node, myLeft, q);
      if weight[node] + 1 == weight[myRight] && myRight != rootNode {
        EntersNext(v, q, myBlock, blocks, free);
        myBlock := myBlock[node := myBlock[myRight]];
      } else {
        NodeCount(v);
        EntersNew(v, q, myBlock, blocks, free);
        var b := MakeBlock(node);
        myBlock := myBlock[node := b];
        free := free[1..];
      }
    }

    /** The parent of the unseen symbols: its right child, counted just before, goes with it. */
    method PromoteParent(node: nat, myLeft: nat, myRight: nat)
      requires Sized() && Mid(tree, 2) && 2 < tree.Root() && tree.zeros != [] && tree.w[2] > 0
      requires Blocked(tree, 2, myBlock, blocks, free)
      requires myLeft == tree.lab[1] && node == tree.lab[2] && myRight == tree.lab[3]
      requires myRight < |weight| && weight[myRight] == tree.w[3] && node < |weight| && weight[node] == tree.w[2]
      requires rootNode == tree.lab[tree.Root()]
      modifies `blocks, `myBlock, `free
      ensures Sized() && Blocked(Bump(tree, 2), tree.up[1], myBlock, blocks, free)
    {
      hide Blocked, Named, Sum, Sorted, Positive, LooseOk, Bump, Free;
      if weight[node] + 1 == weight[myRight] && myRight != rootNode {
        SkewMoves(tree, myBlock, blocks, free);
        var cur := myBlock[node];
        FreeBlock(cur);
        myBlock := myBlock[node := myBlock[myRight]];
        myBlock := myBlock[myLeft := myBlock[myRight]];
        free := [cur] + free;
      } else {
        RootApart(tree);
        SkewStays(tree, myBlock, blocks, free);
      }
    }

    /** The lead goes to the left neighbour if that is in the same block; otherwise the block is
        not needed any more. */
    method LeaveBlock(node: nat, myLeft: nat, ghost q: nat)
      requires Sized() && Mid(tree, q) && 1 <= q < tree.Root() && CanGrow(tree, q) && !Stays(tree, q) && !Skew(tree, q)
      requires Blocked(tree, q, myBlock, blocks, free) && tree.w[q] > 0
      requires node == tree.lab[q] && myLeft == tree.lab[q - 1]
      modifies `blocks, `free
      ensures Sized() && BlocksOk(tree.lab, On(tree) - {q}, MovedLasts(tree, q), myBlock, blocks, free)
    {
      hide Blocked, BlocksOk, MovedLasts, Named, Sum, Sorted, Positive, LooseOk, CanGrow, Bump, Free;
      BlockFacts(tree, q, myBlock, blocks, free);
      var cur := myBlock[node];
      if myBlock[myLeft] == cur {
        LeavesOthers(tree, q, myBlock, blocks, free);
        blocks := blocks.(un := blocks.un[myBlock[myLeft] := myLeft]);
      } else {
        LeavesNone(tree, q, myBlock, blocks, free);
        FreeBlock(cur);
        free := [cur] + free;
      }
    }

    // -------------------------------------------------------------- the unseen symbols

    /** fgk_factor_remaining: one unseen symbol less. */
    method FactorRemaining()
      requires zeroFreqCount > 1
      modifies `zeroFreqCount, `zeroFreqExp, `zeroFreqRem
      ensures zeroFreqCount == old(zeroFreqCount) - 1
      ensures zeroFreqExp == Exponent(zeroFreqCount) && zeroFreqRem == zeroFreqCount - Pow2(zeroFreqExp)
    {
      zeroFreqCount := zeroFreqCount - 1;
      var i := zeroFreqCount;
      zeroFreqExp := 0;
      while i > 1
        invariant zeroFreqCount == old(zeroFreqCount) - 1
        invariant i >= 1 && zeroFreqExp + Exponent(i) == Exponent(zeroFreqCount)
      {
        zeroFreqExp := zeroFreqExp + 1;
        i := i / 2;
      }
      zeroFreqRem := zeroFreqCount - Pow2(zeroFreqExp);
    }

    /** fgk_find_nth_zero: the index of n among the unseen symbols. */
    method FindNthZero(n: nat, ghost zeros: seq<nat>) returns (idx: nat)
      requires n in zeros && ZerosLinked(zeros, leftChild, rightChild) && remainingZeros == zeros[0]
      ensures idx == Find(zeros, n)
    {
      var head: int := remainingZeros;
      idx := 0;
      while n != head
        invariant idx < |zeros| && head == zeros[idx]
        invariant n in zeros[idx..] && Find(zeros, n) == idx + Find(zeros[idx..], n)
        decreases |zeros| - idx
      {
        assert ZeroAt(zeros, leftChild, rightChild, idx);
        assert zeros[idx..][1..] == zeros[idx + 1..];
        head := rightChild[head];
        idx := idx + 1;
      }
    }

    /** fgk_nth_zero: the n-th unseen symbol, or the last one. */
    method NthZeroOf(n: nat, ghost v: Tree) returns (z: nat)
      requires v.zeros != [] && ZerosLinked(v.zeros, leftChild, rightChild) && remainingZeros == v.zeros[0]
      ensures z == NthZero(v, n)
    {
      var ret: int := remainingZeros;
      var i: nat, k := n, 0;
      assert ZeroAt(v.zeros, leftChild, rightChild, 0);
      while i != 0 && rightChild[ret] != NIL
        invariant k < |v.zeros| && ret == v.zeros[k] && i + k == n && 0 <= ret < |rightChild|
        decreases i
      {
        assert ZeroAt(v.zeros, leftChild, rightChild, k);
        k := k + 1;
        ret := rightChild[ret];
        assert ZeroAt(v.zeros, leftChild, rightChild, k);
        i := i - 1;
      }
      assert ZeroAt(v.zeros, leftChild, rightChild, k);
      z := ret;
    }

    /** fgk_eliminate_zero */
    method EliminateZero(node: nat, ghost zeros: seq<nat>)
      requires node in zeros && |zeros| > 1 && zeroFreqCount == |zeros| && Distinct(zeros)
      requires ZerosLinked(zeros, leftChild, rightChild) && remainingZeros == zeros[0] && NodesIn(zeros, |leftChild|)
      modifies `zeroFreqCount, `zeroFreqExp, `zeroFreqRem, `remainingZeros, `leftChild, `rightChild
      ensures zeroFreqCount == |zeros| - 1 && zeroFreqExp == Exponent(zeroFreqCount)
      ensures zeroFreqRem == zeroFreqCount - Pow2(zeroFreqExp)
      ensures leftChild == CutLeft(zeros, Find(zeros, node), old(leftChild))
      ensures rightChild == CutRight(zeros, Find(zeros, node), old(rightChild))
      ensures remainingZeros == if zeros[0] == node then zeros[1] else zeros[0]
    {
      if zeroFreqCount == 1 {
        return;
      }
      FactorRemaining();
      ghost var k := Find(zeros, node);
      assert ZeroAt(zeros, leftChild, rightChild, k) && ZeroAt(zeros, leftChild, rightChild, 0);
      assert zeros[0] == node <==> k == 0;
      if leftChild[node] == NIL {
        remainingZeros := rightChild[remainingZeros];
        leftChild := leftChild[remainingZeros := NIL];
      } else if rightChild[node] == NIL {
        rightChild := rightChild[leftChild[node] := NIL];
      } else {
        leftChild := leftChild[rightChild[node] := leftChild[node]];
        rightChild := rightChild[leftChild[node] := rightChild[node]];
      }
    }

    // -------------------------------------------------------------- fgk_increase_zero_weight

    /** fgk_increase_zero_weight */
    method IncreaseZeroWeight(n: nat) returns (node: nat)
      requires Holds(-1) && n in tree.zeros
      modifies this
      ensures node == n && tree == Insert(old(tree), n) && Holds(Start(old(tree)))
      ensures codedBits == old(codedBits) && codedDepth == old(codedDepth) && decodePtr == old(decodePtr)
    {
      hide ListOk, ZerosLeft, ParentsOk, KidsOk, WeightsOk, HeadsOk, Blocked, Named, Sum, Sorted, Positive, LooseOk,
           Insert;
      node := n;
      if zeroFreqCount == 1 {
        IncreaseLast(n);
      } else {
        Grow(n);
      }
    }

    method Grow(n: nat)
      requires Holds(-1) && n in tree.zeros && zeroFreqCount != 1
      modifies `zeroFreqCount, `zeroFreqExp, `zeroFreqRem, `blocks, `weight, `parent, `leftChild, `rightChild, `left,
               `right,
               `myBlock, `remainingZeros, `rootNode, `freeNode, `tree, `free
      ensures tree == Insert(old(tree), n) && Holds(1)
    {
      ghost var v := tree;
      hide LinksOk, Blocked, Mid, Insert, Distinct, NodesIn, ZerosLinked, CutLeft, CutRight, Named, TopLeft, TopLc,
           AtZero, Exponent, Find;
      GrowFacts(v, n, left, right, parent, leftChild, rightChild, weight, remainingZeros, rootNode, freeNode,
                zeroFreqCount, zeroFreqExp, zeroFreqRem);
      GrowNodes(n, v);
      GrowLinks(v, n, old(left), old(right), old(parent), old(leftChild), old(rightChild), old(weight),
                old(remainingZeros), old(rootNode), old(freeNode), old(zeroFreqCount), old(zeroFreqExp),
                    old(zeroFreqRem));
      tree := Insert(v, n);
    }

    method GrowNodes(n: nat, ghost v: Tree)
      requires Sized() && Valid(v) && v.size == alphabetSize && n in v.zeros && |v.zeros| > 1 && n < v.size
      requires Blocked(v, -1, myBlock, blocks, free) && AtZero(v, right, parent, rightChild, weight)
      requires |v.lab| == v.Root() + 1 && remainingZeros == v.lab[0] == v.zeros[0] < v.size
      requires freeNode == v.size + |v.up| < 2 * v.size - 1 && (rootNode == remainingZeros <==> |v.up| == 0)
      requires zeroFreqCount == |v.zeros| && Distinct(v.zeros) && NodesIn(v.zeros, |leftChild|)
      requires ZerosLinked(v.zeros, TopLc(v, leftChild), rightChild[freeNode := n])
      modifies `zeroFreqCount, `zeroFreqExp, `zeroFreqRem, `blocks, `weight, `parent, `leftChild, `rightChild, `left,
               `right,
               `myBlock, `remainingZeros, `rootNode, `freeNode, `free
      ensures Sized() && freeNode == old(freeNode) + 1 && zeroFreqCount == |v.zeros| - 1
      ensures zeroFreqExp == Exponent(zeroFreqCount) && zeroFreqRem == zeroFreqCount - Pow2(zeroFreqExp)
      ensures remainingZeros == (if v.zeros[0] == n then v.zeros[1] else v.zeros[0]) < |left|
      ensures parent == old(parent)[old(freeNode) := old(parent)[v.zeros[0]]][n := old(freeNode)][remainingZeros :=
              old(freeNode)]
      ensures right == old(right)[old(freeNode) := old(right)[v.zeros[0]]][n := old(freeNode)][remainingZeros := n]
      ensures left == TopLeft(v, n, old(left))[n := remainingZeros] && weight == old(weight)[old(freeNode) := 0]
      ensures leftChild ==
              CutLeft(v.zeros, Find(v.zeros, n), TopLc(v, old(leftChild)))[old(freeNode) := remainingZeros][n := NIL]
      ensures rightChild == CutRight(v.zeros, Find(v.zeros, n), old(rightChild)[old(freeNode) := n])[n := NIL]
      ensures rootNode == if |v.up| > 0 then old(rootNode) else old(freeNode)
      ensures Blocked(Insert(v, n), 1, myBlock, blocks, free)
    {
      hide Blocked, Mid, Insert, Distinct, NodesIn, ZerosLinked, CutLeft, CutRight, TopLeft, TopLc, Exponent, Find;
      var internal := freeNode;
      GrowTop(n, v);
      GrowBottom(n, internal, v);
    }

    /** The new parent takes the place of the unseen symbols in the tree. */
    method GrowTop(n: nat, ghost v: Tree)
      requires Sized() && Valid(v) && v.size == alphabetSize && n in v.zeros && |v.zeros| > 1 && n < v.size
      requires Blocked(v, -1, myBlock, blocks, free) && AtZero(v, right, parent, rightChild, weight)
      requires |v.lab| == v.Root() + 1 && remainingZeros == v.lab[0] < v.size &&
               freeNode == v.size + |v.up| < 2 * v.size - 1
      requires rootNode == remainingZeros <==> |v.up| == 0
      modifies `blocks, `weight, `parent, `leftChild, `rightChild, `left, `right, `myBlock, `rootNode, `freeNode, `free
      ensures Sized() && freeNode == old(freeNode) + 1
      ensures var new_, zero := old(freeNode), remainingZeros;
              && parent == old(parent)[new_ := old(parent)[zero]] && right == old(right)[new_ := old(right)[zero]]
              && weight == old(weight)[new_ := 0] && rightChild == old(rightChild)[new_ := n]
              && left == TopLeft(v, n, old(left)) && leftChild == TopLc(v, old(leftChild))
              && rootNode == if |v.up| > 0 then old(rootNode) else new_
      ensures Blocked(Insert(v, n), 1, myBlock, blocks, free)
    {
      hide Blocked, Valid, Mid, Insert, Make;
      var zero, internal := remainingZeros, freeNode;
      freeNode := freeNode + 1;
      NewParent(n, zero, internal);
      if remainingZeros == rootNode {
        rootNode := internal;
        FirstBlocks(n, internal, v);
      } else {
        left := left[right[internal] := internal];
        ReplaceChild(parent[zero], zero, internal);
        NextBlocks(n, internal, right[internal], v);
      }
    }

    /** The new parent's own links. */
    method NewParent(n: nat, zero: nat, internal: nat)
      requires Sized() && zero < internal < |left|
      modifies `parent, `right, `weight, `rightChild, `left
      ensures Sized()
      ensures parent == old(parent)[internal := old(parent)[zero]] && right == old(right)[internal := old(right)[zero]]
      ensures weight == old(weight)[internal := 0] && rightChild == old(rightChild)[internal := n]
      ensures left == old(left)[internal := n]
    {
      parent := parent[internal := parent[zero]];
      right := right[internal := right[zero]];
      weight := weight[internal := 0];
      rightChild := rightChild[internal := n];
      left := left[internal := n];
    }

    method ReplaceChild(at: nat, child: nat, by_: nat)
      requires at < |leftChild| && at < |rightChild|
      modifies `leftChild, `rightChild
      ensures if old(rightChild)[at] == child
              then rightChild == old(rightChild)[at := by_] && leftChild == old(leftChild)
              else leftChild == old(leftChild)[at := by_] && rightChild == old(rightChild)
    {
      if rightChild[at] == child {
        rightChild := rightChild[at := by_];
      } else {
        leftChild := leftChild[at := by_];
      }
    }

    method FirstBlocks(n: nat, internal: nat, ghost v: Tree)
      requires Sized() && Valid(v) && v.size == alphabetSize && n in v.zeros && |v.zeros| > 1 && |v.up| == 0
      requires Blocked(v, -1, myBlock, blocks, free) && internal == v.size + |v.up|
      modifies `blocks, `myBlock, `free
      ensures Sized() && Blocked(Insert(v, n), 1, myBlock, blocks, free)
    {
      hide Blocked, Named, Sum, Sorted, Positive, LooseOk, Insert, Make;
      GrowFirst(v, n, myBlock, blocks, free);
      var b := MakeBlock(n);
      myBlock := myBlock[n := b];
      var c := MakeBlock(internal);
      myBlock := myBlock[internal := c];
      free := free[1..][1..];
    }

    method NextBlocks(n: nat, internal: nat, next: int, ghost v: Tree)
      requires Sized() && Valid(v) && v.size == alphabetSize && n in v.zeros && |v.zeros| > 1 && |v.up| > 0
      requires Blocked(v, -1, myBlock, blocks, free) && internal == v.size + |v.up|
      requires next == v.lab[1] < |weight| && weight[next] == v.w[1]
      modifies `blocks, `myBlock, `free
      ensures Sized() && Blocked(Insert(v, n), 1, myBlock, blocks, free)
    {
      hide Blocked, Named, Sum, Sorted, Positive, LooseOk, Insert, Make;
      if weight[next] == 1 {
        GrowJoins(v, n, myBlock, blocks, free);
        myBlock := myBlock[internal := myBlock[next]];
      } else {
        GrowAlone(v, n, myBlock, blocks, free);
        var b := MakeBlock(internal);
        myBlock := myBlock[internal := b];
        free := free[1..];
      }
      myBlock := myBlock[n := myBlock[internal]];
    }

    /** The symbol leaves the unseen ones and is linked under the new parent, beside the rest. */
    method GrowBottom(n: nat, internal: nat, ghost v: Tree)
      requires n in v.zeros && |v.zeros| > 1 && zeroFreqCount == |v.zeros| && Distinct(v.zeros) && n < internal
      requires ZerosLinked(v.zeros, leftChild, rightChild) && remainingZeros == v.zeros[0] &&
               NodesIn(v.zeros, |leftChild|)
      requires |leftChild| == |left| == |right| == |parent| && internal < |left|
      modifies `zeroFreqCount, `zeroFreqExp, `zeroFreqRem, `remainingZeros, `leftChild, `rightChild, `left, `right,
               `parent
      ensures zeroFreqCount == |v.zeros| - 1 && zeroFreqExp == Exponent(zeroFreqCount)
      ensures zeroFreqRem == zeroFreqCount - Pow2(zeroFreqExp)
      ensures var z, k := if v.zeros[0] == n then v.zeros[1] else v.zeros[0], Find(v.zeros, n);
              && remainingZeros == z < |left|
              && parent == old(parent)[n := internal][z := internal] && right == old(right)[n := internal][z := n]
              && left == old(left)[n := z]
              && leftChild == CutLeft(v.zeros, k, old(leftChild))[internal := z][n := NIL]
              && rightChild == CutRight(v.zeros, k, old(rightChild))[n := NIL]
    {
      EliminateZero(n, v.zeros);
      leftChild := leftChild[internal := remainingZeros];
      right := right[n := internal];
      left := left[n := remainingZeros];
      parent := parent[n := internal];
      leftChild := leftChild[n := NIL];
      rightChild := rightChild[n := NIL];
      parent := parent[remainingZeros := internal];
      right := right[remainingZeros := n];
    }

    /** The last unseen symbol. */
    method IncreaseLast(n: nat)
      requires Holds(-1) && n in tree.zeros && zeroFreqCount == 1
      modifies `rightChild, `blocks, `myBlock, `free, `remainingZeros, `tree
      ensures tree == Insert(old(tree), n) && Holds(0)
    {
      ghost var v := tree;
      hide ListOk, ZerosLeft, ParentsOk, KidsOk, WeightsOk, HeadsOk, Blocked, Named, Sum, Sorted, Positive, LooseOk,
           Insert;
      ZeroFacts(v, n, left, right, parent, leftChild, rightChild, weight, remainingZeros, rootNode, freeNode);
      FinalLinks(v, n, left, right, parent, leftChild, rightChild, weight, remainingZeros, rootNode, freeNode);
      FinalCounts(v, n, left, zeroFreqCount, zeroFreqExp, zeroFreqRem);
      rightChild := rightChild[n := NIL];
      LastBlock(n, right[n], v);
      remainingZeros := NIL;
      InsertOk(v, n);
      tree := Insert(v, n);
    }

    method LastBlock(n: nat, next: int, ghost v: Tree)
      requires Sized() && Valid(v) && v.size == alphabetSize && n in v.zeros && |v.zeros| == 1
      requires Blocked(v, -1, myBlock, blocks, free)
      requires |v.lab| > 1 && next == v.lab[1] < |weight| && weight[next] == v.w[1]
      modifies `blocks, `myBlock, `free
      ensures Sized() && Blocked(Insert(v, n), 0, myBlock, blocks, free)
    {
      hide Blocked, Named, Sum, Sorted, Positive, LooseOk, Insert, Make;
      if weight[next] == 1 {
        FinalJoins(v, n, myBlock, blocks, free);
        myBlock := myBlock[n := myBlock[next]];
      } else {
        FinalAlone(v, n, myBlock, blocks, free);
        var b := MakeBlock(n);
        myBlock := myBlock[n := b];
        free := free[1..];
      }
    }

    // -------------------------------------------------------------- fgk_update_tree

    /** One turn of the loop: the node at position x is counted, and its parent is next. */
    method CountNode(node: nat, ghost x: nat) returns (next: nat)
      requires Holds(x) && x < tree.Root() && node == tree.lab[x]
      modifies `blocks, `weight, `parent, `leftChild, `rightChild, `left, `right, `myBlock, `tree, `free
      ensures tree == Step(old(tree), x)
      ensures var up := tree.up[Target(old(tree), x) / 2];
              Target(old(tree), x) < up <= tree.Root() && Holds(up) && next == tree.lab[up]
    {
      hide LinksOk, Blocked, Named, Sum, Sorted, Positive, LooseOk, Swap, Bump, CanGrow, Target;
      ghost var v, q := tree, Target(tree, x);
      CountFacts(v, x);
      MoveRight(node, x);
      Promote(node, q);
      BumpLinks(tree, q, left, right, parent, leftChild, rightChild, weight, remainingZeros, rootNode, freeNode,
                zeroFreqCount, zeroFreqExp, zeroFreqRem);
      weight := weight[node := weight[node] + 1];
      tree := Bump(tree, q);
      next := parent[node];
    }

    /** fgk_update_tree: the symbol n is counted. */
    method UpdateTree(n: nat)
      requires Holds(-1) && n < alphabetSize
      modifies this
      ensures Holds(-1) && tree == Updated(old(tree), n)
      ensures codedBits == old(codedBits) && codedDepth == old(codedDepth) && decodePtr == old(decodePtr)
    {
      hide LinksOk, Blocked, Mid, Insert, Updated, Climb, Find, Target;
      ghost var v := tree;
      var incr := n;
      ghost var x := Start(v);
      WeightUnseen(v, n, left, right, parent, leftChild, rightChild, weight, remainingZeros, rootNode, freeNode,
                   zeroFreqCount, zeroFreqExp, zeroFreqRem);
      UpdateStart(v, n);
      if weight[n] == 0 {
        incr := IncreaseZeroWeight(n);
      } else {
        x := Find(v.lab, n);
        LeafBlocked(v, x, myBlock, blocks, free);
      }
      CountAll(incr, x);
    }

    /** The loop, and the root. */
    method CountAll(first: nat, ghost x0: nat)
      requires Holds(x0) && first == tree.lab[x0]
      modifies `blocks, `weight, `parent, `leftChild, `rightChild, `left, `right, `myBlock, `tree, `free
      ensures Holds(-1) && tree == Climb(old(tree), x0)
    {
      hide LinksOk, Blocked, Named, Sum, Sorted, Positive, LooseOk, Step, Climb, Target;
      ghost var x, v := x0, tree;
      var incr := first;
      RootIs(tree, x, left, right, parent, leftChild, rightChild, weight, remainingZeros, rootNode, freeNode,
             zeroFreqCount, zeroFreqExp, zeroFreqRem);
      while incr != rootNode
        invariant Holds(x) && incr == tree.lab[x] && Climb(tree, x) == Climb(v, x0)
        invariant incr == rootNode <==> x == tree.Root()
        decreases tree.Root() - x
      {
        CountFacts(tree, x);
        ghost var q := Target(tree, x);
        incr := CountNode(incr, x);
        x := tree.up[q / 2];
        RootIs(tree, x, left, right, parent, leftChild, rightChild, weight, remainingZeros, rootNode, freeNode,
               zeroFreqCount, zeroFreqExp, zeroFreqRem);
      }
      CountRoot();
    }

    method CountRoot()
      requires Holds(tree.Root())
      modifies `weight, `tree
      ensures Holds(-1) && tree == Climb(old(tree), old(tree.Root()))
    {
      hide LinksOk, Blocked, Named, Sum, Sorted, Positive, LooseOk, Bump;
      ghost var x := tree.Root();
      RootFacts(tree);
      BumpLinks(tree, x, left, right, parent, leftChild, rightChild, weight, remainingZeros, rootNode, freeNode,
                zeroFreqCount, zeroFreqExp, zeroFreqRem);
      RootBlocked(tree, myBlock, blocks, free);
      weight := weight[rootNode := weight[rootNode] + 1];
      tree := Bump(tree, x);
    }

    // -------------------------------------------------------------- the coder

    /** The bits that fgk_get_encoded_bit is still to give. */
    ghost function Pending(): seq<bool>
      reads this
      requires codedDepth <= |codedBits|
    {
      Reverse(codedBits[..codedDepth])
    }

    method PushBit(bit: bool)
      requires codedDepth < |codedBits|
      modifies `codedBits, `codedDepth
      ensures |codedBits| == old(|codedBits|) && codedDepth == old(codedDepth) + 1
      ensures Pending() == [bit] + old(Pending())
    {
      ghost var before := codedBits[..codedDepth];
      codedBits := codedBits[codedDepth := bit];
      codedDepth := codedDepth + 1;
      assert codedBits[..codedDepth] == before + [bit];
      assert (before + [bit])[..|before|] == before;
    }

    /** The index of an unseen symbol, the lowest bit first. */
    method PushIndex(where_: nat, width: nat)
      requires codedDepth == 0 && width <= |codedBits|
      modifies `codedBits, `codedDepth
      ensures |codedBits| == old(|codedBits|) && codedDepth == width && Pending() == Msb(width, where_)
    {
      var shift, bits := 1, width;
      assert codedBits[..0] == [];
      while bits > 0
        invariant codedDepth + bits == width && |codedBits| == old(|codedBits|)
        invariant shift == Pow2(codedDepth) && Pending() == Msb(codedDepth, where_)
      {
        MsbMore(codedDepth, where_);
        PushBit((where_ / shift) % 2 == 1);   // shift & where
        bits := bits - 1;
        shift := 2 * shift;
      }
    }

    /** The way from the node at position p0 up to the root. */
    method PushPath(first: nat, ghost p0: nat)
      requires Holds(-1) && p0 <= tree.Root() && first == tree.lab[p0] && codedDepth + |Path(tree, p0)| <= |codedBits|
      modifies `codedBits, `codedDepth
      ensures |codedBits| == old(|codedBits|) && codedDepth == old(codedDepth) + |Path(tree, p0)|
      ensures Pending() == Path(tree, p0) + old(Pending())
    {
      hide LinksOk, Blocked, Named, Sum, Sorted, Positive, LooseOk;
      var target := first;
      ghost var p := p0;
      RootIs(tree, p, left, right, parent, leftChild, rightChild, weight, remainingZeros, rootNode, freeNode,
             zeroFreqCount, zeroFreqExp, zeroFreqRem);
      while target != rootNode
        invariant p <= tree.Root() && target == tree.lab[p] && (target == rootNode <==> p == tree.Root())
        invariant |codedBits| == old(|codedBits|) && codedDepth + |Path(tree, p)| == old(codedDepth) + |Path(tree, p0)|
        invariant codedDepth <= |codedBits| && Path(tree, p) + Pending() == Path(tree, p0) + old(Pending())
        decreases tree.Root() - p
      {
        ParentSide(tree, p, left, right, parent, leftChild, rightChild, weight, remainingZeros, rootNode, freeNode,
                   zeroFreqCount, zeroFreqExp, zeroFreqRem);
        ghost var tail := Pending();
        PushBit(rightChild[parent[target]] == target);
        PathStep(tree, p, tail);
        target := parent[target];
        p := tree.up[p / 2];
        RootIs(tree, p, left, right, parent, leftChild, rightChild, weight, remainingZeros, rootNode, freeNode,
               zeroFreqCount, zeroFreqExp, zeroFreqRem);
      }
      assert Path(tree, p) == [];
      assert Path(tree, p) + Pending() == Pending();
    }

    /** fgk_encode_data */
    method EncodeData(n: nat) returns (depth: nat)
      requires Holds(-1) && n < alphabetSize
      modifies this
      ensures Holds(-1) && tree == Updated(old(tree), n) && tree.size == alphabetSize
      ensures depth == codedDepth <= |codedBits| && Pending() == Code(old(tree), n)
    {
      hide LinksOk, Blocked, Mid, Updated, Width, Find;
      codedDepth := 0;
      var target := n;
      ghost var p := 0;
      WeightUnseen(tree, n, left, right, parent, leftChild, rightChild, weight, remainingZeros, rootNode, freeNode,
                   zeroFreqCount, zeroFreqExp, zeroFreqRem);
      CodeParts(tree, n);
      if weight[n] == 0 {
        UnseenFacts(tree, n, left, right, parent, leftChild, rightChild, weight, remainingZeros, rootNode, freeNode,
                    zeroFreqCount, zeroFreqExp, zeroFreqRem);
        var where_ := FindNthZero(n, tree.zeros);
        PushIndex(where_, if zeroFreqRem == 0 then zeroFreqExp else zeroFreqExp + 1);
        target := remainingZeros;
      } else {
        p := Find(tree.lab, n);
      }
      PushPath(target, p);
      UpdateTree(n);
      depth := codedDepth;
    }

    /** fgk_get_encoded_bit */
    method GetEncodedBit() returns (bit: bool)
      requires 0 < codedDepth <= |codedBits|
      modifies `codedDepth
      ensures codedDepth == old(codedDepth) - 1 && old(Pending()) == [bit] + Pending()
      ensures old(Holds(-1)) ==> Holds(-1)
    {
      codedDepth := codedDepth - 1;
      bit := codedBits[codedDepth];
      assert codedBits[..codedDepth + 1][..codedDepth] == codedBits[..codedDepth];
    }

    // -------------------------------------------------------------- the decoder

    /** Between two bits: decode_ptr stands at the cursor and coded_bits holds the bits of an index. */
    ghost predicate Reading()
      reads this
    {
      && Holds(-1) && cursor.at <= tree.Root() && decodePtr == tree.lab[cursor.at]
      && codedDepth == |cursor.got| <= |codedBits| && codedBits[..codedDepth] == cursor.got
    }

    /** fgk_decode_bit: whether a code word is complete. */
    method DecodeBit(b: bool) returns (done: bool)
      requires Reading() && Ready(tree, cursor)
      modifies `codedBits, `codedDepth, `decodePtr, `cursor
      ensures Reading() && (cursor, done) == FgkCode.DecodeBit(tree, old(cursor), b)
      ensures if done then Complete(tree, cursor) && Symbol(tree, cursor) < alphabetSize else Ready(tree, cursor)
    {
      hide LinksOk, Blocked, Named, Sum, Sorted, Positive, LooseOk, Symbol;
      ghost var c := cursor;
      StepReady(tree, c, b);
      CursorFacts(tree, c, left, right, parent, leftChild, rightChild, weight, remainingZeros, rootNode, freeNode,
                  zeroFreqCount, zeroFreqExp, zeroFreqRem);
      cursor := FgkCode.DecodeBit(tree, c, b).0;
      if weight[decodePtr] == 0 {
        var bitsreq := if zeroFreqRem == 0 then zeroFreqExp else zeroFreqExp + 1;
        codedBits := codedBits[codedDepth := b];
        codedDepth := codedDepth + 1;
        assert codedBits[..codedDepth] == c.got + [b];
        return codedDepth >= bitsreq;
      }
      decodePtr := if b then rightChild[decodePtr] else leftChild[decodePtr];
      ArrivalFacts(tree, cursor.at, left, right, parent, leftChild, rightChild, weight, remainingZeros, rootNode,
          freeNode,
                   zeroFreqCount, zeroFreqExp, zeroFreqRem);
      if leftChild[decodePtr] == NIL {
        if weight[decodePtr] != 0 {
          return true;
        }
        return zeroFreqCount == 1;
      }
      return false;
    }

    /** The number that the bits of an index make; with no bits, whatever the first one of the last
        index was. */
    method IndexOf() returns (n: nat)
      requires codedDepth <= |codedBits| && |codedBits| > 0
      ensures codedDepth > 0 ==> n == Value(codedBits[..codedDepth])
    {
      var i := 0;
      n := 0;
      if codedDepth > 0 {
        while i < codedDepth - 1
          invariant i < codedDepth && n == 2 * Value(codedBits[..i])
        {
          assert codedBits[..i + 1][..i] == codedBits[..i];
          n := if codedBits[i] then n + 1 else n;
          n := 2 * n;
          i := i + 1;
        }
        assert codedBits[..codedDepth][..i] == codedBits[..i];
      }
      n := if codedBits[i] then n + 1 else n;
    }

    /** fgk_decode_data: the symbol, after a complete code word. */
    method DecodeData() returns (elt: nat)
      requires Reading() && Complete(tree, cursor) && Symbol(tree, cursor) < alphabetSize
      modifies this
      ensures elt == Symbol(old(tree), old(cursor)) && tree == Updated(old(tree), elt)
      ensures Reading() && cursor == Top(tree)
    {
      hide LinksOk, Blocked, Mid, Updated, NthZero;
      elt := decodePtr;
      CompleteFacts(tree, cursor, left, right, parent, leftChild, rightChild, weight, remainingZeros, rootNode,
          freeNode,
                    zeroFreqCount, zeroFreqExp, zeroFreqRem);
      if weight[decodePtr] == 0 {
        var n := IndexOf();
        OnlyZero(tree, n, Value(cursor.got));
        elt := NthZeroOf(n, tree);
      }
      codedDepth := 0;
      UpdateTree(elt);
      decodePtr := rootNode;
      cursor := Top(tree);
      RootPlace(tree, left, right, parent, leftChild, rightChild, weight, remainingZeros, rootNode, freeNode,
                zeroFreqCount, zeroFreqExp, zeroFreqRem);
    }
  }

  lemma InitialParts(size: nat)
    requires size >= 2
    ensures var v := Initial(size); |v.up| == 0 && v.lab == [0] && v.size == size
  {
  }

  lemma InitialLinks(size: nat, left: seq<int>, right: seq<int>, parent: seq<int>, lc: seq<int>, rc: seq<int>,
      weight: seq<nat>)
    requires 2 <= size <= |left| == |right| == |parent| == |lc| == |rc| == |weight|
    requires forall i :: 0 <= i < size ==> Fresh(i, size, left, right, parent, lc, rc, weight)
    ensures LinksOk(Initial(size), left, right, parent, lc, rc, weight, 0, 0, size, size, Exponent(size),
            size - Pow2(Exponent(size)))
  {
    var v := Initial(size);
    assert Fresh(0, size, left, right, parent, lc, rc, weight);
    forall i | 0 <= i < |v.zeros| ensures ZeroAt(v.zeros, lc, rc, i) {
      assert Fresh(i, size, left, right, parent, lc, rc, weight);
    }
    forall i | 0 <= i < |v.zeros| ensures left[v.zeros[i]] == NIL && weight[v.zeros[i]] == 0 {
      assert Fresh(i, size, left, right, parent, lc, rc, weight);
    }
    forall p | 0 <= p <= v.Root() ensures LeafAt(v, lc, rc, p) && ParentAt(v, parent, p) &&
        ListAt(v.lab, left, right, p) {
    }
  }

  lemma InitialBlocked(v: Tree, my: seq<int>, blocks: Pool, free: seq<nat>)
    requires Valid(v) && |v.up| == 0 && blocks.head == 0 && |blocks.un| >= 1 && free == seq(|blocks.un|, b => b)
    requires forall b :: 0 <= b < |blocks.un| ==> blocks.un[b] == if b + 1 < |blocks.un| then b + 1 else NIL
    ensures Blocked(v, -1, my, blocks, free)
  {
    assert forall p :: p !in On(v);
    forall b | 0 <= b < |blocks.un| ensures b in free {
      assert free[b] == b;
    }
    forall i | 0 <= i < |free| ensures FreeAt(blocks, free, i) {
    }
  }

  lemma RootPlace(v: Tree, left: seq<int>, right: seq<int>, parent: seq<int>, lc: seq<int>, rc: seq<int>,
                  weight: seq<nat>, zeros: int, root: int, free: int, count: nat, exp: nat, rem: nat)
    requires LinksOk(v, left, right, parent, lc, rc, weight, zeros, root, free, count, exp, rem)
    ensures |v.lab| == v.Root() + 1 && root == v.lab[v.Root()]
  {
  }

  /** What fgk_decode_bit sees. */
  lemma CursorFacts(v: Tree, c: Cursor, left: seq<int>, right: seq<int>, parent: seq<int>, lc: seq<int>, rc: seq<int>,
                    weight: seq<nat>, zeros: int, root: int, free: int, count: nat, exp: nat, rem: nat)
    requires LinksOk(v, left, right, parent, lc, rc, weight, zeros, root, free, count, exp, rem)
    requires Valid(v) && Ready(v, c)
    ensures v.lab[c.at] < |weight| && weight[v.lab[c.at]] == v.w[c.at]
    ensures (if rem == 0 then exp else exp + 1) == Width(Count(v)) && (v.w[c.at] == 0 ==> |c.got| < v.size)
    ensures v.w[c.at] != 0 ==> v.lab[c.at] < |lc| == |rc| && rc[v.lab[c.at]] == v.lab[Child(v, c.at, true)] &&
                               lc[v.lab[c.at]] == v.lab[Child(v, c.at, false)]
  {
    if v.w[c.at] != 0 {
      var j := Find(v.up, c.at);
      assert KidsAt(v, lc, rc, j) && ParentOk(v, j);
    }
  }

  /** Only a leaf has no left child. */
  lemma ArrivalFacts(v: Tree, p: nat, left: seq<int>, right: seq<int>, parent: seq<int>, lc: seq<int>, rc: seq<int>,
                     weight: seq<nat>, zeros: int, root: int, free: int, count: nat, exp: nat, rem: nat)
    requires LinksOk(v, left, right, parent, lc, rc, weight, zeros, root, free, count, exp, rem)
    requires Valid(v) && p <= v.Root()
    ensures v.lab[p] < |weight| && v.lab[p] < |lc| && weight[v.lab[p]] == v.w[p] && count == Count(v)
    ensures lc[v.lab[p]] == NIL <==> p !in v.up
  {
    assert LeafAt(v, lc, rc, p);
    if p in v.up {
      var j := Find(v.up, p);
      assert KidsAt(v, lc, rc, j) && ParentOk(v, j);
    } else if p == 0 && v.zeros != [] {
      assert ZeroAt(v.zeros, lc, rc, 0);
    }
  }

  lemma CompleteFacts(v: Tree, c: Cursor, left: seq<int>, right: seq<int>, parent: seq<int>, lc: seq<int>, rc: seq<int>,
                      weight: seq<nat>, zeros: int, root: int, free: int, count: nat, exp: nat, rem: nat)
    requires LinksOk(v, left, right, parent, lc, rc, weight, zeros, root, free, count, exp, rem)
    requires Valid(v) && Complete(v, c)
    ensures v.lab[c.at] < |weight| && weight[v.lab[c.at]] == v.w[c.at]
    ensures v.zeros != [] ==> ZerosLinked(v.zeros, lc, rc) && zeros == v.zeros[0]
  {
  }

  /** With no bits read only one symbol is left. */
  lemma OnlyZero(v: Tree, n: nat, m: nat)
    requires v.zeros != []
    ensures |v.zeros| == 1 || n == m ==> NthZero(v, n) == NthZero(v, m)
  {
  }

  function Reverse(s: seq<bool>): seq<bool> {
    if s == [] then [] else [s[|s| - 1]] + Reverse(s[..|s| - 1])
  }

  /** One more bit of a number, on the left. */
  lemma {:induction false} MsbMore(n: nat, v: nat)
    ensures Msb(n + 1, v) == [(v / Pow2(n)) % 2 == 1] + Msb(n, v)
  {
    if n > 0 {
      MsbMore(n - 1, v / 2);
      DivDiv(v, Pow2(n - 1));
    } else {
      assert Msb(1, v) == Msb(0, v / 2) + [v % 2 == 1];
    }
  }

  lemma PathStep(v: Tree, p: nat, tail: seq<bool>)
    requires Shape(v) && p < v.Root()
    ensures v.up[p / 2] <= v.Root() && Path(v, p) + tail == Path(v, v.up[p / 2]) + ([p % 2 == 1] + tail)
    ensures |Path(v, p)| == |Path(v, v.up[p / 2])| + 1
  {
    assert ParentOk(v, p / 2);
  }

  lemma ParentSide(v: Tree, p: nat, left: seq<int>, right: seq<int>, parent: seq<int>, lc: seq<int>, rc: seq<int>,
                   weight: seq<nat>, zeros: int, root: int, free: int, count: nat, exp: nat, rem: nat)
    requires LinksOk(v, left, right, parent, lc, rc, weight, zeros, root, free, count, exp, rem) && Named(v) &&
             p < v.Root()
    ensures p < v.up[p / 2] <= v.Root() && v.lab[p] < |parent| && parent[v.lab[p]] == v.lab[v.up[p / 2]] < |rc|
    ensures rc[v.lab[v.up[p / 2]]] == v.lab[p] <==> p % 2 == 1
  {
    assert ParentAt(v, parent, p) && KidsAt(v, lc, rc, p / 2) && ParentOk(v, p / 2);
  }

  lemma CodeParts(v: Tree, n: nat)
    requires Valid(v) && n < v.size
    ensures |v.lab| == v.Root() + 1 && Width(Count(v)) < v.size
    ensures if n in v.zeros then Code(v, n) == Path(v, 0) + Msb(Width(Count(v)), Find(v.zeros, n))
            else n in v.lab && Find(v.lab, n) <= v.Root() && Code(v, n) == Path(v, Find(v.lab, n))
    ensures |Code(v, n)| < v.size
  {
    CodeFits(v, n);
  }

  lemma UnseenFacts(v: Tree, n: nat, left: seq<int>, right: seq<int>, parent: seq<int>, lc: seq<int>, rc: seq<int>,
                    weight: seq<nat>, zeros: int, root: int, free: int, count: nat, exp: nat, rem: nat)
    requires LinksOk(v, left, right, parent, lc, rc, weight, zeros, root, free, count, exp, rem)
    requires Valid(v) && n in v.zeros
    ensures ZerosLinked(v.zeros, lc, rc) && zeros == v.zeros[0] == v.lab[0]
    ensures (if rem == 0 then exp else exp + 1) == Width(Count(v))
  {
  }

  lemma RootFacts(v: Tree)
    requires Mid(v, v.Root())
    ensures var r := Bump(v, v.Root()); Valid(r) && r.size == v.size && r == Climb(v, v.Root())
    ensures v.zeros == [] || v.Root() > 0
  {
    RootOk(v);
  }

  /** What one turn of fgk_update_tree does to the tree. */
  lemma CountFacts(v: Tree, x: nat)
    requires Mid(v, x) && x < v.Root()
    ensures var q := Target(v, x);
            var s, r := Swap(v, x, q), Step(v, x);
            && Mid(s, q) && CanGrow(s, q) && q < s.Root() == v.Root() == r.Root() && s.lab[q] == v.lab[x]
            && r == Bump(s, q) && r.up == s.up && r.lab == s.lab && r.size == v.size && (s.zeros == [] || q > 0)
            && q / 2 < |r.up| && Mid(r, r.up[q / 2]) && q < r.up[q / 2] <= r.Root()
            && Climb(v, x) == Climb(r, r.up[q / 2])
  {
    SwapOk(v, x);
    TargetGrows(v, x);
    StepOk(v, x);
    assert ParentOk(Step(v, x), Target(v, x) / 2);
  }

  /** A node is counted in the links. */
  lemma BumpLinks(v: Tree, q: nat, left: seq<int>, right: seq<int>, parent: seq<int>, lc: seq<int>, rc: seq<int>,
                  weight: seq<nat>, zeros: int, root: int, free: int, count: nat, exp: nat, rem: nat)
    requires LinksOk(v, left, right, parent, lc, rc, weight, zeros, root, free, count, exp, rem)
    requires Named(v) && q <= v.Root() && (v.zeros == [] || q > 0)
    ensures v.lab[q] < |weight| && v.lab[q] < |parent|
    ensures LinksOk(Bump(v, q), left, right, parent, lc, rc, weight[v.lab[q] := weight[v.lab[q]] + 1], zeros, root,
            free,
                    count, exp, rem)
    ensures q < v.Root() ==> v.up[q / 2] <= v.Root() && parent[v.lab[q]] == v.lab[v.up[q / 2]]
    ensures q == v.Root() ==> v.lab[q] == root
  {
    var r := Bump(v, q);
    BumpShape(v, q);
    assert ParentAt(v, parent, q);
    if q < v.Root() {
      assert ParentOk(v, q / 2);
    }
    BumpTree(v, q, parent, lc, rc);
    BumpWeights(v, q, weight);
  }

  lemma BumpTree(v: Tree, q: nat, parent: seq<int>, lc: seq<int>, rc: seq<int>)
    requires Shape(v) && q <= v.Root() && Shape(Bump(v, q)) && ParentsOk(v, parent) && KidsOk(v, lc, rc)
    ensures ParentsOk(Bump(v, q), parent) && KidsOk(Bump(v, q), lc, rc)
  {
    var r := Bump(v, q);
    forall p | 0 <= p <= v.Root() ensures ParentAt(r, parent, p) {
      assert ParentAt(v, parent, p);
    }
    forall j | 0 <= j < |v.up| ensures KidsAt(r, lc, rc, j) {
      assert KidsAt(v, lc, rc, j);
    }
    forall p | 0 <= p <= v.Root() ensures LeafAt(r, lc, rc, p) {
      assert LeafAt(v, lc, rc, p);
    }
  }

  lemma BumpWeights(v: Tree, q: nat, weight: seq<nat>)
    requires Shape(v) && Named(v) && q <= v.Root() && Shape(Bump(v, q)) && WeightsOk(v, weight) &&
             (v.zeros == [] || q > 0)
    ensures v.lab[q] < |weight| && WeightsOk(Bump(v, q), weight[v.lab[q] := weight[v.lab[q]] + 1])
  {
    forall i | 0 <= i < |v.zeros| ensures v.zeros[i] != v.lab[q] {
      assert v.zeros[i] in v.lab ==> v.zeros[i] == v.lab[0];
    }
  }

  lemma RootIs(v: Tree, p: nat, left: seq<int>, right: seq<int>, parent: seq<int>, lc: seq<int>, rc: seq<int>,
               weight: seq<nat>, zeros: int, root: int, free: int, count: nat, exp: nat, rem: nat)
    requires LinksOk(v, left, right, parent, lc, rc, weight, zeros, root, free, count, exp, rem) && Named(v) &&
             p <= v.Root()
    ensures v.lab[p] == root <==> p == v.Root()
  {
  }

  /** A symbol was not seen yet exactly when its weight is zero. */
  lemma WeightUnseen(v: Tree, n: nat, left: seq<int>, right: seq<int>, parent: seq<int>, lc: seq<int>, rc: seq<int>,
                     weight: seq<nat>, zeros: int, root: int, free: int, count: nat, exp: nat, rem: nat)
    requires LinksOk(v, left, right, parent, lc, rc, weight, zeros, root, free, count, exp, rem)
    requires Valid(v) && n < v.size && |weight| == 2 * v.size - 1
    ensures weight[n] == 0 <==> n in v.zeros
  {
    if n !in v.zeros {
      LeafOk(v, n);
      PositiveAt(v, -1, Find(v.lab, n));
    }
  }

  lemma UpdateStart(v: Tree, n: nat)
    requires Valid(v) && n < v.size
    ensures n in v.zeros ==>
              && Mid(Insert(v, n), Start(v)) && Climb(Insert(v, n), Start(v)) == Updated(v, n)
              && Start(v) <= Insert(v, n).Root() && Insert(v, n).lab[Start(v)] == n
    ensures n !in v.zeros ==>
              var x := Find(v.lab, n);
              Mid(v, x) && x < v.Root() && x !in v.up && v.w[x] > 0 && Climb(v, x) == Updated(v, n)
  {
    if n in v.zeros {
      InsertOk(v, n);
      if |v.zeros| > 1 {
        GrowShapeAt(v, n);
      }
    } else {
      LeafOk(v, n);
      var x := Find(v.lab, n);
      assert LabelOk(v, x);
      PositiveAt(v, -1, x);
    }
  }

  /** The neighbours of the unseen symbols in the tree, if there are other nodes. */
  predicate AtZero(v: Tree, right: seq<int>, parent: seq<int>, rc: seq<int>, weight: seq<nat>) {
    var n := v.size + |v.up|;
    |v.up| > 0 ==>
      && |v.lab| > 2 && |v.w| > 1 && v.lab[0] < n && v.lab[1] < n && v.lab[2] < n
      && n < |right| == |parent| == |rc| == |weight|
      && right[v.lab[0]] == v.lab[1] && parent[v.lab[0]] == v.lab[2]
      && weight[v.lab[1]] == v.w[1] && rc[v.lab[2]] != v.lab[0]
  }

  function TopLeft(v: Tree, n: nat, left: seq<int>): (r: seq<int>)
    requires v.size + |v.up| < |left| && (|v.up| > 0 ==> |v.lab| > 1 && v.lab[1] < |left|)
    ensures |r| == |left|
  {
    var new_ := v.size + |v.up|;
    if |v.up| > 0 then left[new_ := n][v.lab[1] := new_] else left[new_ := n]
  }

  function TopLc(v: Tree, lc: seq<int>): (r: seq<int>)
    requires |v.up| > 0 ==> |v.lab| > 2 && v.lab[2] < |lc|
    ensures |r| == |lc|
  {
    if |v.up| > 0 then lc[v.lab[2] := v.size + |v.up|] else lc
  }

  /** What the insertion of a symbol finds. */
  lemma GrowFacts(v: Tree, n: nat, left: seq<int>, right: seq<int>, parent: seq<int>, lc: seq<int>, rc: seq<int>,
                  weight: seq<nat>, zeros: int, root: int, free: int, count: nat, exp: nat, rem: nat)
    requires Valid(v) && n in v.zeros && count != 1
    requires LinksOk(v, left, right, parent, lc, rc, weight, zeros, root, free, count, exp, rem)
    requires |left| == |right| == |parent| == |lc| == |rc| == |weight| == 2 * v.size - 1
    ensures Named(v) && |v.w| == |v.lab| && |v.zeros| > 1 && count == |v.zeros| && Distinct(v.zeros) && n < v.size &&
            NodesIn(v.zeros, |lc|)
    ensures |v.lab| == v.Root() + 1 && zeros == v.lab[0] == v.zeros[0] < v.size
    ensures free == v.size + |v.up| < 2 * v.size - 1 && (root == zeros <==> |v.up| == 0)
    ensures AtZero(v, right, parent, rc, weight)
    ensures ZerosLinked(v.zeros, TopLc(v, lc), rc[v.size + |v.up| := n])
  {
    MoreLeft(v, count, exp, rem);
    ZeroFacts(v, n, left, right, parent, lc, rc, weight, zeros, root, free);
    GrowShapeAt(v, n);
    SlotZeros(v, n, lc, rc);
    DistinctNodes(v);
    assert TopLc(v, lc) == SlotLeft(v, lc);
  }

  lemma MoreLeft(v: Tree, count: nat, exp: nat, rem: nat)
    requires CountsOk(v, count, exp, rem) && count != 1
    ensures |v.zeros| > 1 && count == |v.zeros|
  {
  }

  /** The links that the insertion of a symbol leaves. */
  lemma GrowLinks(v: Tree, n: nat, left: seq<int>, right: seq<int>, parent: seq<int>, lc: seq<int>, rc: seq<int>,
                  weight: seq<nat>, zeros: int, root: int, free: int, count: nat, exp: nat, rem: nat)
    requires Valid(v) && n in v.zeros && count != 1
    requires LinksOk(v, left, right, parent, lc, rc, weight, zeros, root, free, count, exp, rem)
    requires |left| == |right| == |parent| == |lc| == |rc| == |weight| == 2 * v.size - 1
    ensures var r, new_, k := Insert(v, n), v.size + |v.up|, if |v.zeros| > 1 then Find(v.zeros, n) else 0;
            && |v.zeros| > 1 && NodesIn(v.zeros, |lc|) && n < v.size && new_ < |left|
            && 0 <= zeros < |left| && zeros == v.zeros[0] &&
                (|v.up| > 0 ==> |v.lab| > 2 && v.lab[1] < |left| && v.lab[2] < |left|)
            && var z := if v.zeros[0] == n then v.zeros[1] else v.zeros[0];
            && z < |left|
            && LinksOk(r, TopLeft(v, n, left)[n := z], right[new_ := right[zeros]][n := new_][z := n],
                       parent[new_ := parent[zeros]][n := new_][z := new_],
                       CutLeft(v.zeros, k, TopLc(v, lc))[new_ := z][n := NIL],
                           CutRight(v.zeros, k, rc[new_ := n])[n := NIL],
                       weight[new_ := 0], z, if |v.up| > 0 then root else new_, free + 1,
                       count - 1, Exponent(count - 1), count - 1 - Pow2(Exponent(count - 1)))
    ensures Mid(Insert(v, n), 1) && Insert(v, n).size == v.size
  {
    hide ListOk, ZerosLeft, ParentsOk, KidsOk, WeightsOk, HeadsOk, CountsOk, Named, Sum, Sorted, Positive, LooseOk,
         Insert,
         GrownLc, GrownRc, GrownParent, GrownLeft, GrownRight, Without, Distinct, NodesIn, CutLeft, CutRight;
    GrowFacts(v, n, left, right, parent, lc, rc, weight, zeros, root, free, count, exp, rem);
    InsertOk(v, n);
    GrownFields(v, n, left, right, parent, lc, rc);
    GrownOk(v, n, left, right, parent, lc, rc, weight);
    GrownHeads(v, n, zeros, root, free);
    GrownCounts(v, n, count);
  }

  lemma GrownFields(v: Tree, n: nat, left: seq<int>, right: seq<int>, parent: seq<int>, lc: seq<int>, rc: seq<int>)
    requires Valid(v) && n in v.zeros && |v.zeros| > 1 && NodesIn(v.zeros, |lc|)
    requires |left| == |right| == |parent| == |lc| == |rc| == 2 * v.size - 1
    ensures var new_, z, k := v.size + |v.up|, if v.zeros[0] == n then v.zeros[1] else v.zeros[0], Find(v.zeros, n);
            && n < v.size && new_ < |left| && z < |left| && v.zeros[0] < |left|
            && (|v.up| > 0 ==> |v.lab| > 2 && v.lab[1] < |left| && v.lab[2] < |left|)
            && GrownParent(v, n, parent) == parent[new_ := parent[v.zeros[0]]][n := new_][z := new_]
            && GrownRight(v, n, right) == right[new_ := right[v.zeros[0]]][n := new_][z := n]
            && GrownLeft(v, n, left) == TopLeft(v, n, left)[n := z]
            && GrownLc(v, n, lc) == CutLeft(v.zeros, k, TopLc(v, lc))[new_ := z][n := NIL]
            && GrownRc(v, n, rc) == CutRight(v.zeros, k, rc[new_ := n])[n := NIL]
  {
    hide Insert, Without, Named, Sum, Sorted, Positive, LooseOk, CutLeft, CutRight, Find;
    GrowShapeAt(v, n);
    GrowUnseen(v, n, 0);
    if |v.up| > 0 {
      GrowFresh(v, n, 1);
      GrowFresh(v, n, 2);
    }
  }

  lemma GrownOk(v: Tree, n: nat, left: seq<int>, right: seq<int>, parent: seq<int>, lc: seq<int>, rc: seq<int>,
      weight: seq<nat>)
    requires Valid(v) && n in v.zeros && |v.zeros| > 1 && NodesIn(v.zeros, |lc|)
    requires |left| == |right| == |parent| == |lc| == |rc| == |weight| == 2 * v.size - 1
    requires ListOk(v.lab, left, right) && ZerosLeft(v.zeros, left) && ParentsOk(v, parent) && KidsOk(v, lc, rc)
    requires WeightsOk(v, weight)
    ensures var r := Insert(v, n);
            && Shape(r) && ListOk(r.lab, GrownLeft(v, n, left), GrownRight(v, n, right)) &&
                ZerosLeft(r.zeros, GrownLeft(v, n, left))
            && ParentsOk(r, GrownParent(v, n, parent)) && KidsOk(r, GrownLc(v, n, lc), GrownRc(v, n, rc))
            && v.size + |v.up| < |weight| && WeightsOk(r, weight[v.size + |v.up| := 0])
  {
    GrowShapeAt(v, n);
    GrowList(v, n, left, right);
    GrowZerosLeft(v, n, left);
    GrowParents(v, n, parent);
    GrownKids(v, n, lc, rc);
    GrowWeightsOk(v, n, weight);
  }

  lemma GrownHeads(v: Tree, n: nat, zeros: int, root: int, free: int)
    requires Valid(v) && n in v.zeros && |v.zeros| > 1 && HeadsOk(v, zeros, root, free)
    ensures var r, z := Insert(v, n), if v.zeros[0] == n then v.zeros[1] else v.zeros[0];
            HeadsOk(r, z, if |v.up| > 0 then root else v.size + |v.up|, free + 1)
  {
    GrowShapeAt(v, n);
    if |v.up| > 0 {
      GrowFresh(v, n, v.Root());
    }
  }

  lemma GrownCounts(v: Tree, n: nat, count: nat)
    requires Valid(v) && n in v.zeros && count == |v.zeros| > 1
    ensures CountsOk(Insert(v, n), count - 1, Exponent(count - 1), count - 1 - Pow2(Exponent(count - 1)))
    ensures Insert(v, n).size == v.size
  {
    GrowShapeAt(v, n);
  }

  lemma FinalCounts(v: Tree, n: nat, left: seq<int>, count: nat, exp: nat, rem: nat)
    requires Valid(v) && n in v.zeros && CountsOk(v, count, exp, rem) && count == 1
    ensures |v.zeros| == 1 && |v.up| > 0 && n == v.lab[0] && CountsOk(Insert(v, n), count, exp, rem)
    ensures ZerosLeft(Insert(v, n).zeros, left) && Insert(v, n).size == v.size
  {
  }

  lemma NodeCount(v: Tree)
    requires Named(v)
    ensures |v.lab| <= 2 * v.size - 1
  {
  }

  lemma RootApart(v: Tree)
    requires Mid(v, 2) && 2 < v.Root()
    ensures 3 < v.Root() && v.lab[3] != v.lab[v.Root()]
  {
  }

  lemma SkewHeads(v: Tree, zeros: int, root: int, free: int)
    requires Shape(v) && HeadsOk(v, zeros, root, free) && v.zeros != []
    ensures zeros == v.zeros[0] && root == v.lab[v.Root()]
  {
  }
}

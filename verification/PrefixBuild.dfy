/** djw_build_prefix of Baseline/third/xdelta/xdelta3-djw.h: the lengths of a prefix code for given
    symbol frequencies, none above a limit. */
module PrefixBuild {
  import opened Basics
  import opened Canonical
  import opened Heap
  import opened PrefixTree
  import opened PrefixOptimal

  /** The heap holds exactly the roots. */
  ghost predicate Holds(es: seq<Heapen>, items: multiset<nat>) {
    forall x: nat :: items[x] == if Active(es, x) then 1 else 0
  }

  /** The state of the tree building loop. */
  ghost predicate Growing(es: seq<Heapen>, asize: nat, kids: seq<(nat, nat)>, floor: nat, items: multiset<nat>) {
    && Forest(es, asize, kids) && Holds(es, items)
    && forall x: nat :: Active(es, x) ==> Heavy(es, floor, x)
  }

  /** The two lightest roots. */
  ghost predicate Lightest(es: seq<Heapen>, a: nat, b: nat) {
    && Active(es, a) && Active(es, b) && a != b && es[a].freq <= es[b].freq
    && forall x: nat :: Active(es, x) && x != a ==> es[b].freq <= es[x].freq
  }

  /** A step of the loop: the two lightest trees become one. */
  lemma GrowStep(es: seq<Heapen>, asize: nat, kids: seq<(nat, nat)>, floor: nat, items: multiset<nat>,
      items1: multiset<nat>,
                 rest: multiset<nat>, a: nat, b: nat)
    requires Growing(es, asize, kids, floor, items) && a < |es| && b < |es|
    requires items1 + multiset{a} == items && rest + multiset{b} == items1
    requires Least(es, items, a) && Least(es, items1, b)
    ensures a != b && Lightest(es, a, b)
    ensures Growing(Join(es, a, b), asize, kids + [(a, b)], es[b].freq, rest + multiset{|es|})
    ensures Live(Join(es, a, b)) == Live(es)
  {
    hide Forest, Join, Live, Heavy, Least;
    TwoRoots(es, items, items1, rest, a, b);
    JoinForest(es, asize, kids, a, b);
    JoinLive(es, a, b);
    LightestTwo(es, items, items1, rest, a, b);
    JoinHeavy(es, floor, a, b);
    HoldsJoin(es, items, items1, rest, a, b);
  }

  lemma TwoRoots(es: seq<Heapen>, items: multiset<nat>, items1: multiset<nat>, rest: multiset<nat>, a: nat, b: nat)
    requires Holds(es, items) && items1 + multiset{a} == items && rest + multiset{b} == items1
    ensures a != b && Active(es, a) && Active(es, b)
  {
    hide Active;
    assert items[a] >= 1 && items[b] >= 1 && (a == b ==> items[a] >= 2);
  }

  lemma LightestTwo(es: seq<Heapen>, items: multiset<nat>, items1: multiset<nat>, rest: multiset<nat>, a: nat, b: nat)
    requires Holds(es, items) && items1 + multiset{a} == items && rest + multiset{b} == items1
    requires a < |es| && b < |es| && Least(es, items, a) && Least(es, items1, b)
    ensures es[a].freq <= es[b].freq
    ensures forall x: nat :: Active(es, x) && x != a ==> es[b].freq <= es[x].freq
  {
    assert b in items;
    forall x: nat | Active(es, x) && x != a ensures es[b].freq <= es[x].freq {
      assert items[x] == 1 && x in items1;
    }
  }

  lemma HoldsJoin(es: seq<Heapen>, items: multiset<nat>, items1: multiset<nat>, rest: multiset<nat>, a: nat, b: nat)
    requires Holds(es, items) && items1 + multiset{a} == items && rest + multiset{b} == items1
    requires a < |es| && b < |es| && a != b
    requires forall x: nat :: Active(Join(es, a, b), x) <==> (Active(es, x) && x != a && x != b) || x == |es|
    ensures Holds(Join(es, a, b), rest + multiset{|es|})
  {
    hide Join;
    assert !Active(es, |es|);
    hide Active;
    forall x: nat ensures (rest + multiset{|es|})[x] == if Active(Join(es, a, b), x) then 1 else 0 {
      assert items[x] == if Active(es, x) then 1 else 0;
    }
  }

  lemma HeapFrame(es: seq<Heapen>, fs: seq<Heapen>, h: seq<nat>)
    requires IsHeap(es, h) && |fs| >= |es|
    requires forall x :: 0 <= x < |es| ==> fs[x].freq == es[x].freq && fs[x].depth == es[x].depth
    ensures IsHeap(fs, h)
  {
    forall i | 1 <= i < |h| ensures Ordered(fs, h, i) {
      assert Ordered(es, h, i);
    }
  }

  /** The frequencies of the leaves. */
  function Leaves(es: seq<Heapen>, asize: nat): (r: seq<nat>)
    requires asize < |es|
    ensures |r| == asize
  {
    seq(asize, i requires 0 <= i < asize => es[i + 1].freq)
  }

  /** Entries that are only leaves, each a tree of its own. */
  predicate Bare(es: seq<Heapen>) {
    es != [] && es[0] == Heapen(0, 0, 0) && forall x :: 0 <= x < |es| ==> es[x].depth == 0 && es[x].parent == 0
  }

  lemma BareGrowing(es: seq<Heapen>, items: multiset<nat>)
    requires Bare(es) && Holds(es, items)
    ensures Growing(es, |es| - 1, [], 0, items)
  {
  }

  /** The initial heap over leaves only. */
  ghost predicate Ready(es: seq<Heapen>, h: seq<nat>) {
    |h| > 0 && Bare(es) && IsHeap(es, h) && Holds(es, Items(h))
  }

  /** One turn of the loop that makes the initial heap. */
  method InitEntry(heap: array<nat>, ents: array<Heapen>, size: nat, heapLast: nat) returns (last: nat)
    requires heap.Length == 257 && ents.Length == 512 && 1 <= size <= 256 && heapLast < size
    requires Ready(ents[..size], heap[..heapLast + 1])
    modifies heap, ents
    ensures last <= heapLast + 1 && Ready(ents[..size + 1], heap[..last + 1])
    ensures forall x :: 0 <= x < 512 && x != size ==> ents[x] == old(ents[x])
    ensures ents[size].freq == old(ents[size].freq)
  {
    hide IsHeap, Items, Ready, Bare, Holds;
    ghost var es, h := ents[..size], heap[..heapLast + 1];
    var freq := ents[size].freq;
    last := heapLast;
    ents[size] := Heapen(0, freq, 0);
    assert ents[..size + 1] == es + [Heapen(0, freq, 0)];
    ReadySkip(es, freq, h);
    if freq != 0 {
      last := last + 1;
      HeapInsert(heap, ents, size + 1, last, size);
      ReadyInsert(es, freq, h, heap[..last + 1]);
    }
  }

  /** The initial heap: every symbol that occurs. */
  method InitHeap(heap: array<nat>, ents: array<Heapen>, asize: nat) returns (heapLast: nat)
    requires heap.Length == 257 && ents.Length == 512 && 1 <= asize <= 256
    modifies heap, ents
    ensures heapLast <= asize && Leaves(ents[..asize + 1], asize) == old(Leaves(ents[..asize + 1], asize))
    ensures Ready(ents[..asize + 1], heap[..heapLast + 1])
  {
    heapLast := 0;
    heap[0] := 0;
    ents[0] := Heapen(0, 0, 0);
    assert heap[..1] == [0] && ents[..1] == [Heapen(0, 0, 0)];
    EmptyHeap();
    hide IsHeap, Items, Ready, Leaves, Bare, Holds;
    for i := 0 to asize
      invariant heapLast <= i
      invariant forall x :: 1 <= x <= asize ==> ents[x].freq == old(ents[x].freq)
      invariant Ready(ents[..i + 1], heap[..heapLast + 1])
    {
      heapLast := InitEntry(heap, ents, i + 1, heapLast);
    }
    LeavesSame(old(ents[..asize + 1]), ents[..asize + 1], asize);
  }

  lemma LeavesSame(es: seq<Heapen>, fs: seq<Heapen>, asize: nat)
    requires asize < |es| && asize < |fs| && forall x :: 1 <= x <= asize ==> fs[x].freq == es[x].freq
    ensures Leaves(es, asize) == Leaves(fs, asize)
  {
  }

  lemma EmptyHeap()
    ensures Ready([Heapen(0, 0, 0)], [0])
  {
  }

  lemma ReadySkip(es: seq<Heapen>, freq: nat, h: seq<nat>)
    requires Ready(es, h)
    ensures IsHeap(es + [Heapen(0, freq, 0)], h) && (freq == 0 ==> Ready(es + [Heapen(0, freq, 0)], h))
  {
    HeapFrame(es, es + [Heapen(0, freq, 0)], h);
    hide IsHeap, Items;
    HoldsMore(es, freq, Items(h));
  }

  lemma ReadyInsert(es: seq<Heapen>, freq: nat, h: seq<nat>, h2: seq<nat>)
    requires |h| > 0 && |h2| > 0 && Ready(es, h) && freq != 0 && IsHeap(es + [Heapen(0, freq, 0)], h2)
    requires Items(h2) == Items(h) + multiset{|es|}
    ensures Ready(es + [Heapen(0, freq, 0)], h2)
  {
    hide IsHeap, Items;
    HoldsMore(es, freq, Items(h));
  }

  lemma HoldsMore(es: seq<Heapen>, freq: nat, items: multiset<nat>)
    requires Holds(es, items) && Bare(es)
    ensures var fs := es + [Heapen(0, freq, 0)];
            Bare(fs) && Holds(fs, if freq != 0 then items + multiset{|es|} else items)
  {
    var fs := es + [Heapen(0, freq, 0)];
    assert items[|es|] == 0;
    forall x: nat ensures Active(fs, x) <==> Active(es, x) || (x == |es| && freq != 0) {
    }
  }

  /** The new entry for two trees. */
  method MergeEntries(ents: array<Heapen>, size: nat, h1: nat, h2: nat)
    requires h1 < size < ents.Length && h2 < size && h1 != h2
    modifies ents
    ensures ents[..size + 1] == Join(old(ents[..size]), h1, h2)
  {
    ents[size] := Heapen(1 + Max(ents[h1].depth, ents[h2].depth), ents[h1].freq + ents[h2].freq, 0);
    ents[h1] := ents[h1].(parent := size);
    ents[h2] := ents[h2].(parent := size);
  }

  /** The loop's state, with its heap, the leaves' weights and the total weight. */
  ghost predicate Trees(es: seq<Heapen>, h: seq<nat>, asize: nat, kids: seq<(nat, nat)>, floor: nat,
                        w: seq<nat>, live: nat) {
    && |h| > 0 && IsHeap(es, h) && Growing(es, asize, kids, floor, Items(h))
    && |es| > asize && Leaves(es, asize) == w && Live(es) == live
  }

  /** One turn of the tree building loop. */
  method MergeTwo(heap: array<nat>, ents: array<Heapen>, size: nat, heapLast: nat,
                  ghost asize: nat, ghost kids: seq<(nat, nat)>, ghost floor: nat, ghost w: seq<nat>, ghost live: nat)
    returns (ghost kids': seq<(nat, nat)>, ghost floor': nat)
    requires heap.Length == 257 && 2 <= heapLast <= 256 && size < ents.Length
    requires Trees(ents[..size], heap[..heapLast + 1], asize, kids, floor, w, live)
    modifies heap, ents
    ensures Trees(ents[..size + 1], heap[..heapLast], asize, kids', floor', w, live)
    ensures |kids'| == |kids| + 1 && kids' == kids + [kids'[|kids|]]
    ensures var (a, b) := kids'[|kids|];
            Lightest(old(ents[..size]), a, b) && ents[..size + 1] == Join(old(ents[..size]), a, b)
  {
    ghost var es, h0 := ents[..size], heap[..heapLast + 1];
    hide Trees, IsHeap, Items, Join, Least, Lightest;
    TreesParts(es, h0, asize, kids, floor, w, live);
    var h1, h2, hh1 := ExtractTwo(heap, ents, size, heapLast);
    ghost var hh2 := heap[..heapLast - 1];
    TreesStep(es, h0, asize, kids, floor, w, live, hh1, hh2, h1, h2);
    InsertMerged(heap, ents, size, heapLast - 1, h1, h2);
    kids', floor' := kids + [(h1, h2)], es[h2].freq;
    TreesNext(es, h0, asize, kids, floor, w, live, hh1, hh2, h1, h2, heap[..heapLast]);
  }

  /** The two calls of heap_extract in the loop. */
  method ExtractTwo(heap: array<nat>, ents: array<Heapen>, ghost size: nat, heapLast: nat)
    returns (h1: nat, h2: nat, ghost hh1: seq<nat>)
    requires 2 <= heapLast < heap.Length && size <= ents.Length && IsHeap(ents[..size], heap[..heapLast + 1])
    modifies heap
    ensures h1 < size && h2 < size && |hh1| > 0 && IsHeap(ents[..size], heap[..heapLast - 1])
    ensures Items(hh1) + multiset{h1} == Items(old(heap[..heapLast + 1]))
    ensures Items(heap[..heapLast - 1]) + multiset{h2} == Items(hh1)
    ensures Least(ents[..size], Items(old(heap[..heapLast + 1])), h1) && Least(ents[..size], Items(hh1), h2)
  {
    hide IsHeap, Items, Least;
    h1 := HeapExtract(heap, ents, size, heapLast - 1);
    hh1 := heap[..heapLast];
    h2 := HeapExtract(heap, ents, size, heapLast - 2);
  }

  lemma TreesParts(es: seq<Heapen>, h: seq<nat>, asize: nat, kids: seq<(nat, nat)>, floor: nat, w: seq<nat>, live: nat)
    requires Trees(es, h, asize, kids, floor, w, live)
    ensures |h| > 0 && IsHeap(es, h)
  {
  }

  lemma TreesStep(es: seq<Heapen>, h: seq<nat>, asize: nat, kids: seq<(nat, nat)>, floor: nat, w: seq<nat>, live: nat,
                  hh1: seq<nat>, hh2: seq<nat>, a: nat, b: nat)
    requires Trees(es, h, asize, kids, floor, w, live) && a < |es| && b < |es| && |hh1| > 0 && |hh2| > 0
    requires Items(hh1) + multiset{a} == Items(h) && Items(hh2) + multiset{b} == Items(hh1)
    requires Least(es, Items(h), a) && Least(es, Items(hh1), b) && IsHeap(es, hh2)
    ensures a != b && IsHeap(Join(es, a, b), hh2) && Lightest(es, a, b)
  {
    hide Items;
    GrowStep(es, asize, kids, floor, Items(h), Items(hh1), Items(hh2), a, b);
    JoinShape(es, a, b);
    HeapFrame(es, Join(es, a, b), hh2);
  }

  lemma TreesNext(es: seq<Heapen>, h: seq<nat>, asize: nat, kids: seq<(nat, nat)>, floor: nat, w: seq<nat>, live: nat,
                  hh1: seq<nat>, hh2: seq<nat>, a: nat, b: nat, hh3: seq<nat>)
    requires Trees(es, h, asize, kids, floor, w, live) && a < |es| && b < |es| && |hh1| > 0 && |hh2| > 0 && |hh3| > 0
    requires Items(hh1) + multiset{a} == Items(h) && Items(hh2) + multiset{b} == Items(hh1)
    requires Least(es, Items(h), a) && Least(es, Items(hh1), b)
    requires a != b && IsHeap(Join(es, a, b), hh3) && Items(hh3) == Items(hh2) + multiset{|es|}
    ensures Trees(Join(es, a, b), hh3, asize, kids + [(a, b)], es[b].freq, w, live)
  {
    hide Items, IsHeap, Growing, Live, Least;
    GrowStep(es, asize, kids, floor, Items(h), Items(hh1), Items(hh2), a, b);
    JoinShape(es, a, b);
  }

  method InsertMerged(heap: array<nat>, ents: array<Heapen>, size: nat, p: nat, h1: nat, h2: nat)
    requires 1 <= p < heap.Length && h1 < size < ents.Length && h2 < size && h1 != h2
    requires IsHeap(Join(ents[..size], h1, h2), heap[..p])
    modifies heap, ents
    ensures ents[..size + 1] == Join(old(ents[..size]), h1, h2) && IsHeap(ents[..size + 1], heap[..p + 1])
    ensures Items(heap[..p + 1]) == Items(old(heap[..p])) + multiset{size}
  {
    hide IsHeap, Items, Join;
    MergeEntries(ents, size, h1, h2);
    HeapInsert(heap, ents, size + 1, p, size);
  }

  // ----- weights that make the longest codes -----

  /** The first n weights are the powers of two, the others are zero. */
  predicate Doubling(w: seq<nat>, n: nat) {
    2 <= n <= |w| && forall i :: 0 <= i < |w| ==> w[i] == if i < n then Pow2(i) else 0
  }

  /** So many of them that a code for them is too long. */
  ghost predicate Steep(w: seq<nat>, maxlen: nat) {
    exists n: nat :: Doubling(w, n) && n >= maxlen + 2
  }

  predicate Link(es: seq<Heapen>, asize: nat, j: nat) {
    1 <= asize + j < |es| && es[asize + j].parent == asize + j + 1
  }

  /** Each of the k nodes made from such weights has the last one and the next leaf for children. */
  ghost predicate Chain(es: seq<Heapen>, asize: nat, n: nat, k: nat) {
    && |es| == asize + 1 + k && n <= asize && k < n
    && (forall i :: 1 <= i <= asize ==> es[i].freq == if i <= n then Pow2(i - 1) else 0)
    && (k > 0 ==> es[asize + k].freq == Pow2(k + 1) - 1 && es[1].parent == asize + 1)
    && (forall j :: 1 <= j < k ==> Link(es, asize, j))
    && forall x: nat :: Active(es, x) <==> (k > 0 && x == asize + k) || ((if k == 0 then 1 else k + 2) <= x <= n)
  }

  /** What the loop keeps about all such weights. */
  ghost predicate Chains(w: seq<nat>, es: seq<Heapen>, asize: nat, k: nat) {
    forall n: nat :: Doubling(w, n) ==> Chain(es, asize, n, k)
  }

  lemma {:induction false} PowerRises(i: nat, j: nat)
    ensures i < j ==> Pow2(i) < Pow2(j)
  {
    if i + 1 < j {
      PowerRises(i, j - 1);
    }
  }

  lemma ChainPair(es: seq<Heapen>, asize: nat, n: nat, k: nat, a: nat, b: nat)
    requires Chain(es, asize, n, k) && Lightest(es, a, b)
    ensures if k == 0 then a == 1 && b == 2 else a == asize + k && b == k + 2 <= n
    ensures k + 1 < n
  {
    if k == 0 {
      assert Active(es, 1) && Active(es, 2);
      PowerRises(0, a - 1);
      PowerRises(1, b - 1);
    } else {
      assert Active(es, asize + k);
      PowerRises(k + 1, a - 1);
      assert a == asize + k;
      assert k + 2 <= n ==> Active(es, k + 2);
      PowerRises(k + 1, b - 1);
    }
  }

  lemma ChainGrows(es: seq<Heapen>, asize: nat, n: nat, k: nat, a: nat, b: nat)
    requires Chain(es, asize, n, k) && Lightest(es, a, b)
    requires forall x: nat :: Active(Join(es, a, b), x) <==> (Active(es, x) && x != a && x != b) || x == |es|
    ensures Chain(Join(es, a, b), asize, n, k + 1)
  {
    ChainPair(es, asize, n, k, a, b);
    JoinShape(es, a, b);
    var j := Join(es, a, b);
    forall i | 1 <= i < k + 1 ensures Link(j, asize, i) {
      assert i < k ==> Link(es, asize, i);
    }
  }

  /** The first leaf ends up below all of them. */
  lemma {:induction false} ChainHops(es: seq<Heapen>, asize: nat, n: nat, k: nat, j: nat)
    requires Chain(es, asize, n, k) && 1 <= j <= k && forall x :: 0 <= x < |es| ==> Up(es, asize, x)
    ensures Hops(es, asize, asize + j) == k - j
    decreases k - j
  {
    if j < k {
      assert Link(es, asize, j);
      ChainHops(es, asize, n, k, j + 1);
    } else {
      assert Active(es, asize + k);
    }
  }

  /** A single tree over weights that double is too deep. */
  lemma ChainDeep(es: seq<Heapen>, asize: nat, kids: seq<(nat, nat)>, root: nat, n: nat, clen: seq<nat>, maxlen: nat)
    requires Forest(es, asize, kids) && Single(es, root) && Chain(es, asize, n, |kids|) && kids != []
    requires Lengths(es, asize, clen) && n >= maxlen + 2
    ensures Exceeds(clen, maxlen)
  {
    var k := |kids|;
    assert Active(es, asize + k);
    assert k + 2 <= n ==> Active(es, n);
    ChainHops(es, asize, n, k, 1);
    assert es[1].freq == Pow2(0) && Hops(es, asize, 1) == k;
    assert clen[0] == k;
  }

  /** The tree building loop. */
  method BuildTree(heap: array<nat>, ents: array<Heapen>, asize: nat, heapLast0: nat)
    returns (size: nat, ghost kids: seq<(nat, nat)>, ghost floor: nat)
    requires heap.Length == 257 && ents.Length == 512 && 1 <= heapLast0 <= asize <= 256
    requires Ready(ents[..asize + 1], heap[..heapLast0 + 1])
    modifies heap, ents
    ensures asize < size <= 512
    ensures Trees(ents[..size], heap[..2], asize, kids, floor,
                  old(Leaves(ents[..asize + 1], asize)), old(Live(ents[..asize + 1])))
    ensures heapLast0 > 1 ==> kids != []
    ensures Chains(old(Leaves(ents[..asize + 1], asize)), ents[..size], asize, |kids|)
    ensures Merged(old(Leaves(ents[..asize + 1], asize)), ents[..size], asize, kids)
  {
    hide Trees, Leaves, Live, Chains, Lightest, Join, Ready, IsHeap, Growing, Merged;
    size, kids, floor := asize + 1, [], 0;
    var heapLast := heapLast0;
    ghost var w, live := Leaves(ents[..size], asize), Live(ents[..size]);
    ReadyTrees(ents[..size], heap[..heapLast + 1]);
    StartChains(ents[..size], heap[..heapLast + 1], w);
    StartMerged(ents[..size], heap[..heapLast + 1], w);
    while heapLast > 1
      invariant 1 <= heapLast <= heapLast0 && size + heapLast == asize + 1 + heapLast0
      invariant heapLast < heapLast0 ==> kids != []
      invariant Trees(ents[..size], heap[..heapLast + 1], asize, kids, floor, w, live)
      invariant Chains(w, ents[..size], asize, |kids|) && Merged(w, ents[..size], asize, kids)
    {
      ghost var es, h, kids0, floor0 := ents[..size], heap[..heapLast + 1], kids, floor;
      kids, floor := MergeTwo(heap, ents, size, heapLast, asize, kids, floor, w, live);
      NextChains(es, h, asize, kids0, floor0, w, live, kids[|kids0|].0, kids[|kids0|].1);
      NextMerged(es, h, asize, kids0, floor0, w, live, kids[|kids0|].0, kids[|kids0|].1);
      heapLast := heapLast - 1;
      size := size + 1;
    }
  }

  lemma StartChains(es: seq<Heapen>, h: seq<nat>, w: seq<nat>)
    requires Ready(es, h) && |es| >= 1 && w == Leaves(es, |es| - 1)
    ensures Chains(w, es, |es| - 1, 0)
  {
    forall n: nat | Doubling(w, n) ensures Chain(es, |es| - 1, n, 0) {
      forall i | 1 <= i < |es| ensures es[i].freq == if i <= n then Pow2(i - 1) else 0 {
        assert w[i - 1] == es[i].freq;
      }
    }
  }

  lemma NextChains(es: seq<Heapen>, h: seq<nat>, asize: nat, kids: seq<(nat, nat)>, floor: nat, w: seq<nat>, live: nat,
                   a: nat, b: nat)
    requires Trees(es, h, asize, kids, floor, w, live) && Lightest(es, a, b)
    requires Chains(w, es, asize, |kids|)
    ensures Chains(w, Join(es, a, b), asize, |kids| + 1)
  {
    JoinForest(es, asize, kids, a, b);
    forall n: nat | Doubling(w, n) ensures Chain(Join(es, a, b), asize, n, |kids| + 1) {
      ChainGrows(es, asize, n, |kids|, a, b);
    }
  }

  lemma StartMerged(es: seq<Heapen>, h: seq<nat>, w: seq<nat>)
    requires Ready(es, h) && |es| >= 1 && w == Leaves(es, |es| - 1)
    ensures Merged(w, es, |es| - 1, [])
  {
    hide Merged;
    MergedStart(w, es);
  }

  lemma NextMerged(es: seq<Heapen>, h: seq<nat>, asize: nat, kids: seq<(nat, nat)>, floor: nat, w: seq<nat>, live: nat,
                   a: nat, b: nat)
    requires Trees(es, h, asize, kids, floor, w, live) && Lightest(es, a, b) && Merged(w, es, asize, kids)
    ensures Merged(w, Join(es, a, b), asize, kids + [(a, b)])
  {
    hide Merged, Join, IsHeap, Live, Leaves;
    MergedStep(w, es, asize, kids, a, b);
  }

  lemma ReadyTrees(es: seq<Heapen>, h: seq<nat>)
    requires Ready(es, h)
    ensures Trees(es, h, |es| - 1, [], 0, Leaves(es, |es| - 1), Live(es))
  {
    BareGrowing(es, Items(h));
  }

  lemma JoinShape(es: seq<Heapen>, a: nat, b: nat)
    requires a < |es| && b < |es| && a != b
    ensures var j := Join(es, a, b);
            |j| == |es| + 1
            && j[|es|] == Heapen(1 + Max(es[a].depth, es[b].depth), es[a].freq + es[b].freq, 0)
            && forall x :: 0 <= x < |es| ==> j[x] == if x == a || x == b then es[x].(parent := |es|) else es[x]
  {
  }

  /** The one tree in a heap of one; it is the last one made, if any was. */
  lemma LastTree(es: seq<Heapen>, asize: nat, kids: seq<(nat, nat)>, floor: nat, h: seq<nat>) returns (root: nat)
    requires |h| == 2 && Growing(es, asize, kids, floor, Items(h))
    ensures Forest(es, asize, kids) && Single(es, root) && Heavy(es, floor, root)
    ensures kids != [] ==> root > asize
  {
    root := h[1];
    assert Items(h) == multiset{root} by {
      assert h[1..] == [root];
    }
    forall x: nat | Active(es, x) ensures x == root {
      assert Items(h)[x] == 1;
    }
    assert Items(h)[root] == 1;
    if kids != [] {
      var last := |es| - 1;
      assert Kids(es, asize + 1 + (|kids| - 1), kids[|kids| - 1].0, kids[|kids| - 1].1);
      assert Up(es, asize, last);
      assert Active(es, last);
    }
  }

  /** Some length is above the limit. */
  predicate Exceeds(clen: seq<nat>, maxlen: nat) {
    exists i :: 0 <= i < |clen| && clen[i] > maxlen
  }

  lemma ExceedsNothing(clen: seq<nat>, maxlen: nat)
    requires clen == []
    ensures !Exceeds(clen, maxlen)
  {
  }

  lemma ExceedsStep(before: seq<nat>, b: nat, maxlen: nat)
    ensures Exceeds(before + [b], maxlen) <==> Exceeds(before, maxlen) || b > maxlen
  {
    var after := before + [b];
    assert forall i :: 0 <= i < |before| ==> after[i] == before[i];
    assert after[|before|] == b;
    if Exceeds(before, maxlen) {
      var i :| 0 <= i < |before| && before[i] > maxlen;
      assert after[i] > maxlen;
    }
  }

  lemma TotalNothing(freq: seq<nat>, clen: seq<nat>)
    requires freq == [] && clen == []
    ensures TotalBits(freq, clen) == 0
  {
  }

  lemma TotalStep(freq: seq<nat>, before: seq<nat>, after: seq<nat>, b: nat)
    requires |before| < |freq| && after == before + [b]
    ensures TotalBits(freq[..|after|], after) == TotalBits(freq[..|before|], before) + Cost(b, freq[|before|])
    ensures b == 0 ==> Cost(b, freq[|before|]) == 0
  {
    assert freq[..|after|][..|before|] == freq[..|before|] && after[..|before|] == before;
  }

  /** The inner loop: the parents above an entry. */
  method CountHops(ents: array<Heapen>, size: nat, ghost asize: nat, i: nat) returns (b: nat)
    requires i < size <= ents.Length && forall x :: 0 <= x < size ==> Up(ents[..size], asize, x)
    ensures b == Hops(ents[..size], asize, i)
  {
    ghost var es := ents[..size];
    b := 0;
    var p := ents[i].parent;
    assert Up(es, asize, i);
    while p != 0
      invariant p < size && Hops(es, asize, i) == b + if p == 0 then 0 else 1 + Hops(es, asize, p)
      decreases if p == 0 then 0 else size - p
    {
      assert Up(es, asize, p);
      b := b + 1;
      p := ents[p].parent;
    }
  }

  /** The lengths, counted along the parents. */
  method CountLengths(ents: array<Heapen>, size: nat, freq: seq<nat>, clen: array<nat>, maxlen: nat,
                      ghost kids: seq<(nat, nat)>)
    returns (overflow: bool, totalBits: nat)
    requires |freq| < size <= ents.Length && clen.Length >= |freq| && Forest(ents[..size], |freq|, kids)
    modifies clen
    ensures Lengths(ents[..size], |freq|, clen[..|freq|])
    ensures overflow <==> Exceeds(clen[..|freq|], maxlen)
    ensures totalBits == TotalBits(freq, clen[..|freq|])
  {
    hide Hops, Up, Kids, TotalBits, Cost, Exceeds;
    ghost var es := ents[..size];
    overflow, totalBits := false, 0;
    TotalNothing(freq[..0], clen[..0]);
    ExceedsNothing(clen[..0], maxlen);
    var i := 1;
    while i < |freq| + 1
      invariant 1 <= i <= |freq| + 1
      invariant forall k :: 0 <= k < i - 1 ==> clen[k] == if es[k + 1].freq != 0 then Hops(es, |freq|, k + 1) else 0
      invariant overflow <==> Exceeds(clen[..i - 1], maxlen)
      invariant totalBits == TotalBits(freq[..i - 1], clen[..i - 1])
    {
      var b: nat := 0;
      if ents[i].freq != 0 {
        b := CountHops(ents, size, |freq|, i);
        if b > maxlen {
          overflow := true;
        }
        totalBits := totalBits + Cost(b, freq[i - 1]);
      }
      ghost var before := clen[..i - 1];
      clen[i - 1] := b;
      TotalStep(freq, before, clen[..i], b);
      ExceedsStep(before, b, maxlen);
      assert clen[..i] == before + [b];
      i := i + 1;
    }
    assert freq[..|freq|] == freq;
  }

  // ----- rescaling -----

  function MaxOf(w: seq<nat>): nat {
    if w == [] then 0 else Max(MaxOf(w[..|w| - 1]), w[|w| - 1])
  }

  lemma {:induction false} MaxIs(w: seq<nat>, m: nat)
    requires forall i :: 0 <= i < |w| ==> w[i] <= m
    ensures MaxOf(w) <= m
  {
    if w != [] {
      MaxIs(w[..|w| - 1], m);
    }
  }

  lemma {:induction false} MaxBound(w: seq<nat>, i: nat)
    requires i < |w|
    ensures w[i] <= MaxOf(w)
  {
    if i < |w| - 1 {
      MaxBound(w[..|w| - 1], i);
    }
  }

  function Zeros(w: seq<nat>): nat {
    if w == [] then 0 else Zeros(w[..|w| - 1]) + if w[|w| - 1] == 0 then 1 else 0
  }

  lemma {:induction false} ZerosUpdate(w: seq<nat>, i: nat, f: nat)
    requires i < |w|
    ensures Zeros(w[i := f]) == Zeros(w) - (if w[i] == 0 then 1 else 0) + (if f == 0 then 1 else 0)
  {
    var n := |w| - 1;
    if i < n {
      assert w[i := f][..n] == w[..n][i := f];
      ZerosUpdate(w[..n], i, f);
    } else {
      assert w[i := f][..n] == w[..n];
    }
  }

  /** The weights after an overflow. */
  function Rescaled(w: seq<nat>): (r: seq<nat>)
    ensures |r| == |w|
  {
    seq(|w|, i requires 0 <= i < |w| => w[i] / 2 + 1)
  }

  /** Rescaling lowers the greatest weight, if it is above 2. */
  lemma RescaledFalls(w: seq<nat>)
    requires MaxOf(w) >= 3
    ensures MaxOf(Rescaled(w)) < MaxOf(w)
  {
    forall i | 0 <= i < |w| ensures Rescaled(w)[i] <= MaxOf(w) - 1 {
      MaxBound(w, i);
    }
    MaxIs(Rescaled(w), MaxOf(w) - 1);
  }

  lemma {:induction false} LiveLeaves(es: seq<Heapen>)
    requires Bare(es)
    ensures Live(es) <= (|es| - 1) * MaxOf(Leaves(es, |es| - 1))
  {
    var n := |es| - 1;
    var w := Leaves(es, n);
    if n > 0 {
      LiveLeaves(es[..n]);
      assert w[..n - 1] == Leaves(es[..n], n - 1);
      assert w[n - 1] == es[n].freq;
      MulMono(n - 1, MaxOf(w[..n - 1]), MaxOf(w));
      assert (n - 1) * MaxOf(w) + MaxOf(w) == n * MaxOf(w);
    }
  }

  lemma MulMono(n: nat, a: nat, b: nat)
    requires a <= b
    ensures n * a <= n * b
  {
  }

  function Weight(w: seq<nat>): nat {
    if w == [] then 0 else Weight(w[..|w| - 1]) + w[|w| - 1]
  }

  lemma {:induction false} LiveWeight(es: seq<Heapen>)
    requires Bare(es)
    ensures Live(es) == Weight(Leaves(es, |es| - 1))
  {
    var n := |es| - 1;
    var w := Leaves(es, n);
    if n > 0 {
      LiveWeight(es[..n]);
      assert w[..n - 1] == Leaves(es[..n], n - 1);
      assert w[n - 1] == es[n].freq;
    }
  }

  lemma {:induction false} WeightUpdate(w: seq<nat>, i: nat, f: nat)
    requires i < |w|
    ensures Weight(w[i := f]) == Weight(w) - w[i] + f
  {
    var n := |w| - 1;
    if i < n {
      assert w[i := f][..n] == w[..n][i := f];
      WeightUpdate(w[..n], i, f);
    } else {
      assert w[i := f][..n] == w[..n];
    }
  }

  /** The weights are too small altogether for a code that exceeds the limit. */
  predicate Light(freq: seq<nat>, maxlen: nat) {
    Weight(freq) + 1 < MinWeight(maxlen + 1)
  }

  /** Less than 28,656 counts are light, with code lengths up to 20. */
  lemma FewAreLight(freq: seq<nat>)
    ensures Light(freq, 20) <==> Weight(freq) < 28656
  {
    assert MinWeight(6) == 21 && MinWeight(7) == 34;
    assert MinWeight(8) == 55 && MinWeight(9) == 89;
    assert MinWeight(10) == 144 && MinWeight(11) == 233;
    assert MinWeight(12) == 377 && MinWeight(13) == 610;
    assert MinWeight(14) == 987 && MinWeight(15) == 1597;
    assert MinWeight(16) == 2584 && MinWeight(17) == 4181;
    assert MinWeight(18) == 6765 && MinWeight(19) == 10946;
    assert MinWeight(20) == 17711 && MinWeight(21) == 28657;
  }

  /** The alphabet is small enough for the limit: weights of at most 2 make no longer codes. */
  predicate Roomy(asize: nat, maxlen: nat) {
    2 * asize < MinWeight(maxlen + 1)
  }

  /** The three uses of djw_build_prefix: the byte alphabet, the code lengths and the groups. */
  lemma UsesRoomy(asize: nat, maxlen: nat)
    requires (asize == 256 && maxlen == 20) || (asize == 22 && maxlen == 15) || (asize <= 9 && maxlen == 7)
    ensures Roomy(asize, maxlen)
  {
    assert MinWeight(7) == 34 && MinWeight(8) == 55 by {
      assert MinWeight(2) == 3 && MinWeight(3) == 5 && MinWeight(4) == 8 && MinWeight(5) == 13 && MinWeight(6) == 21;
    }
    assert MinWeight(9) == 89 && MinWeight(10) == 144 && MinWeight(11) == 233 && MinWeight(12) == 377;
    assert MinWeight(13) == 610;
    MinWeightGrows(13, maxlen + 1 + if maxlen == 7 then 5 else 0);
  }

  /** A code that overflows has a weight above 2 in it. */
  lemma OverflowHeavy(es0: seq<Heapen>, es: seq<Heapen>, asize: nat, kids: seq<(nat, nat)>, floor: nat, root: nat,
                      clen: seq<nat>, maxlen: nat)
    requires Bare(es0) && |es0| == asize + 1 && Live(es) == Live(es0) && Roomy(asize, maxlen)
    requires Forest(es, asize, kids) && Single(es, root) && Heavy(es, floor, root)
    requires Lengths(es, asize, clen) && Exceeds(clen, maxlen)
    ensures MaxOf(Leaves(es0, asize)) >= 3 && Weight(Leaves(es0, asize)) >= MinWeight(maxlen + 1)
  {
    var i :| 0 <= i < asize && clen[i] > maxlen;
    DeepIsHeavy(es, asize, kids, floor, root, i + 1, maxlen);
    LiveLeaves(es0);
    LiveWeight(es0);
    var m := MaxOf(Leaves(es0, asize));
    if m <= 2 {
      MulMono(asize, m, 2);
    }
  }

  /** The lengths of a complete code in which every symbol that occurs has a word, of at most maxlen bits. */
  predicate GoodLengths(freq: seq<nat>, clen: seq<nat>, maxlen: nat) {
    && |clen| == |freq| && (forall i :: 0 <= i < |freq| && freq[i] != 0 ==> clen[i] > 0)
    && (forall i :: 0 <= i < |freq| ==> clen[i] <= maxlen) && Used(clen, maxlen) == Pow2(maxlen)
  }

  /** The same symbols have a length and a weight. */
  predicate SameSupport(clen: seq<nat>, w: seq<nat>) {
    |clen| == |w| && forall i :: 0 <= i < |w| ==> (clen[i] > 0 <==> w[i] != 0)
  }

  /** The weights still stand for the frequencies: a symbol that occurs has a weight; and as long as only
      one has a weight, it is the only one that occurs. */
  predicate Stands(freq: seq<nat>, w: seq<nat>) {
    && |w| == |freq| && (exists i :: 0 <= i < |freq| && freq[i] != 0)
    && forall i :: 0 <= i < |freq| && freq[i] != 0 ==> w[i] != 0
  }

  /** Only one symbol occurs. */
  ghost predicate Lone(freq: seq<nat>) {
    exists i :: LoneAt(freq, i)
  }

  predicate LoneAt(freq: seq<nat>, i: int) {
    0 <= i < |freq| && freq[i] != 0 && forall j :: 0 <= j < |freq| && j != i ==> freq[j] == 0
  }

  /** The fake second symbol. */
  function Second(freq: seq<nat>): nat
    requires freq != []
  {
    if freq[0] != 0 then |freq| - 1 else 0
  }

  predicate Full(clen: seq<nat>) {
    forall i :: 0 <= i < |clen| ==> clen[i] != 0
  }

  /** Only the symbols that occur have words, and the fake one. */
  ghost predicate Exact(freq: seq<nat>, clen: seq<nat>) {
    |clen| == |freq| && forall i :: 0 <= i < |freq| ==>
        (clen[i] > 0 <==> freq[i] != 0 || (Lone(freq) && i == Second(freq)))
  }

  /** Where the weights come from: the frequencies, with the fake symbol if need be, until they were
      rescaled, which leaves no zero. */
  ghost predicate Origin(freq: seq<nat>, w: seq<nat>, maxlen: nat)
    requires freq != []
  {
    |w| == |freq| &&
    (w == freq || (Lone(freq) && w == freq[Second(freq) := 1])
     || (Full(w) && MaxOf(freq) >= 3 && !Light(freq, maxlen)))
  }

  lemma LoneNotFull(w: seq<nat>)
    requires |w| >= 2 && Lone(w)
    ensures !Full(w)
  {
    var i :| LoneAt(w, i);
    assert w[if i == 0 then 1 else 0] == 0;
  }

  lemma FakeNotLone(freq: seq<nat>)
    requires |freq| >= 2 && Lone(freq)
    ensures !Lone(freq[Second(freq) := 1])
  {
    var j :| LoneAt(freq, j);
    var s, w := Second(freq), freq[Second(freq) := 1];
    forall i ensures !LoneAt(w, i) {
      assert w[s] != 0 && w[j] != 0 && s != j;
    }
  }

  lemma OriginLone(freq: seq<nat>, w: seq<nat>, maxlen: nat)
    requires |freq| >= 2 && Origin(freq, w, maxlen) && Lone(w)
    ensures w == freq && Origin(freq, w[Second(freq) := 1], maxlen)
  {
    LoneNotFull(w);
    if Lone(freq) {
      FakeNotLone(freq);
    }
  }

  lemma OriginRescaled(freq: seq<nat>, w: seq<nat>, maxlen: nat)
    requires |freq| >= 2 && Origin(freq, w, maxlen) && MaxOf(w) >= 3 && Weight(w) >= MinWeight(maxlen + 1)
    ensures Origin(freq, Rescaled(w), maxlen)
  {
    hide MinWeight;
    WeightUpdate(freq, Second(freq), 1);
    if !(Full(w) && MaxOf(freq) >= 3) && w != freq {
      forall i | 0 <= i < |w| ensures w[i] <= if MaxOf(freq) == 0 then 1 else MaxOf(freq) {
        MaxBound(freq, i);
      }
      MaxIs(w, if MaxOf(freq) == 0 then 1 else MaxOf(freq));
    }
  }

  /** Lengths for weights of such an origin. */
  lemma OriginExact(freq: seq<nat>, w: seq<nat>, clen: seq<nat>, maxlen: nat)
    requires |freq| >= 2 && Origin(freq, w, maxlen) && SameSupport(clen, w) && !Lone(w)
    ensures Full(clen) || Exact(freq, clen)
    ensures MaxOf(freq) <= 2 || Light(freq, maxlen) ==> Exact(freq, clen)
    ensures Steep(freq, maxlen) && !Steep(w, maxlen) ==> Full(clen)
  {
    if Steep(freq, maxlen) && !Steep(w, maxlen) && !Full(w) {
      SteepNotLone(freq, maxlen);
    }
  }

  lemma SteepNotLone(freq: seq<nat>, maxlen: nat)
    requires Steep(freq, maxlen)
    ensures !Lone(freq)
  {
    var n: nat :| Doubling(freq, n) && n >= maxlen + 2;
    assert freq[0] == Pow2(0) && freq[1] == Pow2(1);
  }

  /** Some symbol has a tree; and if only one has, the fake second symbol is another one. */
  lemma HeapCount(freq: seq<nat>, es: seq<Heapen>, h: seq<nat>)
    requires |h| > 0 && Ready(es, h) && |es| == |freq| + 1 && |freq| >= 2 && Stands(freq, Leaves(es, |freq|))
    ensures |h| > 1
    ensures |h| == 2 ==> Leaves(es, |freq|)[Second(freq)] == 0
    ensures |h| == 2 <==> Lone(Leaves(es, |freq|))
  {
    var i :| 0 <= i < |freq| && freq[i] != 0;
    var w := Leaves(es, |freq|);
    assert w[i] != 0 && Active(es, i + 1);
    assert Items(h)[i + 1] == 1;
    if |h| == 2 {
      var s := Second(freq);
      assert h[1..] == [h[1]];
      assert Items(h) == multiset{h[1]} && i + 1 == h[1];
      forall j | 0 <= j < |w| && j != i ensures w[j] == 0 {
        assert Items(h)[j + 1] == 0 && !Active(es, j + 1);
      }
      assert LoneAt(w, i);
      if freq[0] != 0 {
        assert w[0] != 0 && Active(es, 1) && Items(h)[1] == 1;
      }
      assert Items(h)[s + 1] == 0 && !Active(es, s + 1);
    }
    if Lone(w) && |h| > 2 {
      LoneHeap(es, h, w);
    }
  }

  lemma LoneHeap(es: seq<Heapen>, h: seq<nat>, w: seq<nat>)
    requires |h| > 2 && Ready(es, h) && |es| == |w| + 1 && w == Leaves(es, |w|)
    ensures !Lone(w)
  {
    assert h[1..] == [h[1], h[2]] + h[3..];
    assert multiset{h[1], h[2]} <= Items(h);
    assert Active(es, h[1]) && Active(es, h[2]) && h[1] != h[2];
    forall i ensures !LoneAt(w, i) {
      assert w[h[1] - 1] != 0 && w[h[2] - 1] != 0;
    }
  }

  lemma FakeFalls(freq: seq<nat>, w: seq<nat>, s: nat)
    requires Stands(freq, w) && s < |w| && w[s] == 0
    ensures MaxOf(w[s := 1]) <= MaxOf(w) && Zeros(w[s := 1]) < Zeros(w) && Stands(freq, w[s := 1])
  {
    ZerosUpdate(w, s, 1);
    var i :| 0 <= i < |freq| && freq[i] != 0;
    MaxBound(w, i);
    var u := w[s := 1];
    forall k | 0 <= k < |u| ensures u[k] <= MaxOf(w) {
      MaxBound(w, k);
    }
    MaxIs(u, MaxOf(w));
  }

  /** A round without overflow gives good lengths. */
  lemma RoundGood(freq: seq<nat>, es: seq<Heapen>, h: seq<nat>, kids: seq<(nat, nat)>, floor: nat, w: seq<nat>,
                  live: nat, clen: seq<nat>, maxlen: nat)
    requires Trees(es, h, |freq|, kids, floor, w, live) && |h| == 2 && kids != [] && Stands(freq, w)
    requires Lengths(es, |freq|, clen) && !Exceeds(clen, maxlen)
    ensures GoodLengths(freq, clen, maxlen) && SameSupport(clen, w)
  {
    var root := LastTree(es, |freq|, kids, floor, h);
    forall x | 1 <= x <= |freq| && es[x].freq != 0 ensures es[x].parent != 0 {
      assert !Active(es, x);
    }
    Complete(es, |freq|, kids, root, clen, maxlen);
    forall i | 0 <= i < |freq| ensures clen[i] > 0 <==> w[i] != 0 {
      assert w[i] == es[i + 1].freq;
    }
  }

  /** The lengths of a round are those of a shortest code for its weights, too long or not. */
  lemma RoundShortest(es: seq<Heapen>, h: seq<nat>, asize: nat, kids: seq<(nat, nat)>, floor: nat, w: seq<nat>,
                      live: nat, clen: seq<nat>)
    requires Trees(es, h, asize, kids, floor, w, live) && |h| == 2 && Lengths(es, asize, clen)
    requires Merged(w, es, asize, kids)
    ensures Shortest(w, clen)
  {
    hide Shortest, Merged, IsHeap, Live, Lengths;
    var root := LastTree(es, asize, kids, floor, h);
    hide Growing, Forest, Single;
    TreeShortest(es, asize, kids, root, w, clen);
  }

  /** A round that overflows has a weight above 2 in it. */
  lemma RoundOver(es0: seq<Heapen>, h0: seq<nat>, es: seq<Heapen>, h: seq<nat>, asize: nat, kids: seq<(nat, nat)>,
                  floor: nat, clen: seq<nat>, maxlen: nat)
    requires Ready(es0, h0) && |es0| == asize + 1 && Roomy(asize, maxlen) && |h| == 2
    requires Trees(es, h, asize, kids, floor, Leaves(es0, asize), Live(es0))
    requires Lengths(es, asize, clen) && Exceeds(clen, maxlen)
    ensures MaxOf(Leaves(es0, asize)) >= 3 && Weight(Leaves(es0, asize)) >= MinWeight(maxlen + 1)
  {
    var root := LastTree(es, asize, kids, floor, h);
    hide Forest, Single, Heavy, Leaves, Growing;
    OverflowHeavy(es0, es, asize, kids, floor, root, clen, maxlen);
  }

  /** Weights that double do overflow. */
  lemma SteepOver(es: seq<Heapen>, h: seq<nat>, asize: nat, kids: seq<(nat, nat)>, floor: nat, w: seq<nat>, live: nat,
                  clen: seq<nat>, maxlen: nat)
    requires Trees(es, h, asize, kids, floor, w, live) && |h| == 2 && kids != [] && Lengths(es, asize, clen)
    requires Chains(w, es, asize, |kids|)
    ensures Steep(w, maxlen) ==> Exceeds(clen, maxlen)
  {
    if Steep(w, maxlen) {
      var n: nat :| Doubling(w, n) && n >= maxlen + 2;
      var root := LastTree(es, asize, kids, floor, h);
      ChainDeep(es, asize, kids, root, n, clen, maxlen);
    }
  }

  lemma TreesForest(es: seq<Heapen>, h: seq<nat>, asize: nat, kids: seq<(nat, nat)>, floor: nat, w: seq<nat>, live: nat)
    requires Trees(es, h, asize, kids, floor, w, live)
    ensures Forest(es, asize, kids) && Leaves(es[..asize + 1], asize) == w
  {
    LeavesSame(es, es[..asize + 1], asize);
  }

  lemma FakeLeaves(es: seq<Heapen>, fs: seq<Heapen>, s: nat)
    requires s + 1 < |es| && fs == es[s + 1 := es[s + 1].(freq := 1)]
    ensures Leaves(fs, |es| - 1) == Leaves(es, |es| - 1)[s := 1]
  {
  }

  lemma RescaledStands(freq: seq<nat>, w: seq<nat>)
    requires Stands(freq, w)
    ensures Stands(freq, Rescaled(w))
  {
  }

  /** The halving loop. */
  method Rescale(ents: array<Heapen>, asize: nat)
    requires asize < ents.Length
    modifies ents
    ensures Leaves(ents[..asize + 1], asize) == Rescaled(old(Leaves(ents[..asize + 1], asize)))
  {
    var i := 1;
    while i < asize + 1
      invariant 1 <= i <= asize + 1
      invariant forall k :: 1 <= k < i ==> ents[k].freq == old(ents[k].freq) / 2 + 1
      invariant forall k :: i <= k <= asize ==> ents[k] == old(ents[k])
    {
      ents[i] := ents[i].(freq := ents[i].freq / 2 + 1);
      i := i + 1;
    }

    ghost var was, now := old(Leaves(ents[..asize + 1], asize)), Leaves(ents[..asize + 1], asize);
    assert forall k :: 0 <= k < asize ==> now[k] == was[k] / 2 + 1;
  }

  /** The tree and its lengths, from the initial heap on. */
  method TryLengths(heap: array<nat>, ents: array<Heapen>, freq: seq<nat>, clen: array<nat>, maxlen: nat, heapLast: nat)
    returns (overflow: bool, totalBits: nat)
    requires heap.Length == 257 && ents.Length == 512 && 1 < heapLast <= |freq| <= 256
    requires clen.Length >= |freq| && clen != heap && Roomy(|freq|, maxlen)
    requires Ready(ents[..|freq| + 1], heap[..heapLast + 1]) && Stands(freq, Leaves(ents[..|freq| + 1], |freq|))
    modifies heap, ents, clen
    ensures Leaves(ents[..|freq| + 1], |freq|) == old(Leaves(ents[..|freq| + 1], |freq|))
    ensures totalBits == TotalBits(freq, clen[..|freq|])
    ensures !overflow ==> GoodLengths(freq, clen[..|freq|], maxlen)
    ensures !overflow ==> SameSupport(clen[..|freq|], Leaves(ents[..|freq| + 1], |freq|))
    ensures overflow ==> MaxOf(Leaves(ents[..|freq| + 1], |freq|)) >= 3
    ensures overflow ==> Weight(Leaves(ents[..|freq| + 1], |freq|)) >= MinWeight(maxlen + 1)
    ensures Steep(Leaves(ents[..|freq| + 1], |freq|), maxlen) ==> overflow
    ensures Shortest(Leaves(ents[..|freq| + 1], |freq|), clen[..|freq|])
    ensures overflow <==> Exceeds(clen[..|freq|], maxlen)
  {
    hide Merged, Shortest, Exceeds, Leaves, MaxOf, Stands, Forest, Live, Lengths, GoodLengths, TotalBits, Ready,
         Trees, Roomy, Chains, Steep,
         SameSupport, Weight, MinWeight;
    ghost var asize, es0, heap0 := |freq|, ents[..|freq| + 1], heap[..heapLast + 1];
    ghost var w, live := Leaves(es0, asize), Live(es0);
    var size, kids, floor := BuildTree(heap, ents, |freq|, heapLast);
    ghost var es, h := ents[..size], heap[..2];
    TreesForest(es, h, asize, kids, floor, w, live);
    assert es[..asize + 1] == ents[..asize + 1];
    overflow, totalBits := CountLengths(ents, size, freq, clen, maxlen, kids);
    SteepOver(es, h, asize, kids, floor, w, live, clen[..asize], maxlen);
    RoundShortest(es, h, asize, kids, floor, w, live, clen[..asize]);
    if !overflow {
      RoundGood(freq, es, h, kids, floor, w, live, clen[..asize], maxlen);
    } else {
      RoundOver(es0, heap0, es, h, asize, kids, floor, clen[..asize], maxlen);
    }
  }

  // ----- how short the code is -----

  /** The weights after k overflows. */
  function Halved(w: seq<nat>, k: nat): (r: seq<nat>)
    ensures |r| == |w|
  {
    if k == 0 then w else Rescaled(Halved(w, k - 1))
  }

  /** The weights of the first tree: a symbol that occurs alone gets a second one. */
  ghost function FirstWeights(freq: seq<nat>): seq<nat>
    requires freq != []
  {
    if Lone(freq) then freq[Second(freq) := 1] else freq
  }

  /** A shortest code for the weights has a word that is too long. */
  ghost predicate TooLong(w: seq<nat>, maxlen: nat) {
    exists lens :: Shortest(w, lens) && Exceeds(lens, maxlen)
  }

  /** The weights come from k overflows, each of them of a shortest code. */
  ghost predicate Overflown(freq: seq<nat>, w: seq<nat>, k: nat, maxlen: nat)
    requires freq != []
  {
    w == Halved(FirstWeights(freq), k) && forall j: nat :: j < k ==> TooLong(Halved(FirstWeights(freq), j), maxlen)
  }

  /** A shortest code for the frequencies; or, as long as such a code is too long, for the halved ones. */
  ghost predicate Best(freq: seq<nat>, clen: seq<nat>, maxlen: nat)
    requires freq != []
  {
    exists w, k: nat :: Overflown(freq, w, k, maxlen) && Shortest(w, clen)
  }

  lemma NotOverflown(freq: seq<nat>, maxlen: nat)
    requires freq != []
    ensures Overflown(freq, FirstWeights(freq), 0, maxlen)
    ensures FirstWeights(freq) == if Lone(freq) then freq[Second(freq) := 1] else freq
  {
  }

  lemma OverflowsAgain(freq: seq<nat>, w: seq<nat>, k: nat, maxlen: nat, lens: seq<nat>)
    requires freq != [] && Overflown(freq, w, k, maxlen) && Shortest(w, lens) && Exceeds(lens, maxlen)
    ensures Overflown(freq, Rescaled(w), k + 1, maxlen)
  {
    hide Shortest, Exceeds;
    assert TooLong(w, maxlen);
  }

  lemma {:induction false} SumTwo(clen: seq<nat>, size: nat, i: nat, s: nat)
    requires forall j :: 0 <= j < |clen| ==> clen[j] <= size && (clen[j] > 0 <==> j == i || j == s)
    requires i != s
    ensures Sum(clen, size) == (if i < |clen| then Pow2(size - clen[i]) else 0)
                               + (if s < |clen| then Pow2(size - clen[s]) else 0)
  {
    if clen != [] {
      SumTwo(clen[..|clen| - 1], size, i, s);
    }
  }

  lemma {:induction false} TotalLone(freq: seq<nat>, clen: seq<nat>, i: nat)
    requires |clen| == |freq| && forall j :: 0 <= j < |freq| && j != i ==> freq[j] == 0
    ensures TotalBits(freq, clen) == if i < |freq| then Cost(clen[i], freq[i]) else 0
  {
    if freq != [] {
      TotalLone(freq[..|freq| - 1], clen[..|freq| - 1], i);
      CostNothing(clen[|freq| - 1]);
    }
  }

  /** A symbol that occurs alone gets a word of one bit. */
  lemma LoneShortest(freq: seq<nat>, clen: seq<nat>, maxlen: nat)
    requires |freq| >= 2 && Lone(freq) && GoodLengths(freq, clen, maxlen) && Exact(freq, clen)
    ensures Shortest(freq, clen)
  {
    var i: nat :| LoneAt(freq, i);
    var s := Second(freq);
    UsedIsSum(clen, maxlen);
    SumTwo(clen, maxlen, i, s);
    OneBit(maxlen, clen[i], clen[s]);
    forall other: seq<nat>, l: nat | CodeFor(freq, other, l) ensures TotalBits(freq, clen) <= TotalBits(freq, other) {
      TotalLone(freq, clen, i);
      TotalLone(freq, other, i);
      MulLe(clen[i], other[i], freq[i]);
    }
  }

  lemma OneBit(m: nat, a: nat, b: nat)
    requires 1 <= a <= m && 1 <= b <= m && Pow2(m - a) + Pow2(m - b) == Pow2(m)
    ensures a == 1
  {
    PowerRises(m - b, m);
    if a >= 2 {
      PowerRises(m - a, m - 1);
      PowerRises(m - b, m - 1);
    }
  }

  /** The code that is returned is as short as can be. */
  lemma IsBest(freq: seq<nat>, w: seq<nat>, k: nat, clen: seq<nat>, maxlen: nat)
    requires |freq| >= 2 && Origin(freq, w, maxlen) && !Lone(w) && Overflown(freq, w, k, maxlen) && Shortest(w, clen)
    requires GoodLengths(freq, clen, maxlen) && (MaxOf(freq) <= 2 || Light(freq, maxlen) ==> Exact(freq, clen))
    ensures Best(freq, clen, maxlen) && (MaxOf(freq) <= 2 || Light(freq, maxlen) ==> Shortest(freq, clen))
  {
    hide Shortest, GoodLengths, Exact, Overflown, MaxOf, Light;
    if (MaxOf(freq) <= 2 || Light(freq, maxlen)) && Lone(freq) {
      LoneShortest(freq, clen, maxlen);
    }
  }

  /** What the outer loop keeps about the weights: they stand for the frequencies, and come from them
      by k overflows, but for the second symbol that one alone still needs. */
  ghost predicate Loaded(freq: seq<nat>, w: seq<nat>, k: nat, maxlen: nat)
    requires freq != []
  {
    Stands(freq, w) && Origin(freq, w, maxlen) && (Lone(w) || Overflown(freq, w, k, maxlen))
  }

  lemma LoadStart(freq: seq<nat>, maxlen: nat)
    requires exists i :: 0 <= i < |freq| && freq[i] != 0
    ensures Loaded(freq, freq, 0, maxlen)
  {
    hide Overflown, FirstWeights;
    NotOverflown(freq, maxlen);
  }

  lemma LoadFake(freq: seq<nat>, w: seq<nat>, k: nat, maxlen: nat)
    requires |freq| >= 2 && Loaded(freq, w, k, maxlen) && Lone(w) && w[Second(freq)] == 0
    ensures var u := w[Second(freq) := 1]; Loaded(freq, u, 0, maxlen) && Falls(w, u)
  {
    hide Overflown, FirstWeights, MaxOf, Zeros;
    FakeFalls(freq, w, Second(freq));
    OriginLone(freq, w, maxlen);
    NotOverflown(freq, maxlen);
  }

  lemma LoadHalves(freq: seq<nat>, w: seq<nat>, k: nat, maxlen: nat, lens: seq<nat>)
    requires |freq| >= 2 && Loaded(freq, w, k, maxlen) && !Lone(w) && Shortest(w, lens) && Exceeds(lens, maxlen)
    requires MaxOf(w) >= 3 && Weight(w) >= MinWeight(maxlen + 1)
    ensures Loaded(freq, Rescaled(w), k + 1, maxlen) && Falls(w, Rescaled(w))
  {
    hide Overflown, Shortest, Exceeds, Origin, Lone, MaxOf, Weight, MinWeight;
    OriginRescaled(freq, w, maxlen);
    OverflowsAgain(freq, w, k, maxlen, lens);
    RescaledFalls(w);
    RescaledStands(freq, w);
  }

  /** The lengths of a round without overflow. */
  lemma RoundDone(freq: seq<nat>, w: seq<nat>, k: nat, clen: seq<nat>, maxlen: nat)
    requires |freq| >= 2 && Loaded(freq, w, k, maxlen) && !Lone(w) && Shortest(w, clen)
    requires GoodLengths(freq, clen, maxlen) && SameSupport(clen, w) && !Steep(w, maxlen)
    ensures Result(freq, clen, maxlen)
  {
    hide Overflown, Shortest, Origin, Lone, Steep, Full, Exact, GoodLengths, SameSupport, MaxOf, Light, Best;
    OriginExact(freq, w, clen, maxlen);
    IsBest(freq, w, k, clen, maxlen);
  }

  /** The loop that loads the frequencies. */
  method LoadEntries(freq: seq<nat>) returns (ents: array<Heapen>)
    requires |freq| <= 256
    ensures fresh(ents) && ents.Length == 512 && Leaves(ents[..|freq| + 1], |freq|) == freq
  {
    ents := new Heapen[512](_ => Heapen(0, 0, 0));
    for i := 0 to |freq|
      invariant forall k :: 0 <= k < i ==> ents[k + 1].freq == freq[k]
    {
      ents[i + 1] := Heapen(0, freq[i], 0);
    }
  }

  /** What djw_build_prefix promises of its lengths. */
  ghost predicate Result(freq: seq<nat>, clen: seq<nat>, maxlen: nat)
    requires freq != []
  {
    && GoodLengths(freq, clen, maxlen) && (Full(clen) || Exact(freq, clen)) && Best(freq, clen, maxlen)
    && (MaxOf(freq) <= 2 || Light(freq, maxlen) ==> Exact(freq, clen) && Shortest(freq, clen))
    && (Steep(freq, maxlen) ==> Full(clen))
  }

  /** One turn of the outer loop: it is the last one, or the weights fall. */
  method Round(heap: array<nat>, ents: array<Heapen>, freq: seq<nat>, clen: array<nat>, maxlen: nat, ghost k: nat)
    returns (done: bool, totalBits: nat, ghost k': nat)
    requires heap.Length == 257 && ents.Length == 512 && 2 <= |freq| <= 256
    requires clen.Length >= |freq| && clen != heap && Roomy(|freq|, maxlen)
    requires Loaded(freq, Leaves(ents[..|freq| + 1], |freq|), k, maxlen)
    modifies heap, ents, clen
    ensures done ==> totalBits == TotalBits(freq, clen[..|freq|]) && Result(freq, clen[..|freq|], maxlen)
    ensures !done ==> var w, w' := old(Leaves(ents[..|freq| + 1], |freq|)), Leaves(ents[..|freq| + 1], |freq|);
                      Loaded(freq, w', k', maxlen) && Falls(w, w')
  {
    hide Loaded, Falls, Shortest, Exceeds, Lone, SameSupport, Leaves, Stands, Result,
         GoodLengths, TotalBits, Rescaled, Ready, Roomy, Weight, MinWeight, Steep, MaxOf;
    var asize := |freq|;
    ghost var w := Leaves(ents[..asize + 1], asize);
    LoadedStands(freq, w, k, maxlen);
    var heapLast := InitHeap(heap, ents, asize);
    ghost var es0 := ents[..asize + 1];
    HeapCount(freq, es0, heap[..heapLast + 1]);
    if heapLast == 1 {
      var s := if freq[0] != 0 then asize - 1 else 0;
      LoadFake(freq, w, k, maxlen);
      ents[s + 1] := ents[s + 1].(freq := 1);
      FakeLeaves(es0, ents[..asize + 1], s);
      return false, 0, 0;
    }
    var overflow;
    overflow, totalBits := TryLengths(heap, ents, freq, clen, maxlen, heapLast);
    done, k' := !overflow, k + 1;
    if !overflow {
      RoundDone(freq, w, k, clen[..asize], maxlen);
      return;
    }
    LoadHalves(freq, w, k, maxlen, clen[..asize]);
    Rescale(ents, asize);
  }

  /** The greatest weight falls, or a zero goes. */
  predicate Falls(w: seq<nat>, w': seq<nat>) {
    MaxOf(w') < MaxOf(w) || (MaxOf(w') == MaxOf(w) && Zeros(w') < Zeros(w))
  }

  /** djw_build_prefix */
  method BuildPrefix(freq: seq<nat>, clen: array<nat>, maxlen: nat) returns (totalBits: nat)
    requires 2 <= |freq| <= 256 && clen.Length >= |freq| && Roomy(|freq|, maxlen)
    requires exists i :: 0 <= i < |freq| && freq[i] != 0
    modifies clen
    ensures GoodLengths(freq, clen[..|freq|], maxlen)
    ensures totalBits == TotalBits(freq, clen[..|freq|])
    ensures Full(clen[..|freq|]) || Exact(freq, clen[..|freq|])
    ensures MaxOf(freq) <= 2 || Light(freq, maxlen) ==>
              Exact(freq, clen[..|freq|]) && Shortest(freq, clen[..|freq|])
    ensures Steep(freq, maxlen) ==> Full(clen[..|freq|])
    ensures Best(freq, clen[..|freq|], maxlen)
  {
    LoadStart(freq, maxlen);
    var ents := LoadEntries(freq);
    var heap := new nat[257](_ => 0);
    hide Loaded, Best, Shortest, Full, Exact, Steep, Leaves, MaxOf, Zeros, GoodLengths, TotalBits, Roomy, Light;
    var done := false;
    totalBits := 0;
    ghost var k := 0;
    while !done
      invariant !done ==> Loaded(freq, Leaves(ents[..|freq| + 1], |freq|), k, maxlen)
      invariant done ==> totalBits == TotalBits(freq, clen[..|freq|]) && Result(freq, clen[..|freq|], maxlen)
      decreases !done, MaxOf(Leaves(ents[..|freq| + 1], |freq|)), Zeros(Leaves(ents[..|freq| + 1], |freq|))
    {
      done, totalBits, k := Round(heap, ents, freq, clen, maxlen, k);
    }
  }

  lemma LoadedStands(freq: seq<nat>, w: seq<nat>, k: nat, maxlen: nat)
    requires freq != [] && Loaded(freq, w, k, maxlen)
    ensures Stands(freq, w)
  {
  }
}

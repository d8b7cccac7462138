/** The heap of minimum weight subtrees: heap_less, heap_insert and heap_extract of
    Baseline/third/xdelta/xdelta3-djw.h. The heap holds indices of entries; its 0th place holds the
    fake entry 0, which is smaller than every other. */
module Heap {

  datatype Heapen = Heapen(depth: nat, freq: nat, parent: nat)

  /** heap_less */
  predicate Less(a: Heapen, b: Heapen) {
    a.freq < b.freq || (a.freq == b.freq && a.depth < b.depth)
  }

  /** The i-th place holds nothing smaller than its parent's place. */
  predicate Ordered(es: seq<Heapen>, h: seq<nat>, i: nat)
    requires i < |h| && Indices(es, h)
  {
    !Less(es[h[i]], es[h[i / 2]])
  }

  predicate NotBelow(es: seq<Heapen>, h: seq<nat>, i: nat, j: nat)
    requires i < |h| && j < |h| && Indices(es, h)
  {
    !Less(es[h[i]], es[h[j]])
  }

  predicate Indices(es: seq<Heapen>, h: seq<nat>) {
    forall i :: 0 <= i < |h| ==> h[i] < |es|
  }

  /** A heap in the places from 1 on, with the sentinel in place 0. */
  predicate IsHeap(es: seq<Heapen>, h: seq<nat>) {
    && |h| > 0 && Indices(es, h) && h[0] == 0 && es[0].freq == 0 && es[0].depth == 0
    && forall i :: 1 <= i < |h| ==> Ordered(es, h, i)
  }

  /** The entries in the heap. */
  function Items(h: seq<nat>): multiset<nat>
    requires |h| > 0
  {
    multiset(h[1..])
  }

  function Swap(h: seq<nat>, i: nat, j: nat): (r: seq<nat>)
    requires i < |h| && j < |h|
    ensures |r| == |h|
  {
    h[i := h[j]][j := h[i]]
  }

  lemma SwapItems(h: seq<nat>, i: nat, j: nat)
    requires 1 <= i < |h| && 1 <= j < |h|
    ensures Items(Swap(h, i, j)) == Items(h)
  {
    var t := h[1..];
    assert Swap(h, i, j)[1..] == t[i - 1 := t[j - 1]][j - 1 := t[i - 1]];
    SwapMultiset(t, i - 1, j - 1);
  }

  lemma SwapMultiset(t: seq<nat>, i: nat, j: nat)
    requires i < |t| && j < |t|
    ensures multiset(t[i := t[j]][j := t[i]]) == multiset(t)
  {
    var u := t[i := t[j]];
    assert multiset(u) == multiset(t) - multiset{t[i]} + multiset{t[j]};
    assert multiset(u[j := t[i]]) == multiset(u) - multiset{u[j]} + multiset{t[i]};
  }

  // ----- insertion -----

  /** Ordered but for the new element at p, whose descendants are below its parent as well. */
  predicate AlmostUp(es: seq<Heapen>, h: seq<nat>, p: nat) {
    && 1 <= p < |h| && Indices(es, h) && h[0] == 0 && es[0].freq == 0 && es[0].depth == 0
    && (forall i :: 1 <= i < |h| && i != p ==> Ordered(es, h, i))
    && (forall i :: 1 <= i < |h| && i / 2 == p ==> NotBelow(es, h, i, p / 2))
  }

  lemma MoveUp(es: seq<Heapen>, h: seq<nat>, p: nat)
    requires AlmostUp(es, h, p) && Less(es[h[p]], es[h[p / 2]])
    ensures p / 2 >= 1 && AlmostUp(es, Swap(h, p, p / 2), p / 2)
  {
    var pp, s := p / 2, Swap(h, p, p / 2);
    assert pp >= 1;
    assert Ordered(es, h, pp);
    forall i | 1 <= i < |h| && i != pp ensures Ordered(es, s, i) {
      assert i != p ==> Ordered(es, h, i);
      assert i / 2 == p ==> NotBelow(es, h, i, p / 2);
    }
    forall i | 1 <= i < |h| && i / 2 == pp ensures NotBelow(es, s, i, pp / 2) {
      assert i != p ==> Ordered(es, h, i);
    }
  }

  lemma InPlace(es: seq<Heapen>, h: seq<nat>, p: nat)
    requires AlmostUp(es, h, p) && !Less(es[h[p]], es[h[p / 2]])
    ensures IsHeap(es, h)
  {
    assert Ordered(es, h, p);
  }

  lemma NewPlace(es: seq<Heapen>, h: seq<nat>, e: nat)
    requires IsHeap(es, h) && e < |es|
    ensures AlmostUp(es, h + [e], |h|) && Items(h + [e]) == Items(h) + multiset{e}
  {
    var s := h + [e];
    assert s[1..] == h[1..] + [e];
    forall i | 1 <= i < |h| ensures Ordered(es, s, i) {
      assert Ordered(es, h, i);
    }
  }

  /** heap_insert: ents[e] goes in at the next free place p. */
  method HeapInsert(heap: array<nat>, ents: array<Heapen>, ghost size: nat, p: nat, e: nat)
    requires 1 <= p < heap.Length && e < size <= ents.Length && IsHeap(ents[..size], heap[..p])
    modifies heap
    ensures IsHeap(ents[..size], heap[..p + 1])
    ensures Items(heap[..p + 1]) == Items(old(heap[..p])) + multiset{e}
  {
    hide IsHeap, Items, Swap;
    ghost var es, h := ents[..size], heap[..p] + [e];
    NewPlace(es, heap[..p], e);
    var q, pp := p, p / 2;
    while Less(ents[e], ents[heap[pp]])
      invariant 1 <= q <= p && pp == q / 2 && |h| == p + 1 && h[q] == e
      invariant forall k :: 0 <= k <= p && k != q ==> heap[k] == h[k]
      invariant AlmostUp(es, h, q) && Items(h) == Items(old(heap[..p])) + multiset{e}
      decreases q
    {
      MoveUp(es, h, q);
      SwapItems(h, q, pp);
      SwapAt(h, q, pp);
      h := Swap(h, q, pp);
      heap[q] := heap[pp];
      q := pp;
      pp := q / 2;
    }
    InPlace(es, h, q);
    heap[q] := e;
    assert heap[..p + 1] == h;
  }

  lemma SwapAt(h: seq<nat>, i: nat, j: nat)
    requires i < |h| && j < |h|
    ensures forall k :: 0 <= k < |h| ==> Swap(h, i, j)[k] == (if k == i then h[j] else if k == j then h[i] else h[k])
  {
  }

  // ----- extraction -----

  /** Nothing in the heap is smaller than what is in place 1. */
  lemma {:induction false} RootLeast(es: seq<Heapen>, h: seq<nat>, i: nat)
    requires IsHeap(es, h) && 1 <= i < |h|
    ensures !Less(es[h[i]], es[h[1]])
  {
    if i > 1 {
      RootLeast(es, h, i / 2);
      assert Ordered(es, h, i);
    }
  }

  /** Ordered but for the children of p, which are not smaller than p's parent. */
  predicate AlmostDown(es: seq<Heapen>, h: seq<nat>, p: nat) {
    && 1 <= p && |h| > 0 && Indices(es, h) && h[0] == 0 && es[0].freq == 0 && es[0].depth == 0
    && (forall i :: 1 <= i < |h| && i / 2 != p ==> Ordered(es, h, i))
    && (p < |h| ==> forall i :: 1 <= i < |h| && i / 2 == p ==> NotBelow(es, h, i, p / 2))
  }

  lemma MoveDown(es: seq<Heapen>, h: seq<nat>, p: nat, pc: nat)
    requires AlmostDown(es, h, p) && 1 <= p < |h| && pc / 2 == p && pc < |h|
    requires 2 * p + 1 < |h| ==> !Less(es[h[4 * p + 1 - pc]], es[h[pc]])
    requires Less(es[h[pc]], es[h[p]])
    ensures AlmostDown(es, Swap(h, p, pc), pc)
  {
    var s := Swap(h, p, pc);
    assert NotBelow(es, h, pc, p / 2);
    forall i | 1 <= i < |h| && i / 2 != pc ensures Ordered(es, s, i) {
      assert i / 2 != p ==> Ordered(es, h, i);
      if i / 2 == p && i != pc {
        assert i == 4 * p + 1 - pc;
      }
    }
    forall i | 1 <= i < |h| && i / 2 == pc ensures NotBelow(es, s, i, pc / 2) {
      assert Ordered(es, h, i);
    }
  }

  lemma Settled(es: seq<Heapen>, h: seq<nat>, p: nat)
    requires AlmostDown(es, h, p) && 1 <= p
    requires 2 * p < |h| ==> !Less(es[h[2 * p]], es[h[p]])
    requires 2 * p + 1 < |h| ==> !Less(es[h[2 * p + 1]], es[h[p]])
    ensures IsHeap(es, h)
  {
    forall i | 1 <= i < |h| ensures Ordered(es, h, i) {
      if i / 2 == p {
        assert i == 2 * p || i == 2 * p + 1;
      }
    }
  }

  lemma TakeRootItems(h: seq<nat>)
    requires |h| >= 2
    ensures var s := h[1 := h[|h| - 1]][..|h| - 1];
            Items(s) + multiset{h[1]} == Items(h)
  {
    var last := |h| - 1;
    var s := h[1 := h[last]][..last];
    var mid := if last > 1 then h[2..last] else [];
    if last > 1 {
      assert h[1..] == [h[1]] + mid + [h[last]];
      assert s[1..] == [h[last]] + mid;
    } else {
      assert h[1..] == [h[1]] && s[1..] == [];
    }
  }

  /** Nothing among the items is smaller than a. */
  predicate Least(es: seq<Heapen>, items: multiset<nat>, a: nat)
    requires a < |es|
  {
    forall x :: x in items ==> x < |es| && !Less(es[x], es[a])
  }

  /** The last element is put in the root's place. */
  lemma TakeRoot(es: seq<Heapen>, h: seq<nat>)
    requires IsHeap(es, h) && |h| >= 2
    ensures var last := |h| - 1;
            var s := h[1 := h[last]][..last];
            |s| > 0 && AlmostDown(es, s, 1) && Items(s) + multiset{h[1]} == Items(h)
    ensures Least(es, Items(h), h[1])
  {
    hide Items;
    var last := |h| - 1;
    var s := h[1 := h[last]][..last];
    forall i | 1 <= i < |s| && i / 2 != 1 ensures Ordered(es, s, i) {
      assert Ordered(es, h, i);
      assert i == 1 || h[i] == s[i];
    }
    forall i | 1 <= i < |s| && i / 2 == 1 ensures NotBelow(es, s, i, 0) {
    }
    TakeRootItems(h);
    LeastItem(es, h);
  }

  lemma LeastItem(es: seq<Heapen>, h: seq<nat>)
    requires IsHeap(es, h) && |h| >= 2
    ensures Least(es, Items(h), h[1])
  {
    forall x | x in Items(h) ensures x < |es| && !Less(es[x], es[h[1]]) {
      var k :| 0 <= k < |h[1..]| && h[1..][k] == x;
      k := k + 1;
      RootLeast(es, h, k);
    }
  }

  /** heap_extract: the smallest entry; the caller has already counted it out of heapLast. */
  method HeapExtract(heap: array<nat>, ents: array<Heapen>, ghost size: nat, heapLast: nat) returns (smallest: nat)
    requires heapLast + 1 < heap.Length && size <= ents.Length && IsHeap(ents[..size], heap[..heapLast + 2])
    modifies heap
    ensures IsHeap(ents[..size], heap[..heapLast + 1])
    ensures smallest < size && Items(heap[..heapLast + 1]) + multiset{smallest} == Items(old(heap[..heapLast + 2]))
    ensures Least(ents[..size], Items(old(heap[..heapLast + 2])), smallest)
  {
    hide IsHeap, Items, Swap;
    ghost var es, h := ents[..size], heap[..heapLast + 2];
    TakeRoot(es, h);
    smallest := heap[1];
    heap[1] := heap[heapLast + 1];
    h := h[1 := h[heapLast + 1]][..heapLast + 1];
    var p, pc := 1, 2;
    while pc <= heapLast
      invariant 1 <= p && pc == 2 * p && |h| == heapLast + 1 && AlmostDown(es, h, p)
      invariant p <= heapLast || heapLast == 0
      invariant forall k :: 0 <= k <= heapLast ==> heap[k] == h[k]
      invariant Items(h) + multiset{smallest} == Items(old(heap[..heapLast + 2]))
      decreases heapLast - p
    {
      if pc < heapLast && Less(ents[heap[pc + 1]], ents[heap[pc]]) {
        pc := pc + 1;
      }
      if !Less(ents[heap[pc]], ents[heap[p]]) {
        break;
      }
      MoveDown(es, h, p, pc);
      SwapItems(h, p, pc);
      SwapAt(h, p, pc);
      h := Swap(h, p, pc);
      var t := heap[pc];
      heap[pc] := heap[p];
      heap[p] := t;
      p := pc;
      pc := p * 2;
    }
    Settled(es, h, p);
    assert heap[..heapLast + 1] == h;
  }
}

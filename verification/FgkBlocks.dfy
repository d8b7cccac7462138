/** The blocks of equal weight in Baseline/third/xdelta/xdelta3-fgk.h: every listed node names a
    block, a block names its leader, and the blocks not in use are linked in a free list. */
module FgkBlocks {
  import opened Basics

  /** A null pointer; the other pointers are indices. */
  const NIL := -1

  /** `block_array` (a leader for a block in use, the next block for a free one) and `free_block` */
  datatype Pool = Pool(un: seq<int>, head: int)

  /** The positions in `on` are in blocks; `last[p]` is the position of the leader of p's block. */
  ghost predicate Part(lab: seq<nat>, on: set<nat>, last: seq<nat>, my: seq<int>, un: seq<int>) {
    && |last| == |lab|
    && (forall p :: p in on ==> PartAt(lab, last, my, un, p))
    && (forall p, q :: p in on && q in on ==> SameAt(lab, last, my, p, q))
  }

  predicate PartAt(lab: seq<nat>, last: seq<nat>, my: seq<int>, un: seq<int>, p: nat) {
    && p < |lab| == |last| && last[p] < |lab| && lab[p] < |my| && 0 <= my[lab[p]] < |un|
    && un[my[lab[p]]] == lab[last[p]]
  }

  predicate SameAt(lab: seq<nat>, last: seq<nat>, my: seq<int>, p: nat, q: nat) {
    && p < |lab| == |last| && q < |lab| && lab[p] < |my| && lab[q] < |my|
    && (my[lab[p]] == my[lab[q]] <==> last[p] == last[q])
  }

  ghost predicate InUse(lab: seq<nat>, on: set<nat>, my: seq<int>, b: int) {
    exists p :: p in on && p < |lab| && lab[p] < |my| && my[lab[p]] == b
  }

  /** The free list, and that a block is in it exactly when no node names it. */
  ghost predicate FreeOk(pool: Pool, free: seq<nat>, lab: seq<nat>, on: set<nat>, my: seq<int>) {
    && Distinct(free)
    && pool.head == (if free == [] then NIL else free[0])
    && (forall i :: 0 <= i < |free| ==> FreeAt(pool, free, i))
    && (forall b :: 0 <= b < |pool.un| ==> (b in free <==> !InUse(lab, on, my, b)))
  }

  predicate FreeAt(pool: Pool, free: seq<nat>, i: nat)
    requires i < |free|
  {
    free[i] < |pool.un| && pool.un[free[i]] == if i + 1 < |free| then free[i + 1] else NIL
  }

  ghost predicate BlocksOk(lab: seq<nat>, on: set<nat>, last: seq<nat>, my: seq<int>, pool: Pool, free: seq<nat>) {
    Part(lab, on, last, my, pool.un) && FreeOk(pool, free, lab, on, my)
  }

  // ---------------------------------------------------------------- taking and giving back

  /** fgk_make_block */
  function Make(pool: Pool, lead: nat): (r: Pool)
    requires 0 <= pool.head < |pool.un|
    ensures |r.un| == |pool.un|
  {
    Pool(pool.un[pool.head := lead], pool.un[pool.head])
  }

  /** fgk_free_block */
  function Free(pool: Pool, b: nat): (r: Pool)
    requires b < |pool.un|
    ensures |r.un| == |pool.un|
  {
    Pool(pool.un[b := pool.head], b)
  }

  /** There are more blocks than nodes, so one is free. */
  lemma SomeFree(lab: seq<nat>, on: set<nat>, my: seq<int>, pool: Pool, free: seq<nat>)
    requires FreeOk(pool, free, lab, on, my) && |lab| < |pool.un|
    ensures free != [] && pool.head == free[0] < |pool.un|
  {
    if free == [] {
      AllUsed(lab, on, my, |pool.un|);
    } else {
      assert FreeAt(pool, free, 0);
    }
  }

  lemma AllUsed(lab: seq<nat>, on: set<nat>, my: seq<int>, n: nat)
    requires forall b :: 0 <= b < n ==> InUse(lab, on, my, b)
    ensures n <= |lab|
  {
    var users := Users(lab, on, my, n);
    RangeSize(|lab|);
    SubsetSize(users, Range(|lab|));
  }

  function Range(n: nat): (s: set<nat>)
    ensures forall p: nat :: p in s <==> p < n
  {
    if n == 0 then {} else Range(n - 1) + {n - 1}
  }

  lemma {:induction false} RangeSize(n: nat)
    ensures |Range(n)| == n
  {
    if n > 0 {
      RangeSize(n - 1);
    }
  }

  lemma {:induction false} SubsetSize(a: set<nat>, b: set<nat>)
    requires a <= b
    ensures |a| <= |b|
    decreases |a|
  {
    if a != {} {
      var x :| x in a;
      SubsetSize(a - {x}, b - {x});
    }
  }

  /** One position for each of n blocks. */
  ghost function Users(lab: seq<nat>, on: set<nat>, my: seq<int>, n: nat): (s: set<nat>)
    requires forall b :: 0 <= b < n ==> InUse(lab, on, my, b)
    ensures |s| == n && forall p :: p in s ==> p < |lab| && lab[p] < |my| && 0 <= my[lab[p]] < n
  {
    if n == 0 then {} else
      assert InUse(lab, on, my, n - 1);
      var p :| p in on && p < |lab| && lab[p] < |my| && my[lab[p]] == n - 1;
      Users(lab, on, my, n - 1) + {p}
  }

  // ---------------------------------------------------------------- one node enters or leaves

  lemma UseMore(lab: seq<nat>, on: set<nat>, my: seq<int>, q: nat, b: int, c: int)
    requires Distinct(lab) && q !in on && q < |lab| && lab[q] < |my|
    requires forall p :: p in on ==> p < |lab|
    ensures InUse(lab, on + {q}, my[lab[q] := b], c) <==> InUse(lab, on, my, c) || c == b
  {
    var my', on' := my[lab[q] := b], on + {q};
    if InUse(lab, on, my, c) {
      var p :| p in on && p < |lab| && lab[p] < |my| && my[lab[p]] == c;
      assert p in on' && my'[lab[p]] == c;
    }
    if c == b {
      assert q in on' && my'[lab[q]] == c;
    }
    if InUse(lab, on', my', c) && c != b {
      var p :| p in on' && p < |lab| && lab[p] < |my'| && my'[lab[p]] == c;
      assert p in on && my[lab[p]] == c;
    }
  }

  /** The node at q joins the block of the node at r. */
  lemma Join(lab: seq<nat>, on: set<nat>, last: seq<nat>, my: seq<int>, pool: Pool, free: seq<nat>, q: nat, r: nat)
    requires BlocksOk(lab, on, last, my, pool, free) && Distinct(lab)
    requires q !in on && r in on && q < |lab| && lab[q] < |my|
    ensures r < |lab| && lab[r] < |my| && r < |last| && q < |last|
    ensures BlocksOk(lab, on + {q}, last[q := last[r]], my[lab[q] := my[lab[r]]], pool, free)
  {
    assert PartAt(lab, last, my, pool.un, r);
    var my', last', on' := my[lab[q] := my[lab[r]]], last[q := last[r]], on + {q};
    forall p | p in on' ensures PartAt(lab, last', my', pool.un, p) && (p != q ==> my'[lab[p]] == my[lab[p]]) {
      assert p != q ==> PartAt(lab, last, my, pool.un, p);
    }
    forall i, j | i in on' && j in on' ensures SameAt(lab, last', my', i, j) {
      var i', j' := if i == q then r else i, if j == q then r else j;
      assert SameAt(lab, last, my, i', j');
    }
    assert forall p :: p in on ==> PartAt(lab, last, my, pool.un, p);
    forall b | 0 <= b < |pool.un| ensures InUse(lab, on', my', b) <==> InUse(lab, on, my, b) {
      UseMore(lab, on, my, q, my[lab[r]], b);
    }
  }

  /** The node at q gets a block of its own. */
  lemma Alone(lab: seq<nat>, on: set<nat>, last: seq<nat>, my: seq<int>, pool: Pool, free: seq<nat>, q: nat)
    requires BlocksOk(lab, on, last, my, pool, free) && Distinct(lab) && free != []
    requires q !in on && q < |lab| && lab[q] < |my| && forall p :: p in on && p < |last| ==> last[p] != q
    ensures 0 <= pool.head < |pool.un|
    ensures BlocksOk(lab, on + {q}, last[q := q], my[lab[q] := pool.head], Make(pool, lab[q]), free[1..])
  {
    assert FreeAt(pool, free, 0);
    var b := pool.head;
    var my', last', on' := my[lab[q] := b], last[q := q], on + {q};
    var pool' := Make(pool, lab[q]);
    assert b in free && !InUse(lab, on, my, b);
    forall p | p in on' ensures PartAt(lab, last', my', pool'.un, p) && (p != q ==> my'[lab[p]] == my[lab[p]] != b) {
      assert p != q ==> PartAt(lab, last, my, pool.un, p);
    }
    forall i, j | i in on' && j in on' ensures SameAt(lab, last', my', i, j) {
      assert i in on && j in on ==> SameAt(lab, last, my, i, j);
    }
    forall i | 0 <= i < |free| - 1 ensures FreeAt(pool', free[1..], i) {
      assert FreeAt(pool, free, i + 1) && FreeAt(pool, free, 0);
    }
    assert forall p :: p in on ==> PartAt(lab, last, my, pool.un, p);
    forall c | 0 <= c < |pool.un| ensures c in free[1..] <==> !InUse(lab, on', my', c) {
      assert c in free <==> c in free[1..] || c == b;
      UseMore(lab, on, my, q, b, c);
    }
  }

  /** The leader at q leaves its block to the node on its left. */
  lemma Resign(lab: seq<nat>, on: set<nat>, last: seq<nat>, last': seq<nat>, my: seq<int>, pool: Pool, free: seq<nat>,
      q: nat)
    requires BlocksOk(lab, on, last, my, pool, free) && Distinct(lab)
    requires 0 < q < |lab| && q in on && q - 1 in on && last[q] == q == last[q - 1] && |last'| == |last|
    requires forall p :: p in on && p != q && p < |last| ==> last'[p] == if last[p] == q then q - 1 else last[p]
    requires forall p :: p in on && p != q && p < |last| ==> last[p] != q - 1
    ensures lab[q] < |my| && 0 <= my[lab[q]] < |pool.un|
    ensures BlocksOk(lab, on - {q}, last', my, Pool(pool.un[my[lab[q]] := lab[q - 1]], pool.head), free)
  {
    assert PartAt(lab, last, my, pool.un, q) && PartAt(lab, last, my, pool.un, q - 1);
    var b := my[lab[q]];
    var pool', on' := Pool(pool.un[b := lab[q - 1]], pool.head), on - {q};
    assert SameAt(lab, last, my, q, q - 1);
    forall p | p in on' ensures PartAt(lab, last', my, pool'.un, p) {
      assert PartAt(lab, last, my, pool.un, p) && SameAt(lab, last, my, p, q);
    }
    forall i, j | i in on' && j in on' ensures SameAt(lab, last', my, i, j) {
      assert SameAt(lab, last, my, i, j);
    }
    assert InUse(lab, on, my, b);
    forall i | 0 <= i < |free| ensures FreeAt(pool', free, i) {
      assert FreeAt(pool, free, i) && free[i] in free;
    }
    forall c | 0 <= c < |pool.un| ensures InUse(lab, on', my, c) <==> InUse(lab, on, my, c) {
      if InUse(lab, on, my, c) {
        var p :| p in on && p < |lab| && lab[p] < |my| && my[lab[p]] == c;
        var p' := if p == q then q - 1 else p;
        assert p' in on' && my[lab[p']] == c;
      }
      if InUse(lab, on', my, c) {
        var p :| p in on' && p < |lab| && lab[p] < |my| && my[lab[p]] == c;
        assert p in on;
      }
    }
  }

  /** All the nodes of a block leave it. */
  lemma Abandon(lab: seq<nat>, on: set<nat>, last: seq<nat>, my: seq<int>, pool: Pool, free: seq<nat>, q: nat,
      gone: set<nat>)
    requires BlocksOk(lab, on, last, my, pool, free)
    requires q in on && gone <= on && q < |last| && forall p :: p in on && p < |last| ==>
             (p in gone <==> last[p] == last[q])
    ensures q < |lab| && lab[q] < |my| && 0 <= my[lab[q]] < |pool.un|
    ensures BlocksOk(lab, on - gone, last, my, Free(pool, my[lab[q]]), [my[lab[q]]] + free)
  {
    assert PartAt(lab, last, my, pool.un, q);
    var b: nat := my[lab[q]];
    var pool', on', free' := Free(pool, b), on - gone, [b] + free;
    assert InUse(lab, on, my, b) && b !in free;
    forall p | p in on' ensures PartAt(lab, last, my, pool'.un, p) {
      assert PartAt(lab, last, my, pool.un, p) && SameAt(lab, last, my, p, q);
    }
    forall i, j | i in on' && j in on' ensures SameAt(lab, last, my, i, j) {
      assert SameAt(lab, last, my, i, j);
    }
    forall i | 0 <= i < |free'| ensures FreeAt(pool', free', i) {
      if i > 0 {
        assert FreeAt(pool, free, i - 1) && free[i - 1] in free;
      }
    }
    forall c | 0 <= c < |pool.un| ensures c in free' <==> !InUse(lab, on', my, c) {
      if InUse(lab, on', my, c) {
        var p :| p in on' && p < |lab| && lab[p] < |my| && my[lab[p]] == c;
        assert p in on && InUse(lab, on, my, c) && SameAt(lab, last, my, p, q);
      }
      if InUse(lab, on, my, c) && c != b {
        var p :| p in on && p < |lab| && lab[p] < |my| && my[lab[p]] == c;
        assert SameAt(lab, last, my, p, q) && p in on';
      }
    }
  }

  // ---------------------------------------------------------------- the list changes

  /** Only the leaders of the positions that are in blocks matter. */
  lemma SameLeaders(lab: seq<nat>, on: set<nat>, last: seq<nat>, last': seq<nat>, my: seq<int>, pool: Pool,
      free: seq<nat>)
    requires BlocksOk(lab, on, last, my, pool, free) && |last'| == |last|
    requires forall p :: p in on && p < |last| ==> last'[p] == last[p]
    ensures BlocksOk(lab, on, last', my, pool, free)
  {
    forall p | p in on ensures PartAt(lab, last', my, pool.un, p) {
      assert PartAt(lab, last, my, pool.un, p);
    }
    forall i, j | i in on && j in on ensures SameAt(lab, last', my, i, j) {
      assert SameAt(lab, last, my, i, j);
    }
  }

  /** A node and its leader change places, and the node becomes the leader. */
  lemma SwapLeader(lab: seq<nat>, on: set<nat>, last: seq<nat>, my: seq<int>, pool: Pool, free: seq<nat>, p: nat,
      q: nat)
    requires BlocksOk(lab, on, last, my, pool, free) && Distinct(lab)
    requires p in on && q in on && p < q < |last| && last[p] == q == last[q]
    requires forall i :: i in on && i < |last| ==> last[i] != p
    ensures q < |lab| && lab[p] < |my| && 0 <= my[lab[p]] < |pool.un|
    ensures var b := my[lab[p]];
            BlocksOk(lab[p := lab[q]][q := lab[p]], on, last, my, Pool(pool.un[b := lab[p]], pool.head), free)
  {
    assert PartAt(lab, last, my, pool.un, p) && PartAt(lab, last, my, pool.un, q) && SameAt(lab, last, my, p, q);
    var b, lab' := my[lab[p]], lab[p := lab[q]][q := lab[p]];
    var pool' := Pool(pool.un[b := lab[p]], pool.head);
    forall i | i in on ensures PartAt(lab', last, my, pool'.un, i) && my[lab'[i]] == my[lab[i]] {
      assert PartAt(lab, last, my, pool.un, i) && SameAt(lab, last, my, i, p);
    }
    forall i, j | i in on && j in on ensures SameAt(lab', last, my, i, j) {
      assert SameAt(lab, last, my, i, j);
    }
    assert InUse(lab, on, my, b);
    forall i | 0 <= i < |free| ensures FreeAt(pool', free, i) {
      assert FreeAt(pool, free, i) && free[i] in free;
    }
    forall c | 0 <= c < |pool.un| ensures InUse(lab', on, my, c) <==> InUse(lab, on, my, c) {
      if InUse(lab, on, my, c) {
        var i :| i in on && i < |lab| && lab[i] < |my| && my[lab[i]] == c;
        assert my[lab'[i]] == c;
      }
      if InUse(lab', on, my, c) {
        var i :| i in on && i < |lab'| && lab'[i] < |my| && my[lab'[i]] == c;
        assert my[lab[i]] == c;
      }
    }
  }

  /** Other nodes come in at the front, and all positions go up by d. */
  lemma Shifted(lab: seq<nat>, on: set<nat>, last: seq<nat>, my: seq<int>, pool: Pool, free: seq<nat>,
                lab': seq<nat>, on': set<nat>, last': seq<nat>, d: nat)
    requires BlocksOk(lab, on, last, my, pool, free)
    requires |lab'| == |lab| + d == |last'| && forall p :: p in on && p < |lab| ==> lab'[p + d] == lab[p]
    requires forall p: nat :: p in on' <==> p >= d && p - d in on
    requires forall p :: p in on && p < |last| ==>
               last'[p + d] == last[p] + d && (last[p] < |lab| ==> lab'[last[p] + d] == lab[last[p]])
    ensures BlocksOk(lab', on', last', my, pool, free)
  {
    forall p | p in on' ensures PartAt(lab', last', my, pool.un, p) {
      assert PartAt(lab, last, my, pool.un, p - d) && lab'[(p - d) + d] == lab[p - d] &&
             last'[(p - d) + d] == last[p - d] + d;
    }
    forall i, j | i in on' && j in on' ensures SameAt(lab', last', my, i, j) {
      assert SameAt(lab, last, my, i - d, j - d) && last'[(i - d) + d] == last[i - d] + d &&
             last'[(j - d) + d] == last[j - d] + d;
      assert lab'[(i - d) + d] == lab[i - d] && lab'[(j - d) + d] == lab[j - d];
    }
    forall b | 0 <= b < |pool.un| ensures InUse(lab', on', my, b) <==> InUse(lab, on, my, b) {
      if InUse(lab, on, my, b) {
        var p :| p in on && p < |lab| && lab[p] < |my| && my[lab[p]] == b;
        assert p + d in on' && my[lab'[p + d]] == b;
      }
      if InUse(lab', on', my, b) {
        var p :| p in on' && p < |lab'| && lab'[p] < |my| && my[lab'[p]] == b;
        assert p - d in on && lab'[(p - d) + d] == lab[p - d];
      }
    }
  }
}

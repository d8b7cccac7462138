/** How the blocks of Baseline/third/xdelta/xdelta3-fgk.h follow the tree: which nodes share a block
    after a node was moved to the place of its leader (fgk_move_right), counted (fgk_promote) or
    inserted (fgk_increase_zero_weight). */
module FgkPromote {
  import opened Basics
  import opened FgkBlocks
  import opened FgkLeaders
  import opened FgkTree

  /** The blocks are those of the tree v whose node x is about to be counted. */
  ghost predicate Blocked(v: Tree, x: int, my: seq<int>, blocks: Pool, free: seq<nat>) {
    Shape(v) && BlocksOk(v.lab, On(v), Lasts(v, x), my, blocks, free)
  }

  lemma SwappedBlocksOk(v: Tree, my: seq<int>, pool: Pool, free: seq<nat>, p: nat)
    requires Mid(v, p) && p < v.Root() && Target(v, p) != p
    requires Blocked(v, p, my, pool, free)
    ensures v.lab[p] < |my| && 0 <= my[v.lab[p]] < |pool.un|
    ensures var r, q := Swap(v, p, Target(v, p)), Target(v, p);
            Blocked(r, q, my, Pool(pool.un[my[v.lab[p]] := v.lab[p]], pool.head), free)
  {
    var q := Target(v, p);
    LeaderWeight(v, p);
    LastLeader(v, p);
    LastSwap(v, p);
    assert p in On(v) && q in On(v);
    LastBetween(v, p, p, q);
    forall i | i in On(v) && i < |Lasts(v, p)| ensures Lasts(v, p)[i] != p {
      if Last(v, p, i) == p && (p > 0 || v.loose) {
        LastBetween(v, p, i, p);
      }
    }
    SwapLeader(v.lab, On(v), Lasts(v, p), my, pool, free, p, q);
    assert On(Swap(v, p, q)) == On(v);
  }

  /** A node that keeps its block. */
  lemma StaysBlocked(v: Tree, q: nat, my: seq<int>, pool: Pool, free: seq<nat>)
    requires Mid(v, q) && q < v.Root() && CanGrow(v, q) && Stays(v, q) && Blocked(v, q, my, pool, free)
    ensures Blocked(Bump(v, q), v.up[q / 2], my, pool, free)
  {
    var r, x := Bump(v, q), v.up[q / 2];
    forall p | p in On(v) ensures Shape(r) && Last(r, x, p) == Last(v, q, p) {
      LastStays(v, q, p);
    }
    BumpOk(v, q);
    assert On(r) == On(v);
    SameLeaders(v.lab, On(v), Lasts(v, q), Lasts(r, x), my, pool, free);
  }

  /** The parent of the unseen symbols and its right child, when no other node has their weight. */
  lemma SkewStays(v: Tree, my: seq<int>, pool: Pool, free: seq<nat>)
    requires Mid(v, 2) && 2 < v.Root() && v.zeros != [] && v.w[2] > 0 && Blocked(v, 2, my, pool, free)
    requires v.w[3] != v.w[2] + 1
    ensures Blocked(Bump(v, 2), v.up[1], my, pool, free)
  {
    var r := Bump(v, 2);
    BumpShape(v, 2);
    assert On(r) == On(v);
    forall p | p in On(v) ensures Last(r, r.up[1], p) == Last(v, 2, p) {
      LastSkew(v, p);
    }
    SameLeaders(v.lab, On(v), Lasts(v, 2), Lasts(r, r.up[1]), my, pool, free);
  }

  lemma PartsAt(lab: seq<nat>, on: set<nat>, last: seq<nat>, my: seq<int>, pool: Pool, free: seq<nat>)
    requires BlocksOk(lab, on, last, my, pool, free)
    ensures forall p :: p in on ==> p < |lab| && lab[p] < |my| && 0 <= my[lab[p]] < |pool.un|
  {
    assert forall p :: p in on ==> PartAt(lab, last, my, pool.un, p);
  }

  /** They join the nodes that already have their new weight. */
  lemma SkewMoves(v: Tree, my: seq<int>, pool: Pool, free: seq<nat>)
    requires Mid(v, 2) && 2 < v.Root() && v.zeros != [] && v.w[2] > 0 && Blocked(v, 2, my, pool, free)
    requires v.w[3] == v.w[2] + 1
    ensures v.lab[2] < |my| && v.lab[1] < |my| && v.lab[3] < |my| && 0 <= my[v.lab[2]] < |pool.un|
    ensures var b := my[v.lab[2]];
            Blocked(Bump(v, 2), v.up[1], my[v.lab[2] := my[v.lab[3]]][v.lab[1] := my[v.lab[3]]], Free(pool, b),
                [b] + free)
  {
    hide Named, Sum, Sorted, Positive, LooseOk, LastEqual, Keys, Last, Part, FreeOk, Distinct;
    DistinctNodes(v);
    var r, on, last, gone := Bump(v, 2), On(v), Lasts(v, 2), {1, 2};
    BumpShape(v, 2);
    assert 1 in on && 2 in on && 3 in on;
    assert on - gone + {2} + {1} == on == On(r);
    forall p | p in on ensures (p in gone <==> last[p] == 2) &&
        Last(r, r.up[1], p) == if p > 2 then last[p] else last[3] {
      LastSkew(v, p);
    }
    Abandon(v.lab, on, last, my, pool, free, 2, gone);
    var b: nat := my[v.lab[2]];
    var pool', free', on' := Free(pool, b), [b] + free, on - gone;
    PartsAt(v.lab, on, last, my, pool, free);
    Join(v.lab, on', last, my, pool', free', 2, 3);
    var my1, last1 := my[v.lab[2] := my[v.lab[3]]], last[2 := last[3]];
    Join(v.lab, on' + {2}, last1, my1, pool', free', 1, 3);
    SameLeaders(v.lab, on, last1[1 := last1[3]], Lasts(r, r.up[1]), my1[v.lab[1] := my1[v.lab[3]]], pool', free');
  }

  function MovedLasts(v: Tree, q: nat): (s: seq<nat>)
    requires Shape(v) && q < v.Root()
    ensures |s| == |v.lab| && forall p :: 0 <= p < |s| ==> s[p] == Moved(v, q, p)
  {
    seq(|v.lab|, p requires 0 <= p < |v.lab| => Moved(v, q, p))
  }

  /** Position q goes to the next block. */
  predicate Joins(v: Tree, q: nat)
    requires Shape(v) && q < v.Root()
  {
    q + 1 < v.Root() && v.w[q + 1] == v.w[q] + 1
  }

  /** A leader that is not alone leaves the lead to its left neighbour. */
  lemma LeavesOthers(v: Tree, q: nat, my: seq<int>, pool: Pool, free: seq<nat>)
    requires Mid(v, q) && q < v.Root() && CanGrow(v, q) && !Stays(v, q) && !Skew(v, q)
    requires Blocked(v, q, my, pool, free) && q >= 1 && q - 1 in On(v) && Last(v, q, q - 1) == q
    ensures v.lab[q] < |my| && 0 <= my[v.lab[q]] < |pool.un|
    ensures BlocksOk(v.lab, On(v) - {q}, MovedLasts(v, q), my, Pool(pool.un[my[v.lab[q]] := v.lab[q - 1]], pool.head),
            free)
  {
    var on, last := On(v), Lasts(v, q);
    assert q in on;
    forall p | p in on ensures last[q] == q && (p != q ==> last[p] != q - 1) {
      LastLeads(v, q, p);
    }
    Resign(v.lab, on, last, MovedLasts(v, q), my, pool, free, q);
  }

  /** A leader that is alone frees its block. */
  lemma LeavesNone(v: Tree, q: nat, my: seq<int>, pool: Pool, free: seq<nat>)
    requires Mid(v, q) && q < v.Root() && CanGrow(v, q) && !Stays(v, q) && !Skew(v, q)
    requires Blocked(v, q, my, pool, free) && q >= 1 && q - 1 in On(v) && Last(v, q, q - 1) != q
    ensures v.lab[q] < |my| && 0 <= my[v.lab[q]] < |pool.un|
    ensures var b := my[v.lab[q]];
            BlocksOk(v.lab, On(v) - {q}, MovedLasts(v, q), my, Free(pool, b), [b] + free)
  {
    var on, last := On(v), Lasts(v, q);
    assert q in on;
    forall p | p in on ensures last[q] == q && (p in {q} <==> last[p] == last[q]) {
      LastLeads(v, q, p);
      if p < q && last[p] == q && q - 1 > 0 {
        LastBetween(v, q, p, q - 1);
      }
    }
    Abandon(v.lab, on, last, my, pool, free, q, {q});
    SameLeaders(v.lab, on - {q}, last, MovedLasts(v, q), my, Free(pool, my[v.lab[q]]), [my[v.lab[q]]] + free);
  }

  lemma MovedFinal(v: Tree, q: nat)
    requires Mid(v, q) && q < v.Root() && CanGrow(v, q) && !Stays(v, q) && !Skew(v, q)
    ensures var r := Bump(v, q);
            && Shape(r) && Distinct(v.lab) && On(r) == On(v) && q in On(v) && r.up == v.up && r.lab == v.lab
            && forall p :: p in On(v) && p < |MovedLasts(v, q)| ==> MovedLasts(v, q)[p] == Lasts(r, v.up[q / 2])[p]
  {
    BumpShape(v, q);
    forall p | p in On(v) ensures Moved(v, q, p) == Last(Bump(v, q), v.up[q / 2], p) {
      LastMoves(v, q, p);
    }
    assert On(Bump(v, q)) == On(v);
  }

  lemma MovedTogether(v: Tree, q: nat)
    requires Shape(v) && q < v.Root()
    ensures var last := MovedLasts(v, q); last[q] == if Joins(v, q) then last[q + 1] else q
  {
  }

  lemma EntersNext(v: Tree, q: nat, my: seq<int>, pool: Pool, free: seq<nat>)
    requires Mid(v, q) && q < v.Root() && CanGrow(v, q) && !Stays(v, q) && !Skew(v, q) && Joins(v, q)
    requires BlocksOk(v.lab, On(v) - {q}, MovedLasts(v, q), my, pool, free) && v.lab[q] < |my|
    ensures v.lab[q + 1] < |my| && Blocked(Bump(v, q), v.up[q / 2], my[v.lab[q] := my[v.lab[q + 1]]], pool, free)
  {
    hide Moved, Last, Lasts, MovedLasts, LastEqual, Named, Sum, Sorted, Positive, LooseOk, CanGrow, Stays, Part, FreeOk,
         Bump, Distinct;
    var on, last, r, x := On(v), MovedLasts(v, q), Bump(v, q), v.up[q / 2];
    assert q + 1 in on;
    MovedTogether(v, q);
    MovedFinal(v, q);
    assert on - {q} + {q} == on;
    Join(v.lab, on - {q}, last, my, pool, free, q, q + 1);
    assert last[q := last[q + 1]] == last;
    SameLeaders(v.lab, on, last, Lasts(r, x), my[v.lab[q] := my[v.lab[q + 1]]], pool, free);
  }

  lemma EntersNew(v: Tree, q: nat, my: seq<int>, pool: Pool, free: seq<nat>)
    requires Mid(v, q) && q < v.Root() && CanGrow(v, q) && !Stays(v, q) && !Skew(v, q) && !Joins(v, q)
    requires BlocksOk(v.lab, On(v) - {q}, MovedLasts(v, q), my, pool, free) && v.lab[q] < |my| && |v.lab| < |pool.un|
    ensures 0 <= pool.head < |pool.un| && free != []
    ensures Blocked(Bump(v, q), v.up[q / 2], my[v.lab[q] := pool.head], Make(pool, v.lab[q]), free[1..])
  {
    var on, last, r, x := On(v), MovedLasts(v, q), Bump(v, q), v.up[q / 2];
    MovedTogether(v, q);
    MovedFinal(v, q);
    SomeFree(v.lab, on - {q}, my, pool, free);
    Alone(v.lab, on - {q}, last, my, pool, free, q);
    assert on - {q} + {q} == on;
    assert last[q := q] == last;
    SameLeaders(v.lab, on, last, Lasts(r, x), my[v.lab[q] := pool.head], Make(pool, v.lab[q]), free[1..]);
  }

  // ---------------------------------------------------------------- a new symbol

  /** The blocks of the nodes that were there, in the list with the new symbol. */
  lemma GrowShifted(v: Tree, n: nat, my: seq<int>, pool: Pool, free: seq<nat>)
    requires Valid(v) && n in v.zeros && |v.zeros| > 1 && Blocked(v, -1, my, pool, free)
    ensures var r := Insert(v, n);
            Shape(r) && r.Root() >= 2 && BlocksOk(r.lab, On(r) - {1, 2}, Lasts(r, 1), my, pool, free)
  {
    hide Named, Sum, Sorted, Positive, LooseOk, Without, LastEqual, Keys, Last, Part, FreeOk;
    InsertedLabels(v, n);
    var r := Insert(v, n);
    forall p | p in On(v) ensures p < |v.lab| && r.lab[p + 2] == v.lab[p] &&
        Lasts(r, 1)[p + 2] == Lasts(v, -1)[p] + 2 &&
                                  r.lab[Lasts(v, -1)[p] + 2] == v.lab[Lasts(v, -1)[p]]
    {
      LastGrows(v, n, p);
    }
    var on' := On(r) - {1, 2};
    forall p: nat ensures p in on' <==> p >= 2 && p - 2 in On(v) {
    }
    Shifted(v.lab, On(v), Lasts(v, -1), my, pool, free, r.lab, on', Lasts(r, 1), 2);
  }

  lemma InsertedLabels(v: Tree, n: nat)
    requires Valid(v) && n in v.zeros && |v.zeros| > 1
    ensures var r := Insert(v, n);
            && Shape(v) && n < v.size && v.size + |v.up| < 2 * v.size - 1 && r.zeros != []
            && Shape(r) && Named(r) && Distinct(r.lab) && r.Root() >= 2 && r.Root() == v.Root() + 2 &&
                |v.lab| == v.Root() + 1 && r.lab[1] == n && r.lab[2] == v.size + |v.up|
            && |r.lab| == r.Root() + 1 <= 2 * v.size - 1 &&
                (forall p :: 1 <= p <= v.Root() ==> r.lab[p + 2] == v.lab[p])
            && On(r) - {1, 2} + {2} + {1} == On(r) == On(r) - {1, 2} + {1} + {2}
            && (|v.up| > 0 ==> r.Root() > 3 && r.lab[3] == v.lab[1] && r.w[3] == v.w[1]) &&
                (|v.up| == 0 ==> r.Root() == 2)
  {
    InsertOk(v, n);
    WithoutOk(v.zeros, n);
  }

  /** The very first symbol and the root have a block each. */
  lemma GrowFirst(v: Tree, n: nat, my: seq<int>, pool: Pool, free: seq<nat>)
    requires Valid(v) && n in v.zeros && |v.zeros| > 1 && |v.up| == 0 && Blocked(v, -1, my, pool, free)
    requires |my| == 2 * v.size - 1 < |pool.un|
    ensures 0 <= pool.head < |pool.un| && n < |my| && v.size + |v.up| < |my| && |free| >= 2
    ensures var new_, pool1 := v.size + |v.up|, Make(pool, n);
            && 0 <= pool1.head < |pool1.un|
            && Blocked(Insert(v, n), 1, my[n := pool.head][new_ := pool1.head], Make(pool1, new_), free[1..][1..])
  {
    hide Without, LastEqual, Keys, Last, Part, FreeOk, Distinct, Insert, Named, Sum, Sorted, Positive, LooseOk;
    InsertedLabels(v, n);
    GrowShifted(v, n, my, pool, free);
    LastNew(v, n);
    var r := Insert(v, n);
    var on, last := On(r) - {1, 2}, Lasts(r, 1);
    assert forall p :: p in on ==> p == 0 || p > 2;
    OnlyTwo(r);
    SomeFree(r.lab, on, my, pool, free);
    Alone(r.lab, on, last, my, pool, free, 1);
    assert last[1 := 1] == last;
    var my1, pool1 := my[n := pool.head], Make(pool, n);
    SomeFree(r.lab, on + {1}, my1, pool1, free[1..]);
    Alone(r.lab, on + {1}, last, my1, pool1, free[1..], 2);
    assert last[2 := 2] == last;
  }

  lemma OnlyTwo(r: Tree)
    requires r.Root() == 2 && r.zeros != []
    ensures On(r) - {1, 2} == {}
  {
  }

  /** Where the blocks stand when the new parent joins the nodes of weight one. */
  lemma GrowJoins(v: Tree, n: nat, my: seq<int>, pool: Pool, free: seq<nat>)
    requires Valid(v) && n in v.zeros && |v.zeros| > 1 && |v.up| > 0 && Blocked(v, -1, my, pool, free)
    requires |my| == 2 * v.size - 1 < |pool.un| && v.w[1] == 1
    ensures n < |my| && v.size + |v.up| < |my| && v.lab[1] < |my|
    ensures var my1 := my[v.size + |v.up| := my[v.lab[1]]];
            Blocked(Insert(v, n), 1, my1[n := my1[v.size + |v.up|]], pool, free)
  {
    hide Without, LastEqual, Keys, Last, Part, FreeOk, Distinct, Insert, Named, Sum, Sorted, Positive, LooseOk;
    InsertedLabels(v, n);
    GrowShifted(v, n, my, pool, free);
    LastNew(v, n);
    var r := Insert(v, n);
    var on, last := On(r) - {1, 2}, Lasts(r, 1);
    assert 3 in on;
    PartsAt(r.lab, on, last, my, pool, free);
    Join(r.lab, on, last, my, pool, free, 2, 3);
    assert last[2 := last[3]] == last;
    var my1 := my[v.size + |v.up| := my[v.lab[1]]];
    Join(r.lab, on + {2}, last, my1, pool, free, 1, 2);
    assert last[1 := last[2]] == last;
  }

  /** The new parent gets a block, which the symbol shares. */
  lemma GrowAlone(v: Tree, n: nat, my: seq<int>, pool: Pool, free: seq<nat>)
    requires Valid(v) && n in v.zeros && |v.zeros| > 1 && |v.up| > 0 && Blocked(v, -1, my, pool, free)
    requires |my| == 2 * v.size - 1 < |pool.un| && v.w[1] != 1
    ensures n < |my| && v.size + |v.up| < |my| && 0 <= pool.head < |pool.un| && free != []
    ensures var my1 := my[v.size + |v.up| := pool.head];
            Blocked(Insert(v, n), 1, my1[n := my1[v.size + |v.up|]], Make(pool, v.size + |v.up|), free[1..])
  {
    hide Without, LastEqual, Keys, Part, FreeOk, Distinct, Insert, Named, Sum, Sorted, Positive, LooseOk;
    InsertedLabels(v, n);
    GrowShifted(v, n, my, pool, free);
    LastNew(v, n);
    var r := Insert(v, n);
    var on, last := On(r) - {1, 2}, Lasts(r, 1);
    SomeFree(r.lab, on, my, pool, free);
    assert forall p :: p in on ==> p > 2;
    Alone(r.lab, on, last, my, pool, free, 2);
    assert last[2 := 2] == last;
    var my1 := my[v.size + |v.up| := pool.head];
    Join(r.lab, on + {2}, last, my1, Make(pool, v.size + |v.up|), free[1..], 1, 2);
    assert last[1 := last[2]] == last;
  }

  lemma FinalLabels(v: Tree, n: nat)
    requires Valid(v) && n in v.zeros && |v.zeros| == 1
    ensures var r := Insert(v, n);
            && Shape(v) && Shape(r) && Distinct(r.lab) && r.lab == v.lab && n == v.lab[0] && n < v.size
            && |v.lab| <= 2 * v.size - 1 && v.Root() >= 2 && On(v) + {0} == On(r) && 1 in On(v) && 0 !in On(v)
  {
    InsertOk(v, n);
  }

  lemma FinalLeaders(v: Tree, n: nat)
    requires Valid(v) && n in v.zeros && |v.zeros| == 1
    ensures var r := Insert(v, n);
            && Shape(v) && Shape(r) && |v.lab| > 1 && r.lab == v.lab
            && forall p :: p in On(v) + {0} && p < |v.lab| ==>
               Lasts(r, 0)[p] == Lasts(v, -1)[0 := if v.w[1] == 1 then Lasts(v, -1)[1] else 0][p]
  {
    FinalLabels(v, n);
    forall p | p in On(v) + {0} && p < |v.lab|
      ensures Lasts(Insert(v, n), 0)[p] == Lasts(v, -1)[0 := if v.w[1] == 1 then Lasts(v, -1)[1] else 0][p]
    {
      LastOfAll(v, n, p);
    }
  }

  /** The last symbol joins the nodes of weight one, or gets a block. */
  lemma FinalJoins(v: Tree, n: nat, my: seq<int>, pool: Pool, free: seq<nat>)
    requires Valid(v) && n in v.zeros && |v.zeros| == 1 && Blocked(v, -1, my, pool, free)
    requires |my| == 2 * v.size - 1 < |pool.un| && |v.lab| > 1 && v.w[1] == 1
    ensures n < |my| && v.lab[1] < |my| && Blocked(Insert(v, n), 0, my[n := my[v.lab[1]]], pool, free)
  {
    hide Last, Keys, LastEqual, Part, FreeOk, Distinct, Insert, Named, Sum, Sorted, Positive, LooseOk;
    FinalLabels(v, n);
    FinalLeaders(v, n);
    var r, last := Insert(v, n), Lasts(v, -1);
    Join(v.lab, On(v), last, my, pool, free, 0, 1);
    SameLeaders(v.lab, On(v) + {0}, last[0 := last[1]], Lasts(r, 0), my[n := my[v.lab[1]]], pool, free);
  }

  lemma FinalAlone(v: Tree, n: nat, my: seq<int>, pool: Pool, free: seq<nat>)
    requires Valid(v) && n in v.zeros && |v.zeros| == 1 && Blocked(v, -1, my, pool, free)
    requires |my| == 2 * v.size - 1 < |pool.un| && |v.lab| > 1 && v.w[1] != 1
    ensures n < |my| && 0 <= pool.head < |pool.un| && free != []
    ensures Blocked(Insert(v, n), 0, my[n := pool.head], Make(pool, n), free[1..])
  {
    hide Keys, LastEqual, Part, FreeOk, Distinct, Insert, Named, Sum, Sorted, Positive, LooseOk;
    FinalLabels(v, n);
    FinalLeaders(v, n);
    var r, last := Insert(v, n), Lasts(v, -1);
    SomeFree(v.lab, On(v), my, pool, free);
    Alone(v.lab, On(v), last, my, pool, free, 0);
    SameLeaders(v.lab, On(v) + {0}, last[0 := 0], Lasts(r, 0), my[n := pool.head], Make(pool, n), free[1..]);
  }

  // ---------------------------------------------------------------- before and after a symbol

  lemma LeafBlocked(v: Tree, x: nat, my: seq<int>, pool: Pool, free: seq<nat>)
    requires Valid(v) && Mid(v, x) && x < v.Root() && x !in v.up && v.w[x] > 0 && Blocked(v, -1, my, pool, free)
    ensures Blocked(v, x, my, pool, free)
  {
    forall p | p in On(v) ensures Last(v, x, p) == Last(v, -1, p) {
      LastLeaf(v, x, p);
    }
    SameLeaders(v.lab, On(v), Lasts(v, -1), Lasts(v, x), my, pool, free);
  }

  lemma RootBlocked(v: Tree, my: seq<int>, pool: Pool, free: seq<nat>)
    requires Mid(v, v.Root()) && Blocked(v, v.Root(), my, pool, free)
    ensures Blocked(Bump(v, v.Root()), -1, my, pool, free)
  {
    var r := Bump(v, v.Root());
    RootOk(v);
    forall p | p in On(v) ensures Last(r, -1, p) == Last(v, v.Root(), p) {
      LastRoot(v, p);
    }
    assert On(r) == On(v);
    SameLeaders(v.lab, On(v), Lasts(v, v.Root()), Lasts(r, -1), my, pool, free);
  }
}

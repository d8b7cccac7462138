/** The LRU cache of Baseline/include/lruCache.h. */
module LruCache {
  import opened Basics

  type Key = nat

  /** The first n of the most recently used keys stay the most recently used ones when one of them,
      or a new key on top, is used. */
  lemma UseStep(uses: seq<Key>, keys: seq<Key>, k: Key)
    requires keys <= Recent(uses)
    ensures [k] + Without(keys, k) <= Recent(uses + [k])
    ensures Distinct(keys) && Distinct([k] + Without(keys, k))
  {
    var all := Recent(uses);
    RecentDistinct(uses);
    RecentDistinct(uses + [k]);
    assert (uses + [k])[..|uses|] == uses;
    var rest := all[|keys|..];
    assert all == keys + rest;
    WithoutConcat(keys, rest, k);
    if k !in keys {
      WithoutAbsent(keys, k);
    }
    assert Recent(uses + [k]) == [k] + Without(all, k);
    PrefixDistinct(all, keys);
    PrefixDistinct(Recent(uses + [k]), [k] + Without(keys, k));
  }

  lemma PrefixDistinct(s: seq<Key>, p: seq<Key>)
    requires Distinct(s) && p <= s
    ensures Distinct(p)
  {
    assert forall i :: 0 <= i < |p| ==> p[i] == s[i];
  }

  datatype Option<T> = Some(value: T) | None

  /** cache_ maps a key to its list node, of which the value is kept here; keys_ holds the nodes' keys
      in list order, the most recently used first. */
  class Cache {
    const maxSize: nat        // 0 for no limit
    const elasticity: nat
    var cache: map<Key, nat>
    var keys: seq<Key>
    ghost var uses: seq<Key>

    /** Map and list hold the same keys, which are the most recently used ones in strict order of
        recency, and no more of them than prune leaves. */
    ghost predicate Valid()
      reads this
    {
      Kept(|keys|) == |keys| && keys <= Recent(uses) && Matches(cache, keys)
    }

    /** How many of n keys prune leaves: it waits until the soft limit is exceeded by the elasticity. */
    function Kept(n: nat): (r: nat)
      ensures r <= n && (maxSize > 0 && n >= maxSize + elasticity ==> r <= maxSize)
    {
      if maxSize == 0 || n < maxSize + elasticity || n <= maxSize then n else maxSize
    }

    constructor (maxSize: nat, elasticity: nat)
      ensures Valid() && cache == map[] && keys == [] && uses == []
      ensures this.maxSize == maxSize && this.elasticity == elasticity
    {
      this.maxSize, this.elasticity := maxSize, elasticity;
      cache, keys, uses := map[], [], [];
    }

    method Size() returns (n: nat)
      requires Valid()
      ensures n == |keys|
    {
      SizeIs(cache, keys);
      n := |cache|;
    }

    method Contains(k: Key) returns (b: bool)
      ensures b == (k in cache)
    {
      b := k in cache;
    }

    /** get: the value of a cached key, which becomes the most recently used; KeyNotFound otherwise. */
    method Get(k: Key) returns (r: Option<nat>)
      requires Valid()
      modifies this
      ensures Valid() && cache == old(cache) && r == (if k in cache then Some(cache[k]) else None)
      ensures uses == old(uses) + (if k in cache then [k] else []) && |keys| == |old(keys)|
      ensures keys == if k in cache then [k] + Without(old(keys), k) else old(keys)
    {
      if k !in cache {
        return None;
      }
      UseStep(uses, keys, k);
      MatchesUse(cache, keys, k, cache[k]);
      assert cache == cache[k := cache[k]];
      keys := [k] + Without(keys, k);
      uses := uses + [k];
      r := Some(cache[k]);
    }

    /** pruneValue: the value of the least recently used key. */
    method PruneValue() returns (v: nat)
      requires Valid() && keys != []
      ensures keys[|keys| - 1] in cache && v == cache[keys[|keys| - 1]]
    {
      MatchesAt(cache, keys, |keys| - 1);
      v := cache[keys[|keys| - 1]];
    }

    /** insert: a cached key gets the value; a new one is put in front, and prune drops the least
        recently used keys if there are too many. */
    method Insert(k: Key, v: nat)
      requires Valid()
      modifies this
      ensures Valid() && uses == old(uses) + [k]
      ensures k in old(cache) ==> cache == old(cache)[k := v] && keys == [k] + Without(old(keys), k)
      ensures k !in old(cache) ==>
                var all := [k] + old(keys);
                keys == all[..Kept(|all|)] && cache == Dropped(old(cache)[k := v], all[Kept(|all|)..])
    {
      hide Recent, Matches, Dropped, Without, Distinct;
      UseStep(uses, keys, k);
      uses := uses + [k];
      if k in cache {
        MatchesUse(cache, keys, k, v);
        cache := cache[k := v];
        keys := [k] + Without(keys, k);
        return;
      }
      MatchesNew(cache, keys, k, v);
      keys := [k] + keys;
      cache := cache[k := v];
      Prune();
    }

    /** prune: once the hard limit is reached, drops the least recently used keys until no more than
        maxSize are left. */
    method Prune()
      requires Matches(cache, keys)
      modifies this`keys, this`cache
      ensures Matches(cache, keys) && keys == old(keys)[..Kept(|old(keys)|)]
      ensures cache == Dropped(old(cache), old(keys)[Kept(|old(keys)|)..])
    {
      hide Matches, Dropped, Distinct, Recent, Without;
      SizeIs(cache, keys);
      assert keys[|keys|..] == [];
      DropNone(cache, keys[|keys|..]);
      var maxAllowed := maxSize + elasticity;
      if maxSize == 0 || |cache| < maxAllowed {
        return;
      }
      ghost var all, m := keys, cache;
      assert all[..|all|] == all;
      while |cache| > maxSize
        invariant |keys| <= |all| && Left(m, all, cache, |keys|) && keys == all[..|keys|] && |cache| == |keys|
        invariant |keys| >= Kept(|all|)
        decreases |cache|
      {
        var last := keys[|keys| - 1];
        DropLast(m, all, cache, |keys|);
        cache := cache - {last};
        keys := keys[..|keys| - 1];
        assert keys == all[..|keys|];
        SizeIs(cache, keys);
      }
    }
  }

  /** m without the keys of all but the first n. */
  ghost predicate Left(m: map<Key, nat>, all: seq<Key>, cache: map<Key, nat>, n: nat)
    requires n <= |all|
  {
    Matches(cache, all[..n]) && cache == Dropped(m, all[n..])
  }

  /** A map and a list of the same keys. */
  ghost predicate Matches(m: map<Key, nat>, keys: seq<Key>) {
    Distinct(keys) && forall k :: k in keys <==> k in m
  }

  lemma MatchesUse(m: map<Key, nat>, keys: seq<Key>, k: Key, v: nat)
    requires Matches(m, keys) && k in m && Distinct([k] + Without(keys, k))
    ensures Matches(m[k := v], [k] + Without(keys, k)) && |[k] + Without(keys, k)| == |keys|
  {
    WithoutOk(keys, k);
  }

  lemma MatchesNew(m: map<Key, nat>, keys: seq<Key>, k: Key, v: nat)
    requires Matches(m, keys) && k !in m
    ensures Matches(m[k := v], [k] + keys) && Without(keys, k) == keys
  {
    WithoutAbsent(keys, k);
    assert forall i :: 0 <= i < |keys| ==> keys[i] in keys;
  }

  lemma MatchesAt(m: map<Key, nat>, keys: seq<Key>, i: nat)
    requires Matches(m, keys) && i < |keys|
    ensures keys[i] in m
  {
    assert keys[i] in keys;
  }

  /** The map without the keys of s. */
  function Dropped(m: map<Key, nat>, s: seq<Key>): map<Key, nat> {
    map x | x in m && x !in s :: m[x]
  }

  lemma DropNone(m: map<Key, nat>, s: seq<Key>)
    requires s == []
    ensures Dropped(m, s) == m
  {
  }

  lemma DropLast(m: map<Key, nat>, all: seq<Key>, cache: map<Key, nat>, n: nat)
    requires 0 < n <= |all| && Left(m, all, cache, n)
    ensures Left(m, all, cache - {all[n - 1]}, n - 1)
  {
    var keys := all[..n];
    assert keys == all[..n - 1] + [all[n - 1]] && all[n - 1..] == [all[n - 1]] + all[n..];
    assert forall i :: 0 <= i < n - 1 ==> all[..n - 1][i] == keys[i];
  }

  function KeySet(keys: seq<Key>): (r: set<Key>)
    ensures forall k :: k in r <==> k in keys
  {
    if keys == [] then {} else KeySet(keys[..|keys| - 1]) + {keys[|keys| - 1]}
  }

  lemma {:induction false} SetSize(keys: seq<Key>)
    requires Distinct(keys)
    ensures |KeySet(keys)| == |keys|
  {
    if keys != [] {
      var n := |keys| - 1;
      PrefixDistinct(keys, keys[..n]);
      assert keys[n] !in keys[..n];
      hide Distinct;
      SetSize(keys[..n]);
    }
  }

  lemma SizeIs(m: map<Key, nat>, keys: seq<Key>)
    requires Matches(m, keys)
    ensures |m| == |keys|
  {
    SetSize(keys);
    assert m.Keys == KeySet(keys);
  }
}

/** Canonical prefix codes: djw_build_codes, djw_build_decoder and djw_decode_symbol of
    Baseline/third/xdelta/xdelta3-djw.h. A code is given by the length of each symbol's word, 0 for
    a symbol that has none. */
module Canonical {
  import opened Basics
  import opened BitStream

  /** The number of symbols of length l. */
  function Count(clen: seq<nat>, l: nat): (r: nat)
    ensures r <= |clen|
  {
    if clen == [] then 0 else Count(clen[..|clen| - 1], l) + (if clen[|clen| - 1] == l then 1 else 0)
  }

  /** Where symbol i stands among the symbols of its length. */
  function Rank(clen: seq<nat>, i: nat): nat
    requires i < |clen|
  {
    Count(clen[..i], clen[i])
  }

  /** The share of the 2^l words of l bits that the words of at most l bits use up. */
  function Used(clen: seq<nat>, l: nat): nat {
    if l == 0 then 0 else 2 * Used(clen, l - 1) + Count(clen, l)
  }

  /** The first word of length l, as a number. */
  function First(clen: seq<nat>, l: nat): nat {
    if l == 0 then 0 else 2 * Used(clen, l - 1)
  }

  /** The word of symbol i, as a number. */
  function Code(clen: seq<nat>, i: nat): nat
    requires i < |clen|
  {
    First(clen, clen[i]) + Rank(clen, i)
  }

  function Word(clen: seq<nat>, i: nat): (r: seq<bool>)
    requires i < |clen|
    ensures |r| == clen[i]
  {
    Msb(clen[i], Code(clen, i))
  }

  /** The lengths leave room for their words: the sum of 2^-clen[i] over the used symbols is at most 1. */
  predicate Kraft(clen: seq<nat>, maxLen: nat) {
    (forall i :: 0 <= i < |clen| ==> clen[i] <= maxLen) && Used(clen, maxLen) <= Pow2(maxLen)
  }

  /** The symbols of a length below l that have a word. */
  function Offset(clen: seq<nat>, l: nat): nat {
    if l <= 1 then 0 else Offset(clen, l - 1) + Count(clen, l - 1)
  }

  /** Where symbol i stands in the order of the words. */
  function Slot(clen: seq<nat>, i: nat): nat
    requires i < |clen|
  {
    Offset(clen, clen[i]) + Rank(clen, i)
  }

  // ----- counting -----

  lemma {:induction false} CountMonotone(clen: seq<nat>, i: nat, j: nat, l: nat)
    requires i <= j <= |clen|
    ensures Count(clen[..i], l) <= Count(clen[..j], l)
  {
    if i < j {
      CountMonotone(clen, i, j - 1, l);
      assert clen[..j][..j - 1] == clen[..j - 1];
    }
  }

  lemma CountStep(clen: seq<nat>, i: nat, l: nat)
    requires i < |clen|
    ensures Count(clen[..i + 1], l) == Count(clen[..i], l) + (if clen[i] == l then 1 else 0)
  {
    assert clen[..i + 1][..i] == clen[..i];
  }

  lemma RankBelow(clen: seq<nat>, i: nat)
    requires i < |clen|
    ensures Rank(clen, i) < Count(clen, clen[i])
  {
    CountStep(clen, i, clen[i]);
    CountMonotone(clen, i + 1, |clen|, clen[i]);
    assert clen[..|clen|] == clen;
  }

  lemma RanksDiffer(clen: seq<nat>, i: nat, j: nat)
    requires i < j < |clen| && clen[i] == clen[j]
    ensures Rank(clen, i) < Rank(clen, j)
  {
    CountStep(clen, i, clen[i]);
    CountMonotone(clen, i + 1, j, clen[i]);
  }

  /** Every rank is taken. */
  lemma {:induction false} SymbolOfRank(clen: seq<nat>, l: nat, rank: nat) returns (i: nat)
    requires rank < Count(clen, l)
    ensures i < |clen| && clen[i] == l && Rank(clen, i) == rank
  {
    var n := |clen| - 1;
    if clen[n] == l && rank == Count(clen[..n], l) {
      i := n;
    } else {
      i := SymbolOfRank(clen[..n], l, rank);
      assert clen[..n][..i] == clen[..i];
    }
  }

  lemma {:induction false} OffsetStep(clen: seq<nat>, l: nat)
    requires clen != []
    ensures Offset(clen, l) ==
            Offset(clen[..|clen| - 1], l) + (if 0 < clen[|clen| - 1] < l then 1 else 0)
  {
    if l > 1 {
      OffsetStep(clen, l - 1);
    }
  }

  lemma {:induction false} OffsetBound(clen: seq<nat>, l: nat)
    ensures Offset(clen, l) <= |clen|
  {
    if clen == [] {
      OffsetEmpty(l);
    } else {
      OffsetStep(clen, l);
      OffsetBound(clen[..|clen| - 1], l);
    }
  }

  lemma {:induction false} OffsetEmpty(l: nat)
    ensures Offset([], l) == 0
  {
    if l > 1 {
      OffsetEmpty(l - 1);
    }
  }

  lemma {:induction false} OffsetMonotone(clen: seq<nat>, l: nat, m: nat)
    requires l <= m
    ensures Offset(clen, l) <= Offset(clen, m)
  {
    if l < m {
      OffsetMonotone(clen, l, m - 1);
    }
  }

  /** The slots are within the alphabet and no two symbols share one. */
  lemma SlotsDistinct(clen: seq<nat>, i: nat, j: nat)
    requires i < |clen| && j < |clen| && clen[i] > 0 && clen[j] > 0
    ensures Slot(clen, i) < |clen|
    ensures i != j ==> Slot(clen, i) != Slot(clen, j)
  {
    RankBelow(clen, i);
    RankBelow(clen, j);
    OffsetBound(clen, clen[i] + 1);
    if clen[i] < clen[j] {
      OffsetMonotone(clen, clen[i] + 1, clen[j]);
    } else if clen[j] < clen[i] {
      OffsetMonotone(clen, clen[j] + 1, clen[i]);
    } else if i < j {
      RanksDiffer(clen, i, j);
    } else if j < i {
      RanksDiffer(clen, j, i);
    }
  }

  /** No symbol has a length from 1 to m - 1. */
  predicate NoneBelow(clen: seq<nat>, m: nat) {
    forall i :: 0 <= i < |clen| ==> clen[i] == 0 || clen[i] >= m
  }

  lemma {:induction false} CountZero(clen: seq<nat>, l: nat)
    requires forall i :: 0 <= i < |clen| ==> clen[i] != l
    ensures Count(clen, l) == 0
  {
    if clen != [] {
      CountZero(clen[..|clen| - 1], l);
    }
  }

  lemma {:induction false} UsedZero(clen: seq<nat>, m: nat, l: nat)
    requires NoneBelow(clen, m) && l < m
    ensures Used(clen, l) == 0 && Offset(clen, l + 1) == 0
  {
    if l > 0 {
      UsedZero(clen, m, l - 1);
      CountZero(clen, l);
    }
  }

  // ----- the words -----

  lemma Doubled(a: nat, p: nat)
    ensures a * (2 * p) == 2 * (a * p)
  {
  }

  /** The words of t bits already used up stay used up when they are lengthened. */
  lemma {:induction false} UsedGrows(clen: seq<nat>, t: nat, l: nat)
    requires t <= l
    ensures Used(clen, l) >= Used(clen, t) * Pow2(l - t)
  {
    if t < l {
      UsedGrows(clen, t, l - 1);
      Doubled(Used(clen, t), Pow2(l - 1 - t));
    }
  }

  /** Every code fits its length. */
  lemma CodeFits(clen: seq<nat>, maxLen: nat, i: nat)
    requires Kraft(clen, maxLen) && i < |clen| && clen[i] > 0
    ensures Code(clen, i) < Used(clen, clen[i]) <= Pow2(clen[i])
  {
    RankBelow(clen, i);
    var l := clen[i];
    UsedGrows(clen, l, maxLen);
    PowSplit(l, maxLen - l);
    MulCancel(Used(clen, l), Pow2(l), Pow2(maxLen - l));
  }

  lemma MulCancel(a: nat, b: nat, p: nat)
    requires a * p <= b * p && p >= 1
    ensures a <= b
  {
    assert (b + 1) * p == b * p + p;
    if a > b {
      MulLe(b + 1, a, p);
    }
  }

  lemma {:induction false} PowSplit(a: nat, b: nat)
    ensures Pow2(a) * Pow2(b) == Pow2(a + b)
  {
    if a > 0 {
      PowSplit(a - 1, b);
      assert 2 * Pow2(a - 1) * Pow2(b) == 2 * (Pow2(a - 1) * Pow2(b));
    }
  }

  lemma DivAtLeast(v: nat, p: nat, q: nat)
    requires p >= 1 && v >= q * p
    ensures v / p >= q
  {
    var d := v / p;
    assert v < (d + 1) * p;
    if d + 1 <= q {
      MulLe(d + 1, q, p);
    }
  }

  /** The first t bits of a longer word lie above all the words of at most t bits. */
  lemma PrefixAbove(clen: seq<nat>, maxLen: nat, i: nat, t: nat)
    requires Kraft(clen, maxLen) && i < |clen| && t < clen[i]
    ensures Value(Word(clen, i)[..t]) >= Used(clen, t)
  {
    var l := clen[i];
    CodeFits(clen, maxLen, i);
    ValuePrefix(l, Code(clen, i), t);
    UsedGrows(clen, t, l - 1);
    Doubled(Used(clen, t), Pow2(l - 1 - t));
    DivAtLeast(Code(clen, i), Pow2(l - t), Used(clen, t));
  }

  lemma WordValue(clen: seq<nat>, maxLen: nat, i: nat)
    requires Kraft(clen, maxLen) && i < |clen| && clen[i] > 0
    ensures Value(Word(clen, i)) == Code(clen, i) < Used(clen, clen[i])
  {
    CodeFits(clen, maxLen, i);
    ValueMsb(clen[i], Code(clen, i));
  }

  /** No word is a prefix of another symbol's word. */
  lemma PrefixFree(clen: seq<nat>, maxLen: nat, i: nat, j: nat)
    requires Kraft(clen, maxLen) && i < |clen| && j < |clen| && i != j && clen[i] > 0 && clen[j] > 0
    ensures !(Word(clen, i) <= Word(clen, j))
  {
    if Word(clen, i) <= Word(clen, j) {
      WordValue(clen, maxLen, i);
      assert Word(clen, j)[..clen[i]] == Word(clen, i);
      if clen[i] < clen[j] {
        PrefixAbove(clen, maxLen, j, clen[i]);
      } else {
        WordValue(clen, maxLen, j);
        assert Word(clen, j)[..clen[j]] == Word(clen, j);
        if i < j {
          RanksDiffer(clen, i, j);
        } else {
          RanksDiffer(clen, j, i);
        }
      }
      assert false;
    }
  }

  lemma CodeOf(clen: seq<nat>, i: nat)
    requires i < |clen|
    ensures Code(clen, i) == First(clen, clen[i]) + Count(clen[..i], clen[i])
  {
  }

  lemma CountNothing(clen: seq<nat>, l: nat)
    ensures Count(clen[..0], l) == 0
  {
  }

  lemma NextFirst(clen: seq<nat>, l: nat)
    requires l >= 1
    ensures First(clen, l + 1) == 2 * (First(clen, l) + Count(clen, l))
  {
  }

  /** The search of djw_build_codes for the shortest and longest length in use. */
  method Extent(clen: seq<nat>) returns (minClen: nat, maxClen: nat)
    ensures 0 < minClen <= 20 && NoneBelow(clen, minClen)
    ensures forall j :: 0 <= j < |clen| ==> clen[j] <= maxClen
  {
    minClen, maxClen := 20, 0;
    for i := 0 to |clen|
      invariant 0 < minClen <= 20
      invariant forall j :: 0 <= j < i ==> (clen[j] == 0 || minClen <= clen[j]) && clen[j] <= maxClen
    {
      if clen[i] > 0 && clen[i] < minClen {
        minClen := clen[i];
      }
      maxClen := if maxClen < clen[i] then clen[i] else maxClen;
    }
  }

  /** djw_build_codes. The two searches start from the constant DJW_MAX_CODELEN and from 0. */
  method BuildCodes(codes: array<nat>, clen: seq<nat>, absMax: nat)
    requires codes.Length >= |clen|
    requires forall i :: 0 <= i < |clen| ==> clen[i] <= absMax <= 20
    modifies codes
    ensures forall i :: 0 <= i < |clen| && clen[i] > 0 ==> codes[i] == Code(clen, i)
  {
    var minClen, maxClen := Extent(clen);
    var code := 0;
    UsedZero(clen, minClen, minClen - 1);
    hide Used, First, Count, Code;
    var l := minClen;
    while l <= maxClen
      invariant 0 < l && code == First(clen, l)
      invariant forall j :: 0 <= j < |clen| && 0 < clen[j] < l ==> codes[j] == Code(clen, j)
    {
      CountNothing(clen, l);
      for i := 0 to |clen|
        invariant code == First(clen, l) + Count(clen[..i], l)
        invariant forall j :: 0 <= j < |clen| && 0 < clen[j] < l ==> codes[j] == Code(clen, j)
        invariant forall j :: 0 <= j < i && clen[j] == l ==> codes[j] == Code(clen, j)
      {
        CountStep(clen, i, l);
        if clen[i] == l {
          CodeOf(clen, i);
          codes[i] := code;
          code := code + 1;
        }
      }
      assert clen[..|clen|] == clen;
      NextFirst(clen, l);
      code := 2 * code;
      l := l + 1;
    }
  }

  // ----- decoding -----

  /** What djw_build_decoder leaves in its tables. */
  predicate IsDecoder(clen: seq<nat>, inorder: seq<int>, base: seq<int>, limit: seq<int>,
                      minClen: nat, maxClen: nat) {
    && NoneBelow(clen, minClen) && minClen > 0 && maxClen < |base| && maxClen < |limit|
    && (forall i :: 0 <= i < |clen| ==> clen[i] <= maxClen)
    && (forall l :: minClen <= l <= maxClen ==> limit[l] == Used(clen, l) - 1)
    && (forall l :: minClen <= l <= maxClen ==> base[l] == First(clen, l) - Offset(clen, l))
    && (forall i :: 0 <= i < |clen| && clen[i] > 0 ==>
          Slot(clen, i) < |inorder| && inorder[Slot(clen, i)] == i)
  }

  /** djw_build_decoder */
  method BuildDecoder(absMax: nat, clen: seq<nat>, inorder: array<int>, base: array<int>, limit: array<int>)
    returns (minClen: nat, maxClen: nat)
    requires absMax <= 20 && forall i :: 0 <= i < |clen| ==> clen[i] <= absMax
    requires inorder.Length >= |clen| && base.Length >= absMax + 2 && limit.Length >= absMax + 2
    requires base != limit && inorder != base && inorder != limit
    modifies inorder, base, limit
    ensures IsDecoder(clen, inorder[..], base[..], limit[..], minClen, maxClen)
  {
    var nrClen := CountLengths(absMax, clen);
    minClen, maxClen := MinMax(absMax, clen, nrClen);
    var tmpBase := FillLimits(absMax, clen, nrClen, base, limit, minClen, maxClen);
    FillInorder(clen, inorder, tmpBase, minClen, maxClen);
  }

  method CountLengths(absMax: nat, clen: seq<nat>) returns (nrClen: array<int>)
    requires absMax <= 20 && forall i :: 0 <= i < |clen| ==> clen[i] <= absMax
    ensures fresh(nrClen) && nrClen.Length == 22
    ensures forall l :: 0 <= l <= absMax ==> nrClen[l] == Count(clen, l)
  {
    nrClen := new int[22](_ => 0);
    for k := 0 to |clen|
      invariant forall l :: 0 <= l <= absMax ==> nrClen[l] == Count(clen[..k], l)
    {
      forall l | 0 <= l <= absMax
          ensures Count(clen[..k + 1], l) == Count(clen[..k], l) + (if clen[k] == l then 1 else 0) {
        CountStep(clen, k, l);
      }
      nrClen[clen[k]] := nrClen[clen[k]] + 1;
    }
    assert clen[..|clen|] == clen;
  }

  /** The entries of the tables for the length l. */
  predicate Entry(clen: seq<nat>, l: nat, limit: int, base: int, tmpBase: int) {
    limit == Used(clen, l) - 1 && base == First(clen, l) - Offset(clen, l) && tmpBase == Offset(clen, l)
  }

  lemma FirstLength(clen: seq<nat>, l: nat)
    requires l >= 1 && NoneBelow(clen, l)
    ensures Entry(clen, l, Count(clen, l) - 1, 0, 0)
  {
    UsedZero(clen, l, l - 1);
  }

  lemma NextLength(clen: seq<nat>, l: nat, limit: int, base: int, tmpBase: int)
    requires l >= 2 && Entry(clen, l - 1, limit, base, tmpBase)
    ensures var lastLimit, tmp := 2 * (limit + 1), tmpBase + Count(clen, l - 1);
            Entry(clen, l, lastLimit + Count(clen, l) - 1, lastLimit - tmp, tmp)
  {
  }

  /** The BASE and LIMIT tables, and the first slot of each length. */
  method FillLimits(absMax: nat, clen: seq<nat>, nrClen: array<int>, base: array<int>, limit: array<int>,
                    minClen: nat, maxClen: nat)
    returns (tmpBase: array<int>)
    requires absMax <= 20 && nrClen.Length == 22 && base != limit && nrClen != base && nrClen != limit
    requires base.Length >= absMax + 2 && limit.Length >= absMax + 2
    requires 1 <= minClen <= absMax + 1 && maxClen <= absMax && NoneBelow(clen, minClen)
    requires minClen <= maxClen || (minClen == absMax + 1 && maxClen == 0)
    requires forall l :: 0 <= l <= absMax ==> nrClen[l] == Count(clen, l)
    modifies base, limit
    ensures fresh(tmpBase) && tmpBase.Length == 22
    ensures forall l :: minClen <= l <= maxClen ==> Entry(clen, l, limit[l], base[l], tmpBase[l])
  {
    tmpBase := new int[22](_ => 0);
    FirstLength(clen, minClen);
    hide Count, NoneBelow, Used, First, Offset, Entry;
    tmpBase[minClen] := 0;
    base[minClen] := 0;
    limit[minClen] := nrClen[minClen] - 1;
    var i := minClen + 1;
    while i <= maxClen
      invariant minClen < i <= absMax + 2
      invariant forall l :: minClen <= l < i && l <= maxClen ==> Entry(clen, l, limit[l], base[l], tmpBase[l])
    {
      NextLength(clen, i, limit[i - 1], base[i - 1], tmpBase[i - 1]);
      var lastLimit := 2 * (limit[i - 1] + 1);
      tmpBase[i] := tmpBase[i - 1] + nrClen[i - 1];
      limit[i] := lastLimit + nrClen[i] - 1;
      base[i] := lastLimit - tmpBase[i];
      i := i + 1;
    }
  }

  /** The two searches for the shortest and the longest length in use. */
  method MinMax(absMax: nat, clen: seq<nat>, nrClen: array<int>) returns (minClen: nat, maxClen: nat)
    requires forall i :: 0 <= i < |clen| ==> clen[i] <= absMax
    requires nrClen.Length > absMax && forall l :: 0 <= l <= absMax ==> nrClen[l] == Count(clen, l)
    ensures 1 <= minClen <= absMax + 1 && NoneBelow(clen, minClen)
    ensures maxClen <= absMax && forall i :: 0 <= i < |clen| ==> clen[i] <= maxClen
    ensures minClen <= maxClen || (minClen == absMax + 1 && maxClen == 0)
  {
    minClen := 1;
    while minClen <= absMax && nrClen[minClen] == 0
      invariant 1 <= minClen <= absMax + 1 && NoneBelow(clen, minClen)
    {
      Unused(clen, minClen);
      minClen := minClen + 1;
    }
    maxClen := absMax;
    while maxClen != 0 && nrClen[maxClen] == 0
      invariant maxClen <= absMax && forall i :: 0 <= i < |clen| ==> clen[i] <= maxClen
      invariant minClen <= maxClen || maxClen == 0 || minClen == absMax + 1
    {
      Unused(clen, maxClen);
      maxClen := maxClen - 1;
    }
    if maxClen != 0 {
      Unused(clen, maxClen);
    }
    if minClen <= absMax {
      Unused(clen, minClen);
    }
  }

  lemma Unused(clen: seq<nat>, l: nat)
    ensures Count(clen, l) == 0 <==> forall i :: 0 <= i < |clen| ==> clen[i] != l
  {
    if forall i :: 0 <= i < |clen| ==> clen[i] != l {
      CountZero(clen, l);
    } else {
      var i :| 0 <= i < |clen| && clen[i] == l;
      RankBelow(clen, i);
    }
  }

  /** The symbols in the order of their words; tmpBase holds the next free slot of each length. */
  method FillInorder(clen: seq<nat>, inorder: array<int>, tmpBase: array<int>, minClen: nat, maxClen: nat)
    requires 0 < minClen && inorder != tmpBase && inorder.Length >= |clen| && tmpBase.Length > maxClen
    requires NoneBelow(clen, minClen) && forall i :: 0 <= i < |clen| ==> clen[i] <= maxClen
    requires forall l :: minClen <= l <= maxClen ==> tmpBase[l] == Offset(clen, l)
    modifies inorder, tmpBase
    ensures forall i :: 0 <= i < |clen| && clen[i] > 0 ==>
              Slot(clen, i) < inorder.Length && inorder[Slot(clen, i)] == i
  {
    hide Offset, Count;
    for k := 0 to |clen|
      invariant forall l :: minClen <= l <= maxClen ==> tmpBase[l] == Offset(clen, l) + Count(clen[..k], l)
      invariant forall i :: 0 <= i < k && clen[i] > 0 ==>
                  Slot(clen, i) < inorder.Length && inorder[Slot(clen, i)] == i
    {
      forall l | minClen <= l <= maxClen
          ensures Count(clen[..k + 1], l) == Count(clen[..k], l) + (if clen[k] == l then 1 else 0) {
        CountStep(clen, k, l);
      }
      var l := clen[k];
      if l != 0 {
        forall i | 0 <= i <= k && clen[i] > 0
          ensures Slot(clen, i) < inorder.Length && (i < k ==> Slot(clen, i) != Slot(clen, k))
        {
          SlotsDistinct(clen, i, k);
        }
        assert tmpBase[l] == Slot(clen, k);
        inorder[tmpBase[l]] := k;
        tmpBase[l] := tmpBase[l] + 1;
      }
    }
  }

  lemma {:induction false} MsbValue(bits: seq<bool>)
    ensures Msb(|bits|, Value(bits)) == bits && Value(bits) < Pow2(|bits|)
  {
    if bits != [] {
      MsbValue(bits[..|bits| - 1]);
    }
  }

  /** The bits so far are beyond all words of their number or fewer. */
  predicate Beyond(clen: seq<nat>, all: seq<bool>, t: nat)
    requires t <= |all|
  {
    Value(all[..t]) >= Used(clen, t)
  }

  lemma BeyondNothing(clen: seq<nat>, all: seq<bool>)
    ensures Beyond(clen, all, 0) && Value(all[..0]) == 0
  {
  }

  lemma ValueNext(all: seq<bool>, n: nat)
    requires n < |all|
    ensures Value(all[..n + 1]) == 2 * Value(all[..n]) + (if all[n] then 1 else 0)
  {
    assert all[..n + 1][..n] == all[..n];
  }

  /** A word below the used ones of its length, whose front is beyond the shorter ones, is some symbol's. */
  lemma Hit(clen: seq<nat>, all: seq<bool>, t: nat) returns (i: nat)
    requires 0 < t <= |all| && Beyond(clen, all, t - 1) && !Beyond(clen, all, t)
    ensures i < |clen| && clen[i] == t && Word(clen, i) == all[..t]
    ensures Slot(clen, i) == Value(all[..t]) - First(clen, t) + Offset(clen, t)
  {
    ValueNext(all, t - 1);
    i := SymbolOfRank(clen, t, Value(all[..t]) - First(clen, t));
    MsbValue(all[..t]);
  }

  /** After bits beyond the used words of every length, no symbol's word has gone by. */
  lemma NoWordYet(clen: seq<nat>, maxLen: nat, all: seq<bool>, n: nat, i: nat)
    requires Kraft(clen, maxLen) && i < |clen| && 0 < clen[i] <= n <= |all|
    requires forall t :: 0 <= t <= n ==> Beyond(clen, all, t)
    ensures !(Word(clen, i) <= all)
  {
    assert Word(clen, i) <= all ==> all[..clen[i]] == Word(clen, i);
    WordValue(clen, maxLen, i);
    assert Beyond(clen, all, clen[i]);
  }

  /** No symbol's word is at the front of the input, if the lengths leave room for their words. */
  ghost predicate NoWordAhead(clen: seq<nat>, input: seq<bool>) {
    forall maxLen, i :: Kraft(clen, maxLen) && 0 <= i < |clen| && clen[i] > 0 ==> !(Word(clen, i) <= input)
  }

  lemma NoWord(clen: seq<nat>, inorder: seq<int>, base: seq<int>, limit: seq<int>, minClen: nat, maxClen: nat,
               all: seq<bool>, n: nat)
    requires IsDecoder(clen, inorder, base, limit, minClen, maxClen) && n <= |all| && (n == |all| || n == maxClen)
    requires forall t :: 0 <= t <= n ==> Beyond(clen, all, t)
    ensures NoWordAhead(clen, all)
  {
    forall maxLen, i | Kraft(clen, maxLen) && 0 <= i < |clen| && clen[i] > 0
      ensures !(Word(clen, i) <= all)
    {
      if clen[i] <= n {
        NoWordYet(clen, maxLen, all, n, i);
      }
    }
  }

  /** The test of the decoder's tables is the test for a word's end. */
  lemma LimitTest(clen: seq<nat>, inorder: seq<int>, base: seq<int>, limit: seq<int>, minClen: nat, maxClen: nat,
                  all: seq<bool>, t: nat)
    requires IsDecoder(clen, inorder, base, limit, minClen, maxClen) && 0 < t <= |all| && t <= maxClen
    ensures t < |limit| && t < |base|
    ensures (t >= minClen && Value(all[..t]) <= limit[t]) <==> !Beyond(clen, all, t)
  {
    if t < minClen {
      UsedZero(clen, minClen, t);
    }
  }

  /** The symbol that the tables give at a word's end. */
  lemma Lookup(clen: seq<nat>, inorder: seq<int>, base: seq<int>, limit: seq<int>, minClen: nat, maxClen: nat,
               all: seq<bool>, t: nat)
    requires IsDecoder(clen, inorder, base, limit, minClen, maxClen) && minClen <= t <= |all| && t <= maxClen
    requires Beyond(clen, all, t - 1) && !Beyond(clen, all, t)
    ensures 0 <= Value(all[..t]) - base[t] < |inorder| && Value(all[..t]) - base[t] < |clen|
    ensures var i := inorder[Value(all[..t]) - base[t]];
            0 <= i < |clen| && clen[i] == t && all == Word(clen, i) + all[t..]
  {
    var i := Hit(clen, all, t);
    SlotsDistinct(clen, i, i);
    assert all == all[..t] + all[t..];
  }

  /** djw_decode_symbol: the symbol whose word comes next. The symbol returned is always one whose
      word was read; and when the lengths leave room for their words, the call fails only if no
      symbol's word comes next. */
  method DecodeSymbol(reader: BitReader, ghost clen: seq<nat>, inorder: seq<int>, base: seq<int>, limit: seq<int>,
                      minClen: nat, maxClen: nat, maxSym: nat)
    returns (ok: bool, sym: nat)
    requires reader.Valid() && |clen| <= maxSym
    requires IsDecoder(clen, inorder, base, limit, minClen, maxClen)
    modifies reader
    ensures reader.Valid()
    ensures ok ==> sym < |clen| && clen[sym] > 0 && old(reader.Rest()) == Word(clen, sym) + reader.Rest()
    ensures !ok ==> NoWordAhead(clen, old(reader.Rest()))
  {
    hide Value, Beyond, Word, IsDecoder, Used, Kraft, BytesBits, BitsOf, NoWordAhead;
    var code, bits: nat := 0, 0;
    BeyondNothing(clen, reader.Rest());
    ghost var all := reader.Rest();
    while true
      invariant reader.Valid() && bits <= maxClen && bits <= |all| && reader.Rest() == all[bits..]
      invariant code == Value(all[..bits])
      invariant forall t :: 0 <= t <= bits ==> Beyond(clen, all, t)
      decreases maxClen - bits
    {
      if bits == maxClen {
        break;
      }
      var bit;
      ok, bit := reader.NextBit();
      if !ok {
        break;
      }
      assert all[bits..][0] == bit && all[bits..][1..] == all[bits + 1..];
      ValueNext(all, bits);
      bits := bits + 1;
      code := 2 * code + if bit then 1 else 0;
      LimitTest(clen, inorder, base, limit, minClen, maxClen, all, bits);
      if bits >= minClen && code <= limit[bits] {
        Lookup(clen, inorder, base, limit, minClen, maxClen, all, bits);
        if base[bits] <= code {
          var offset := code - base[bits];
          if offset <= maxSym {
            return true, inorder[offset];
          }
        }
        break;
      }
    }
    ok, sym := false, 0;
    NoWord(clen, inorder, base, limit, minClen, maxClen, all, bits);
  }

  /** With room for all words, what DecodeSymbol promises leaves it no choice: it succeeds exactly if
      a word comes next, and then with that word's symbol. */
  lemma DecodeUnique(clen: seq<nat>, maxLen: nat, rest: seq<bool>, i: nat, j: nat)
    requires Kraft(clen, maxLen) && i < |clen| && j < |clen| && clen[i] > 0 && clen[j] > 0
    requires Word(clen, i) <= rest && Word(clen, j) <= rest
    ensures i == j
  {
    if i != j {
      if clen[i] <= clen[j] {
        assert Word(clen, j)[..clen[i]] == rest[..clen[i]];
        PrefixFree(clen, maxLen, i, j);
      } else {
        assert Word(clen, i)[..clen[j]] == rest[..clen[j]];
        PrefixFree(clen, maxLen, j, i);
      }
    }
  }
}

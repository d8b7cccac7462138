/** The stream of the secondary compressor of Baseline/third/xdelta/xdelta3-djw.h: the groups' code
    lengths, themselves coded, then the group of each sector, then the sectors' bytes. */
module HuffFormat {
  import opened Basics
  import opened BitStream
  import opened Canonical
  import opened Mtf12

  /** djw_init_clen_mtf_1_2: 0, then djw_encode_12basic, then djw_encode_12extra. */
  function InitialMtf(): seq<nat> {
    [0, 4, 5, 6, 7, 8, 9, 10, 3, 11, 2, 12, 13, 1, 14, 15, 16, 17, 18, 19, 20]
  }

  lemma LengthsInMtf(s: seq<nat>)
    requires AtMost(s, 20)
    ensures Within(s, InitialMtf()) && AtMost(InitialMtf(), 20) && |InitialMtf()| == 21
  {
    var m := InitialMtf();
    assert m[0] == 0 && m[13] == 1 && m[10] == 2 && m[8] == 3 && m[1] == 4 && m[2] == 5 && m[3] == 6 && m[4] == 7;
    assert m[5] == 8 && m[6] == 9 && m[7] == 10 && m[9] == 11 && m[11] == 12 && m[12] == 13 && m[14] == 14;
    assert m[15] == 15 && m[16] == 16 && m[17] == 17 && m[18] == 18 && m[19] == 19 && m[20] == 20;
    forall k | 0 <= k < |s| ensures s[k] in m {
      assert s[k] <= 20;
    }
  }

  /** The numbers of s in fields of the same width. */
  function Fields(width: nat, s: seq<nat>): seq<bool> {
    if s == [] then [] else Fields(width, s[..|s| - 1]) + Msb(width, s[|s| - 1])
  }

  /** The lengths clclen of the code for the symbols' codes; the lengths from n on are not written. */
  predicate CodesSymbols(clclen: seq<nat>, n: nat, symbols: seq<nat>) {
    && |clclen| == 22 && 7 <= n <= 22 && (forall i :: n <= i < 22 ==> clclen[i] == 0)
    && Kraft(clclen, 15) && AtMost(symbols, 20) && Within(symbols, InitialMtf())
    && Coded(clclen, Enc(symbols, InitialMtf(), 0))
  }

  /** What djw_encode_prefix writes. */
  function PrefixBits(clclen: seq<nat>, n: nat, symbols: seq<nat>): seq<bool>
    requires CodesSymbols(clclen, n, symbols)
  {
    Msb(4, n - 7) + Fields(4, clclen[..n]) + Words(clclen, Enc(symbols, InitialMtf(), 0))
  }

  function Identity(n: nat): (r: seq<nat>)
    ensures |r| == n && forall k :: 0 <= k < n ==> r[k] == k
  {
    seq(n, i requires i >= 0 => i)
  }

  /** The lengths selclen of the code for the sectors' groups. */
  predicate CodesGroups(selclen: seq<nat>, groups: nat, gbest: seq<nat>) {
    && |selclen| == groups + 1 && Kraft(selclen, 7) && Within(gbest, Identity(groups))
    && Coded(selclen, Enc(gbest, Identity(groups), 0))
  }

  function SelectorBits(selclen: seq<nat>, groups: nat, gbest: seq<nat>): seq<bool>
    requires CodesGroups(selclen, groups, gbest)
  {
    Fields(3, selclen) + Words(selclen, Enc(gbest, Identity(groups), 0))
  }

  /** The bytes of each sector have words in the code of its group; the sectors hold ss bytes, but
      for the last one, which holds what is left. */
  predicate CodesSectors(clens: seq<seq<nat>>, gbest: seq<nat>, ss: nat, data: seq<nat>) {
    if data == [] || gbest == [] || ss == 0 then data == [] && gbest == []
    else
      var n := if ss < |data| then ss else |data|;
      gbest[0] < |clens| && Coded(clens[gbest[0]], data[..n]) && CodesSectors(clens, gbest[1..], ss, data[n..])
  }

  function SectorBits(clens: seq<seq<nat>>, gbest: seq<nat>, ss: nat, data: seq<nat>): seq<bool>
    requires CodesSectors(clens, gbest, ss, data)
  {
    if data == [] then []
    else
      var n := if ss < |data| then ss else |data|;
      Words(clens[gbest[0]], data[..n]) + SectorBits(clens, gbest[1..], ss, data[n..])
  }

  // ----- the symbols of several groups -----

  function NonZero(s: seq<nat>): seq<nat> {
    if s == [] then [] else (if s[0] == 0 then [] else [s[0]]) + NonZero(s[1..])
  }

  function Flat(clens: seq<seq<nat>>): seq<nat> {
    if clens == [] then [] else clens[0] + Flat(clens[1..])
  }

  /** djw_compute_multi_prefix: all lengths of the first group, and those of the others that are not 0. */
  function MultiSymbols(clens: seq<seq<nat>>): seq<nat>
    requires clens != []
  {
    clens[0] + NonZero(Flat(clens[1..]))
  }

  /** Every group's table gives a word to the same symbols. */
  predicate SameZeros(v: seq<nat>, size: nat)
    requires size > 0
  {
    forall n :: size <= n < |v| ==> (v[n] == 0 <==> v[n - size] == 0)
  }

  lemma {:induction false} NonZeroBounds(s: seq<nat>)
    ensures 0 !in NonZero(s) && |NonZero(s)| <= |s|
  {
    if s != [] {
      NonZeroBounds(s[1..]);
    }
  }

  lemma NonZeroStep(v: seq<nat>, n: nat)
    requires n < |v|
    ensures NonZero(v[n..]) == (if v[n] == 0 then [] else [v[n]]) + NonZero(v[n + 1..])
    ensures |NonZero(v[n..])| == |NonZero(v[n + 1..])| + if v[n] == 0 then 0 else 1
  {
    assert v[n..][0] == v[n] && v[n..][1..] == v[n + 1..];
  }

  lemma NonZeroNone(s: seq<nat>)
    requires s == []
    ensures NonZero(s) == []
  {
  }

  /** With the same zeros in all tables, the decoder's and the encoder's rules skip the same. */
  lemma {:induction false} SentNonZero(v: seq<nat>, size: nat, n: nat)
    requires 0 < size <= n <= |v| && SameZeros(v, size)
    ensures Sent(v, size, n) == NonZero(v[n..])
    decreases |v| - n
  {
    hide NonZero;
    if n < |v| {
      SentNonZero(v, size, n + 1);
      NonZeroStep(v, n);
      assert [v[n]] + NonZero(v[n + 1..]) == [v[n]] + Sent(v, size, n + 1);
      assert [] + NonZero(v[n + 1..]) == NonZero(v[n + 1..]);
    } else {
      NonZeroNone(v[n..]);
    }
  }

  /** And only then: where they differ, the decoder expects a symbol that is never sent, or the other
      way round. */
  lemma {:induction false} SentDiffers(v: seq<nat>, size: nat, n: nat)
    requires 0 < size <= n <= |v|
    requires exists m :: n <= m < |v| && v[m] != 0 && v[m - size] == 0
    requires 0 !in Sent(v, size, n)
    ensures |Sent(v, size, n)| < |NonZero(v[n..])|
    decreases |v| - n
  {
    hide NonZero;
    NonZeroStep(v, n);
    if exists m :: n + 1 <= m < |v| && v[m] != 0 && v[m - size] == 0 {
      SentDiffers(v, size, n + 1);
    } else {
      SentShort(v, size, n + 1);
    }
  }

  lemma {:induction false} SentShort(v: seq<nat>, size: nat, n: nat)
    requires 0 < size <= n <= |v| && 0 !in Sent(v, size, n)
    ensures |Sent(v, size, n)| <= |NonZero(v[n..])|
    decreases |v| - n
  {
    hide NonZero;
    if n < |v| {
      NonZeroStep(v, n);
      SentShort(v, size, n + 1);
    }
  }

  lemma {:induction false} SentZero(v: seq<nat>, size: nat, n: nat, m: nat)
    requires 0 < size <= n <= m < |v| && v[m] == 0 && v[m - size] != 0
    ensures 0 in Sent(v, size, n)
    decreases m - n
  {
    if n < m {
      SentZero(v, size, n + 1, m);
    }
  }

  lemma {:induction false} SentFirst(v: seq<nat>, size: nat, n: nat)
    requires n <= size <= |v|
    ensures Sent(v, size, n) == v[n..size] + Sent(v, size, size)
    decreases size - n
  {
    if n < size {
      SentFirst(v, size, n + 1);
      assert v[n..size] == [v[n]] + v[n + 1..size];
    }
  }

  lemma ZerosDiffer(v: seq<nat>, size: nat)
    requires 0 < size <= |v| && !SameZeros(v, size)
    ensures Sent(v, size, size) != NonZero(v[size..])
  {
    var sent := Sent(v, size, size);
    NonZeroBounds(v[size..]);
    var n :| size <= n < |v| && !(v[n] == 0 <==> v[n - size] == 0);
    hide Sent, NonZero;
    if v[n] == 0 {
      SentZero(v, size, size, n);
    } else if 0 !in sent {
      SentDiffers(v, size, size);
    }
  }

  lemma SameRest(first: seq<nat>, a: seq<nat>, b: seq<nat>)
    ensures first + a == first + b <==> a == b
  {
    assert (first + a)[|first|..] == a && (first + b)[|first|..] == b;
  }

  /** The symbols the encoder sends are those the decoder's skipping rule expects exactly if all
      tables have the same zeros. */
  lemma MultiMatches(first: seq<nat>, rest: seq<nat>)
    requires first != []
    ensures Sent(first + rest, |first|, 0) == first + NonZero(rest) <==> SameZeros(first + rest, |first|)
    ensures SameZeros(first + rest, |first|) ==> Skippable(first + rest, |first|)
  {
    var v, size := first + rest, |first|;
    SentFirst(v, size, 0);
    assert v[0..size] == first && v[size..] == rest;
    SameRest(first, Sent(v, size, size), NonZero(rest));
    hide Sent, NonZero;
    if SameZeros(v, size) {
      SentNonZero(v, size, size);
    } else {
      ZerosDiffer(v, size);
    }
  }

  // ----- the whole stream -----

  /** The encoder's choices: the code lengths of each group, the bytes in a sector, the group of each
      sector, and the lengths of the codes that these are written in. */
  datatype Plan = Plan(clens: seq<seq<nat>>, ss: nat, gbest: seq<nat>, clclen: seq<nat>, n: nat, selclen: seq<nat>)

  predicate Tables(clens: seq<seq<nat>>) {
    1 <= |clens| <= 8 && forall g :: 0 <= g < |clens| ==> |clens[g]| == 256 && Kraft(clens[g], 20)
  }

  predicate GoodPlan(p: Plan, data: seq<nat>) {
    && data != [] && Tables(p.clens) && CodesSymbols(p.clclen, p.n, MultiSymbols(p.clens))
    && CodesSectors(p.clens, p.gbest, p.ss, data)
    && if |p.clens| == 1 then p.ss == |data|
       else 5 <= p.ss <= 160 && p.ss % 5 == 0 && CodesGroups(p.selclen, |p.clens|, p.gbest)
  }

  /** What xd3_encode_huff writes before the last byte is filled up. */
  function PlanBits(p: Plan, data: seq<nat>): seq<bool>
    requires GoodPlan(p, data)
  {
    Msb(3, |p.clens| - 1) + (if |p.clens| == 1 then [] else Msb(5, p.ss / 5 - 1))
    + PrefixBits(p.clclen, p.n, MultiSymbols(p.clens))
    + (if |p.clens| == 1 then [] else SelectorBits(p.selclen, |p.clens|, p.gbest))
    + SectorBits(p.clens, p.gbest, p.ss, data)
  }

  // ----- sectors -----

  /** The number of sectors of ss bytes that n bytes make. */
  function SectorCount(n: nat, ss: nat): nat {
    if n == 0 || ss == 0 then 0 else if n <= ss then 1 else 1 + SectorCount(n - ss, ss)
  }

  /** The decoder's formula for it. */
  function Sectors(outputBytes: nat, ss: nat): nat
    requires outputBytes > 0 && ss > 0
  {
    1 + (outputBytes - 1) / ss
  }

  lemma {:induction false} SectorCountIs(n: nat, ss: nat)
    requires n > 0 && ss > 0
    ensures SectorCount(n, ss) == Sectors(n, ss)
  {
    if n <= ss {
      DivUnique(n - 1, ss, 0, n - 1);
    } else {
      SectorCountIs(n - ss, ss);
      var q, r := (n - ss - 1) / ss, (n - ss - 1) % ss;
      assert (q + 1) * ss == q * ss + ss;
      DivUnique(n - 1, ss, q + 1, r);
    }
  }

  /** The sectors that match a plan are as many as the section makes. */
  lemma {:induction false} SectorsCounted(clens: seq<seq<nat>>, gbest: seq<nat>, ss: nat, data: seq<nat>)
    requires CodesSectors(clens, gbest, ss, data) && ss > 0
    ensures |gbest| == SectorCount(|data|, ss)
    decreases |gbest|
  {
    if data != [] {
      var n := if ss < |data| then ss else |data|;
      SectorsCounted(clens, gbest[1..], ss, data[n..]);
    }
  }

  /** Where every byte has a word in every group, any choice of the sectors' groups will do. */
  lemma {:induction false} AnyGroups(clens: seq<seq<nat>>, gbest: seq<nat>, ss: nat, data: seq<nat>)
    requires ss > 0 && |gbest| == SectorCount(|data|, ss) && AllBelow(gbest, |clens|)
    requires forall g :: 0 <= g < |clens| ==> Coded(clens[g], data)
    ensures CodesSectors(clens, gbest, ss, data)
    decreases |gbest|
  {
    if data != [] {
      var n := if ss < |data| then ss else |data|;
      forall g | 0 <= g < |clens| ensures Coded(clens[g], data[n..]) && Coded(clens[g], data[..n]) {
      }
      AnyGroups(clens, gbest[1..], ss, data[n..]);
    }
  }

  predicate AllBelow(s: seq<nat>, n: nat) {
    forall k :: 0 <= k < |s| ==> s[k] < n
  }
}

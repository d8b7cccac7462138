/** Sections coded in several groups: when they come back. xd3_encode_huff and xd3_decode_huff of
    Baseline/third/xdelta/xdelta3-djw.h. */
module HuffGroups {
  import opened HuffFormat
  import opened PrefixBuild
  import Mtf12
  import HuffEncode
  import HuffDecode

  /** The search leaves a group no zero for a byte that occurs, and counts no byte that does not. */
  predicate Occurs(freq: seq<nat>, data: seq<nat>) {
    |freq| == 256 && forall i :: 0 <= i < 256 ==> (freq[i] != 0 <==> i in data)
  }

  ghost predicate AllFull(clens: seq<seq<nat>>) {
    forall g :: 0 <= g < |clens| ==> Full(clens[g])
  }

  ghost predicate AllExact(freqs: seq<seq<nat>>, clens: seq<seq<nat>>)
    requires |freqs| == |clens|
  {
    forall g :: 0 <= g < |clens| ==> Exact(freqs[g], clens[g])
  }

  // ----- tables that leave out the same symbols -----

  predicate Alike(c: seq<nat>, d: seq<nat>) {
    |c| == |d| && forall i :: 0 <= i < |c| ==> (c[i] == 0 <==> d[i] == 0)
  }

  lemma Place(clens: seq<seq<nat>>, g: nat, i: nat)
    requires g < |clens| && i < 256 && forall h :: 0 <= h < |clens| ==> |clens[h]| == 256
    ensures |Flat(clens)| == 256 * |clens| && 256 * g + i < |Flat(clens)| && Flat(clens)[256 * g + i] == clens[g][i]
  {
    HuffDecode.FlatLength(clens);
    assert Flat(clens)[256 * g..256 * g + 256][i] == clens[g][i];
  }

  lemma {:induction false} NextAlike(clens: seq<seq<nat>>, g: nat)
    requires g < |clens| && forall h :: 0 <= h < |clens| ==> |clens[h]| == 256
    requires SameZeros(Flat(clens), 256)
    ensures Alike(clens[0], clens[g])
  {
    hide Flat;
    if g > 0 {
      NextAlike(clens, g - 1);
      forall i | 0 <= i < 256 ensures clens[g][i] == 0 <==> clens[g - 1][i] == 0 {
        Place(clens, g, i);
        Place(clens, g - 1, i);
      }
    }
  }

  lemma AlikeAt(clens: seq<seq<nat>>, n: nat)
    requires clens != [] && forall h :: 0 <= h < |clens| ==> |clens[h]| == 256
    requires (forall g :: 0 <= g < |clens| ==> Alike(clens[0], clens[g])) && 256 <= n < |Flat(clens)|
    ensures Flat(clens)[n] == 0 <==> Flat(clens)[n - 256] == 0
  {
    hide Flat;
    Place(clens, 0, 0);
    var g, i := n / 256, n % 256;
    Place(clens, g, i);
    Place(clens, g - 1, i);
    assert Alike(clens[0], clens[g]) && Alike(clens[0], clens[g - 1]);
  }

  lemma FlatAlike(clens: seq<seq<nat>>)
    requires clens != [] && forall h :: 0 <= h < |clens| ==> |clens[h]| == 256
    ensures SameZeros(Flat(clens), 256) <==> forall g :: 0 <= g < |clens| ==> Alike(clens[0], clens[g])
  {
    hide Flat, Alike;
    if SameZeros(Flat(clens), 256) {
      forall g | 0 <= g < |clens| ensures Alike(clens[0], clens[g]) {
        NextAlike(clens, g);
      }
    } else if forall g :: 0 <= g < |clens| ==> Alike(clens[0], clens[g]) {
      forall n | 256 <= n < |Flat(clens)| ensures Flat(clens)[n] == 0 <==> Flat(clens)[n - 256] == 0 {
        AlikeAt(clens, n);
      }
    }
  }

  /** Tables for the symbols that occur leave out the same ones, even if only one occurs. */
  lemma ExactAlike(a: seq<nat>, b: seq<nat>, c: seq<nat>, d: seq<nat>, data: seq<nat>)
    requires Occurs(a, data) && Occurs(b, data) && Exact(a, c) && Exact(b, d)
    ensures Alike(c, d)
  {
    assert forall i :: LoneAt(a, i) <==> LoneAt(b, i);
  }

  /** The tables of the groups leave out the same symbols if and only if all were rescaled to have
      words for all symbols, or none has words but for those that occur. */
  lemma GroupsAlike(data: seq<nat>, freqs: seq<seq<nat>>, clens: seq<seq<nat>>)
    requires clens != [] && |freqs| == |clens|
    requires forall g :: 0 <= g < |clens| ==> |clens[g]| == 256 && HuffEncode.ZerosOk(freqs[g], clens[g])
    requires forall g :: 0 <= g < |clens| ==> Occurs(freqs[g], data)
    ensures SameZeros(Flat(clens), 256) <==> AllFull(clens) || AllExact(freqs, clens)
  {
    hide Exact;
    FlatAlike(clens);
    if AllExact(freqs, clens) {
      forall g | 0 <= g < |clens| ensures Alike(clens[0], clens[g]) {
        ExactAlike(freqs[0], freqs[g], clens[0], clens[g], data);
      }
    }
  }

  /** Light frequencies make tables for just the symbols that occur, and so do any for all symbols. */
  lemma LightAlike(data: seq<nat>, freqs: seq<seq<nat>>, clens: seq<seq<nat>>)
    requires clens != [] && |freqs| == |clens|
    requires forall g :: 0 <= g < |clens| ==> |clens[g]| == 256 && HuffEncode.ZerosOk(freqs[g], clens[g])
    requires forall g :: 0 <= g < |clens| ==> Occurs(freqs[g], data)
    requires (forall g :: 0 <= g < |clens| ==> Light(freqs[g], 20)) || forall b :: 0 <= b < 256 ==> b in data
    ensures SameZeros(Flat(clens), 256)
  {
    GroupsAlike(data, freqs, clens);
    if forall b :: 0 <= b < 256 ==> b in data {
      assert forall g :: 0 <= g < |clens| ==> Full(clens[g]);
    }
  }

  /** Tables of which one has a word that the one before has not are never what djw_decode_prefix
      gives: after a zero it puts zeros. */
  lemma TablesLost(clens: seq<seq<nat>>, values: seq<nat>, g: nat, i: nat)
    requires g + 1 < |clens| && i < 256 && forall h :: 0 <= h < |clens| ==> |clens[h]| == 256
    requires clens[g][i] == 0 && clens[g + 1][i] != 0 && Mtf12.ZerosStay(values, 256)
    ensures values != Flat(clens)
  {
    hide Flat;
    Place(clens, g, i);
    Place(clens, g + 1, i);
    var n := 256 * g + i + 256;
    assert Flat(clens)[n - 256] == 0 && Flat(clens)[n] != 0;
  }

  /** A section coded in several groups comes back if all groups have words for the same bytes: with the
      frequencies of the search, whenever these are light or every byte occurs. */
  method RoundTripMulti(data: seq<nat>, ss: nat, freqs: seq<seq<nat>>, gbest: seq<nat>)
    returns (ok: bool, output: seq<nat>, clens: seq<seq<nat>>)
    requires data != [] && HuffEncode.IsBytes(data) && 2 <= |freqs| <= 8 && 5 <= ss <= 160 && ss % 5 == 0
    requires forall g :: 0 <= g < |freqs| ==> HuffEncode.Covers(freqs[g], data)
    requires |gbest| == SectorCount(|data|, ss) && AllBelow(gbest, |freqs|)
    ensures |clens| == |freqs| && (SameZeros(Flat(clens), 256) ==> ok && output == data)
    ensures (forall g :: 0 <= g < |freqs| ==> Occurs(freqs[g], data)) ==>
              (SameZeros(Flat(clens), 256) <==> AllFull(clens) || AllExact(freqs, clens))
    ensures (forall g :: 0 <= g < |freqs| ==> Occurs(freqs[g], data) && Light(freqs[g], 20)) ==> ok && output == data
    ensures (forall g :: 0 <= g < |freqs| ==> Occurs(freqs[g], data)) && (forall b :: 0 <= b < 256 ==> b in data) ==>
              ok && output == data
  {
    hide HuffEncode.Holds, HuffDecode.Carries, GoodPlan, SameZeros, AllFull, AllExact, HuffEncode.ZerosOk, Light;
    var bytes;
    ghost var p;
    bytes, clens, p := HuffEncode.EncodeMulti(data, ss, freqs, gbest);
    if forall g :: 0 <= g < |freqs| ==> Occurs(freqs[g], data) {
      GroupsAlike(data, freqs, clens);
      if (forall g :: 0 <= g < |freqs| ==> Light(freqs[g], 20)) || forall b :: 0 <= b < 256 ==> b in data {
        LightAlike(data, freqs, clens);
      }
    }
    ghost var pad := 0;
    if SameZeros(Flat(p.clens), 256) {
      pad := HuffDecode.HoldsCarries(bytes, p, data);
    }
    var used;
    ok, output, used := HuffDecode.DecodeHuff(bytes, |data|, p, pad, data);
  }
}

/** The choice of a base chunk: Baseline/src/reduction/similar_policy.cc. */
module SimilarPolicy {

  datatype Base = Similar(fp: nat) | NonSimilar

  /** How many of the features the index gives to fp. */
  function Votes(index: map<nat, nat>, features: seq<nat>, fp: nat): nat {
    if features == [] then 0
    else Votes(index, features[..|features| - 1], fp)
         + if features[|features| - 1] in index && index[features[|features| - 1]] == fp then 1 else 0
  }

  /** The first feature's entry in the index. */
  function FirstMatch(index: map<nat, nat>, features: seq<nat>): Base {
    if features == [] then NonSimilar
    else if features[0] in index then Similar(index[features[0]])
    else FirstMatch(index, features[1..])
  }

  lemma {:induction false} FirstMatchAppend(index: map<nat, nat>, features: seq<nat>, f: nat)
    ensures FirstMatch(index, features + [f]) ==
            if FirstMatch(index, features).Similar? then FirstMatch(index, features)
            else if f in index then Similar(index[f]) else NonSimilar
  {
    if features == [] {
      assert features + [f] == [f];
    } else {
      assert (features + [f])[1..] == features[1..] + [f];
      FirstMatchAppend(index, features[1..], f);
    }
  }

  lemma {:induction false} SomeVote(index: map<nat, nat>, features: seq<nat>)
    ensures FirstMatch(index, features).Similar? <==> exists fp :: Votes(index, features, fp) > 0
    ensures FirstMatch(index, features).Similar? ==> Votes(index, features, FirstMatch(index, features).fp) > 0
  {
    if features != [] {
      var n := |features| - 1;
      SomeVote(index, features[..n]);
      FirstMatchAppend(index, features[..n], features[n]);
      assert features == features[..n] + [features[n]];
      if FirstMatch(index, features).NonSimilar? {
        forall fp ensures Votes(index, features, fp) == 0 {
          assert Votes(index, features[..n], fp) == 0;
        }
      } else if FirstMatch(index, features[..n]).Similar? {
        assert Votes(index, features, FirstMatch(index, features).fp) > 0;
      } else {
        assert Votes(index, features, index[features[n]]) > 0;
      }
    }
  }

  /** What FindBaseChunk promises: a base the index has for one of the features; one that no other
      has more of them; and the first one where none has more than one. */
  ghost predicate GoodBase(index: map<nat, nat>, features: seq<nat>, b: Base) {
    && (b.NonSimilar? <==> forall i :: 0 <= i < |features| ==> features[i] !in index)
    && (b.Similar? ==>
          && (exists i :: 0 <= i < |features| && features[i] in index && index[features[i]] == b.fp)
          && (forall fp :: Votes(index, features, fp) <= Votes(index, features, b.fp))
          && (Votes(index, features, b.fp) == 1 ==> b == FirstMatch(index, features)))
  }

  lemma {:induction false} VoteFeature(index: map<nat, nat>, features: seq<nat>, fp: nat)
    ensures Votes(index, features, fp) > 0 <==>
            exists i :: 0 <= i < |features| && features[i] in index && index[features[i]] == fp
  {
    if features != [] {
      var n := |features| - 1;
      VoteFeature(index, features[..n], fp);
      assert forall i :: 0 <= i < n ==> features[..n][i] == features[i];
      if Votes(index, features[..n], fp) > 0 {
        var i :| 0 <= i < n && features[..n][i] in index && index[features[..n][i]] == fp;
        assert features[i] in index;
      }
    }
  }

  lemma {:induction false} FirstMatchNone(index: map<nat, nat>, features: seq<nat>)
    ensures FirstMatch(index, features).NonSimilar? <==> forall i :: 0 <= i < |features| ==> features[i] !in index
  {
    if features != [] {
      FirstMatchNone(index, features[1..]);
      assert forall i :: 1 <= i < |features| ==> features[i] == features[1..][i - 1];
      if features[0] !in index && FirstMatch(index, features[1..]).NonSimilar? {
        forall i | 0 <= i < |features| ensures features[i] !in index {
          assert i > 0 ==> features[1..][i - 1] !in index;
        }
      }
    }
  }

  /** The map from bases to their numbers of votes. */
  ghost predicate Tally(freq: map<nat, nat>, index: map<nat, nat>, features: seq<nat>) {
    forall fp :: Votes(index, features, fp) == if fp in freq then freq[fp] else 0
  }

  lemma TallyStep(freq: map<nat, nat>, index: map<nat, nat>, features: seq<nat>, f: nat)
    requires Tally(freq, index, features)
    ensures f !in index ==> Tally(freq, index, features + [f])
    ensures f in index ==>
              Tally(freq[index[f] := (if index[f] in freq then freq[index[f]] else 0) + 1], index, features + [f])
  {
    assert (features + [f])[..|features|] == features;
  }

  /** FindBaseChunk. The sort puts an entry of the highest frequency first. */
  method FindBaseChunk(index: map<nat, nat>, features: seq<nat>) returns (b: Base)
    ensures GoodBase(index, features, b)
  {
    hide Votes, FirstMatch, Tally;
    var freq: map<nat, nat>, isSimilar, first: nat := map[], false, 0;
    Nothing(index, features[..0]);
    for i := 0 to |features|
      invariant Tally(freq, index, features[..i])
      invariant FirstMatch(index, features[..i]) == if isSimilar then Similar(first) else NonSimilar
      invariant isSimilar ==> first in freq
    {
      TallyStep(freq, index, features[..i], features[i]);
      FirstMatchAppend(index, features[..i], features[i]);
      assert features[..i + 1] == features[..i] + [features[i]];
      if features[i] in index {
        var base := index[features[i]];
        if !isSimilar {
          first := base;
        }
        freq := freq[base := (if base in freq then freq[base] else 0) + 1];
        isSimilar := true;
      }
    }
    assert features[..|features|] == features;
    FirstMatchNone(index, features);
    if !isSimilar {
      return NonSimilar;
    }
    var best := MostFrequent(freq);
    TallyBest(freq, index, features, best);
    b := Similar(if freq[best] == 1 then first else best);
  }

  lemma Nothing(index: map<nat, nat>, features: seq<nat>)
    requires features == []
    ensures Tally(map[], index, features) && FirstMatch(index, features) == NonSimilar
  {
  }

  /** The front of the sorted frequencies. */
  method MostFrequent(freq: map<nat, nat>) returns (best: nat)
    requires freq != map[]
    ensures best in freq && forall fp :: fp in freq ==> freq[fp] <= freq[best]
  {
    var left := freq.Keys;
    best :| best in left;
    while left != {}
      invariant left <= freq.Keys && best in freq
      invariant forall fp :: fp in freq && fp !in left ==> freq[fp] <= freq[best]
      decreases left
    {
      var fp :| fp in left;
      left := left - {fp};
      if freq[fp] > freq[best] {
        best := fp;
      }
    }
  }

  lemma TallyBest(freq: map<nat, nat>, index: map<nat, nat>, features: seq<nat>, best: nat)
    requires Tally(freq, index, features) && FirstMatch(index, features).Similar?
    requires best in freq && forall fp :: fp in freq ==> freq[fp] <= freq[best]
    ensures GoodBase(index, features, Similar(if freq[best] == 1 then FirstMatch(index, features).fp else best))
  {
    var first := FirstMatch(index, features).fp;
    SomeVote(index, features);
    FirstMatchNone(index, features);
    hide Votes, FirstMatch;
    assert Votes(index, features, first) > 0 && Votes(index, features, best) == freq[best];
    assert Votes(index, features, first) <= freq[best];
    VoteFeature(index, features, first);
    VoteFeature(index, features, best);
  }
}

/** xd3_encode_huff and djw_encode_prefix of Baseline/third/xdelta/xdelta3-djw.h. */
module HuffEncode {
  import opened Basics
  import opened BitStream
  import opened Canonical
  import opened Mtf12
  import opened PrefixBuild
  import opened PrefixOptimal
  import opened HuffFormat

  lemma {:induction false} EncSome(s: seq<nat>, list: seq<nat>, run: nat)
    requires Within(s, list) && (s != [] || run > 0)
    ensures Enc(s, list, run) != []
    decreases |s|
  {
    if s != [] && Find(list, s[0]) == 0 {
      EncSome(s[1..], list, run + 1);
    }
  }

  /** The frequencies of codes below |freq| give every code that occurs a word. */
  lemma FrequencyCodes(codes: seq<nat>, freq: seq<nat>, clen: seq<nat>, maxlen: nat)
    requires codes != [] && Counted(codes, freq) && |freq| > 0 && AtMost(codes, |freq| - 1)
    ensures exists i :: 0 <= i < |freq| && freq[i] != 0
    ensures GoodLengths(freq, clen, maxlen) ==> Coded(clen, codes) && Kraft(clen, maxlen)
  {
    forall k | 0 <= k < |codes| ensures codes[k] < |freq| && freq[codes[k]] != 0 {
      assert codes[k] in multiset(codes);
    }
    assert freq[codes[0]] != 0;
  }

  /** The code for move-to-front codes: their frequencies' lengths. */
  lemma MtfCodes(symbols: seq<nat>, list: seq<nat>, codes: seq<nat>, freq: seq<nat>)
    requires symbols != [] && list != [] && Within(symbols, list) && codes == Enc(symbols, list, 0)
    requires |freq| == |list| + 1
    ensures codes != [] && AtMost(codes, |freq| - 1)
  {
    EncSome(symbols, list, 0);
    EncBounds(symbols, list, 0);
    forall k | 0 <= k < |codes| ensures codes[k] <= |freq| - 1 {
      assert codes[k] in codes;
    }
  }

  /** The loop that writes numbers in fields of one width. */
  method EncodeFields(writer: BitWriter, width: nat, s: seq<nat>)
    requires writer.Valid() && width > 0 && forall k :: 0 <= k < |s| ==> s[k] < Pow2(width)
    modifies writer
    ensures writer.Valid() && writer.Written() == old(writer.Written()) + Fields(width, s)
  {
    ghost var before := writer.Written();
    assert before + Fields(width, s[..0]) == before;
    for i := 0 to |s|
      invariant writer.Valid() && writer.Written() == before + Fields(width, s[..i])
    {
      writer.EncodeBits(width, s[i]);
      FieldsStep(width, s, i);
      Assoc(before, Fields(width, s[..i]), Msb(width, s[i]));
    }
    assert s[..|s|] == s;
  }

  lemma FieldsStep(width: nat, s: seq<nat>, i: nat)
    requires i < |s|
    ensures Fields(width, s[..i + 1]) == Fields(width, s[..i]) + Msb(width, s[i])
  {
    assert s[..i + 1][..i] == s[..i];
  }

  /** The loop that writes the words of symbols. */
  method EncodeSymbols(writer: BitWriter, codes: array<nat>, clen: seq<nat>, s: seq<nat>, ghost maxLen: nat)
    requires writer.Valid() && Kraft(clen, maxLen) && Coded(clen, s) && codes.Length >= |clen|
    requires forall i :: 0 <= i < |clen| && clen[i] > 0 ==> codes[i] == Code(clen, i)
    modifies writer
    ensures writer.Valid() && writer.Written() == old(writer.Written()) + Words(clen, s)
  {
    hide Kraft, Code, Msb, Words, Pow2;
    ghost var before := writer.Written();
    WordsNothing(clen, s[..0], before);
    for i := 0 to |s|
      invariant writer.Valid() && writer.Written() == before + Words(clen, s[..i])
    {
      FitsBits(clen, maxLen, s[i]);
      writer.EncodeBits(clen[s[i]], codes[s[i]]);
      WordsStep(clen, s, i);
      Assoc(before, Words(clen, s[..i]), Word(clen, s[i]));
    }
    assert s[..|s|] == s;
  }

  lemma WordsNothing(clen: seq<nat>, s: seq<nat>, before: seq<bool>)
    requires s == []
    ensures before + Words(clen, s) == before
  {
  }

  lemma WordsStep(clen: seq<nat>, s: seq<nat>, i: nat)
    requires i < |s| && Coded(clen, s)
    ensures Words(clen, s[..i + 1]) == Words(clen, s[..i]) + Word(clen, s[i])
  {
    assert s[..i + 1] == s[..i] + [s[i]];
    WordsAppend(clen, s[..i], s[i]);
  }

  lemma FitsBits(clen: seq<nat>, maxLen: nat, i: nat)
    requires Kraft(clen, maxLen) && i < |clen| && clen[i] > 0
    ensures Code(clen, i) < Pow2(clen[i]) && Word(clen, i) == Msb(clen[i], Code(clen, i))
  {
    CodeFits(clen, maxLen, i);
  }

  /** The search for the last length that is written. */
  method TrimLengths(clclen: seq<nat>) returns (n: nat)
    requires |clclen| == 22
    ensures 7 <= n <= 22 && forall i :: n <= i < 22 ==> clclen[i] == 0
  {
    n := 22;
    while n > 7 && clclen[n - 1] == 0
      invariant 7 <= n <= 22 && forall i :: n <= i < 22 ==> clclen[i] == 0
    {
      n := n - 1;
    }
  }

  /** The lengths are best for the counts of the codes of the symbols. */
  ghost predicate WellCoded(clen: seq<nat>, symbols: seq<nat>, list: seq<nat>, maxlen: nat) {
    Within(symbols, list) && exists freq :: CountsWell(freq, clen, Enc(symbols, list, 0), maxlen)
  }

  ghost predicate CountsWell(freq: seq<nat>, clen: seq<nat>, codes: seq<nat>, maxlen: nat) {
    |freq| == |clen| > 0 && Counted(codes, freq) && Best(freq, clen, maxlen)
    && (Light(freq, maxlen) ==> Shortest(freq, clen))
  }

  lemma WellCodedBy(freq: seq<nat>, clen: seq<nat>, symbols: seq<nat>, list: seq<nat>, maxlen: nat)
    requires Within(symbols, list) && Counted(Enc(symbols, list, 0), freq) && |freq| == |clen| > 0
    requires Best(freq, clen, maxlen) && (Light(freq, maxlen) ==> Shortest(freq, clen))
    ensures WellCoded(clen, symbols, list, maxlen)
  {
    hide Enc, Counted, Best, Light, Shortest;
    assert CountsWell(freq, clen, Enc(symbols, list, 0), maxlen);
  }

  /** The part of djw_encode_prefix that computes: move-to-front, and the code for its codes. */
  method CodeSymbols(symbols: seq<nat>, list: seq<nat>, maxlen: nat)
    returns (codes: seq<nat>, clen: seq<nat>, words: array<nat>)
    requires symbols != [] && list != [] && Within(symbols, list) && 2 <= |list| <= 255
    requires maxlen <= 20 && Roomy(|list| + 1, maxlen)
    ensures fresh(words) && words.Length == |list| + 1 == |clen| && codes == Enc(symbols, list, 0)
    ensures Kraft(clen, maxlen) && Coded(clen, codes) && forall i :: 0 <= i < |clen| ==> clen[i] <= maxlen
    ensures forall i :: 0 <= i < |clen| && clen[i] > 0 ==> words[i] == Code(clen, i)
    ensures WellCoded(clen, symbols, list, maxlen)
  {
    hide Enc, Counted, AtMost, Within, Kraft, GoodLengths, Roomy, Code, WellCoded, Best, Light, Shortest;
    var size := |list| + 1;
    var mtf, freq := new nat[|list|](i requires 0 <= i < |list| => list[i]), new nat[size];
    assert mtf[..] == list;
    codes := ComputeMtf12(symbols, mtf, freq);
    ghost var counts := freq[..];
    MtfCodes(symbols, list, codes, counts);
    var lens := new nat[size];
    words := new nat[size];
    FrequencyCodes(codes, counts, lens[..], maxlen);
    var _ := BuildPrefix(freq[..], lens, maxlen);
    clen := lens[..];
    assert lens[..size] == clen;
    FrequencyCodes(codes, counts, clen, maxlen);
    WellCodedBy(counts, clen, symbols, list, maxlen);
    LengthsAtMost(counts, clen, maxlen);
    BuildCodes(words, clen, maxlen);
  }

  /** djw_encode_prefix */
  method EncodePrefix(writer: BitWriter, symbols: seq<nat>) returns (ghost clclen: seq<nat>, ghost n: nat)
    requires writer.Valid() && symbols != [] && AtMost(symbols, 20)
    modifies writer
    ensures writer.Valid() && CodesSymbols(clclen, n, symbols) && WellCoded(clclen, symbols, InitialMtf(), 15)
    ensures writer.Written() == old(writer.Written()) + PrefixBits(clclen, n, symbols)
  {
    hide Enc, AtMost, Within, Kraft, InitialMtf, Words, Fields, Msb, Roomy, Code, WellCoded;
    ghost var before := writer.Written();
    LengthsInMtf(symbols);
    UsesRoomy(22, 15);
    var codes, cl, words := CodeSymbols(symbols, InitialMtf(), 15);
    var num := TrimLengths(cl);
    Pow2Of();
    writer.EncodeBits(4, num - 7);
    EncodeFields(writer, 4, cl[..num]);
    EncodeSymbols(writer, words, cl, codes, 15);
    clclen, n := cl, num;
    Assoc4(before, Msb(4, num - 7), Fields(4, cl[..num]), Words(cl, codes));
  }

  lemma LengthsAtMost(freq: seq<nat>, clen: seq<nat>, maxlen: nat)
    requires GoodLengths(freq, clen, maxlen)
    ensures |clen| == |freq| && forall i :: 0 <= i < |clen| ==> clen[i] <= maxlen
  {
  }

  lemma Pow2Of()
    ensures Pow2(3) == 8 && Pow2(4) == 16 && Pow2(5) == 32
  {
  }

  // ----- the section -----

  /** The section is a list of bytes. */
  predicate IsBytes(data: seq<nat>) {
    AtMost(data, 255)
  }

  /** djw_count_freqs */
  method CountFreqs(data: seq<nat>) returns (freq: seq<nat>)
    requires IsBytes(data)
    ensures |freq| == 256 && Counted(data, freq)
  {
    var counts := new nat[256](_ => 0);
    assert data[..0] == [] && Counted([], counts[..]);
    hide Counted;
    for i := 0 to |data|
      invariant Counted(data[..i], counts[..])
    {
      CountedStep(data[..i], data[i], counts[..]);
      assert data[..i + 1] == data[..i] + [data[i]];
      counts[data[i]] := counts[data[i]] + 1;
    }
    assert data[..|data|] == data;
    freq := counts[..];
  }

  lemma {:induction false} TotalUpdate(freq: seq<nat>, clen: seq<nat>, i: nat)
    requires |freq| == |clen| && i < |freq|
    ensures TotalBits(freq[i := freq[i] + 1], clen) == TotalBits(freq, clen) + clen[i]
  {
    var n, g := |freq| - 1, freq[i := freq[i] + 1];
    if i < n {
      TotalUpdate(freq[..n], clen[..n], i);
      assert g[..n] == freq[..n][i := freq[i] + 1];
    } else {
      assert g[..n] == freq[..n];
      CostMore(clen[n], freq[n]);
    }
  }

  lemma CostMore(length: nat, freq: nat)
    ensures Cost(length, freq + 1) == Cost(length, freq) + length
  {
  }

  lemma {:induction false} TotalZero(freq: seq<nat>, clen: seq<nat>)
    requires |freq| == |clen| && forall i :: 0 <= i < |freq| ==> freq[i] == 0
    ensures TotalBits(freq, clen) == 0
  {
    if freq != [] {
      TotalZero(freq[..|freq| - 1], clen[..|clen| - 1]);
      assert Cost(clen[|clen| - 1], 0) == 0;
    }
  }

  /** The bits that djw_build_prefix counts are those the section's words take: the encoder's last
      assertion, that its count of output bits has come down to 0, holds. */
  lemma {:induction false} BitsExact(data: seq<nat>, freq: seq<nat>, clen: seq<nat>)
    requires Counted(data, freq) && |freq| == |clen| && Coded(clen, data)
    ensures |Words(clen, data)| == TotalBits(freq, clen)
    decreases |data|
  {
    if data == [] {
      TotalZero(freq, clen);
    } else {
      var x := data[0];
      assert data == [x] + data[1..];
      assert multiset(data)[x] == multiset(data[1..])[x] + 1;
      var rest := freq[x := freq[x] - 1];
      assert Counted(data[1..], rest);
      BitsExact(data[1..], rest, clen);
      TotalUpdate(rest, clen, x);
      assert rest[x := rest[x] + 1] == freq;
    }
  }

  lemma DataCoded(data: seq<nat>, freq: seq<nat>, clen: seq<nat>)
    requires data != [] && IsBytes(data) && |freq| == 256 && forall k :: 0 <= k < |data| ==> freq[data[k]] != 0
    ensures exists i :: 0 <= i < |freq| && freq[i] != 0
    ensures GoodLengths(freq, clen, 20) ==> Coded(clen, data) && Kraft(clen, 20) && |clen| == 256 && AtMost(clen, 20)
  {
    assert freq[data[0]] != 0;
  }

  lemma Occurring(data: seq<nat>, freq: seq<nat>)
    requires Counted(data, freq) && IsBytes(data) && |freq| == 256
    ensures forall k :: 0 <= k < |data| ==> freq[data[k]] != 0
  {
    forall k | 0 <= k < |data| ensures freq[data[k]] != 0 {
      assert data[k] in multiset(data);
    }
  }

  datatype Encoded = Section(bytes: seq<Octet>) | NoSecond

  /** The bytes hold the plan's stream of the section, with less than a byte of padding. */
  ghost predicate Holds(bytes: seq<Octet>, p: Plan, data: seq<nat>) {
    GoodPlan(p, data) && exists pad: nat :: pad < 8 && BytesBits(bytes) == PlanBits(p, data) + Padding(pad)
  }

  /** Which symbols have a word: all, or those that occur; the latter when the frequencies are light. */
  ghost predicate ZerosOk(freq: seq<nat>, clen: seq<nat>) {
    (Full(clen) || Exact(freq, clen)) && (Light(freq, 20) ==> Exact(freq, clen))
  }

  /** As short a code as the limit of 20 bits allows. */
  ghost predicate Short(freq: seq<nat>, clen: seq<nat>) {
    freq != [] && Best(freq, clen, 20) && (Light(freq, 20) ==> Shortest(freq, clen))
  }

  /** No prefix code for the bytes that occur takes fewer bits for the data. */
  ghost predicate FewestBits(clen: seq<nat>, data: seq<nat>) {
    && Coded(clen, data)
    && forall other, l: nat :: CodesData(other, l, data) ==> |Words(clen, data)| <= |Words(other, data)|
  }

  predicate CodesData(clen: seq<nat>, l: nat, data: seq<nat>) {
    |clen| == 256 && Kraft(clen, l) && Coded(clen, data)
  }

  lemma ShortestFewest(data: seq<nat>, freq: seq<nat>, clen: seq<nat>)
    requires Counted(data, freq) && |freq| == 256 && IsBytes(data) && Coded(clen, data) && Shortest(freq, clen)
    ensures FewestBits(clen, data)
  {
    BitsExact(data, freq, clen);
    forall other, l: nat | CodesData(other, l, data) ensures |Words(clen, data)| <= |Words(other, data)| {
      BitsExact(data, freq, other);
      forall i | 0 <= i < 256 && freq[i] != 0 ensures other[i] > 0 {
        assert i in multiset(data) && i in data;
      }
      assert CodeFor(freq, other, l);
    }
  }

  lemma {:induction false} CountsSum(data: seq<nat>, freq: seq<nat>)
    requires Counted(data, freq) && |freq| == 256 && IsBytes(data)
    ensures Weight(freq) == |data|
    decreases |data|
  {
    if data == [] {
      WeightNothing(freq);
    } else {
      var x := data[0];
      assert data == [x] + data[1..];
      assert multiset(data)[x] == multiset(data[1..])[x] + 1;
      var rest := freq[x := freq[x] - 1];
      assert Counted(data[1..], rest);
      CountsSum(data[1..], rest);
      WeightUpdate(freq, x, freq[x] - 1);
    }
  }

  lemma {:induction false} WeightNothing(freq: seq<nat>)
    requires forall i :: 0 <= i < |freq| ==> freq[i] == 0
    ensures Weight(freq) == 0
  {
    if freq != [] {
      WeightNothing(freq[..|freq| - 1]);
    }
  }

  /** The code of one group for the section. */
  method GroupCode(freq: seq<nat>, ghost data: seq<nat>) returns (clen: seq<nat>, totalBits: nat)
    requires data != [] && IsBytes(data) && |freq| == 256 && forall k :: 0 <= k < |data| ==> freq[data[k]] != 0
    ensures Coded(clen, data) && Kraft(clen, 20) && |clen| == 256 && AtMost(clen, 20)
    ensures totalBits == TotalBits(freq, clen) && ZerosOk(freq, clen) && Short(freq, clen)
  {
    hide Coded, Kraft, GoodLengths, TotalBits, Roomy, IsBytes, AtMost, Full, Exact, Light, Best, Shortest;
    var lens := new nat[256];
    UsesRoomy(256, 20);
    DataCoded(data, freq, lens[..]);
    totalBits := BuildPrefix(freq, lens, 20);
    clen := lens[..];
    assert lens[..256] == clen;
    DataCoded(data, freq, clen);
  }

  lemma Fewest(data: seq<nat>, freq: seq<nat>, clen: seq<nat>)
    requires Counted(data, freq) && |freq| == 256 && IsBytes(data) && Coded(clen, data) && Short(freq, clen)
    ensures |data| < 28656 ==> FewestBits(clen, data)
  {
    hide Best, Shortest;
    if |data| < 28656 {
      CountsSum(data, freq);
      FewAreLight(freq);
      ShortestFewest(data, freq, clen);
    }
  }

  method GroupWords(clen: seq<nat>) returns (codes: array<nat>)
    requires |clen| == 256 && AtMost(clen, 20)
    ensures fresh(codes) && codes.Length == 256
    ensures forall i :: 0 <= i < 256 && clen[i] > 0 ==> codes[i] == Code(clen, i)
  {
    codes := new nat[256];
    BuildCodes(codes, clen, 20);
  }

  /** xd3_encode_huff with one group. `next` stands for the output page's fill, which only the second
      test of efficiency looks at. */
  method EncodeOne(data: seq<nat>, inefficient: bool, next: nat) returns (r: Encoded, clen: seq<nat>, ghost p: Plan)
    requires data != [] && IsBytes(data)
    ensures Coded(clen, data) && (|data| < 28656 ==> FewestBits(clen, data))
    ensures r.NoSecond? <==> !inefficient && |Words(clen, data)| + 8 * next + 16 >= 8 * |data|
    ensures r.Section? ==> p.clens == [clen] && Holds(r.bytes, p, data)
  {
    hide AtMost, Kraft, Coded, TotalBits, Counted, IsBytes, Words, PrefixBits, CodesSymbols, Code, Msb;
    hide FewestBits, Short, ZerosOk, WellCoded;
    var freq := CountFreqs(data);
    Occurring(data, freq);
    var outputBits;
    clen, outputBits := GroupCode(freq, data);
    p := Plan([clen], 0, [], [], 0, []);
    BitsExact(data, freq, clen);
    Fewest(data, freq, clen);
    if outputBits + 16 >= 8 * |data| && !inefficient {
      return NoSecond, clen, p;
    }
    var codes := GroupWords(clen);
    var writer := new BitWriter();
    Pow2Of();
    writer.EncodeBits(3, 0);
    ghost var clclen, n := EncodePrefix(writer, clen);
    if outputBits + 8 * next + 16 >= 8 * |data| && !inefficient {
      return NoSecond, clen, p;
    }
    EncodeSymbols(writer, codes, clen, data, 20);
    ghost var bits := writer.Written();
    writer.FlushBits();
    r := Section(writer.output);
    p := Plan([clen], |data|, [0], clclen, n, []);
    OnePlan(p, clen, data);
    Assoc4([], Msb(3, 0), PrefixBits(clclen, n, clen), Words(clen, data));
  }

  lemma OnePlan(p: Plan, clen: seq<nat>, data: seq<nat>)
    requires data != [] && |clen| == 256 && Kraft(clen, 20) && Coded(clen, data)
    requires CodesSymbols(p.clclen, p.n, clen) && p.clens == [clen] && p.ss == |data| && p.gbest == [0]
    ensures MultiSymbols(p.clens) == clen && GoodPlan(p, data)
    ensures PlanBits(p, data) == Msb(3, 0) + PrefixBits(p.clclen, p.n, clen) + Words(clen, data)
  {
    hide Kraft, CodesSymbols, Words, PrefixBits, Msb, MultiSymbols, CodesSectors, SectorBits, Coded, PlanBits;
    MultiOne(clen);
    OneSector(clen, data);
    assert GoodPlan(p, data);
    PlanBitsOne(p, data);
    assert Words(clen, data) + [] == Words(clen, data);
  }

  lemma PlanBitsOne(p: Plan, data: seq<nat>)
    requires GoodPlan(p, data) && |p.clens| == 1
    ensures PlanBits(p, data) == Msb(3, 0) + PrefixBits(p.clclen, p.n, MultiSymbols(p.clens))
                                 + SectorBits(p.clens, p.gbest, p.ss, data)
  {
    hide GoodPlan, CodesSymbols, PrefixBits, Msb, MultiSymbols, CodesSectors, SectorBits;
  }

  lemma MultiOne(clen: seq<nat>)
    ensures MultiSymbols([clen]) == clen
  {
    assert [clen][1..] == [] && NonZero([]) == [] && Flat([]) == [] && clen + [] == clen;
  }

  lemma OneSector(clen: seq<nat>, data: seq<nat>)
    requires data != [] && Coded(clen, data)
    ensures CodesSectors([clen], [0], |data|, data) && SectorBits([clen], [0], |data|, data) == Words(clen, data) + []
  {
    hide Words, Coded;
    assert data[..|data|] == data && data[|data|..] == [] && [0][1..] == [];
  }

  // ----- several groups -----

  /** The loop over the sectors' bytes. */
  method EncodeSectors(writer: BitWriter, codes: seq<array<nat>>, clens: seq<seq<nat>>, gbest: seq<nat>, ss: nat,
      data: seq<nat>)
    requires writer.Valid() && ss > 0 && |codes| == |clens| && CodesSectors(clens, gbest, ss, data)
    requires forall g :: 0 <= g < |clens| ==> Kraft(clens[g], 20) && HasWords(codes[g], clens[g])
    modifies writer
    ensures writer.Valid() && writer.Written() == old(writer.Written()) + SectorBits(clens, gbest, ss, data)
  {
    hide Kraft, Words, SectorBits, CodesSectors, HasWords, Coded;
    ghost var goal := writer.Written() + SectorBits(clens, gbest, ss, data);
    var sector, p := 0, 0;
    assert gbest[0..] == gbest && data[0..] == data;
    while p < |data|
      invariant p <= |data| && sector <= |gbest| && writer.Valid()
      invariant CodesSectors(clens, gbest[sector..], ss, data[p..])
      invariant writer.Written() + SectorBits(clens, gbest[sector..], ss, data[p..]) == goal
    {
      ghost var before := writer.Written();
      NextSector(clens, gbest[sector..], ss, data[p..]);
      var gp := gbest[sector];
      sector := sector + 1;
      var n := if ss < |data| - p then ss else |data| - p;
      assert data[p..][..n] == data[p..p + n] && data[p..][n..] == data[p + n..];
      assert gbest[sector - 1..][1..] == gbest[sector..];
      WordsOf(codes[gp], clens[gp]);
      EncodeSymbols(writer, codes[gp], clens[gp], data[p..p + n], 20);
      Assoc(before, Words(clens[gp], data[p..p + n]), SectorBits(clens, gbest[sector..], ss, data[p + n..]));
      p := p + n;
    }
    assert data[p..] == [];
    NoSector(clens, gbest[sector..], ss, writer.Written());
  }

  ghost predicate HasWords(codes: array<nat>, clen: seq<nat>)
    reads codes
  {
    codes.Length >= |clen| && forall i :: 0 <= i < |clen| && clen[i] > 0 ==> codes[i] == Code(clen, i)
  }

  lemma WordsOf(codes: array<nat>, clen: seq<nat>)
    requires HasWords(codes, clen)
    ensures codes.Length >= |clen| && forall i :: 0 <= i < |clen| && clen[i] > 0 ==> codes[i] == Code(clen, i)
  {
  }

  lemma NextSector(clens: seq<seq<nat>>, gbest: seq<nat>, ss: nat, data: seq<nat>)
    requires CodesSectors(clens, gbest, ss, data) && data != [] && ss > 0
    ensures var n := if ss < |data| then ss else |data|;
            gbest != [] && gbest[0] < |clens| && Coded(clens[gbest[0]], data[..n])
            && CodesSectors(clens, gbest[1..], ss, data[n..])
            && SectorBits(clens, gbest, ss, data)
               == Words(clens[gbest[0]], data[..n]) + SectorBits(clens, gbest[1..], ss, data[n..])
  {
  }

  lemma NoSector(clens: seq<seq<nat>>, gbest: seq<nat>, ss: nat, before: seq<bool>)
    requires CodesSectors(clens, gbest, ss, [])
    ensures before + SectorBits(clens, gbest, ss, []) == before
  {
  }

  /** The selector part: djw_compute_selector_1_2, the lengths of its code, and its words. */
  method EncodeSelector(writer: BitWriter, groups: nat, gbest: seq<nat>) returns (ghost selclen: seq<nat>)
    requires writer.Valid() && 2 <= groups <= 8 && gbest != [] && AllBelow(gbest, groups)
    modifies writer
    ensures writer.Valid() && CodesGroups(selclen, groups, gbest) && WellCoded(selclen, gbest, Identity(groups), 7)
    ensures writer.Written() == old(writer.Written()) + SelectorBits(selclen, groups, gbest)
  {
    hide Enc, Within, Kraft, Words, Fields, Msb, Roomy, Code, AllBelow, WellCoded;
    ghost var before := writer.Written();
    GroupsInMtf(gbest, groups);
    UsesRoomy(groups + 1, 7);
    var codes, clen, words := CodeSymbols(gbest, Identity(groups), 7);
    Pow2Of();
    EncodeFields(writer, 3, clen);
    EncodeSymbols(writer, words, clen, codes, 7);
    selclen := clen;
    Assoc(before, Fields(3, clen), Words(clen, codes));
  }

  lemma GroupsInMtf(gbest: seq<nat>, groups: nat)
    requires AllBelow(gbest, groups)
    ensures Within(gbest, Identity(groups))
  {
    forall k | 0 <= k < |gbest| ensures gbest[k] in Identity(groups) {
      assert Identity(groups)[gbest[k]] == gbest[k];
    }
  }

  /** The code lengths and the codes of each group. */
  method GroupCodes(data: seq<nat>, freqs: seq<seq<nat>>) returns (clens: seq<seq<nat>>, codes: seq<array<nat>>)
    requires data != [] && IsBytes(data) && forall g :: 0 <= g < |freqs| ==> Covers(freqs[g], data)
    ensures |clens| == |freqs| == |codes|
    ensures forall g :: 0 <= g < |clens| ==> GroupTable(clens[g], data) && HasWords(codes[g], clens[g])
    ensures forall g :: 0 <= g < |clens| ==> ZerosOk(freqs[g], clens[g]) && Short(freqs[g], clens[g])
  {
    hide AtMost, Kraft, IsBytes, Code, Coded, HasWords, TotalBits, GroupTable, ZerosOk, Short;
    clens, codes := [], [];
    for i := 0 to |freqs|
      invariant |clens| == i == |codes|
      invariant forall g :: 0 <= g < i ==> ZerosOk(freqs[g], clens[g]) && Short(freqs[g], clens[g])
      invariant forall g :: 0 <= g < i ==> GroupTable(clens[g], data) && HasWords(codes[g], clens[g])
    {
      assert Covers(freqs[i], data);
      var clen, _ := GroupCode(freqs[i], data);
      TableOf(clen, data);
      var words := GroupWords(clen);
      assert HasWords(words, clen) by {
        HasWordsOf(words, clen);
      }
      clens, codes := clens + [clen], codes + [words];
    }
  }

  predicate GroupTable(clen: seq<nat>, data: seq<nat>) {
    Coded(clen, data) && Kraft(clen, 20) && |clen| == 256 && AtMost(clen, 20)
  }

  lemma TableParts(clen: seq<nat>, data: seq<nat>)
    requires GroupTable(clen, data)
    ensures Coded(clen, data) && Kraft(clen, 20) && |clen| == 256 && AtMost(clen, 20)
  {
  }

  lemma TableOf(clen: seq<nat>, data: seq<nat>)
    requires Coded(clen, data) && Kraft(clen, 20) && |clen| == 256 && AtMost(clen, 20)
    ensures GroupTable(clen, data)
  {
  }

  lemma HasWordsOf(codes: array<nat>, clen: seq<nat>)
    requires codes.Length >= |clen| && forall i :: 0 <= i < |clen| && clen[i] > 0 ==> codes[i] == Code(clen, i)
    ensures HasWords(codes, clen)
  {
  }

  /** djw_compute_multi_prefix */
  method MultiPrefix(clens: seq<seq<nat>>) returns (symbols: seq<nat>)
    requires clens != [] && forall g :: 0 <= g < |clens| ==> |clens[g]| == 256 && AtMost(clens[g], 20)
    ensures symbols == MultiSymbols(clens) && AtMost(symbols, 20) && symbols != []
  {
    hide NonZero, Flat;
    symbols := clens[0];
    var gp := 1;
    assert clens[0] + NonZero(Flat(clens[1..])) == MultiSymbols(clens);
    while gp < |clens|
      invariant 1 <= gp <= |clens| && AtMost(symbols, 20) && symbols != []
      invariant symbols + NonZero(Flat(clens[gp..])) == MultiSymbols(clens)
    {
      ghost var before := symbols;
      FlatStep(clens, gp);
      assert clens[gp][..0] == [];
      NonZeroNone(clens[gp][..0]);
      for i := 0 to 256
        invariant symbols == before + NonZero(clens[gp][..i]) && AtMost(symbols, 20) && symbols != []
      {
        NonZeroAppend(clens[gp], i);
        if clens[gp][i] != 0 {
          symbols := symbols + [clens[gp][i]];
        }
      }
      assert clens[gp][..256] == clens[gp];
      Assoc(before, NonZero(clens[gp]), NonZero(Flat(clens[gp + 1..])));
      gp := gp + 1;
    }
    FlatNone(clens[gp..], symbols);
  }

  lemma FlatNone(clens: seq<seq<nat>>, symbols: seq<nat>)
    requires clens == []
    ensures symbols + NonZero(Flat(clens)) == symbols
  {
  }

  lemma FlatStep(clens: seq<seq<nat>>, gp: nat)
    requires gp < |clens|
    ensures NonZero(Flat(clens[gp..])) == NonZero(clens[gp]) + NonZero(Flat(clens[gp + 1..]))
  {
    assert clens[gp..][0] == clens[gp] && clens[gp..][1..] == clens[gp + 1..];
    NonZeroConcat(clens[gp], Flat(clens[gp + 1..]));
  }

  lemma {:induction false} NonZeroConcat(s: seq<nat>, t: seq<nat>)
    ensures NonZero(s + t) == NonZero(s) + NonZero(t)
  {
    if s == [] {
      assert s + t == t;
    } else {
      assert (s + t)[1..] == s[1..] + t;
      NonZeroConcat(s[1..], t);
    }
  }

  lemma NonZeroAppend(s: seq<nat>, i: nat)
    requires i < |s|
    ensures NonZero(s[..i + 1]) == NonZero(s[..i]) + if s[i] == 0 then [] else [s[i]]
  {
    assert s[..i + 1] == s[..i] + [s[i]] && [s[i]][1..] == [];
    NonZeroConcat(s[..i], [s[i]]);
  }

  lemma MultiPlan(p: Plan, data: seq<nat>)
    requires data != [] && 2 <= |p.clens| <= 8 && 5 <= p.ss <= 160 && p.ss % 5 == 0
    requires forall g :: 0 <= g < |p.clens| ==> GroupTable(p.clens[g], data)
    requires CodesSymbols(p.clclen, p.n, MultiSymbols(p.clens)) && CodesGroups(p.selclen, |p.clens|, p.gbest)
    requires CodesSectors(p.clens, p.gbest, p.ss, data)
    ensures GoodPlan(p, data)
    ensures PlanBits(p, data) == Msb(3, |p.clens| - 1) + Msb(5, p.ss / 5 - 1)
              + PrefixBits(p.clclen, p.n, MultiSymbols(p.clens)) + SelectorBits(p.selclen, |p.clens|, p.gbest)
              + SectorBits(p.clens, p.gbest, p.ss, data)
  {
    hide CodesSymbols, CodesGroups, CodesSectors, PrefixBits, SelectorBits, SectorBits, Msb, MultiSymbols;
  }

  /** xd3_encode_huff with several groups, from the end of its search on: the search has settled on
      frequencies for each group, in which no byte of the section has a zero, and on a group for each
      sector. The tests of efficiency, which give the section up, are left out. */
  method EncodeMulti(data: seq<nat>, ss: nat, freqs: seq<seq<nat>>, gbest: seq<nat>)
    returns (bytes: seq<Octet>, clens: seq<seq<nat>>, ghost p: Plan)
    requires data != [] && IsBytes(data) && 2 <= |freqs| <= 8 && 5 <= ss <= 160 && ss % 5 == 0
    requires forall g :: 0 <= g < |freqs| ==> Covers(freqs[g], data)
    requires |gbest| == SectorCount(|data|, ss) && AllBelow(gbest, |freqs|)
    ensures p.clens == clens && |clens| == |freqs| && Holds(bytes, p, data)
    ensures forall g :: 0 <= g < |clens| ==> |clens[g]| == 256 && ZerosOk(freqs[g], clens[g])
    ensures forall g :: 0 <= g < |clens| ==> Short(freqs[g], clens[g])
  {
    hide AtMost, Kraft, IsBytes, Words, PrefixBits, CodesSymbols, Code, Msb, SelectorBits, CodesGroups, SectorBits;
    hide HasWords, Coded, AllBelow, CodesSectors, MultiSymbols, GoodPlan, GroupTable, PlanBits;
    hide Pow2, Fields, ZerosOk, Short, WellCoded, Best, Light, Shortest;
    var groups := |freqs|;
    var writer := new BitWriter();
    EncodeSizes(writer, groups, ss);
    var codes;
    clens, codes := GroupCodes(data, freqs);
    forall g | 0 <= g < groups ensures |clens[g]| == 256 && AtMost(clens[g], 20) {
      TableParts(clens[g], data);
    }
    var symbols := MultiPrefix(clens);
    ghost var clclen, n := EncodePrefix(writer, symbols);
    ghost var selclen := EncodeSelector(writer, groups, gbest);
    forall g | 0 <= g < groups ensures Coded(clens[g], data) && Kraft(clens[g], 20) {
      TableParts(clens[g], data);
    }
    AnyGroups(clens, gbest, ss, data);
    EncodeSectors(writer, codes, clens, gbest, ss, data);
    p := Plan(clens, ss, gbest, clclen, n, selclen);
    MultiPlan(p, data);
    writer.FlushBits();
    bytes := writer.output;
  }

  method EncodeSizes(writer: BitWriter, groups: nat, ss: nat)
    requires writer.Valid() && writer.Written() == [] && 2 <= groups <= 8 && 5 <= ss <= 160
    modifies writer
    ensures writer.Valid() && writer.Written() == Msb(3, groups - 1) + Msb(5, ss / 5 - 1)
  {
    Pow2Of();
    writer.EncodeBits(3, groups - 1);
    assert writer.Written() == Msb(3, groups - 1);
    writer.EncodeBits(5, ss / 5 - 1);
  }

  predicate Covers(freq: seq<nat>, data: seq<nat>) {
    |freq| == 256 && forall k :: 0 <= k < |data| ==> data[k] < 256 && freq[data[k]] != 0
  }

  // ----- groups whose tables differ -----

  /** Twenty-two symbols, each once. */
  function EvenFreq(): seq<nat> {
    seq(256, i => if i < 22 then 1 else 0)
  }

  /** The same symbols, each twice as often as the one before. */
  function SteepFreq(): seq<nat> {
    seq(256, i requires 0 <= i < 256 => if i < 22 then Pow2(i) else 0)
  }

  /** Two groups in which the same symbols occur, but rescaling gives all symbols a word in one of
      them: the lengths that are sent are not those the decoder expects. */
  method UnequalZeros() returns (even: seq<nat>, steep: seq<nat>)
    ensures forall i :: 0 <= i < 256 ==> (EvenFreq()[i] == 0 <==> SteepFreq()[i] == 0)
    ensures GoodLengths(EvenFreq(), even, 20) && GoodLengths(SteepFreq(), steep, 20)
    ensures |even| == |steep| == 256 && even[255] == 0 && steep[255] != 0
    ensures !SameZeros(even + steep, 256) && Sent(even + steep, 256, 0) != even + NonZero(steep)
  {
    hide Roomy, GoodLengths, EvenFreq, SteepFreq, Sent, NonZero, SameZeros, Steep, Exact, Lone;
    GroupFreqs();
    UsesRoomy(256, 20);
    var lens := new nat[256];
    var _ := BuildPrefix(EvenFreq(), lens, 20);
    even := lens[..256];
    var _ := BuildPrefix(SteepFreq(), lens, 20);
    steep := lens[..256];
    LastDiffers(even, steep);
    MultiMatches(even, steep);
  }

  lemma GroupFreqs()
    ensures var a, b := EvenFreq(), SteepFreq();
            && |a| == |b| == 256 && (forall i :: 0 <= i < 256 ==> (a[i] == 0 <==> b[i] == 0))
            && (exists i :: 0 <= i < 256 && a[i] != 0) && (exists i :: 0 <= i < 256 && b[i] != 0)
            && MaxOf(a) <= 2 && Steep(b, 20)
  {
    var a, b := EvenFreq(), SteepFreq();
    assert b[0] == Pow2(0) && a[0] == 1;
    MaxIs(a, 2);
    assert Doubling(b, 22);
  }

  lemma LastDiffers(even: seq<nat>, steep: seq<nat>)
    requires Exact(EvenFreq(), even) && Full(steep) && |steep| == 256
    ensures |even| == 256 && even[255] == 0 && steep[255] != 0 && !SameZeros(even + steep, 256)
  {
    EvenNotLone();
    assert even[255] == 0 && steep[255] != 0;
    var v := even + steep;
    assert v[511] == steep[255] && v[511 - 256] == even[255];
  }

  lemma EvenNotLone()
    ensures !Lone(EvenFreq())
  {
    var a := EvenFreq();
    forall i ensures !LoneAt(a, i) {
      assert a[0] == 1 && a[1] == 1;
    }
  }
}

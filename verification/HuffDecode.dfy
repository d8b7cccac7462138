/** xd3_decode_huff, djw_decode_clclen and djw_decode_prefix of Baseline/third/xdelta/xdelta3-djw.h,
    and that they undo xd3_encode_huff. */
module HuffDecode {
  import opened Basics
  import opened BitStream
  import opened Canonical
  import opened Mtf12
  import opened HuffFormat
  import HuffEncode

  lemma FieldRead(width: nat, x: nat, tail: seq<bool>)
    requires x < Pow2(width)
    ensures |Msb(width, x) + tail| >= width && Value((Msb(width, x) + tail)[..width]) == x
    ensures (Msb(width, x) + tail)[width..] == tail
  {
    ValueMsb(width, x);
    assert (Msb(width, x) + tail)[..width] == Msb(width, x);
  }

  predicate Fit(width: nat, s: seq<nat>) {
    forall k :: 0 <= k < |s| ==> s[k] < Pow2(width)
  }

  lemma {:induction false} FieldsCons(width: nat, x: nat, s: seq<nat>)
    ensures Fields(width, [x] + s) == Msb(width, x) + Fields(width, s)
  {
    hide Msb, Pow2;
    if s == [] {
      assert [x] + s == [x] && [x][..0] == [];
      assert [] + Msb(width, x) == Msb(width, x) + [];
    } else {
      assert ([x] + s)[..|s|] == [x] + s[..|s| - 1];
      FieldsCons(width, x, s[..|s| - 1]);
      Assoc(Msb(width, x), Fields(width, s[..|s| - 1]), Msb(width, s[|s| - 1]));
    }
  }

  /** The loop that reads numbers in fields of one width. */
  method DecodeFields(reader: BitReader, width: nat, count: nat, ghost s: seq<nat>, ghost tail: seq<bool>)
    returns (ok: bool, values: seq<nat>)
    requires reader.Valid() && width > 0
    modifies reader
    ensures reader.Valid() && (ok ==> |values| == count && Fit(width, values))
    ensures |s| == count && Fit(width, s) && old(reader.Rest()) == Fields(width, s) + tail
            ==> ok && values == s && reader.Rest() == tail
  {
    hide Fields, Fit, Msb, Value, BytesBits, BitsOf, Pow2;
    ghost var good := |s| == count && Fit(width, s) && reader.Rest() == Fields(width, s) + tail;
    values := [];
    FitNothing(width);
    assert s[0..] == s;
    while |values| < count
      invariant reader.Valid() && |values| <= count && Fit(width, values)
      invariant good ==> |s| == count && Fit(width, s)
      invariant good ==> values == s[..|values|] && reader.Rest() == Fields(width, s[|values|..]) + tail
      decreases count - |values|
    {
      ghost var n := |values|;
      if good {
        NextField(width, s, n, tail);
      }
      ghost var before := reader.Rest();
      var value;
      ok, value := reader.DecodeBits(width);
      if !ok {
        return;
      }
      FitMore(width, values, value, before);
      values := values + [value];
      if good {
        assert s[..n + 1] == s[..n] + [s[n]];
      }
    }
    ok := true;
    if good {
      NoFields(width, s[|values|..], tail);
      assert s[..|values|] == s;
    }
  }

  lemma FitNothing(width: nat)
    ensures Fit(width, [])
  {
  }

  lemma FitMore(width: nat, values: seq<nat>, value: nat, bits: seq<bool>)
    requires Fit(width, values) && width <= |bits| && value == Value(bits[..width])
    ensures Fit(width, values + [value])
  {
    MsbValue(bits[..width]);
  }

  lemma NoFields(width: nat, s: seq<nat>, tail: seq<bool>)
    requires s == []
    ensures Fields(width, s) + tail == tail
  {
  }

  lemma NextField(width: nat, s: seq<nat>, n: nat, tail: seq<bool>)
    requires n < |s| && Fit(width, s)
    ensures var rest := Fields(width, s[n..]) + tail;
            |rest| >= width && Value(rest[..width]) == s[n] && rest[width..] == Fields(width, s[n + 1..]) + tail
  {
    assert s[n..] == [s[n]] + s[n + 1..];
    FieldsCons(width, s[n], s[n + 1..]);
    Assoc(Msb(width, s[n]), Fields(width, s[n + 1..]), tail);
    FieldRead(width, s[n], Fields(width, s[n + 1..]) + tail);
  }

  /** A decoder's tables, as djw_build_decoder fills them. */
  datatype Table = Table(inorder: seq<int>, base: seq<int>, limit: seq<int>, minlen: nat, maxlen: nat)

  predicate Decodes(t: Table, clen: seq<nat>) {
    IsDecoder(clen, t.inorder, t.base, t.limit, t.minlen, t.maxlen)
  }

  method MakeTable(clen: seq<nat>, absMax: nat) returns (t: Table)
    requires absMax <= 20 && AtMost(clen, absMax)
    ensures Decodes(t, clen)
  {
    var inorder, base, limit := new int[|clen|], new int[absMax + 2], new int[absMax + 2];
    var minlen, maxlen := BuildDecoder(absMax, clen, inorder, base, limit);
    t := Table(inorder[..], base[..], limit[..], minlen, maxlen);
  }

  /** djw_decode_clclen: the lengths of the code for the code lengths. */
  method DecodeClclen(reader: BitReader, ghost clclen: seq<nat>, ghost n: nat, ghost tail: seq<bool>)
    returns (ok: bool, t: Table, ghost cl: seq<nat>)
    requires reader.Valid()
    modifies reader
    ensures reader.Valid() && (ok ==> |cl| == 22 && Decodes(t, cl))
    ensures |clclen| == 22 && 7 <= n <= 22 && (forall i :: n <= i < 22 ==> clclen[i] == 0) && Fit(4, clclen)
            && old(reader.Rest()) == Msb(4, n - 7) + (Fields(4, clclen[..n]) + tail)
            ==> ok && cl == clclen && reader.Rest() == tail
  {
    hide Fields, Msb, Value, BytesBits, BitsOf, IsDecoder, Decodes;
    ghost var good := |clclen| == 22 && 7 <= n <= 22 && (forall i :: n <= i < 22 ==> clclen[i] == 0) && Fit(4, clclen)
                      && reader.Rest() == Msb(4, n - 7) + (Fields(4, clclen[..n]) + tail);
    HuffEncode.Pow2Of();
    if good {
      FieldRead(4, n - 7, Fields(4, clclen[..n]) + tail);
    }
    t := Table([], [], [], 0, 0);
    cl := [];
    ghost var before := reader.Rest();
    var extra;
    ok, extra := reader.DecodeBits(4);
    if !ok {
      return;
    }
    ValueFits(before[..4]);
    var numCodes := extra + 7;
    var clen;
    ok, clen := DecodeFields(reader, 4, numCodes, clclen[..if |clclen| < n then |clclen| else n], tail);
    if !ok {
      return;
    }
    while |clen| < 22
      invariant numCodes <= |clen| <= 22 && Fit(4, clen)
      invariant good ==> clen == clclen[..|clen|]
    {
      clen := clen + [0];
    }
    cl := clen;
    assert AtMost(cl, 15);
    t := MakeTable(clen, 15);
  }

  lemma ValueFits(bits: seq<bool>)
    ensures Value(bits) < Pow2(|bits|)
  {
    MsbValue(bits);
  }

  /** The groups and the bytes in a sector. */
  method DecodeSizes(reader: BitReader, outputBytes: nat, ghost groups0: nat, ghost ss0: nat, ghost tail: seq<bool>)
    returns (ok: bool, groups: nat, ss: nat)
    requires reader.Valid() && outputBytes > 0
    modifies reader
    ensures reader.Valid() && (ok ==> 1 <= groups <= 8 && ss > 0 && (groups == 1 ==> ss == outputBytes))
    ensures 1 <= groups0 <= 8 && (if groups0 == 1 then ss0 == outputBytes else 5 <= ss0 <= 160 && ss0 % 5 == 0)
            && old(reader.Rest()) == Msb(3, groups0 - 1) + ((if groups0 == 1 then [] else Msb(5, ss0 / 5 - 1)) + tail)
            ==> ok && groups == groups0 && ss == ss0 && reader.Rest() == tail
  {
    hide Msb, Value, BytesBits, BitsOf;
    ghost var rest := (if groups0 == 1 || ss0 < 5 then [] else Msb(5, ss0 / 5 - 1)) + tail;
    ghost var good := 1 <= groups0 <= 8 &&
        (if groups0 == 1 then ss0 == outputBytes else 5 <= ss0 <= 160 && ss0 % 5 == 0)
                      && reader.Rest() == Msb(3, groups0 - 1) + rest;
    HuffEncode.Pow2Of();
    if good {
      FieldRead(3, groups0 - 1, rest);
    }
    ss, groups := outputBytes, 0;
    ghost var before := reader.Rest();
    ok, groups := reader.DecodeBits(3);
    if !ok {
      return;
    }
    ValueFits(before[..3]);
    groups := groups + 1;
    if groups > 1 {
      if good {
        FieldRead(5, ss0 / 5 - 1, tail);
      }
      ok, ss := reader.DecodeBits(5);
      if !ok {
        return;
      }
      ss := (ss + 1) * 5;
    } else {
      ss := outputBytes;
      if good {
        assert reader.Rest() == [] + tail == tail;
      }
    }
  }

  lemma {:induction false} FlatLength(clens: seq<seq<nat>>)
    requires forall g :: 0 <= g < |clens| ==> |clens[g]| == 256
    ensures |Flat(clens)| == 256 * |clens|
    ensures forall g :: 0 <= g < |clens| ==>
              256 * g + 256 <= |Flat(clens)| && Flat(clens)[256 * g..256 * g + 256] == clens[g]
  {
    if clens != [] {
      var rest := Flat(clens[1..]);
      FlatLength(clens[1..]);
      forall g | 0 <= g < |clens| ensures 256 * g + 256 <= |Flat(clens)| &&
          Flat(clens)[256 * g..256 * g + 256] == clens[g] {
        if g == 0 {
          assert Flat(clens)[0..256] == clens[0];
        } else {
          assert clens[1..][g - 1] == clens[g];
          assert rest[256 * (g - 1)..256 * (g - 1) + 256] == clens[g];
          assert Flat(clens)[256 * g..256 * g + 256] == rest[256 * (g - 1)..256 * (g - 1) + 256];
        }
      }
    }
  }

  lemma {:induction false} FlatAtMost(clens: seq<seq<nat>>)
    requires forall g :: 0 <= g < |clens| ==> AtMost(clens[g], 20)
    ensures AtMost(Flat(clens), 20)
  {
    if clens != [] {
      FlatAtMost(clens[1..]);
    }
  }

  /** The parts of a plan's prefix, as the decoder meets them. */
  lemma PrefixAhead(clens: seq<seq<nat>>, clclen: seq<nat>, n: nat, tail: seq<bool>) returns (tail1: seq<bool>)
    requires Tables(clens) && SameZeros(Flat(clens), 256) && CodesSymbols(clclen, n, MultiSymbols(clens))
    ensures PrefixBits(clclen, n, MultiSymbols(clens)) + tail == Msb(4, n - 7) + (Fields(4, clclen[..n]) + tail1)
    ensures Fit(4, clclen) && |Flat(clens)| == 256 * |clens|
    ensures Ahead(clclen, 15, InitialMtf(), Flat(clens), 256, tail1, tail)
  {
    var symbols := MultiSymbols(clens);
    HuffEncode.Pow2Of();
    FlatLength(clens);
    FlatAtMost(clens);
    LengthsInMtf(Flat(clens));
    MultiMatches(clens[0], Flat(clens[1..]));
    hide Words, Enc, Fields, Msb, InitialMtf, Sent, NonZero, SameZeros, Within;
    var words := Words(clclen, Enc(symbols, InitialMtf(), 0));
    tail1 := words + tail;
    Regroup(Msb(4, n - 7), Fields(4, clclen[..n]), words, tail);
  }

  lemma Regroup<T>(a: seq<T>, b: seq<T>, c: seq<T>, d: seq<T>)
    ensures a + b + c + d == a + (b + (c + d))
  {
  }

  /** djw_decode_prefix: the code lengths of all groups. */
  method DecodePrefix(reader: BitReader, groups: nat, ghost clens: seq<seq<nat>>, ghost clclen: seq<nat>, ghost n: nat,
                      ghost tail: seq<bool>)
    returns (ok: bool, values: seq<nat>)
    requires reader.Valid() && groups >= 1
    modifies reader
    ensures reader.Valid() && (ok ==> |values| == 256 * groups && AtMost(values, 20) && ZerosStay(values, 256))
    ensures |clens| == groups && Tables(clens) && SameZeros(Flat(clens), 256)
            && CodesSymbols(clclen, n, MultiSymbols(clens))
            && old(reader.Rest()) == PrefixBits(clclen, n, MultiSymbols(clens)) + tail
            ==> ok && values == Flat(clens) && reader.Rest() == tail
  {
    hide Fields, Msb, Words, Enc, Ahead, AtMost, InitialMtf, Flat, Fit;
    hide Tables, SameZeros, PrefixBits, IsDecoder, ZerosStay;
    ghost var good := |clens| == groups && Tables(clens) && SameZeros(Flat(clens), 256)
            && CodesSymbols(clclen, n, MultiSymbols(clens))
            && reader.Rest() == PrefixBits(clclen, n, MultiSymbols(clens)) + tail;
    ghost var tail1 := tail;
    if good {
      tail1 := PrefixAhead(clens, clclen, n, tail);
    }
    var t: Table;
    ghost var cl: seq<nat>;
    values := [];
    ok, t, cl := DecodeClclen(reader, clclen, n, tail1);
    if !ok {
      return;
    }
    MtfBound();
    var mtf, clen := new nat[21](i requires 0 <= i < 21 => InitialMtf()[i]), new nat[256 * groups];
    assert mtf[..] == InitialMtf();
    ok := Decode12(reader, cl, t.inorder, t.base, t.limit, t.minlen, t.maxlen, mtf, 256 * groups, 256, clen,
                   15, Flat(clens), tail, 20);
    values := clen[..];
    assert clen[..256 * groups] == values;
  }

  lemma MtfBound()
    ensures AtMost(InitialMtf(), 20) && |InitialMtf()| == 21
  {
    LengthsInMtf([]);
  }

  /** The tables of all groups. */
  method MakeTables(groups: nat, values: seq<nat>) returns (ts: seq<Table>)
    requires |values| == 256 * groups && AtMost(values, 20)
    ensures |ts| == groups
    ensures forall g :: 0 <= g < groups ==> Decodes(ts[g], values[256 * g..256 * g + 256])
  {
    ts := [];
    while |ts| < groups
      invariant |ts| <= groups
      invariant forall g :: 0 <= g < |ts| ==> Decodes(ts[g], values[256 * g..256 * g + 256])
    {
      var g := |ts|;
      var t := MakeTable(values[256 * g..256 * g + 256], 20);
      ts := ts + [t];
    }
  }

  /** The group of each sector. */
  method DecodeSelector(reader: BitReader, groups: nat, sectors: nat, ghost selclen: seq<nat>, ghost gbest: seq<nat>,
                        ghost tail: seq<bool>)
    returns (ok: bool, selGroup: seq<nat>)
    requires reader.Valid() && 2 <= groups <= 8
    modifies reader
    ensures reader.Valid() && (ok ==> |selGroup| == sectors && AllBelow(selGroup, groups))
    ensures |gbest| == sectors && CodesGroups(selclen, groups, gbest)
            && old(reader.Rest()) == SelectorBits(selclen, groups, gbest) + tail
            ==> ok && selGroup == gbest && reader.Rest() == tail
  {
    hide Fields, Msb, Words, Enc, Ahead, AtMost, Fit, Kraft, Within, SelectorBits, CodesGroups, IsDecoder, AllBelow;
    ghost var good := |gbest| == sectors && CodesGroups(selclen, groups, gbest)
                      && reader.Rest() == SelectorBits(selclen, groups, gbest) + tail;
    ghost var tail1 := tail;
    if good {
      tail1 := SelectorAhead(selclen, groups, gbest, tail);
    }
    selGroup := [];
    var selClen: seq<nat>;
    ok, selClen := DecodeFields(reader, 3, groups + 1, selclen, tail1);
    if !ok {
      return;
    }
    FitAtMost(selClen);
    var t := MakeTable(selClen, 7);
    var mtf, values := new nat[groups](i requires 0 <= i < groups => i), new nat[sectors];
    assert mtf[..] == Identity(groups);
    IdentityAtMost(groups);
    ok := Decode12(reader, selClen, t.inorder, t.base, t.limit, t.minlen, t.maxlen, mtf, sectors, 0, values,
                   7, gbest, tail, groups - 1);
    selGroup := values[..];
    assert values[..sectors] == selGroup;
    if ok {
      AtMostBelow(selGroup, groups);
    }
  }

  /** Only several groups have a selector. */
  method DecodeGroups(reader: BitReader, groups: nat, sectors: nat, ghost selclen: seq<nat>, ghost gbest: seq<nat>,
                      ghost tail: seq<bool>)
    returns (ok: bool, selGroup: seq<nat>)
    requires reader.Valid() && 1 <= groups <= 8
    modifies reader
    ensures reader.Valid() && (ok && groups > 1 ==> |selGroup| == sectors && AllBelow(selGroup, groups))
    ensures (groups > 1 ==> |gbest| == sectors && CodesGroups(selclen, groups, gbest))
            && old(reader.Rest()) == (if groups == 1 then [] else SelectorBits(selclen, groups, gbest)) + tail
            ==> ok && (groups > 1 ==> selGroup == gbest) && reader.Rest() == tail
  {
    hide SelectorBits, CodesGroups, AllBelow;
    ok, selGroup := true, [];
    assert [] + tail == tail;
    if groups > 1 {
      ok, selGroup := DecodeSelector(reader, groups, sectors, selclen, gbest, tail);
    }
  }

  lemma FitAtMost(s: seq<nat>)
    requires Fit(3, s)
    ensures AtMost(s, 7)
  {
    HuffEncode.Pow2Of();
  }

  lemma IdentityAtMost(groups: nat)
    requires groups > 0
    ensures AtMost(Identity(groups), groups - 1)
  {
  }

  lemma AtMostBelow(s: seq<nat>, n: nat)
    requires n > 0 && AtMost(s, n - 1)
    ensures AllBelow(s, n)
  {
  }

  lemma SelectorAhead(selclen: seq<nat>, groups: nat, gbest: seq<nat>, tail: seq<bool>) returns (tail1: seq<bool>)
    requires 2 <= groups <= 8 && CodesGroups(selclen, groups, gbest)
    ensures |selclen| == groups + 1 && Fit(3, selclen)
    ensures SelectorBits(selclen, groups, gbest) + tail == Fields(3, selclen) + tail1
    ensures Ahead(selclen, 7, Identity(groups), gbest, 0, tail1, tail)
  {
    HuffEncode.Pow2Of();
    SentAll(gbest, 0, 0);
    assert gbest[0..] == gbest;
    hide Words, Enc, Fields, Msb, Sent;
    var words := Words(selclen, Enc(gbest, Identity(groups), 0));
    tail1 := words + tail;
    Assoc(Fields(3, selclen), words, tail);
  }

  /** The loop over one sector's bytes. */
  method DecodeSymbols(reader: BitReader, t: Table, ghost clen: seq<nat>, count: nat, ghost data: seq<nat>,
                       ghost tail: seq<bool>)
    returns (ok: bool, out: seq<nat>)
    requires reader.Valid() && count > 0 && Decodes(t, clen) && |clen| == 256
    modifies reader
    ensures reader.Valid() && (ok ==> |out| == count)
    ensures |data| == count && Kraft(clen, 20) && Coded(clen, data) && old(reader.Rest()) == Words(clen, data) + tail
            ==> ok && out == data && reader.Rest() == tail
  {
    hide Kraft, Words, Coded, Decodes, NoWordAhead, BytesBits, BitsOf, Word;
    ghost var good := |data| == count && Kraft(clen, 20) && Coded(clen, data) &&
        reader.Rest() == Words(clen, data) + tail;
    TableReady(t, clen);
    hide IsDecoder;
    out := [];
    assert data[0..] == data;
    while |out| < count
      invariant reader.Valid() && |out| <= count
      invariant good ==> |data| == count && Coded(clen, data[|out|..])
      invariant good ==> out == data[..|out|] && reader.Rest() == Words(clen, data[|out|..]) + tail
      decreases count - |out|
    {
      ghost var n, before := |out|, reader.Rest();
      var sym;
      ok, sym := DecodeSymbol(reader, clen, t.inorder, t.base, t.limit, t.minlen, t.maxlen, 256);
      if good {
        NextWord(clen, 20, data[n..], tail, ok, sym, before, reader.Rest());
        assert data[n..][1..] == data[n + 1..] && data[..n + 1] == data[..n] + [data[n]];
        CodedTail(clen, data[n..]);
      }
      if !ok {
        return;
      }
      out := out + [sym];
    }
    ok := true;
    if good {
      assert data[|out|..] == [] && data[..|out|] == data;
      NoWords(clen, data[|out|..], tail);
    }
  }

  lemma TableReady(t: Table, clen: seq<nat>)
    requires Decodes(t, clen)
    ensures IsDecoder(clen, t.inorder, t.base, t.limit, t.minlen, t.maxlen)
  {
  }

  lemma CodedTail(clen: seq<nat>, s: seq<nat>)
    requires s != [] && Coded(clen, s)
    ensures Coded(clen, s[1..])
  {
  }

  lemma NoWords(clen: seq<nat>, s: seq<nat>, tail: seq<bool>)
    requires s == []
    ensures Coded(clen, s) && Words(clen, s) + tail == tail
  {
  }

  /** The loop over the sectors. */
  method DecodeSectors(reader: BitReader, ts: seq<Table>, ghost lens: seq<seq<nat>>, groups: nat, selGroup: seq<nat>,
                       ss: nat, sectors: nat, outputBytes: nat, ghost gbest: seq<nat>, ghost data: seq<nat>,
                           ghost tail: seq<bool>)
    returns (ok: bool, output: seq<nat>)
    requires reader.Valid() && ss > 0 && outputBytes > 0 && sectors == SectorCount(outputBytes, ss)
    requires |ts| == |lens| == groups && groups >= 1
    requires forall g :: 0 <= g < groups ==> Decodes(ts[g], lens[g]) && |lens[g]| == 256
    requires groups > 1 ==> |selGroup| == sectors && AllBelow(selGroup, groups)
    requires groups == 1 ==> ss == outputBytes
    modifies reader
    ensures reader.Valid() && (ok ==> |output| == outputBytes)
    ensures |data| == outputBytes && Tables(lens) && CodesSectors(lens, gbest, ss, data)
            && (groups > 1 ==> gbest == selGroup) && old(reader.Rest()) == SectorBits(lens, gbest, ss, data) + tail
            ==> ok && output == data && reader.Rest() == tail
  {
    hide Tables, CodesSectors, SectorBits, Words, Coded, Decodes, BytesBits, BitsOf, Kraft, AllBelow;
    ghost var good := |data| == outputBytes && Tables(lens) && CodesSectors(lens, gbest, ss, data)
            && (groups > 1 ==> gbest == selGroup) && reader.Rest() == SectorBits(lens, gbest, ss, data) + tail;
    output := [];
    var c := 0;
    if good {
      SectorsCounted(lens, gbest, ss, data);
      assert data[0..] == data && gbest[0..] == gbest;
    }
    while c < sectors
      invariant reader.Valid() && c <= sectors && |output| <= outputBytes
      invariant sectors - c == SectorCount(outputBytes - |output|, ss)
      invariant good ==> |data| == outputBytes && Tables(lens) && |gbest| == sectors
      invariant good ==> output == data[..|output|] && CodesSectors(lens, gbest[c..], ss, data[|output|..])
      invariant good ==> reader.Rest() == SectorBits(lens, gbest[c..], ss, data[|output|..]) + tail
      decreases sectors - c
    {
      var gp := 0;
      if groups >= 2 {
        BelowAt(selGroup, groups, c);
        gp := selGroup[c];
      }
      var left := outputBytes - |output|;
      var n := if ss < left then ss else left;
      ghost var part, rest, at := [], tail, |output|;
      if good {
        part, rest := SectorAhead(lens, gbest, c, ss, data, at, tail);
        if groups == 1 {
          assert gbest[c] == 0;
        }
      }
      var out;
      ok, out := DecodeSymbols(reader, ts[gp], lens[gp], n, part, rest);
      if !ok {
        return;
      }
      if good {
        assert data[..at + n] == data[..at] + part;
      }
      output := output + out;
      c := c + 1;
    }
    ok := true;
    if good {
      assert data[|output|..] == [];
      NoSectors(lens, gbest[c..], ss, data[|output|..], tail);
    }
  }

  lemma BelowAt(s: seq<nat>, n: nat, c: nat)
    requires AllBelow(s, n) && c < |s|
    ensures s[c] < n
  {
  }

  lemma NoSectors(lens: seq<seq<nat>>, gbest: seq<nat>, ss: nat, data: seq<nat>, tail: seq<bool>)
    requires data == [] && CodesSectors(lens, gbest, ss, data)
    ensures SectorBits(lens, gbest, ss, data) + tail == tail
  {
  }

  lemma SectorAhead(lens: seq<seq<nat>>, gbest: seq<nat>, c: nat, ss: nat, data: seq<nat>, at: nat, tail: seq<bool>)
    returns (part: seq<nat>, rest: seq<bool>)
    requires Tables(lens) && ss > 0 && at < |data| && c < |gbest| && CodesSectors(lens, gbest[c..], ss, data[at..])
    ensures var n := if ss < |data| - at then ss else |data| - at;
            part == data[at..at + n] && gbest[c] < |lens| && Coded(lens[gbest[c]], part) && Kraft(lens[gbest[c]], 20)
            && CodesSectors(lens, gbest[c + 1..], ss, data[at + n..])
            && rest == SectorBits(lens, gbest[c + 1..], ss, data[at + n..]) + tail
            && SectorBits(lens, gbest[c..], ss, data[at..]) + tail == Words(lens[gbest[c]], part) + rest
  {
    var n := if ss < |data| - at then ss else |data| - at;
    HuffEncode.NextSector(lens, gbest[c..], ss, data[at..]);
    hide CodesSectors, SectorBits, Words, Coded, Kraft;
    part := data[at..at + n];
    assert data[at..][..n] == part && data[at..][n..] == data[at + n..];
    assert gbest[c..][0] == gbest[c] && gbest[c..][1..] == gbest[c + 1..];
    rest := SectorBits(lens, gbest[c + 1..], ss, data[at + n..]) + tail;
    Assoc(Words(lens[gbest[c]], part), SectorBits(lens, gbest[c + 1..], ss, data[at + n..]), tail);
  }

  lemma {:induction false} BytesLength(s: seq<Octet>)
    ensures |BytesBits(s)| == 8 * |s|
  {
    if s != [] {
      BytesLength(s[..|s| - 1]);
    }
  }

  /** The parts of a plan's stream, as the decoder meets them. */
  lemma StreamParts(p: Plan, data: seq<nat>, pad: seq<bool>) returns (t1: seq<bool>, t2: seq<bool>, t3: seq<bool>)
    requires GoodPlan(p, data)
    ensures var groups := |p.clens|;
            PlanBits(p, data) + pad
            == Msb(3, groups - 1) + ((if groups == 1 then [] else Msb(5, p.ss / 5 - 1)) + t1)
            && t1 == PrefixBits(p.clclen, p.n, MultiSymbols(p.clens)) + t2
            && t2 == (if groups == 1 then [] else SelectorBits(p.selclen, groups, p.gbest)) + t3
            && t3 == SectorBits(p.clens, p.gbest, p.ss, data) + pad
  {
    hide Msb, PrefixBits, SelectorBits, SectorBits, MultiSymbols, CodesSymbols, CodesSectors, CodesGroups;
    var groups := |p.clens|;
    var b := if groups == 1 then [] else Msb(5, p.ss / 5 - 1);
    var d := if groups == 1 then [] else SelectorBits(p.selclen, groups, p.gbest);
    t3 := SectorBits(p.clens, p.gbest, p.ss, data) + pad;
    t2 := d + t3;
    t1 := PrefixBits(p.clclen, p.n, MultiSymbols(p.clens)) + t2;
    Nested(Msb(3, groups - 1), b, PrefixBits(p.clclen, p.n, MultiSymbols(p.clens)), d,
           SectorBits(p.clens, p.gbest, p.ss, data), pad);
  }

  lemma Nested<T>(a: seq<T>, b: seq<T>, c: seq<T>, d: seq<T>, e: seq<T>, f: seq<T>)
    ensures a + b + c + d + e + f == a + (b + (c + (d + (e + f))))
  {
  }

  /** The bytes hold a stream of the section, with less than a byte of padding, and all groups of its
      plan have words for the same bytes. */
  ghost predicate Carries(input: seq<Octet>, p: Plan, pad: nat, data: seq<nat>) {
    && GoodPlan(p, data) && SameZeros(Flat(p.clens), 256) && pad < 8
    && BytesBits(input) == PlanBits(p, data) + Padding(pad)
  }

  /** xd3_decode_huff: whatever the choices of the encoder, the section comes back, and no byte of the
      input is left over (which xd3_decode_secondary would refuse). */
  method DecodeHuff(input: seq<Octet>, outputBytes: nat, ghost p: Plan, ghost pad: nat, ghost data: seq<nat>)
    returns (ok: bool, output: seq<nat>, used: nat)
    ensures ok ==> |output| == outputBytes && used <= |input|
    ensures Carries(input, p, pad, data) && |data| == outputBytes ==> ok && output == data && used == |input|
  {
    hide PlanBits, GoodPlan, Msb, PrefixBits, SelectorBits, SectorBits, MultiSymbols, CodesSymbols, CodesSectors;
    hide CodesGroups, SameZeros, Flat, BytesBits, BitsOf, Tables, AtMost, AllBelow, Decodes, SectorCount, Sectors;
    ok, output, used := false, [], 0;
    if outputBytes == 0 {
      CarriesSome(input, p, pad, data);
      return;
    }

    ghost var good := Carries(input, p, pad, data) && |data| == outputBytes;
    ghost var groups0 := |p.clens|;
    ghost var t1: seq<bool>, t2: seq<bool>, t3: seq<bool> := [], [], [];
    var reader := new BitReader(input);
    if good {
      t1, t2, t3 := StreamParts(p, data, Padding(pad));
      PlanParts(p, data);
    }
    var groups, ss;
    ok, groups, ss := DecodeSizes(reader, outputBytes, groups0, p.ss, t1);
    if !ok {
      return;
    }
    SectorCountIs(outputBytes, ss);
    var sectors := Sectors(outputBytes, ss);
    var values;
    ok, values := DecodePrefix(reader, groups, p.clens, p.clclen, p.n, t2);
    if !ok {
      return;
    }
    var ts := MakeTables(groups, values);
    if good {
      SectorsCounted(p.clens, p.gbest, p.ss, data);
    }
    var selGroup;
    ok, selGroup := DecodeGroups(reader, groups, sectors, p.selclen, p.gbest, t3);
    if !ok {
      return;
    }

    ghost var lens := seq(groups, g requires 0 <= g < groups => values[256 * g..256 * g + 256]);
    if good {
      TablesOf(p.clens, lens);
    }
    ok, output := DecodeSectors(reader, ts, lens, groups, selGroup, ss, sectors, outputBytes, p.gbest, data,
        Padding(pad));
    used := reader.pos;
    if good {
      BytesLength(input[reader.pos..]);
    }
  }

  lemma CarriesSome(input: seq<Octet>, p: Plan, pad: nat, data: seq<nat>)
    ensures Carries(input, p, pad, data) ==> data != []
  {
  }

  lemma PlanParts(p: Plan, data: seq<nat>)
    requires GoodPlan(p, data)
    ensures Tables(p.clens) && 1 <= |p.clens| <= 8 && CodesSymbols(p.clclen, p.n, MultiSymbols(p.clens))
    ensures CodesSectors(p.clens, p.gbest, p.ss, data) && p.ss > 0
    ensures if |p.clens| == 1 then p.ss == |data|
            else 5 <= p.ss <= 160 && p.ss % 5 == 0 && CodesGroups(p.selclen, |p.clens|, p.gbest)
  {
    hide CodesSymbols, CodesSectors, CodesGroups, MultiSymbols;
  }

  lemma TablesOf(clens: seq<seq<nat>>, lens: seq<seq<nat>>)
    requires Tables(clens) && |lens| == |clens|
    requires forall g :: 0 <= g < |lens| ==>
               256 * g + 256 <= |Flat(clens)| && lens[g] == Flat(clens)[256 * g..256 * g + 256]
    ensures lens == clens
  {
    FlatLength(clens);
  }

  lemma HoldsCarries(bytes: seq<Octet>, p: Plan, data: seq<nat>) returns (pad: nat)
    requires HuffEncode.Holds(bytes, p, data) && SameZeros(Flat(p.clens), 256)
    ensures Carries(bytes, p, pad, data)
  {
    hide PlanBits, GoodPlan;
    pad :| pad < 8 && BytesBits(bytes) == PlanBits(p, data) + Padding(pad);
  }

  lemma OneTable(p: Plan, data: seq<nat>)
    requires GoodPlan(p, data) && |p.clens| == 1
    ensures SameZeros(Flat(p.clens), 256)
  {
    FlatLength(p.clens);
  }

  /** A section coded in one group comes back, unless it was given up as inefficient. */
  method RoundTripOne(data: seq<nat>, inefficient: bool, next: nat) returns (given: bool, ok: bool, output: seq<nat>)
    requires data != [] && HuffEncode.IsBytes(data)
    ensures given ==> ok && output == data
    ensures inefficient ==> given
  {
    hide HuffEncode.FewestBits, HuffEncode.Holds, Carries, GoodPlan;
    var r, _, p := HuffEncode.EncodeOne(data, inefficient, next);
    match r {
      case NoSecond =>
        return false, false, [];
      case Section(bytes) =>
        HoldsGood(bytes, p, data);
        OneTable(p, data);
        ghost var pad := HoldsCarries(bytes, p, data);
        var used;
        ok, output, used := DecodeHuff(bytes, |data|, p, pad, data);
        given := true;
    }
  }

  lemma HoldsGood(bytes: seq<Octet>, p: Plan, data: seq<nat>)
    requires HuffEncode.Holds(bytes, p, data)
    ensures GoodPlan(p, data)
  {
  }
}

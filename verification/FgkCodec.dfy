/** xd3_encode_fgk and xd3_decode_fgk of Baseline/third/xdelta/xdelta3-fgk.h: adaptive Huffman coding of
    a section, and its way back. */
module FgkCodec {
  import opened BitStream
  import opened FgkCode
  import opened FgkStream
  import opened FgkTree

  predicate InAlphabet(data: seq<nat>, size: nat) {
    forall i :: 0 <= i < |data| ==> data[i] < size
  }

  // ---------------------------------------------------------------- one symbol more

  lemma {:induction false} TrainedMore(v: Tree, syms: seq<nat>, n: nat)
    requires Valid(v) && InAlphabet(syms, v.size) && n < v.size
    ensures InAlphabet(syms + [n], v.size)
    ensures Trained(v, syms + [n]) == Updated(Trained(v, syms), n)
    ensures CodeAll(v, syms + [n]) == CodeAll(v, syms) + Code(Trained(v, syms), n)
    decreases |syms|
  {
    hide Updated, Code, Valid;
    if syms == [] {
      assert [n][1..] == [] && [] + [n] == [n];
      assert CodeAll(v, [n]) == Code(v, n) + CodeAll(Updated(v, n), []);
    } else {
      assert (syms + [n])[1..] == syms[1..] + [n];
      TrainedMore(Updated(v, syms[0]), syms[1..], n);
    }
  }

  // ---------------------------------------------------------------- xd3_encode_fgk

  /** The bits that the coder holds go to the output. */
  method EmitBits(h: FgkStream, writer: BitWriter)
    requires h.Holds(-1) && h.codedDepth <= |h.codedBits| && writer.Valid()
    modifies h`codedDepth, writer
    ensures h.Holds(-1) && writer.Valid() && writer.Written() == old(writer.Written()) + old(h.Pending())
  {
    hide FgkStream.Holds;
    var bits := h.codedDepth;
    assert old(writer.Written()) + old(h.Pending()) == writer.Written() + h.Pending();
    while bits > 0
      invariant h.Holds(-1) && writer.Valid() && bits == h.codedDepth <= |h.codedBits|
      invariant writer.Written() + h.Pending() == old(writer.Written()) + old(h.Pending())
    {
      ghost var written, pending := writer.Written(), h.Pending();
      var bit := h.GetEncodedBit();
      writer.EncodeBit(bit);
      assert (written + [bit]) + h.Pending() == written + pending;
      bits := bits - 1;
    }
    assert h.codedBits[..0] == [];
    assert writer.Written() + h.Pending() == writer.Written();
  }

  method EncodeSymbol(h: FgkStream, writer: BitWriter, n: nat)
    requires h.Holds(-1) && n < h.alphabetSize && writer.Valid()
    modifies h, writer
    ensures h.Holds(-1) && writer.Valid() && h.tree == Updated(old(h.tree), n)
    ensures writer.Written() == old(writer.Written()) + Code(old(h.tree), n)
  {
    hide FgkStream.Holds, Code, Updated, Valid, BitWriter.Valid, BitWriter.Written;
    HoldsSize(h);
    var bits := h.EncodeData(n);
    EmitBits(h, writer);
  }

  method Encode(h: FgkStream, input: seq<nat>) returns (output: seq<Octet>)
    requires h.Holds(-1) && InAlphabet(input, h.alphabetSize)
    modifies h
    ensures h.Holds(-1) && h.tree == Trained(old(h.tree), input)
    ensures exists pad: nat :: pad < 8 && BytesBits(output) == CodeAll(old(h.tree), input) + Padding(pad)
  {
    hide FgkStream.Holds, Trained, CodeAll, Code, Updated, Valid, BitWriter.Valid, BitWriter.Written;
    HoldsSize(h);
    var writer := new BitWriter();
    ghost var v := h.tree;
    var i := 0;
    NoneTrained(v);
    while i < |input|
      invariant i <= |input| && h.Holds(-1) && writer.Valid() && InAlphabet(input[..i], v.size)
      invariant h.tree == Trained(v, input[..i]) && writer.Written() == CodeAll(v, input[..i])
    {
      TrainedMore(v, input[..i], input[i]);
      assert input[..i] + [input[i]] == input[..i + 1];
      EncodeSymbol(h, writer, input[i]);
      i := i + 1;
    }
    assert input[..i] == input;
    writer.FlushBits();
    output := writer.output;
  }

  lemma HoldsSize(h: FgkStream)
    requires h.Holds(-1)
    ensures Valid(h.tree) && h.tree.size == h.alphabetSize
  {
  }

  lemma NoneTrained(v: Tree)
    requires Valid(v)
    ensures Trained(v, []) == v && CodeAll(v, []) == []
  {
  }

  // ---------------------------------------------------------------- xd3_decode_fgk

  lemma {:induction false} BytesBitAt(s: seq<Octet>, p: nat, k: nat)
    requires p < |s| && k < 8
    ensures |BytesBits(s)| == 8 * |s| && BytesBits(s)[8 * p + k] == (k in s[p])
  {
    var n := |s| - 1;
    if p < n {
      BytesBitAt(s[..n], p, k);
    } else if n > 0 {
      BytesBitAt(s[..n], 0, 0);
    }
  }

  /** One bit for the decoder, and the symbol if it completes a code word. */
  method DecodeStep(h: FgkStream, bit: bool) returns (done: bool, symbol: nat)
    requires h.Reading() && Ready(h.tree, h.cursor)
    modifies h
    ensures h.Reading() && Ready(h.tree, h.cursor) && h.tree.size == h.alphabetSize
    ensures var (c, d) := FgkCode.DecodeBit(old(h.tree), old(h.cursor), bit);
            && done == d
            && if d then Complete(old(h.tree), c) && symbol == Symbol(old(h.tree), c) < h.alphabetSize &&
                         h.tree == Updated(old(h.tree), symbol) && h.cursor == Top(h.tree)
               else h.tree == old(h.tree) && h.cursor == c
  {
    hide Updated, Symbol, Ready, Complete, Valid, FgkCode.DecodeBit;
    symbol := 0;
    done := h.DecodeBit(bit);
    if done {
      symbol := h.DecodeData();
      TopReady(h.tree);
    }
  }

  /** What xd3_decode_fgk makes of some bits. */
  ghost function Decoded(v: Tree, bits: seq<bool>, count: nat): Outcome
    requires Valid(v)
  {
    TopReady(v);
    DecodeAll(v, Top(v), bits, count)
  }

  /** What the decoder has done and what it is still to do make the whole outcome. */
  ghost predicate Underway(v: Tree, bits: seq<bool>, count: nat, out: seq<nat>, used: nat, w: Tree, c: Cursor) {
    && Valid(v) && Valid(w) && Ready(w, c) && used <= |bits| && |out| < count
    && InAlphabet(out, v.size) && w == Trained(v, out) && w.size == v.size
    && Decoded(v, bits, count) == After(out, used, DecodeAll(w, c, bits[used..], count - |out|))
  }

  lemma UnderwayStart(v: Tree, bits: seq<bool>, count: nat)
    requires Valid(v) && count >= 1
    ensures Underway(v, bits, count, [], 0, v, Top(v))
  {
    TopReady(v);
    assert bits[0..] == bits;
    var rest := DecodeAll(v, Top(v), bits, count);
    assert After([], 0, rest) == rest by {
      if rest.Symbols? {
        assert [] + rest.syms == rest.syms;
      }
    }
  }

  /** No bit is left. */
  lemma UnderwayEnd(v: Tree, bits: seq<bool>, count: nat, out: seq<nat>, w: Tree, c: Cursor)
    requires Underway(v, bits, count, out, |bits|, w, c)
    ensures Decoded(v, bits, count) == EndOfInput
  {
  }

  lemma UnderwayBit(v: Tree, bits: seq<bool>, count: nat, out: seq<nat>, used: nat, w: Tree, c: Cursor)
    requires Underway(v, bits, count, out, used, w, c) && used < |bits|
    requires !FgkCode.DecodeBit(w, c, bits[used]).1
    ensures Underway(v, bits, count, out, used + 1, w, FgkCode.DecodeBit(w, c, bits[used]).0)
  {
    hide Trained, Symbol, Valid, FgkCode.DecodeBit;
    var c' := FgkCode.DecodeBit(w, c, bits[used]).0;
    StepReady(w, c, bits[used]);
    assert bits[used..][1..] == bits[used + 1..];
    AfterAfter(out, used, [], 1, DecodeAll(w, c', bits[used + 1..], count - |out|));
    assert out + [] == out;
  }

  lemma AfterAfter(a: seq<nat>, m: nat, b: seq<nat>, n: nat, rest: Outcome)
    ensures After(a, m, After(b, n, rest)) == After(a + b, m + n, rest)
  {
    if rest.Symbols? {
      assert a + (b + rest.syms) == (a + b) + rest.syms;
    }
  }

  /** The decoder's next bit completes the symbol n. */
  ghost predicate Arrives(w: Tree, c: Cursor, bits: seq<bool>, used: nat, n: nat) {
    && Valid(w) && Ready(w, c) && used < |bits|
    && var (c', done) := FgkCode.DecodeBit(w, c, bits[used]);
    done && Complete(w, c') && n == Symbol(w, c') < w.size
  }

  lemma ArrivedTree(v: Tree, out: seq<nat>, w: Tree, n: nat)
    requires Valid(v) && Valid(w) && InAlphabet(out, v.size) && w == Trained(v, out) && n < w.size == v.size
    ensures var r := Updated(w, n);
            && Valid(r) && r.size == v.size && Ready(r, Top(r))
            && InAlphabet(out + [n], v.size) && r == Trained(v, out + [n])
  {
    hide Trained, Updated, Valid, Ready;
    TrainedMore(v, out, n);
    TopReady(Updated(w, n));
  }

  lemma ArrivedBits(w: Tree, c: Cursor, bits: seq<bool>, used: nat, out: seq<nat>, k: nat, n: nat)
    requires Arrives(w, c, bits, used, n) && k >= 1
    ensures var r := Updated(w, n);
            && Valid(r) && Ready(r, Top(r))
            && After(out, used, DecodeAll(w, c, bits[used..], k)) ==
               After(out + [n], used + 1, DecodeAll(r, Top(r), bits[used + 1..], k - 1))
  {
    hide Symbol, FgkCode.DecodeBit, Updated, Complete, Valid, DecodeAll, Ready, After;
    var r := Updated(w, n);
    DecodeSymbol(w, c, bits, used, k, n);
    AfterAfter(out, used, [n], 1, DecodeAll(r, Top(r), bits[used + 1..], k - 1));
  }

  lemma UnderwaySymbol(v: Tree, bits: seq<bool>, count: nat, out: seq<nat>, used: nat, w: Tree, c: Cursor, n: nat)
    requires Underway(v, bits, count, out, used, w, c) && Arrives(w, c, bits, used, n) && |out| + 1 < count
    ensures Underway(v, bits, count, out + [n], used + 1, Updated(w, n), Top(Updated(w, n)))
  {
    hide Trained, Symbol, FgkCode.DecodeBit, Updated, Complete, Valid, Mid, Shape, DecodeAll, Ready, After;
    ArrivedTree(v, out, w, n);
    ArrivedBits(w, c, bits, used, out, count - |out|, n);
  }

  lemma LastSymbol(v: Tree, bits: seq<bool>, count: nat, out: seq<nat>, used: nat, w: Tree, c: Cursor, n: nat)
    requires Underway(v, bits, count, out, used, w, c) && Arrives(w, c, bits, used, n) && |out| + 1 == count
    ensures InAlphabet(out + [n], v.size) && Updated(w, n) == Trained(v, out + [n])
    ensures Decoded(v, bits, count) == Symbols(out + [n], used + 1)
  {
    hide Trained, Symbol, FgkCode.DecodeBit, Updated, Complete, Valid, Mid, Shape, DecodeAll, Ready, After;
    var w' := Updated(w, n);
    TrainedMore(v, out, n);
    TopReady(w');
    DecodeSymbol(w, c, bits, used, 1, n);
    DecodeNone(w', bits[used + 1..]);
    AfterNone([n], 1);
    AfterAfter(out, used, [n], 1, Symbols([], 0));
    AfterNone(out + [n], used + 1);
  }

  lemma AfterNone(syms: seq<nat>, used: nat)
    ensures After(syms, used, Symbols([], 0)) == Symbols(syms, used)
  {
    assert syms + [] == syms;
  }

  lemma DecodeNone(v: Tree, bits: seq<bool>)
    requires Valid(v) && Ready(v, Top(v))
    ensures DecodeAll(v, Top(v), bits, 0) == Symbols([], 0)
  {
  }

  lemma DecodeSymbol(v: Tree, c: Cursor, bits: seq<bool>, used: nat, k: nat, n: nat)
    requires Arrives(v, c, bits, used, n) && k >= 1
    ensures var w := Updated(v, n);
            && Ready(w, Top(w))
            && DecodeAll(v, c, bits[used..], k) == After([n], 1, DecodeAll(w, Top(w), bits[used + 1..], k - 1))
  {
    hide FgkCode.DecodeBit, Updated, Mid, Symbol, Complete, Ready, After;
    assert bits[used..][1..] == bits[used + 1..];
    TopReady(Updated(v, n));
  }

  lemma {:induction false} BytesCount(s: seq<Octet>)
    ensures |BytesBits(s)| == 8 * |s|
  {
    if s == [] {
      assert BytesBits(s) == [];
    } else {
      BytesBitAt(s, 0, 0);
    }
  }

  lemma ByteBits(s: seq<Octet>, p: nat)
    requires p < |s|
    ensures |BytesBits(s)| == 8 * |s| && forall k :: 0 <= k < 8 ==> BytesBits(s)[8 * p + k] == (k in s[p])
  {
    BytesCount(s);
    forall k | 0 <= k < 8 ensures BytesBits(s)[8 * p + k] == (k in s[p]) {
      BytesBitAt(s, p, k);
    }
  }

  /** The outcome r is these symbols, its last bit is in byte `pos - 1`, and w is the tree that
      they leave. */
  ghost predicate Finished(v: Tree, r: Outcome, out: seq<nat>, pos: nat, w: Tree)
    requires Valid(v)
  {
    && r.Symbols? && r.syms == out && pos == (r.used + 7) / 8
    && InAlphabet(out, v.size) && w == Trained(v, out)
  }

  /** The bits of one byte, the lowest first, until all symbols are there. */
  method DecodeByte(h: FgkStream, byte: Octet, out0: seq<nat>, count: nat, ghost v: Tree, ghost bits: seq<bool>,
      ghost p: nat)
    returns (done: bool, output: seq<nat>)
    requires h.Reading() && Valid(v) && |out0| < count
    requires 8 * p + 8 <= |bits| && forall k :: 0 <= k < 8 ==> bits[8 * p + k] == (k in byte)
    requires Underway(v, bits, count, out0, 8 * p, h.tree, h.cursor)
    modifies h
    ensures h.Reading()
    ensures if done then Finished(v, Decoded(v, bits, count), output, p + 1, h.tree) && h.cursor == Top(h.tree)
            else |output| < count && Underway(v, bits, count, output, 8 * p + 8, h.tree, h.cursor)
  {
    hide FgkStream.Reading, FgkStream.Holds, Trained, Symbol, Updated, Valid, FgkCode.DecodeBit, Ready, Complete,
         Underway;
    output := out0;
    var mask := 0;
    while mask < 8
      invariant mask <= 8 && h.Reading() && |output| < count
      invariant Underway(v, bits, count, output, 8 * p + mask, h.tree, h.cursor)
    {
      ghost var w, c, used := h.tree, h.cursor, 8 * p + mask;
      UnderwayReady(v, bits, count, output, used, w, c);
      var complete, symbol := DecodeStep(h, mask in byte);
      if complete {
        assert Arrives(w, c, bits, used, symbol);
        if |output| + 1 == count {
          LastSymbol(v, bits, count, output, used, w, c, symbol);
          return true, output + [symbol];
        }
        UnderwaySymbol(v, bits, count, output, used, w, c, symbol);
        output := output + [symbol];
      } else {
        UnderwayBit(v, bits, count, output, used, w, c);
      }
      mask := mask + 1;
    }
    done := false;
  }

  lemma UnderwayReady(v: Tree, bits: seq<bool>, count: nat, out: seq<nat>, used: nat, w: Tree, c: Cursor)
    requires Underway(v, bits, count, out, used, w, c)
    ensures Ready(w, c) && Valid(w)
  {
  }

  /** xd3_decode_fgk: `count` symbols, and how many bytes of the input they took. */
  method Decode(h: FgkStream, input: seq<Octet>, count: nat) returns (ok: bool, output: seq<nat>, pos: nat)
    requires h.Reading() && h.cursor == Top(h.tree) && count >= 1
    modifies h
    ensures h.Reading()
    ensures var r := Decoded(old(h.tree), BytesBits(input), count);
            if ok then Finished(old(h.tree), r, output, pos, h.tree) && pos <= |input| && h.cursor == Top(h.tree)
            else r == EndOfInput
  {
    hide FgkStream.Reading, FgkStream.Holds, FgkStream.Sized, Decoded, Trained, Symbol, Updated, Valid,
         FgkCode.DecodeBit, Ready, Complete, BytesBits,
         Underway, DecodeAll, InAlphabet, Finished;
    ghost var v, bits := h.tree, BytesBits(input);
    ReadingValid(h);
    UnderwayStart(v, bits, count);
    BytesCount(input);
    output, pos := [], 0;
    while true
      invariant h.Reading() && pos <= |input| && |output| < count && |bits| == 8 * |input|
      invariant Underway(v, bits, count, output, 8 * pos, h.tree, h.cursor)
      decreases |input| - pos
    {
      if pos == |input| {
        UnderwayEnd(v, bits, count, output, h.tree, h.cursor);
        return false, [], pos;
      }
      ByteBits(input, pos);
      var byte := input[pos];
      pos := pos + 1;
      var done;
      done, output := DecodeByte(h, byte, output, count, v, bits, pos - 1);
      if done {
        return true, output, pos;
      }
    }
  }

  lemma ReadingValid(h: FgkStream)
    requires h.Reading()
    ensures Valid(h.tree) && h.tree.size == h.alphabetSize
  {
  }

  /** What xd3_encode_fgk writes, xd3_decode_fgk reads back: the symbols, and no byte more or less.
      Both trees are equal afterwards. */
  lemma BytesRoundTrip(v: Tree, data: seq<nat>, coded: seq<Octet>, pad: nat, more: seq<Octet>)
    requires Valid(v) && InAlphabet(data, v.size) && pad < 8 && BytesBits(coded) == CodeAll(v, data) + Padding(pad)
    ensures Decoded(v, BytesBits(coded + more), |data|) == Symbols(data, |CodeAll(v, data)|)
    ensures (|CodeAll(v, data)| + 7) / 8 == |coded|
  {
    hide CodeAll, DecodeAll, BytesBits, Valid, Ready;
    RoundTrip(v, data, Padding(pad) + BytesBits(more));
    BytesJoin(coded, more);
    assert (CodeAll(v, data) + Padding(pad)) + BytesBits(more) == CodeAll(v, data) + (Padding(pad) + BytesBits(more));
    BytesCount(coded);
  }

  lemma {:induction false} BytesJoin(a: seq<Octet>, b: seq<Octet>)
    ensures BytesBits(a + b) == BytesBits(a) + BytesBits(b)
  {
    if b == [] {
      assert a + b == a;
    } else {
      var n := |b| - 1;
      assert (a + b)[..|a + b| - 1] == a + b[..n];
      BytesJoin(a, b[..n]);
    }
  }

  /** One coder and one decoder over one section, as in xd3_encode_secondary and
      xd3_decode_secondary: the decoder ends with the data, the end of its input and the coder's
      tree. */
  method CodeAndDecode(data: seq<nat>, size: nat, more: seq<Octet>)
    returns (coder: FgkStream, decoder: FgkStream, ok: bool, output: seq<nat>, pos: nat, length: nat)
    requires size >= 2 && |data| >= 1 && InAlphabet(data, size)
    ensures ok && output == data && pos == length && coder.tree == decoder.tree
  {
    hide Trained, CodeAll, DecodeAll, BytesBits, Updated, Valid, FgkStream.Holds, FgkStream.Reading;
    coder := new FgkStream(size);
    decoder := new FgkStream(size);
    ReadingHolds(coder);
    ReadingHolds(decoder);
    ghost var v := coder.tree;
    var coded := Encode(coder, data);
    ghost var pad :| pad < 8 && BytesBits(coded) == CodeAll(v, data) + Padding(pad);
    BytesRoundTrip(v, data, coded, pad, more);
    ok, output, pos := Decode(decoder, coded + more, |data|);
    length := |coded|;
  }

  lemma ReadingHolds(h: FgkStream)
    requires h.Reading()
    ensures h.Holds(-1) && Valid(h.tree) && h.tree.size == h.alphabetSize
  {
  }
}

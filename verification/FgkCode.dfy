/** The code words of the adaptive Huffman tree and the bit-at-a-time decoder of
    Baseline/third/xdelta/xdelta3-fgk.h: the two stay in step. */
module FgkCode {
  import opened Basics
  import opened BitStream
  import opened FgkTree

  // ---------------------------------------------------------------- code words

  /** The tree before the first symbol: all symbols unseen, the first of them the root. */
  function Initial(size: nat): (v: Tree)
    requires size >= 2
    ensures Valid(v)
  {
    InitialOk(size);
    Tree(size, [0], [], [0], seq(size, i => i), false)
  }

  lemma InitialOk(size: nat)
    requires size >= 2
    ensures Valid(Tree(size, [0], [], [0], seq(size, i => i), false))
  {
    var v := Tree(size, [0], [], [0], seq(size, i => i), false);
    forall n | 0 <= n < size ensures n in v.zeros {
      assert v.zeros[n] == n;
    }
    assert LabelOk(v, 0);
  }

  /** The way from the root to position p: true for a right child. */
  function Path(v: Tree, p: nat): seq<bool>
    requires Shape(v) && p <= v.Root()
    decreases v.Root() - p
  {
    if p == v.Root() then [] else
      assert ParentOk(v, p / 2);
      Path(v, v.up[p / 2]) + [p % 2 == 1]
  }

  /** zero_freq_exp: the exponent of the greatest power of two that is not above c */
  function Exponent(c: nat): (e: nat)
    requires c >= 1
    ensures Pow2(e) <= c < 2 * Pow2(e)
  {
    if c == 1 then 0 else Exponent(c / 2) + 1
  }

  /** The bits that tell c unseen symbols apart; zero_freq_rem is `c - Pow2(Exponent(c))`. */
  function Width(c: nat): (k: nat)
    requires c >= 1
    ensures c <= Pow2(k) && (c > 1 ==> k >= 1 && k < c) && (c == 1 ==> k == 0)
  {
    PowerAbove(Exponent(c));
    if c == Pow2(Exponent(c)) then Exponent(c) else Exponent(c) + 1
  }

  lemma {:induction false} PowerAbove(k: nat)
    ensures k < Pow2(k) && (k >= 1 ==> Pow2(k) >= 2)
  {
    if k > 0 {
      PowerAbove(k - 1);
    }
  }

  /** What fgk_encode_data emits for the symbol n. */
  function Code(v: Tree, n: nat): seq<bool>
    requires Valid(v) && n < v.size
  {
    if n in v.zeros then Path(v, 0) + Msb(Width(Count(v)), Find(v.zeros, n)) else Path(v, Find(v.lab, n))
  }

  lemma {:induction false} PathShort(v: Tree, p: nat)
    requires Shape(v) && p <= v.Root()
    ensures |Path(v, p)| <= |v.up| - p / 2
    decreases v.Root() - p
  {
    if p < v.Root() {
      assert ParentOk(v, p / 2);
      PathShort(v, v.up[p / 2]);
    }
  }

  /** Every code word has a bit, and fits into the array that holds one bit for each symbol. */
  lemma CodeFits(v: Tree, n: nat)
    requires Valid(v) && n < v.size
    ensures 1 <= |Code(v, n)| < v.size
  {
    if n in v.zeros {
      PathShort(v, 0);
      if Count(v) == 1 {
        assert |v.up| >= 1;
      }
    } else {
      LeafOk(v, n);
      PathShort(v, Find(v.lab, n));
      assert Find(v.lab, n) < v.Root();
    }
  }

  // ---------------------------------------------------------------- the decoder

  /** decode_ptr as a position, and the bits of coded_bits that were received at an unseen symbol. */
  datatype Cursor = Cursor(at: nat, got: seq<bool>)

  function Top(v: Tree): Cursor {
    Cursor(v.Root(), [])
  }

  /** A code word is not complete yet: more turns to take, or more bits of an index to come. */
  predicate Ready(v: Tree, c: Cursor) {
    && Shape(v) && c.at <= v.Root()
    && if v.w[c.at] == 0 then v.zeros != [] && |c.got| < Width(Count(v)) else c.at in v.up && c.got == []
  }

  /** A code word is complete: at a symbol that was seen, or with all bits of an index. */
  predicate Complete(v: Tree, c: Cursor) {
    && Shape(v) && c.at <= v.Root() && c.at !in v.up
    && if v.w[c.at] == 0 then v.zeros != [] && |c.got| == Width(Count(v)) else c.got == []
  }

  function Child(v: Tree, at: nat, bit: bool): (r: nat)
    requires Shape(v) && at in v.up
    ensures r < at && r / 2 < |v.up| && v.up[r / 2] == at
  {
    var j := Find(v.up, at);
    assert ParentOk(v, j);
    if bit then 2 * j + 1 else 2 * j
  }

  /** fgk_decode_bit: the new state, and whether a code word is complete. */
  function DecodeBit(v: Tree, c: Cursor, bit: bool): (Cursor, bool)
    requires Ready(v, c)
  {
    if v.w[c.at] == 0 then
      (c.(got := c.got + [bit]), |c.got| + 1 >= Width(Count(v)))
    else
      var at := Child(v, c.at, bit);
      (c.(at := at), at !in v.up && (v.w[at] != 0 || Count(v) == 1))
  }

  /** fgk_nth_zero: too great an index gives the last unseen symbol. */
  function NthZero(v: Tree, n: nat): nat
    requires v.zeros != []
  {
    if n < |v.zeros| then v.zeros[n] else v.zeros[|v.zeros| - 1]
  }

  /** The symbol fgk_decode_data returns. */
  function Symbol(v: Tree, c: Cursor): nat
    requires Complete(v, c)
  {
    if v.w[c.at] == 0 then NthZero(v, Value(c.got)) else v.lab[c.at]
  }

  /** Given these bits one at a time, the decoder reports a symbol with the last one and not
      before, and the symbol is n. */
  ghost predicate Completes(v: Tree, c: Cursor, bits: seq<bool>, n: nat)
    requires Valid(v)
    decreases |bits|
  {
    && bits != [] && Ready(v, c)
    && var (c', done) := DecodeBit(v, c, bits[0]);
    if |bits| == 1 then done && Complete(v, c') && Symbol(v, c') == n
    else !done && Completes(v, c', bits[1..], n)
  }

  lemma LeftmostLeaf(v: Tree)
    requires Shape(v)
    ensures 0 !in v.up
  {
    forall j | 0 <= j < |v.up| ensures v.up[j] != 0 {
      assert ParentOk(v, j);
    }
  }

  lemma FindUp(v: Tree, p: nat)
    requires Valid(v) && p < v.Root()
    ensures v.up[p / 2] <= v.Root() && v.up[p / 2] in v.up && Child(v, v.up[p / 2], p % 2 == 1) == p &&
            v.w[v.up[p / 2]] > 0
  {
    assert ParentOk(v, p / 2);
    PositiveAt(v, -1, v.up[p / 2]);
  }

  lemma OneStep(v: Tree, p: nat, bits: seq<bool>, n: nat)
    requires Valid(v) && p < v.Root() && (v.w[p] == 0 ==> Count(v) > 1)
    requires Completes(v, Cursor(p, []), bits, n)
    ensures Completes(v, Cursor(v.up[p / 2], []), [p % 2 == 1] + bits, n)
  {
    FindUp(v, p);
    assert ([p % 2 == 1] + bits)[1..] == bits;
  }

  /** If a code word can be completed from position p, then it can from the root. */
  lemma {:induction false} FromRoot(v: Tree, p: nat, bits: seq<bool>, n: nat)
    requires Valid(v) && p <= v.Root() && (v.w[p] == 0 ==> Count(v) > 1)
    requires Completes(v, Cursor(p, []), bits, n)
    ensures Completes(v, Top(v), Path(v, p) + bits, n)
    decreases v.Root() - p
  {
    hide Completes, Named, Sum, Sorted, Positive, LooseOk, ParentOk, Distinct;
    if p == v.Root() {
      assert Path(v, p) + bits == bits;
    } else {
      FindUp(v, p);
      var u, more := v.up[p / 2], [p % 2 == 1] + bits;
      assert more[1..] == bits;
      OneStep(v, p, bits, n);
      FromRoot(v, u, more, n);
      assert Path(v, p) + bits == Path(v, u) + more;
    }
  }

  /** The last step to a leaf. */
  lemma IntoLeaf(v: Tree, p: nat, n: nat)
    requires Valid(v) && p < v.Root() && p !in v.up
    requires if v.w[p] == 0 then v.zeros == [n] else v.lab[p] == n
    ensures Completes(v, Top(v), Path(v, p), n)
  {
    FindUp(v, p);
    var u := v.up[p / 2];
    assert Completes(v, Cursor(u, []), [p % 2 == 1], n);
    FromRoot(v, u, [p % 2 == 1], n);
  }

  /** The bits of an index into the unseen symbols. */
  lemma {:induction false} IndexBits(v: Tree, bits: seq<bool>, k: nat, n: nat)
    requires Valid(v) && Count(v) > 1 && |bits| == Width(Count(v)) && k < |bits|
    requires n == NthZero(v, Value(bits))
    ensures Completes(v, Cursor(0, bits[..k]), bits[k..], n)
    decreases |bits| - k
  {
    assert bits[..k] + [bits[k]] == bits[..k + 1];
    if k + 1 < |bits| {
      IndexBits(v, bits, k + 1, n);
    } else {
      LeftmostLeaf(v);
      assert bits[..k + 1] == bits;
    }
  }

  /** Coder and decoder stay in step: fgk_decode_bit reports a complete code exactly at its last
      bit, and the symbol is the one that was coded. */
  lemma Lockstep(v: Tree, n: nat)
    requires Valid(v) && n < v.size
    ensures Completes(v, Top(v), Code(v, n), n)
  {
    if n in v.zeros {
      var i := Find(v.zeros, n);
      if Count(v) == 1 {
        LeftmostLeaf(v);
        IntoLeaf(v, 0, n);
        assert Code(v, n) == Path(v, 0);
      } else {
        var bits := Msb(Width(Count(v)), i);
        ValueMsb(Width(Count(v)), i);
        IndexBits(v, bits, 0, n);
        assert bits[..0] == [] && bits[0..] == bits;
        FromRoot(v, 0, bits, n);
      }
    } else {
      LeafOk(v, n);
      var p := Find(v.lab, n);
      assert LabelOk(v, p);
      PositiveAt(v, -1, p);
      IntoLeaf(v, p, n);
    }
  }

  // ---------------------------------------------------------------- whole runs

  /** The code words of some symbols, the tree following each. */
  ghost function CodeAll(v: Tree, syms: seq<nat>): seq<bool>
    requires Valid(v) && forall i :: 0 <= i < |syms| ==> syms[i] < v.size
    decreases |syms|
  {
    if syms == [] then [] else Code(v, syms[0]) + CodeAll(Updated(v, syms[0]), syms[1..])
  }

  /** The symbols and how many bits they took. */
  datatype Outcome = Symbols(syms: seq<nat>, used: nat) | EndOfInput

  /** An outcome after symbols and bits that came before. */
  function After(syms: seq<nat>, used: nat, rest: Outcome): Outcome {
    if rest.Symbols? then Symbols(syms + rest.syms, used + rest.used) else EndOfInput
  }

  lemma StepReady(v: Tree, c: Cursor, bit: bool)
    requires Valid(v) && Ready(v, c)
    ensures var (c', done) := DecodeBit(v, c, bit);
            if done then Complete(v, c') && Symbol(v, c') < v.size
            else Ready(v, c')
  {
    var (c', done) := DecodeBit(v, c, bit);
    PositiveAt(v, -1, c'.at);
    LeftmostLeaf(v);
    assert LabelOk(v, c'.at);
  }

  /** xd3_decode_fgk: k symbols from a stream of bits. */
  ghost function DecodeAll(v: Tree, c: Cursor, bits: seq<bool>, k: nat): Outcome
    requires Valid(v) && Ready(v, c)
    decreases |bits|
  {
    if k == 0 then Symbols([], 0)
    else if bits == [] then EndOfInput
    else
      StepReady(v, c, bits[0]);
      var (c', done) := DecodeBit(v, c, bits[0]);
      if !done then After([], 1, DecodeAll(v, c', bits[1..], k))
      else
        var v' := Updated(v, Symbol(v, c'));
        TopReady(v');
        After([Symbol(v, c')], 1, DecodeAll(v', Top(v'), bits[1..], k - 1))
  }

  lemma TopReady(v: Tree)
    requires Valid(v)
    ensures Ready(v, Top(v))
  {
    if |v.up| >= 1 {
      RootIsParent(v);
    }
    PositiveAt(v, -1, v.Root());
  }

  lemma {:induction false} DecodeOne(v: Tree, c: Cursor, bits: seq<bool>, more: seq<bool>, k: nat, n: nat)
    requires Valid(v) && Completes(v, c, bits, n) && k >= 1 && n < v.size
    ensures Ready(Updated(v, n), Top(Updated(v, n)))
    ensures DecodeAll(v, c, bits + more, k) ==
            After([n], |bits|, DecodeAll(Updated(v, n), Top(Updated(v, n)), more, k - 1))
    decreases |bits|
  {
    hide Mid, Valid, Shape, Updated, Ready, DecodeBit, Symbol;
    TopReady(Updated(v, n));
    var (c', done) := DecodeBit(v, c, bits[0]);
    assert (bits + more)[1..] == bits[1..] + more;
    if |bits| == 1 {
      assert bits[1..] + more == more;
    } else {
      DecodeOne(v, c', bits[1..], more, k, n);
    }
  }

  /** Decoding gives back any run of symbols, whatever follows their bits. */
  lemma {:induction false} RoundTrip(v: Tree, syms: seq<nat>, more: seq<bool>)
    requires Valid(v) && forall i :: 0 <= i < |syms| ==> syms[i] < v.size
    ensures Ready(v, Top(v)) &&
            DecodeAll(v, Top(v), CodeAll(v, syms) + more, |syms|) == Symbols(syms, |CodeAll(v, syms)|)
    decreases |syms|
  {
    hide Mid, Valid, Shape, Updated, Ready, DecodeBit, Symbol, Completes, Code;
    TopReady(v);
    if syms != [] {
      var n, v' := syms[0], Updated(v, syms[0]);
      Lockstep(v, n);
      RoundTrip(v', syms[1..], more);
      DecodeOne(v, Top(v), Code(v, n), CodeAll(v', syms[1..]) + more, |syms|, n);
      assert CodeAll(v, syms) + more == Code(v, n) + (CodeAll(v', syms[1..]) + more);
    }
  }

  /** The tree after some symbols. */
  ghost function Trained(v: Tree, syms: seq<nat>): (r: Tree)
    requires Valid(v) && forall i :: 0 <= i < |syms| ==> syms[i] < v.size
    ensures Valid(r) && r.size == v.size
    decreases |syms|
  {
    if syms == [] then v else Trained(Updated(v, syms[0]), syms[1..])
  }
}

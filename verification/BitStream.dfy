/** Packing bits into bytes and back: xd3_encode_bit(s), xd3_flush_bits and xd3_decode_bits of
    Baseline/third/xdelta/xdelta3-second.h. */
module BitStream {
  import opened Basics

  /** A byte as the set of the places of its one bits; a mask `1 << k` is the place k. */
  type Octet = b: set<nat> | forall k :: k in b ==> k < 8

  /** The bits of a byte, the lowest first: the order in which they are written and read. */
  function BitsOf(b: set<nat>): (r: seq<bool>)
    ensures |r| == 8
  {
    seq(8, k => k in b)
  }

  function BytesBits(s: seq<Octet>): seq<bool> {
    if s == [] then [] else BytesBits(s[..|s| - 1]) + BitsOf(s[|s| - 1])
  }

  /** The n low bits of v, the highest first. */
  function Msb(n: nat, v: nat): (r: seq<bool>)
    ensures |r| == n
  {
    if n == 0 then [] else Msb(n - 1, v / 2) + [v % 2 == 1]
  }

  /** The number that bits read highest first make. */
  function Value(bits: seq<bool>): nat {
    if bits == [] then 0 else 2 * Value(bits[..|bits| - 1]) + (if bits[|bits| - 1] then 1 else 0)
  }

  lemma {:induction false} ValueMsb(n: nat, v: nat)
    requires v < Pow2(n)
    ensures Value(Msb(n, v)) == v
  {
    if n > 0 {
      ValueMsb(n - 1, v / 2);
      assert Msb(n, v)[..n - 1] == Msb(n - 1, v / 2);
    }
  }

  /** The first k of the n bits make v without its n - k low bits. */
  lemma {:induction false} ValuePrefix(n: nat, v: nat, k: nat)
    requires v < Pow2(n) && k <= n
    ensures Value(Msb(n, v)[..k]) == v / Pow2(n - k)
    decreases n
  {
    if k == n {
      assert Msb(n, v)[..n] == Msb(n, v);
      ValueMsb(n, v);
    } else {
      ValuePrefix(n - 1, v / 2, k);
      assert Msb(n, v)[..k] == Msb(n - 1, v / 2)[..k];
      DivDiv(v, Pow2(n - 1 - k));
    }
  }

  lemma DivDiv(v: nat, p: nat)
    requires p >= 1
    ensures v / 2 / p == v / (2 * p)
  {
    var q := v / (2 * p);
    var r := v % (2 * p);
    assert v == q * (2 * p) + r;
    assert v / 2 == q * p + r / 2 by { assert v == 2 * (q * p) + r; }
    assert r / 2 < p;
    DivUnique(v / 2, p, q, r / 2);
  }

  function Padding(n: nat): seq<bool> {
    seq(n, _ => false)
  }

  class BitWriter {
    var output: seq<Octet>
    var curByte: Octet
    var curMask: nat

    ghost predicate Valid()
      reads this
    {
      curMask < 8 && forall k :: k in curByte ==> k < curMask
    }

    /** All bits given so far. */
    ghost function Written(): seq<bool>
      reads this
      requires Valid()
    {
      BytesBits(output) + BitsOf(curByte)[..curMask]
    }

    /** BIT_STATE_ENCODE_INIT */
    constructor ()
      ensures Valid() && Written() == []
    {
      output, curByte, curMask := [], {}, 0;
    }

    /** xd3_encode_bit */
    method EncodeBit(bit: bool)
      requires Valid()
      modifies this
      ensures Valid() && Written() == old(Written()) + [bit]
    {
      ghost var k, before := curMask, BitsOf(curByte);
      if bit {
        curByte := curByte + {curMask};
      }
      ghost var after := BitsOf(curByte);
      assert after[..k + 1] == before[..k] + [bit];
      if curMask == 7 {
        output := output + [curByte];
        assert output[..|output| - 1] == old(output) && after[..8] == after;
        curMask := 0;
        curByte := {};
      } else {
        curMask := curMask + 1;
      }
    }

    /** xd3_encode_bits: nbits bits of value, the highest first. */
    method EncodeBits(nbits: nat, value: nat)
      requires Valid() && nbits > 0 && value < Pow2(nbits)
      modifies this
      ensures Valid() && Written() == old(Written()) + Msb(nbits, value)
    {
      var mask := Pow2(nbits);
      ghost var n := nbits;
      assert old(Written()) + [] == Written();
      while mask != 1
        invariant n <= nbits && mask == Pow2(n) && Valid()
        invariant Written() == old(Written()) + Msb(nbits, value)[..nbits - n]
      {
        assert n > 0;
        ghost var was := Written();
        mask := mask / 2;
        n := n - 1;
        MsbBit(nbits, value, nbits - n - 1);
        EncodeBit((value / mask) % 2 == 1);   // value & mask
        ghost var bits := Msb(nbits, value);
        assert bits[..nbits - n] == bits[..nbits - n - 1] + [bits[nbits - n - 1]];
      }
    }

    /** xd3_flush_bits: the last byte, its unused bits zero. */
    method FlushBits()
      requires Valid()
      modifies this
      ensures exists pad: nat :: pad < 8 && BytesBits(output) == old(Written()) + Padding(pad)
    {
      if curMask != 0 {
        output := output + [curByte];
        ghost var pad := 8 - curMask;
        assert output[..|output| - 1] == old(output);
        assert BitsOf(curByte) == BitsOf(curByte)[..curMask] + Padding(pad);
        assert BytesBits(output) == old(Written()) + Padding(pad);
      } else {
        assert old(Written()) + Padding(0) == BytesBits(output);
      }
    }
  }

  lemma {:induction false} MsbBit(n: nat, v: nat, k: nat)
    requires k < n
    ensures Msb(n, v)[k] <==> (v / Pow2(n - 1 - k)) % 2 == 1
    decreases n
  {
    if k < n - 1 {
      MsbBit(n - 1, v / 2, k);
      DivDiv(v, Pow2(n - 2 - k));
    }
  }

  class BitReader {
    const input: seq<Octet>
    var pos: nat
    var curByte: Octet
    var curMask: nat

    ghost predicate Valid()
      reads this
    {
      curMask <= 8 && pos <= |input|
    }

    /** The bits still to be read. */
    ghost function Rest(): seq<bool>
      reads this
      requires Valid()
    {
      BitsOf(curByte)[curMask..] + BytesBits(input[pos..])
    }

    /** BIT_STATE_DECODE_INIT: the mask stands behind an empty byte. */
    constructor (input: seq<Octet>)
      ensures Valid() && Rest() == BytesBits(input) && this.input == input
    {
      this.input := input;
      pos, curByte, curMask := 0, {}, 8;
      new;
      assert this.input[0..] == input;
    }

    /** The step shared by xd3_decode_bits and djw_decode_symbol: the next bit, from the next byte
        if the current one is used up; false for `ok` at the end of the input. */
    method NextBit() returns (ok: bool, bit: bool)
      requires Valid()
      modifies this
      ensures Valid() && (ok <==> old(Rest()) != [])
      ensures ok ==> old(Rest()) == [bit] + Rest()
    {
      if curMask == 8 {
        if pos == |input| {
          assert BytesBits(input[pos..]) == [];
          return false, false;
        }
        BytesCons(input[pos], input[pos + 1..]);
        assert input[pos..] == [input[pos]] + input[pos + 1..];
        curByte := input[pos];
        pos := pos + 1;
        curMask := 0;
      }
      assert BitsOf(curByte)[curMask..] == [curMask in curByte] + BitsOf(curByte)[curMask + 1..];
      ok, bit := true, curMask in curByte;
      curMask := curMask + 1;
    }

    /** xd3_decode_bits */
    method DecodeBits(nbits: nat) returns (ok: bool, value: nat)
      requires Valid() && nbits > 0
      modifies this
      ensures Valid() && (ok <==> |old(Rest())| >= nbits)
      ensures ok ==> value == Value(old(Rest())[..nbits]) && Rest() == old(Rest())[nbits..]
    {
      value := 0;
      var vmask := Pow2(nbits);
      ghost var n, all := 0, Rest();
      while vmask != 1
        invariant n <= nbits && vmask == Pow2(nbits - n) && Valid()
        invariant n <= |all| && Rest() == all[n..] && value == Value(all[..n]) * vmask
      {
        assert n < nbits;
        vmask := vmask / 2;
        var bit;
        ok, bit := NextBit();
        if !ok {
          return;
        }
        assert all[n..][0] == bit && all[n..][1..] == all[n + 1..];
        ValueStep(all, n, vmask);
        value := if bit then value + vmask else value;   // value |= vmask
        n := n + 1;
      }
      ok := true;
    }
  }

  lemma ValueStep(all: seq<bool>, n: nat, mask: nat)
    requires n < |all|
    ensures Value(all[..n + 1]) * mask == Value(all[..n]) * (2 * mask) + (if all[n] then mask else 0)
  {
    assert all[..n + 1][..n] == all[..n];
    var v, b := Value(all[..n]), if all[n] then 1 else 0;
    assert (2 * v + b) * mask == v * (2 * mask) + b * mask;
  }

  lemma {:induction false} BytesCons(b: Octet, s: seq<Octet>)
    ensures BytesBits([b] + s) == BitsOf(b) + BytesBits(s)
  {
    if s == [] {
      assert [b] + s == [b] && [b][..0] == [];
    } else {
      assert ([b] + s)[..|s|] == [b] + s[..|s| - 1];
      BytesCons(b, s[..|s| - 1]);
    }
  }
}

/** Producing a target window: xd3_decode_emit, xd3_decode_instruction, xd3_decode_parse_halfinst and
    xd3_decode_output_halfinst of Baseline/third/xdelta/xdelta3-decode.h, against the meaning of VCDIFF
    instructions (section 3 of RFC 3284). */
module VcdEmit {
  import opened Adler
  import opened Basics

  /** A half-instruction with its size and address as read from the sections; Bad if they cannot be read. */
  datatype Half = Noop | Add(size: nat) | Run(size: nat) | Copy(size: nat, addr: nat) | Bad

  datatype Cksum = NotGiven | Given(adler32: nat)

  /** What stays fixed while a window is decoded: the source and how it is cut into blocks, the copy
      window within it, the target length and the data section; the bytes of the address section that
      the instructions leave over, and the checksum of the target. */
  datatype Window = Window(src: Bytes, blksize: nat, cpyoff: nat, cpylen: nat, tgtlen: nat, data: Bytes,
                           addrLeft: nat, cksum: Cksum)

  datatype Outcome = Output(bytes: Bytes) | Invalid

  // ----- the meaning -----

  /** Copying from the target itself, byte by byte: a byte just written may be read again. */
  function CopyTarget(out: Bytes, at: nat, n: nat): (r: Bytes)
    requires n > 0 ==> at < |out|
    ensures |r| == |out| + n
    decreases n
  {
    if n == 0 then out else CopyTarget(out + [out[at]], at + 1, n - 1)
  }

  /** The checks of xd3_decode_parse_halfinst, `here` being the address of the next byte. */
  predicate Parses(w: Window, h: Half, here: nat) {
    match h
    case Noop => true
    case Bad => false
    case Add(size) => here + size <= w.cpylen + w.tgtlen
    case Run(size) => here + size <= w.cpylen + w.tgtlen
    case Copy(size, addr) =>
      addr < here && (addr < w.cpylen ==> addr + size <= w.cpylen) && here + size <= w.cpylen + w.tgtlen
  }

  /** The source has the bytes of a copy. One of no bytes is the exception: see EmptyCopy. */
  predicate Reaches(w: Window, addr: nat, size: nat)
    requires w.blksize > 0
  {
    if size > 0 then w.cpyoff + addr + size <= |w.src| else !Short(w, w.cpyoff + addr, 0)
  }

  /** The tests at the end of a window. */
  predicate Complete(w: Window, out: Bytes, dpos: nat) {
    && |out| == w.tgtlen && dpos == |w.data| && w.addrLeft == 0
    && (w.cksum.Given? ==> Checksum(out) == w.cksum.adler32)
  }

  /** The instructions hs after the output out, with the data from dpos on. */
  function Mean(w: Window, hs: seq<Half>, out: Bytes, dpos: nat): Outcome
    requires w.blksize > 0
    decreases |hs|
  {
    if hs == [] then
      if Complete(w, out, dpos) then Output(out) else Invalid
    else if !Parses(w, hs[0], w.cpylen + |out|) then Invalid
    else
      match hs[0]
      case Noop => Mean(w, hs[1..], out, dpos)
      case Run(size) =>
        if dpos < |w.data| then Mean(w, hs[1..], out + Repeat(w.data[dpos], size), dpos + 1) else Invalid
      case Add(size) =>
        if dpos + size <= |w.data| then Mean(w, hs[1..], out + w.data[dpos..dpos + size], dpos + size) else Invalid
      case Copy(size, addr) =>
        if addr >= w.cpylen then Mean(w, hs[1..], CopyTarget(out, addr - w.cpylen, size), dpos)
        else if Reaches(w, addr, size) then
          Mean(w, hs[1..], out + Piece(w.src, w.cpyoff + addr, size), dpos)
        else Invalid
  }

  function Piece(src: Bytes, at: nat, n: nat): Bytes {
    if n == 0 then [] else if at + n <= |src| then src[at..at + n] else []
  }

  // ----- blocks of the source -----

  function Start(blksize: nat, block: nat): nat {
    block * blksize
  }

  /** The bytes of a block; the last one may be partial, and those behind it are empty. */
  function Block(src: Bytes, blksize: nat, block: nat): (r: Bytes)
    ensures |r| <= blksize
  {
    var a := Start(blksize, block);
    if a >= |src| then [] else if a + blksize <= |src| then src[a..a + blksize] else src[a..]
  }

  /** The test that the block with the address does not hold the bytes asked for. */
  predicate Short(w: Window, at: nat, size: nat)
    requires w.blksize > 0
  {
    var onblk := |Block(w.src, w.blksize, at / w.blksize)|;
    onblk != w.blksize && at % w.blksize + size > onblk
  }

  lemma Address(blksize: nat, at: nat)
    requires blksize > 0
    ensures Start(blksize, at / blksize) + at % blksize == at
  {
  }

  /** For a copy of some bytes the test finds out, in the first block that is not full, whether the
      source ends too early; in a full block the bytes are those of the source. */
  lemma ShortExact(w: Window, at: nat, size: nat)
    requires w.blksize > 0 && size > 0
    ensures Short(w, at, size) ==> at + size > |w.src|
    ensures var b, off := Block(w.src, w.blksize, at / w.blksize), at % w.blksize;
            !Short(w, at, size) ==>
              var take := if off + size <= w.blksize then size else w.blksize - off;
              0 < take <= size && off + take <= |b| && at + take <= |w.src| &&
                  b[off..off + take] == w.src[at..at + take]
  {
    Address(w.blksize, at);
    var b, off := Block(w.src, w.blksize, at / w.blksize), at % w.blksize;
    var take := if off + size <= w.blksize then size else w.blksize - off;
    BlockExtent(w.src, w.blksize, at / w.blksize);
    if off + take <= |b| {
      BlockSlice(w.src, w.blksize, at / w.blksize, off, take);
    }
    hide Start, Block;
  }

  lemma BlockExtent(src: Bytes, blksize: nat, block: nat)
    ensures var a := Start(blksize, block);
            |Block(src, blksize, block)| ==
                if a >= |src| then 0 else if a + blksize <= |src| then blksize else |src| - a
  {
    hide Start;
  }

  lemma BlockSlice(src: Bytes, blksize: nat, block: nat, off: nat, take: nat)
    requires take > 0 && off + take <= |Block(src, blksize, block)|
    ensures var a := Start(blksize, block);
            a + off + take <= |src| && Block(src, blksize, block)[off..off + take] == src[a + off..a + off + take]
  {
    hide Start;
  }

  /** A copy of no bytes beyond the end of the source is refused exactly if its address lies inside a
      block. */
  lemma EmptyCopy(w: Window, at: nat)
    requires w.blksize > 0
    ensures Short(w, at, 0) <==> at > |w.src| && at % w.blksize != 0
  {
    Address(w.blksize, at);
    BlockExtent(w.src, w.blksize, at / w.blksize);
    hide Start, Block;
  }

  lemma ShortUnit(w: Window, at: nat)
    requires w.blksize == 1
    ensures !Short(w, at, 0)
  {
  }

  /** A copy of no bytes beyond the end of the source. */
  predicate EmptyBeyond(w: Window, h: Half) {
    h.Copy? && h.size == 0 && h.addr < w.cpylen && w.cpyoff + h.addr > |w.src|
  }

  /** Every such copy starts a block, if blocks have b bytes. */
  predicate EmptyAligned(w: Window, hs: seq<Half>, b: nat)
    requires b > 0
  {
    forall i :: 0 <= i < |hs| ==> AlignedAt(w, hs[i], b)
  }

  predicate AlignedAt(w: Window, h: Half, b: nat)
    requires b > 0
  {
    EmptyBeyond(w, h) ==> (w.cpyoff + h.addr) % b == 0
  }

  /** If all such copies start blocks of either size, the meaning is the same. */
  lemma {:induction false} BlocksDoNotShow(w: Window, v: Window, hs: seq<Half>, out: Bytes, dpos: nat)
    requires w.blksize > 0 && v.blksize > 0 && v == w.(blksize := v.blksize)
    requires EmptyAligned(w, hs, w.blksize) && EmptyAligned(w, hs, v.blksize)
    ensures Mean(w, hs, out, dpos) == Mean(v, hs, out, dpos)
    decreases |hs|
  {
    if hs != [] && Parses(w, hs[0], w.cpylen + |out|) {
      assert AlignedAt(w, hs[0], w.blksize) && AlignedAt(w, hs[0], v.blksize);
      assert forall i :: 0 <= i < |hs[1..]| ==> hs[1..][i] == hs[i + 1];
      hide CopyTarget, Piece, Repeat;
      match hs[0]
      case Noop => BlocksDoNotShow(w, v, hs[1..], out, dpos);
      case Run(size) =>
        if dpos < |w.data| {
          BlocksDoNotShow(w, v, hs[1..], out + Repeat(w.data[dpos], size), dpos + 1);
        }
      case Add(size) =>
        if dpos + size <= |w.data| {
          BlocksDoNotShow(w, v, hs[1..], out + w.data[dpos..dpos + size], dpos + size);
        }
      case Copy(size, addr) =>
        if addr >= w.cpylen {
          BlocksDoNotShow(w, v, hs[1..], CopyTarget(out, addr - w.cpylen, size), dpos);
        } else {
          EmptyCopy(w, w.cpyoff + addr);
          EmptyCopy(v, w.cpyoff + addr);
          hide Short;
          BlocksDoNotShow(w, v, hs[1..], out + Piece(w.src, w.cpyoff + addr, size), dpos);
        }
    }
  }

  /** The blocks do show: a window that copies no bytes from one past the end of an empty source. */
  lemma BlocksShow()
    ensures var w := Window([], 1, 1, 1, 0, [], 0, NotGiven);
            && Mean(w, [Copy(0, 0)], [], 0) == Output([])
            && Mean(w.(blksize := 2), [Copy(0, 0)], [], 0) == Invalid
  {
    var w := Window([], 1, 1, 1, 0, [], 0, NotGiven);
    ShortUnit(w, 1);
    EmptyCopy(w.(blksize := 2), 1);
    assert [Copy(0, 0)][1..] == [] && [] + Piece([], 1, 0) == [];
  }

  /** Blocks of one byte accept whatever other blocks accept. */
  lemma {:induction false} UnitRejects(w: Window, hs: seq<Half>, out: Bytes, dpos: nat)
    requires w.blksize > 0 && Mean(w.(blksize := 1), hs, out, dpos).Invalid?
    ensures Mean(w, hs, out, dpos).Invalid?
    decreases |hs|
  {
    if hs != [] && Parses(w, hs[0], w.cpylen + |out|) {
      hide CopyTarget, Piece, Repeat, Short;
      match hs[0]
      case Noop => UnitRejects(w, hs[1..], out, dpos);
      case Run(size) =>
        if dpos < |w.data| {
          UnitRejects(w, hs[1..], out + Repeat(w.data[dpos], size), dpos + 1);
        }
      case Add(size) =>
        if dpos + size <= |w.data| {
          UnitRejects(w, hs[1..], out + w.data[dpos..dpos + size], dpos + size);
        }
      case Copy(size, addr) =>
        if addr >= w.cpylen {
          UnitRejects(w, hs[1..], CopyTarget(out, addr - w.cpylen, size), dpos);
        } else {
          ShortUnit(w.(blksize := 1), w.cpyoff + addr);
          if Reaches(w, addr, size) {
            UnitRejects(w, hs[1..], out + Piece(w.src, w.cpyoff + addr, size), dpos);
          }
        }
    }
  }

  /** Blocks that such a copy does not start refuse it. */
  lemma {:induction false} InsideRejects(w: Window, hs: seq<Half>, out: Bytes, dpos: nat)
    requires w.blksize > 0 && !EmptyAligned(w, hs, w.blksize)
    ensures Mean(w, hs, out, dpos).Invalid?
    decreases |hs|
  {
    var i :| 0 <= i < |hs| && !AlignedAt(w, hs[i], w.blksize);
    if i > 0 {
      assert !AlignedAt(w, hs[1..][i - 1], w.blksize);
    }
    if Parses(w, hs[0], w.cpylen + |out|) {
      hide CopyTarget, Piece, Repeat, Short;
      match hs[0]
      case Noop => InsideRejects(w, hs[1..], out, dpos);
      case Run(size) =>
        if dpos < |w.data| {
          InsideRejects(w, hs[1..], out + Repeat(w.data[dpos], size), dpos + 1);
        }
      case Add(size) =>
        if dpos + size <= |w.data| {
          InsideRejects(w, hs[1..], out + w.data[dpos..dpos + size], dpos + size);
        }
      case Copy(size, addr) =>
        if addr >= w.cpylen {
          InsideRejects(w, hs[1..], CopyTarget(out, addr - w.cpylen, size), dpos);
        } else if !AlignedAt(w, hs[0], w.blksize) {
          EmptyCopy(w, w.cpyoff + addr);
        } else if Reaches(w, addr, size) {
          InsideRejects(w, hs[1..], out + Piece(w.src, w.cpyoff + addr, size), dpos);
        }
    }
  }

  /** The block sizes that xd3_set_source leaves: powers of two that a word of 64 bits holds. */
  function BlockSize(k: nat): (b: nat)
    requires k < 64
    ensures b >= 1
  {
    Pow2(k)
  }

  /** Whatever starts a block of the greatest size starts one of each. */
  lemma {:induction false} GreatestAligns(at: nat, k: nat, top: nat)
    requires k <= top && at % Pow2(top) == 0
    ensures at % Pow2(k) == 0
    decreases top - k
  {
    if k < top {
      GreatestAligns(at, k + 1, top);
      HalfAligns(at, Pow2(k));
    }
  }

  lemma HalfAligns(at: nat, p: nat)
    requires p > 0 && at % (2 * p) == 0
    ensures at % p == 0
  {
    var q := at / (2 * p);
    assert at == (2 * p) * q == p * (2 * q);
    Multiple(p, 2 * q);
  }

  lemma Multiple(p: nat, q: nat)
    requires p > 0
    ensures (p * q) % p == 0
  {
    DivUnique(p * q, p, q, 0);
  }

  /** What blocks of one byte reject, all blocks reject.  What they accept has the same meaning with all
      blocks exactly when every copy of no bytes beyond the end of the source lies at a multiple of the
      greatest block size; as an address is a word too, that is zero or half a word. */
  lemma EmissionIndependent(w: Window, hs: seq<Half>, out: Bytes, dpos: nat)
    ensures var unit := Mean(w.(blksize := 1), hs, out, dpos);
            if unit.Invalid? then forall k :: 0 <= k < 64 ==> Mean(w.(blksize := BlockSize(k)), hs, out, dpos).Invalid?
            else (forall k :: 0 <= k < 64 ==> Mean(w.(blksize := BlockSize(k)), hs, out, dpos) == unit)
                 <==> EmptyAligned(w, hs, BlockSize(63))
  {
    var unit := Mean(w.(blksize := 1), hs, out, dpos);
    hide Mean, Pow2;
    if unit.Invalid? {
      forall k | 0 <= k < 64 ensures Mean(w.(blksize := BlockSize(k)), hs, out, dpos).Invalid? {
        UnitRejects(w.(blksize := BlockSize(k)), hs, out, dpos);
      }
    } else if EmptyAligned(w, hs, BlockSize(63)) {
      forall k | 0 <= k < 64 ensures Mean(w.(blksize := BlockSize(k)), hs, out, dpos) == unit {
        AllAligned(w, hs, k);
        BlocksDoNotShow(w.(blksize := 1), w.(blksize := BlockSize(k)), hs, out, dpos);
      }
    } else {
      InsideRejects(w.(blksize := BlockSize(63)), hs, out, dpos);
    }
  }

  lemma AllAligned(w: Window, hs: seq<Half>, k: nat)
    requires k < 64 && EmptyAligned(w, hs, BlockSize(63))
    ensures var v, u := w.(blksize := BlockSize(k)), w.(blksize := 1);
            EmptyAligned(u, hs, BlockSize(k)) && EmptyAligned(u, hs, 1)
  {
    var u := w.(blksize := 1);
    forall i | 0 <= i < |hs| ensures AlignedAt(u, hs[i], BlockSize(k)) && AlignedAt(u, hs[i], 1) {
      assert AlignedAt(w, hs[i], BlockSize(63));
      if EmptyBeyond(w, hs[i]) {
        GreatestAligns(w.cpyoff + hs[i].addr, k, 63);
      }
    }
  }

  // ----- the decoder -----

  datatype Ret = Ok | Done | GetSrcBlk | InvalidInput

  class Decoder {
    const w: Window
    const pairs: seq<(Half, Half)>
    const out: array<Byte>          // next_out
    var next: nat                  // inst_sect.buf
    var current1: Half
    var current2: Half
    var position: nat
    var availOut: nat
    var dataPos: nat
    var curBlock: nat              // the source block that is loaded, if one is
    var loaded: bool

    constructor (w: Window, pairs: seq<(Half, Half)>, spaceOut: nat)
      requires w.blksize > 0 && w.tgtlen <= spaceOut
      ensures Valid() && Future() == Mean(w, Flatten(pairs), [], 0) && this.w == w && this.pairs == pairs && fresh(out)
    {
      this.w, this.pairs := w, pairs;
      out := new Byte[spaceOut](_ => 0);
      next, current1, current2, position, availOut, dataPos, curBlock, loaded := 0, Noop, Noop, w.cpylen, 0, 0, 0,
          false;
      new;
      assert this.pairs[0..] == pairs && out[..0] == [];
      SkipNoops(w, Flatten(pairs), [], 0);
    }

    /** The instructions still to be carried out. */
    ghost function Pending(): seq<Half>
      reads this
      requires next <= |pairs|
    {
      [current1, current2] + Flatten(pairs[next..])
    }

    /** What the rest of the window comes to. */
    ghost function Future(): Outcome
      reads this, out
      requires next <= |pairs| && availOut <= out.Length && w.blksize > 0
    {
      Mean(w, Pending(), out[..availOut], dataPos)
    }

    /** The position runs ahead of the output by the sizes of the instructions parsed, and stays within
        the window. */
    ghost predicate Valid()
      reads this, out
    {
      && w.blksize > 0 && w.tgtlen <= out.Length && next <= |pairs|
      && position <= w.cpylen + w.tgtlen && position == w.cpylen + availOut + Size(current1) + Size(current2)
      && Parses(w, current1, w.cpylen + availOut) && Parses(w, current2, w.cpylen + availOut + Size(current1))
      && dataPos <= |w.data|
    }

    /** xd3_getblk: the block is there, or it is asked for. */
    method GetBlock(block: nat) returns (ok: bool)
      ensures ok <==> loaded && curBlock == block
    {
      ok := loaded && curBlock == block;
    }

    /** The application answers a request, with this or any other block. */
    method Load(block: nat)
      requires Valid()
      modifies this`curBlock, this`loaded
      ensures Valid() && Future() == old(Future()) && loaded && curBlock == block
    {
      curBlock, loaded := block, true;
    }

    /** xd3_decode_output_halfinst: an instruction is carried out, or as much of a copy from the source as
        the block holds; or a block is asked for. */
    method OutputHalf(inst: Half, ghost rest: seq<Half>) returns (ret: Ret, left: Half)
      requires w.blksize > 0 && inst != Noop && Parses(w, inst, w.cpylen + availOut)
      requires w.tgtlen <= out.Length && dataPos <= |w.data|
      modifies out, this`availOut, this`dataPos
      ensures w.tgtlen <= out.Length && dataPos <= |w.data| && availOut <= out.Length
      ensures ret == Ok || ret == GetSrcBlk || ret == InvalidInput
      ensures ret == GetSrcBlk ==> Wants(inst) && left == inst && availOut == old(availOut)
      ensures ret == GetSrcBlk ==> dataPos == old(dataPos) && out[..] == old(out[..])
      ensures ret == Ok ==> Parses(w, left, w.cpylen + availOut) && Weight(left) < Weight(inst)
                            && availOut + Size(left) == old(availOut) + Size(inst)
                            && Mean(w, [left] + rest, out[..availOut], dataPos)
                               == Mean(w, [inst] + rest, old(out[..availOut]), old(dataPos))
      ensures ret == InvalidInput ==> Mean(w, [inst] + rest, old(out[..availOut]), old(dataPos)) == Invalid
    {
      hide Short, Block, CopyTarget, Mean, Repeat, Taken;
      var take := Size(inst);
      ret, left := InvalidInput, inst;
      if availOut + take > out.Length {
        assert false;
      }
      ghost var o := out[..availOut];
      MeanHead(w, inst, rest, o, dataPos);
      match inst {
        case Run(size) =>
          if dataPos == |w.data| {
            return;
          }
          Fill(out, availOut, w.data[dataPos], take);
          dataPos := dataPos + 1;
          availOut := availOut + take;
          left := Noop;
        case Add(size) =>
          if dataPos + take > |w.data| {
            return;
          }
          CopyInto(out, availOut, w.data[dataPos..dataPos + take]);
          dataPos := dataPos + take;
          availOut := availOut + take;
          left := Noop;
        case Copy(size, addr) =>
          if addr < w.cpylen {
            ret, left := CopySource(size, addr, rest);
            return;
          }
          CopyWithin(out, availOut, addr - w.cpylen, take);
          left := Noop;
          availOut := availOut + take;
        case _ =>
      }
      ret := Ok;
      MeanHead(w, left, rest, out[..availOut], dataPos);
    }

    /** The part of it for a copy from the source. */
    method CopySource(size: nat, addr: nat, ghost rest: seq<Half>) returns (ret: Ret, left: Half)
      requires w.blksize > 0 && addr < w.cpylen && Parses(w, Copy(size, addr), w.cpylen + availOut)
      requires w.tgtlen <= out.Length
      modifies out, this`availOut
      ensures ret == Ok || ret == GetSrcBlk || ret == InvalidInput
      ensures availOut <= out.Length
      ensures ret == GetSrcBlk ==> Wants(left) && left == Copy(size, addr)
      ensures ret == GetSrcBlk ==> availOut == old(availOut) && out[..] == old(out[..])
      ensures ret == Ok ==> Parses(w, left, w.cpylen + availOut) && Weight(left) < Weight(Copy(size, addr))
                            && availOut + Size(left) == old(availOut) + size
                            && Mean(w, [left] + rest, out[..availOut], dataPos)
                               == Mean(w, [Copy(size, addr)] + rest, old(out[..availOut]), dataPos)
      ensures ret == InvalidInput ==> Mean(w, [Copy(size, addr)] + rest, old(out[..availOut]), dataPos) == Invalid
    {
      hide Short, Block, Mean, Taken;
      var at := w.cpyoff + addr;
      var block, blkoff := at / w.blksize, at % w.blksize;
      left := Copy(size, addr);
      var here := GetBlock(block);
      if !here {
        return GetSrcBlk, left;
      }
      SourceStep(w, size, addr, rest, out[..availOut], dataPos);
      if Short(w, at, size) {
        return InvalidInput, left;
      }
      var take := size;
      if blkoff + take <= w.blksize {
        left := Noop;
      } else {
        take := w.blksize - blkoff;
        left := Copy(size - take, addr + take);
      }
      CopyInto(out, availOut, Taken(w, at, take));
      availOut := availOut + take;
      ret := Ok;
      if left == Noop {
        MeanHead(w, left, rest, out[..availOut], dataPos);
      }
    }

    /** xd3_decode_instruction: the next pair is parsed; the position moves on by its sizes. */
    method DecodeInstruction() returns (ret: Ret)
      requires Valid() && current1 == Noop && current2 == Noop && next < |pairs|
      modifies this`next, this`current1, this`current2, this`position
      ensures ret == Ok || ret == InvalidInput
      ensures ret == Ok ==> Valid() && Future() == old(Future()) && Work() < old(Work())
      ensures ret == InvalidInput ==> old(Future()) == Invalid
    {
      ghost var o := out[..availOut];
      assert pairs[next..][0] == pairs[next] && pairs[next..][1..] == pairs[next + 1..];
      PairHead(w, pairs, next, o, dataPos);
      hide Mean;
      var h1, h2 := pairs[next].0, pairs[next].1;
      if !Parses(w, h1, position) {
        return InvalidInput;
      }
      if !Parses(w, h2, position + Size(h1)) {
        return InvalidInput;
      }
      next, current1, current2 := next + 1, h1, h2;
      position := position + Size(h1) + Size(h2);
      ret := Ok;
    }

    /** xd3_decode_emit: the window is finished, or is found to be invalid, or a block of the source is asked
        for; whichever block is then loaded, the next call goes on where this one stopped. */
    method Emit() returns (ret: Ret)
      requires Valid()
      modifies this`next, this`current1, this`current2, this`position, this`availOut, this`dataPos, out
      ensures ret == Done || ret == GetSrcBlk || ret == InvalidInput
      ensures ret == GetSrcBlk ==> Valid() && Future() == old(Future())
      ensures ret == GetSrcBlk ==> Work() < old(Work()) || !(loaded && curBlock == old(NeededBlock()))
      ensures ret == Done ==> Valid() && old(Future()) == Output(out[..w.tgtlen])
      ensures ret == InvalidInput ==> old(Future()) == Invalid
    {
      hide Mean, Flatten, PairsWork;
      ghost var goal, work := Future(), Work();
      while next != |pairs| || current1 != Noop || current2 != Noop
        invariant Valid() && Future() == goal && (Work() < work || Untouched(old(current1), old(current2), old(next)))
        invariant Work() <= work
        decreases Work()
      {
        if current1 == Noop && current2 == Noop {
          ret := DecodeInstruction();
          if ret != Ok {
            return;
          }
        }
        ghost var before := Work();
        ret := OutputFirst();
        if ret != Ok {
          return;
        }
        ret := OutputSecond();
        if ret != Ok {
          return;
        }
      }
      NothingLeft(w, pairs[next..], out[..availOut], dataPos);
      if availOut != w.tgtlen {
        return InvalidInput;
      }
      if dataPos != |w.data| {
        return InvalidInput;
      }
      if w.addrLeft != 0 {
        return InvalidInput;
      }
      if w.cksum.Given? {
        var a32 := Adler32(out[..availOut]);
        if a32 != w.cksum.adler32 {
          return InvalidInput;
        }
      }
      ret := Done;
    }

    /** The loop for dec_current1. */
    method OutputFirst() returns (ret: Ret)
      requires Valid()
      modifies this`current1, this`availOut, this`dataPos, out
      ensures ret == Ok || ret == GetSrcBlk || ret == InvalidInput
      ensures ret != InvalidInput ==> Valid() && Future() == old(Future())
      ensures ret != InvalidInput ==> Work() < old(Work()) || Untouched(old(current1), old(current2), old(next))
      ensures ret == Ok ==> current1 == Noop
      ensures ret == Ok && old(current1) != Noop ==> Work() < old(Work())
      ensures ret == GetSrcBlk ==> Wants(current1) || (current1 == Noop && Wants(current2))
      ensures ret == InvalidInput ==> old(Future()) == Invalid
    {
      hide Mean, Flatten, PairsWork;
      ghost var goal, work := Future(), Work();
      while current1 != Noop
        invariant Valid() && Future() == goal
        invariant Work() < work || Untouched(old(current1), old(current2), next)
        decreases Weight(current1)
      {
        Split(current1, current2, Flatten(pairs[next..]));
        ret, current1 := OutputHalf(current1, [current2] + Flatten(pairs[next..]));
        Split(current1, current2, Flatten(pairs[next..]));
        if ret != Ok {
          return;
        }
      }
      ret := Ok;
    }

    /** The loop for dec_current2. */
    method OutputSecond() returns (ret: Ret)
      requires Valid() && current1 == Noop
      modifies this`current2, this`availOut, this`dataPos, out
      ensures ret == Ok || ret == GetSrcBlk || ret == InvalidInput
      ensures ret != InvalidInput ==> Valid() && Future() == old(Future())
      ensures ret != InvalidInput ==> Work() < old(Work()) || Untouched(old(current1), old(current2), old(next))
      ensures ret == Ok ==> current2 == Noop
      ensures ret == Ok && old(current2) != Noop ==> Work() < old(Work())
      ensures ret == GetSrcBlk ==> Wants(current2)
      ensures ret == InvalidInput ==> old(Future()) == Invalid
    {
      hide Mean, Flatten, PairsWork;
      ghost var goal, work := Future(), Work();
      while current2 != Noop
        invariant Valid() && Future() == goal
        invariant Work() < work || Untouched(old(current1), old(current2), next)
        decreases Weight(current2)
      {
        NoopFirst(w, current2, Flatten(pairs[next..]), out[..availOut], dataPos);
        ret, current2 := OutputHalf(current2, Flatten(pairs[next..]));
        NoopFirst(w, current2, Flatten(pairs[next..]), out[..availOut], dataPos);
        if ret != Ok {
          return;
        }
      }
      ret := Ok;
    }

    /** What is left to do, in instructions and bytes. */
    ghost function Work(): nat
      reads this
      requires next <= |pairs|
    {
      PairsWork(pairs[next..]) + Weight(current1) + Weight(current2)
    }

    ghost predicate Untouched(h1: Half, h2: Half, n: nat)
      reads this
    {
      current1 == h1 && current2 == h2 && next == n
    }

    /** The instruction is a copy from a block of the source that is not loaded. */
    ghost predicate Wants(h: Half)
      reads this
      requires w.blksize > 0
    {
      h.Copy? && h.addr < w.cpylen && !(loaded && curBlock == (w.cpyoff + h.addr) / w.blksize)
    }

    /** The block that the first instruction under way asks for. */
    function NeededBlock(): nat
      reads this
      requires w.blksize > 0
    {
      var h := if current1 != Noop then current1 else current2;
      if h.Copy? then (w.cpyoff + h.addr) / w.blksize else 0
    }

    /** The application's loop: it loads the blocks asked for. The window is decoded to its meaning. */
    method DecodeWindow() returns (ret: Ret)
      requires Valid()
      modifies this, out
      ensures ret == Done || ret == InvalidInput
      ensures ret == Done ==> old(Future()) == Output(out[..w.tgtlen])
      ensures ret == InvalidInput ==> old(Future()) == Invalid
    {
      hide Mean, Flatten, PairsWork;
      ret := Emit();
      while ret == GetSrcBlk
        invariant ret == Done || ret == GetSrcBlk || ret == InvalidInput
        invariant ret == GetSrcBlk ==> Valid() && Future() == old(Future())
        invariant ret == Done ==> Valid() && old(Future()) == Output(out[..w.tgtlen])
        invariant ret == InvalidInput ==> old(Future()) == Invalid
        decreases ret == GetSrcBlk, if ret == GetSrcBlk then Work() else 0
      {
        Load(NeededBlock());
        ret := Emit();
      }
    }
  }

  function PairsWork(pairs: seq<(Half, Half)>): nat {
    if pairs == [] then 0 else 1 + Weight(pairs[0].0) + Weight(pairs[0].1) + PairsWork(pairs[1..])
  }

  lemma Split(h1: Half, h2: Half, rest: seq<Half>)
    ensures [h1, h2] + rest == [h1] + ([h2] + rest)
  {
  }

  lemma NoopFirst(w: Window, h: Half, rest: seq<Half>, out: Bytes, dpos: nat)
    requires w.blksize > 0
    ensures Mean(w, [Noop, h] + rest, out, dpos) == Mean(w, [h] + rest, out, dpos)
  {
    assert ([Noop, h] + rest)[1..] == [h] + rest;
  }

  lemma NothingLeft(w: Window, pairs: seq<(Half, Half)>, out: Bytes, dpos: nat)
    requires w.blksize > 0 && pairs == []
    ensures Mean(w, [Noop, Noop] + Flatten(pairs), out, dpos) ==
            if Complete(w, out, dpos) then Output(out) else Invalid
  {
    SkipNoops(w, Flatten(pairs), out, dpos);
  }

  /** The meaning of the rest, with its first pair in view. */
  lemma PairHead(w: Window, pairs: seq<(Half, Half)>, next: nat, out: Bytes, dpos: nat)
    requires w.blksize > 0 && next < |pairs|
    ensures var h1, h2 := pairs[next].0, pairs[next].1;
            var m := Mean(w, [Noop, Noop] + Flatten(pairs[next..]), out, dpos);
            && m == Mean(w, [h1, h2] + Flatten(pairs[next + 1..]), out, dpos)
            && (!Parses(w, h1, w.cpylen + |out|) ==> m == Invalid)
            && (Parses(w, h1, w.cpylen + |out|) && !Parses(w, h2, w.cpylen + |out| + Size(h1)) ==> m == Invalid)
  {
    var h1, h2 := pairs[next].0, pairs[next].1;
    var rest := Flatten(pairs[next + 1..]);
    assert pairs[next..][0] == pairs[next] && pairs[next..][1..] == pairs[next + 1..];
    SkipNoops(w, Flatten(pairs[next..]), out, dpos);
    assert [h1, h2] + rest == [h1] + ([h2] + rest);
    if Parses(w, h1, w.cpylen + |out|) && !Parses(w, h2, w.cpylen + |out| + Size(h1)) {
      MeanHead(w, h1, [h2] + rest, out, dpos);
    }
  }

  /** The bytes of the loaded block that a copy takes. */
  function Taken(w: Window, at: nat, take: nat): (r: Bytes)
    requires w.blksize > 0
    requires take > 0 ==> at % w.blksize + take <= |Block(w.src, w.blksize, at / w.blksize)|
    ensures |r| == take
  {
    if take == 0 then [] else Block(w.src, w.blksize, at / w.blksize)[at % w.blksize..at % w.blksize + take]
  }

  /** What the first instruction does to the meaning of the rest. */
  lemma MeanHead(w: Window, h: Half, rest: seq<Half>, out: Bytes, dpos: nat)
    requires w.blksize > 0 && Parses(w, h, w.cpylen + |out|)
    ensures var m := Mean(w, [h] + rest, out, dpos);
            match h
            case Noop => m == Mean(w, rest, out, dpos)
            case Bad => true
            case Run(size) =>
              m == if dpos < |w.data| then Mean(w, rest, out + Repeat(w.data[dpos], size), dpos + 1) else Invalid
            case Add(size) =>
              m == if dpos + size <= |w.data| then Mean(w, rest, out + w.data[dpos..dpos + size],
                  dpos + size) else Invalid
            case Copy(size, addr) =>
              m == if addr >= w.cpylen then Mean(w, rest, CopyTarget(out, addr - w.cpylen, size), dpos)
                   else if Reaches(w, addr, size) then Mean(w, rest, out + Piece(w.src, w.cpyoff + addr, size), dpos)
                   else Invalid
  {
    assert ([h] + rest)[1..] == rest;
  }

  /** A copy from the source, block by block. */
  lemma SourceStep(w: Window, size: nat, addr: nat, rest: seq<Half>, out: Bytes, dpos: nat)
    requires w.blksize > 0 && addr < w.cpylen && Parses(w, Copy(size, addr), w.cpylen + |out|)
    ensures var at := w.cpyoff + addr;
            var m, off := Mean(w, [Copy(size, addr)] + rest, out, dpos), at % w.blksize;
            if Short(w, at, size) then m == Invalid
            else if off + size <= w.blksize then
              (size > 0 ==> off + size <= |Block(w.src, w.blksize, at / w.blksize)|)
              && m == Mean(w, rest, out + Taken(w, at, size), dpos)
            else
              var take := w.blksize - off;
              0 < take < size && off + take <= |Block(w.src, w.blksize, at / w.blksize)|
              && Parses(w, Copy(size - take, addr + take), w.cpylen + |out| + take)
              && m == Mean(w, [Copy(size - take, addr + take)] + rest, out + Taken(w, at, take), dpos)
  {
    hide Mean, Short, Block;
    var at := w.cpyoff + addr;
    var off := at % w.blksize;
    MeanHead(w, Copy(size, addr), rest, out, dpos);
    if size == 0 {
      assert off + size <= w.blksize;
    } else {
      ShortExact(w, at, size);
      if !Short(w, at, size) && off + size > w.blksize {
        var take := w.blksize - off;
        MeanHead(w, Copy(size - take, addr + take), rest, out + Taken(w, at, take), dpos);
        if at + size <= |w.src| {
          PieceSplit(w.src, at, size, take, out);
        }
      }
    }
  }

  lemma PieceSplit(src: Bytes, at: nat, size: nat, take: nat, out: Bytes)
    requires take < size && at + size <= |src|
    ensures out + Piece(src, at, size) == out + src[at..at + take] + Piece(src, at + take, size - take)
  {
    assert src[at..at + size] == src[at..at + take] + src[at + take..at + size];
  }

  function Weight(h: Half): nat {
    if h == Noop then 0 else 1 + Size(h)
  }

  /** memset */
  method Fill(out: array<Byte>, at: nat, x: Byte, n: nat)
    requires at + n <= out.Length
    modifies out
    ensures out[..at + n] == old(out[..at]) + Repeat(x, n)
  {
    for i := 0 to n
      invariant out[..at + i] == old(out[..at]) + Repeat(x, i)
    {
      out[at + i] := x;
      assert out[..at + i + 1] == out[..at + i] + [x];
    }
  }

  /** The loop for a copy that may overlap its own output. */
  method CopyWithin(out: array<Byte>, at: nat, from: nat, n: nat)
    requires at + n <= out.Length && (n > 0 ==> from < at)
    modifies out
    ensures out[..at + n] == CopyTarget(old(out[..at]), from, n)
  {
    var dst: nat, src: nat, i: nat := at, from, n;
    while i != 0
      invariant i <= n && dst == at + (n - i) && src == from + (n - i)
      invariant CopyTarget(out[..dst], src, i) == CopyTarget(old(out[..at]), from, n)
    {
      ghost var o := out[..dst];
      out[dst] := out[src];
      assert out[..dst + 1] == o + [o[src]];
      dst, src, i := dst + 1, src + 1, i - 1;
    }
  }

  function Size(h: Half): nat {
    if h.Add? || h.Run? || h.Copy? then h.size else 0
  }

  function Flatten(pairs: seq<(Half, Half)>): seq<Half> {
    if pairs == [] then [] else [pairs[0].0, pairs[0].1] + Flatten(pairs[1..])
  }

  lemma SkipNoops(w: Window, hs: seq<Half>, out: Bytes, dpos: nat)
    requires w.blksize > 0
    ensures Mean(w, [Noop, Noop] + hs, out, dpos) == Mean(w, hs, out, dpos)
  {
    assert ([Noop, Noop] + hs)[1..] == [Noop] + hs && ([Noop] + hs)[1..] == hs;
  }
}

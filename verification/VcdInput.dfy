/** The resumable reader of a VCDIFF file (section 4 of RFC 3284): xd3_decode_input as far as the three
    sections of a window, xd3_decode_byte, xd3_decode_bytes, xd3_decode_section and
    xd3_decode_sections of Baseline/third/xdelta/xdelta3-decode.h. However the input is cut into
    pieces, the fields and the sections come out the same. */
module VcdInput {
  import opened Basics
  import opened VcdInt

  /** xd3_decode_state, in the order of the cases; Emit is reached with all sections read. */
  datatype Place = VcHead | HdrInd | SecondId | TabLen | Near | Same | TabDat | AppLen | AppDat | WinInd | CpyLen
                 | CpyOff | EncLen | TgtLen | DelInd | DataLen | InstLen | AddrLen | Cksum | Data | Inst | Addr | Emit
                 | Failed

  function Rank(p: Place): nat {
    match p
    case VcHead => 23 case HdrInd => 22 case SecondId => 21 case TabLen => 20 case Near => 19 case Same => 18
    case TabDat => 17 case AppLen => 16 case AppDat => 15 case WinInd => 14 case CpyLen => 13 case CpyOff => 12
    case EncLen => 11 case TgtLen => 10 case DelInd => 9 case DataLen => 8 case InstLen => 7 case AddrLen => 6
    case Cksum => 5 case Data => 4 case Inst => 3 case Addr => 2 case Emit => 1 case Failed => 0
  }

  datatype Fields = Fields(place: Place, hdrInd: nat, secondId: nat, tabLen: nat, near: nat, same: nat, appLen: nat,
                           app: Bytes, winStart: nat, winInd: nat, cpyLen: nat, cpyOff: nat, encLen: nat, tgtLen: nat,
                           delInd: nat, dataLen: nat, instLen: nat, addrLen: nat, cksum: Bytes,
                           data: Bytes, inst: Bytes, addr: Bytes)

  /** What is read next: a byte, an integer, a number of bytes, or nothing in this place. */
  datatype Need = OneByte | Integer | Raw(n: nat) | Skip | Stop

  const LIMIT: nat := 0x200_0000_0000_0000     // UINT64_OFLOW_MASK: the seven highest bits
  const SIZE_MAX: nat := 0xFFFF_FFFF_FFFF_FFFF
  const HARD_MAX_WINDOW: nat := 0x400_0000

  predicate Bit(n: nat, k: nat) {
    (n / Pow2(k)) % 2 == 1
  }

  /** SRCORTGT: a source or a target window, but not with both bits set. */
  predicate CopyWindow(winInd: nat) {
    Bit(winInd, 0) != Bit(winInd, 1)
  }

  function Needs(f: Fields): Need {
    match f.place
    case VcHead => Raw(4)
    case HdrInd => OneByte
    case SecondId => if Bit(f.hdrInd, 0) then OneByte else Skip
    case TabLen => if Bit(f.hdrInd, 1) then Integer else Skip
    case Near => if Bit(f.hdrInd, 1) then OneByte else Skip
    case Same => if Bit(f.hdrInd, 1) then OneByte else Skip
    case TabDat => Skip
    case AppLen => if Bit(f.hdrInd, 2) then Integer else Skip
    case AppDat => if Bit(f.hdrInd, 2) then Raw(f.appLen) else Skip
    case WinInd => OneByte
    case CpyLen => if CopyWindow(f.winInd) then Integer else Skip
    case CpyOff => if CopyWindow(f.winInd) then Integer else Skip
    case EncLen => Integer
    case TgtLen => Integer
    case DelInd => OneByte
    case DataLen => Integer
    case InstLen => Integer
    case AddrLen => Integer
    case Cksum => if Bit(f.winInd, 2) then Raw(4) else Skip
    case Data => Raw(f.dataLen)
    case Inst => Raw(f.instLen)
    case Addr => Raw(f.addrLen)
    case Emit => Stop
    case Failed => Stop
  }

  function Fail(f: Fields): Fields {
    f.(place := Failed)
  }

  /** After a place where there is nothing to read. */
  function Passed(f: Fields): (g: Fields)
    requires Needs(f).Skip?
    ensures Rank(g.place) < Rank(f.place)
  {
    match f.place
    case SecondId => f.(place := TabLen)
    case TabLen => f.(place := Near)
    case Near => f.(place := Same)
    case Same => f.(place := TabDat)
    case TabDat => if Bit(f.hdrInd, 1) then Fail(f) else f.(place := AppLen)
    case AppLen => f.(place := AppDat)
    case AppDat => f.(place := WinInd)
    case CpyLen => f.(place := CpyOff)
    case CpyOff => CheckCopy(f)
    case Cksum => CheckEncLen(f)
  }

  /** After a byte or an integer. */
  function Given(f: Fields, v: nat): (g: Fields)
    requires Needs(f).OneByte? || Needs(f).Integer?
    ensures Rank(g.place) < Rank(f.place)
  {
    match f.place
    case HdrInd => if v >= 8 then Fail(f) else f.(hdrInd := v, place := SecondId)
    case SecondId => if v in {1, 2, 16} then f.(secondId := v, place := TabLen) else Fail(f)
    case TabLen => if v <= 2 then Fail(f) else f.(tabLen := v - 2, place := Near)
    case Near => f.(near := v, place := Same)
    case Same => f.(same := v, place := TabDat)
    case AppLen => if v >= SIZE_MAX then Fail(f) else f.(appLen := v, place := AppDat)
    case WinInd =>
      if f.winStart + f.tgtLen > SIZE_MAX || v >= 8 then Fail(f)
      else f.(winInd := v, winStart := f.winStart + f.tgtLen, cpyLen := 0, cpyOff := 0, place := CpyLen)
    case CpyLen => f.(cpyLen := v, place := CpyOff)
    case CpyOff => CheckCopy(f.(cpyOff := v))
    case EncLen => f.(encLen := v, place := TgtLen)
    case TgtLen =>
      if f.cpyLen + v > SIZE_MAX || v > HARD_MAX_WINDOW then Fail(f) else f.(tgtLen := v, place := DelInd)
    case DelInd =>
      if v >= 8 || (v != 0 && !Bit(f.hdrInd, 0)) then Fail(f) else f.(delInd := v, place := DataLen)
    case DataLen => f.(dataLen := v, place := InstLen)
    case InstLen => f.(instLen := v, place := AddrLen)
    case AddrLen => f.(addrLen := v, place := Cksum)
  }

  /** After a number of bytes. */
  function GivenRaw(f: Fields, b: Bytes): (g: Fields)
    requires Needs(f).Raw? && |b| == Needs(f).n
    ensures Rank(g.place) < Rank(f.place)
  {
    match f.place
    case VcHead => if b == [0xd6, 0xc3, 0xc4, 0] then f.(place := HdrInd) else Fail(f)
    case AppDat => f.(app := b, place := WinInd)
    case Cksum => CheckEncLen(f.(cksum := b))
    case Data => f.(data := b, place := Inst)
    case Inst => f.(inst := b, place := Addr)
    case Addr => f.(addr := b, place := Emit)
  }

  /** The checks on the copy window. */
  function CheckCopy(f: Fields): (g: Fields)
    ensures Rank(g.place) <= Rank(EncLen)
  {
    if f.cpyOff + f.cpyLen > SIZE_MAX then Fail(f)
    else if Bit(f.winInd, 1) && f.cpyOff + f.cpyLen > f.winStart then Fail(f)
    else f.(place := EncLen)
  }

  /** The redundant length of the delta encoding; and the sum of the sections' sizes must not overflow. */
  function CheckEncLen(f: Fields): (g: Fields)
    ensures Rank(g.place) <= Rank(Data)
  {
    var check := 1 + |Base128(f.tgtLen)| + |Base128(f.dataLen)| + |Base128(f.instLen)| + |Base128(f.addrLen)|
                 + f.dataLen + f.instLen + f.addrLen + if Bit(f.winInd, 2) then 4 else 0;
    if f.encLen != check % (SIZE_MAX + 1) || f.instLen + f.addrLen + f.dataLen > SIZE_MAX then Fail(f)
    else f.(place := Data)
  }

  // ----- reading it whole -----

  /** The reader stopped with the rest of the input before it, or ran out of input within the item that
      begins with the bytes held. */
  datatype Reading = Stopped(fields: Fields, rest: Bytes) | Starved(so: Fields, held: Bytes)

  function Whole(f: Fields, input: Bytes): Reading
    decreases Rank(f.place)
  {
    match Needs(f)
    case Stop => Stopped(f, input)
    case Skip => Whole(Passed(f), input)
    case OneByte => if input == [] then Starved(f, input) else Whole(Given(f, input[0]), input[1..])
    case Integer =>
      (match Scan(input, 0, LIMIT)
       case More(_) => Starved(f, input)
       case Overflow => Stopped(Fail(f), [])
       case Value(v, used) =>
         ScanBounds(input, 0, LIMIT);
         Whole(Given(f, v), input[used..]))
    case Raw(n) => if |input| < n then Starved(f, input) else Whole(GivenRaw(f, input[..n]), input[n..])
  }

  /** Reading a longer input goes on where reading the shorter one stopped, and an input that is
      rejected is rejected with whatever follows it. */
  lemma {:induction false} WholeSplit(f: Fields, a: Bytes, b: Bytes)
    ensures match Whole(f, a)
            case Starved(g, held) => Whole(f, a + b) == Whole(g, held + b)
            case Stopped(g, rest) =>
              if g.place.Failed? then Whole(f, a + b).Stopped? && Whole(f, a + b).fields == g
              else Whole(f, a + b) == Stopped(g, rest + b)
    decreases Rank(f.place)
  {
    hide Passed, Given, GivenRaw;
    match Needs(f)
    case Stop =>
    case Skip => WholeSplit(Passed(f), a, b);
    case OneByte =>
      if a != [] {
        assert (a + b)[1..] == a[1..] + b;
        WholeSplit(Given(f, a[0]), a[1..], b);
      }
    case Integer =>
      ScanSplit(a, b, 0, LIMIT);
      ScanBounds(a, 0, LIMIT);
      match Scan(a, 0, LIMIT) {
        case Value(v, used) =>
          assert (a + b)[used..] == a[used..] + b;
          WholeSplit(Given(f, v), a[used..], b);
        case _ =>
      }
    case Raw(n) =>
      if |a| >= n {
        assert (a + b)[..n] == a[..n] && (a + b)[n..] == a[n..] + b;
        WholeSplit(GivenRaw(f, a[..n]), a[n..], b);
      }
  }

  /** An integer that is read on from the bytes held. */
  lemma IntegerItem(f: Fields, held: Bytes, part: nat, rest: Bytes)
    requires Needs(f).Integer? && Scan(held, 0, LIMIT) == More(part)
    ensures var r := Scan(rest, part, LIMIT);
            && (r.More? ==> Whole(f, held + rest) == Starved(f, held + rest))
            && (r.More? ==> Scan(held + rest, 0, LIMIT) == More(r.part))
            && (r.Overflow? ==> Whole(f, held + rest) == Stopped(Fail(f), []))
            && (r.Value? ==> r.used <= |rest| && Whole(f, held + rest) == Whole(Given(f, r.val), rest[r.used..]))
  {
    hide Given, GivenRaw, Passed, Scan;
    ScanSplit(held, rest, 0, LIMIT);
    ScanBounds(rest, part, LIMIT);
    match Scan(rest, part, LIMIT) {
      case Value(v, used) => assert (held + rest)[used + |held|..] == rest[used..];
      case _ =>
    }
  }

  /** Bytes that are read on from those held. */
  lemma RawItem(f: Fields, held: Bytes, rest: Bytes, used: nat)
    requires Needs(f).Raw? && (|held| < Needs(f).n || held == [])
    ensures |held + rest| < Needs(f).n ==> Whole(f, held + rest) == Starved(f, held + rest)
    ensures used <= |rest| && |held| + used == Needs(f).n ==>
              Whole(f, held + rest) == Whole(GivenRaw(f, held + rest[..used]), rest[used..])
  {
    hide GivenRaw;
    if used <= |rest| && |held| + used == Needs(f).n {
      var n := Needs(f).n;
      assert (held + rest)[..n] == held + rest[..used] && (held + rest)[n..] == rest[used..];
    }
  }

  // ----- reading it in pieces -----

  datatype Status = Input | Sections | Invalid

  class Reader {
    var f: Fields
    var part: nat          // dec_32part, dec_64part
    var raw: Bytes         // the bytes of an item that spans pieces
    ghost var held: Bytes

    /** The partial state is that of the bytes held. */
    ghost predicate Valid()
      reads this
    {
      match Needs(f)
      case Integer => raw == [] && Scan(held, 0, LIMIT) == More(part)
      case Raw(n) => part == 0 && raw == held && (|held| < n || held == [])
      case _ => part == 0 && raw == [] && held == []
    }

    constructor (f: Fields)
      ensures Valid() && this.f == f && held == []
    {
      this.f, part, raw, held := f, 0, [], [];
    }

    /** DECODE_INTEGER_TYPE, on the value so far. */
    method DecodeInteger(input: Bytes) returns (r: Scanned)
      modifies this`part
      ensures r == Scan(input, old(part), LIMIT)
      ensures r.More? ==> part == r.part
      ensures r.Value? ==> part == 0 && 1 <= r.used <= |input|
    {
      var inp := 0;
      assert input[0..] == input;
      while inp != |input|
        invariant inp <= |input|
        invariant Scan(input, old(part), LIMIT) ==
                  var q := Scan(input[inp..], part, LIMIT);
                  if q.Value? then Value(q.val, q.used + inp) else q
      {
        var next := input[inp];
        assert input[inp..][1..] == input[inp + 1..];
        inp := inp + 1;
        if part >= LIMIT {
          return Overflow;
        }
        part := part * 128 + next % 128;
        if next < 128 {
          r := Value(part, inp);
          part := 0;
          return;
        }
      }
      r := More(part);
    }

    /** xd3_decode_bytes, and xd3_decode_section: as many bytes as there are, into the buffer; or all at
        once, without a copy, if the three sections are there whole. */
    method DecodeRaw(input: Bytes, n: nat) returns (ok: bool, bytes: Bytes, used: nat)
      requires |raw| <= n
      modifies this`raw
      ensures ok <==> |old(raw)| + |input| >= n
      ensures ok ==> used <= |input| && |bytes| == n && bytes == old(raw) + input[..used] && raw == []
      ensures !ok ==> raw == old(raw) + input
    {
      if f.place in {Data, Inst, Addr} {
        var more := f.dataLen + f.instLen + f.addrLen
                    - (if f.place.Data? then 0 else if f.place.Inst? then f.dataLen else f.dataLen + f.instLen) - |raw|;
        if |input| >= more && |raw| == 0 && n <= more {
          return true, input[..n], n;
        }
      }
      var take := if n - |raw| < |input| then n - |raw| else |input|;
      raw := raw + input[..take];
      if |raw| < n {
        assert input[..take] == input;
        return false, [], take;
      }
      ok, bytes, used := true, raw, take;
      raw := [];
    }

    /** One item, or as much of it as there is. */
    method ReadItem(input: Bytes) returns (status: Status, rest: Bytes)
      requires Valid() && !Needs(f).Stop?
      modifies this
      ensures status == Input || status == Sections || status == Invalid
      ensures status.Input? ==> Valid() && Whole(old(f), old(held) + input) == Starved(f, held)
      ensures status.Sections? ==> Valid() && held == [] && Rank(f.place) < Rank(old(f).place)
                                   && Whole(old(f), old(held) + input) == Whole(f, rest)
      ensures status.Invalid? ==> Whole(old(f), old(held) + input).Stopped?
                                  && Whole(old(f), old(held) + input).fields.place.Failed?
    {
      hide Passed, Given, GivenRaw, Scan;
      rest := input;
      match Needs(f) {
        case Skip =>
          assert [] + rest == rest;
          f := Passed(f);
        case OneByte =>
          assert [] + rest == rest;
          if rest == [] {
            return Input, rest;
          }
          f := Given(f, rest[0]);
          rest := rest[1..];
        case Integer =>
          IntegerItem(f, held, part, rest);
          hide Whole, Needs;
          var r := DecodeInteger(rest);
          match r {
            case More(_) =>
              held := held + rest;
              return Input, [];
            case Overflow =>
              return Invalid, [];
            case Value(v, used) =>
              f := Given(f, v);
              rest := rest[used..];
          }
        case Raw(n) =>
          var ok, bytes, used := DecodeRaw(rest, n);
          RawItem(f, held, rest, used);
          if !ok {
            held := held + rest;
            return Input, [];
          }
          f := GivenRaw(f, bytes);
          rest := rest[used..];
      }
      held := [];
      NothingHeld();
      status := Sections;
    }

    lemma NothingHeld()
      requires part == 0 && raw == [] && held == []
      ensures Valid()
    {
    }

    /** xd3_decode_input, on a piece of the input, called again until it asks for more. */
    method Feed(input: Bytes) returns (status: Status, rest: Bytes)
      requires Valid()
      modifies this
      ensures status == Input || status == Sections || status == Invalid
      ensures status.Input? ==> Valid() && Whole(old(f), old(held) + input) == Starved(f, held)
      ensures status.Sections? ==> f.place.Emit? && Whole(old(f), old(held) + input) == Stopped(f, rest)
      ensures status.Invalid? ==> Whole(old(f), old(held) + input).Stopped?
                                  && Whole(old(f), old(held) + input).fields.place.Failed?
    {
      rest := input;
      while !Needs(f).Stop?
        invariant Valid() && Whole(f, held + rest) == Whole(old(f), old(held) + input)
        decreases Rank(f.place)
      {
        status, rest := ReadItem(rest);
        if status != Sections {
          return;
        }
        assert [] + rest == rest;
      }
      assert held + rest == rest;
      status := if f.place.Emit? then Sections else Invalid;
    }
  }

  /** Feeding the pieces one after the other until one of them ends the reading. */
  method FeedAll(f: Fields, pieces: seq<Bytes>) returns (r: Reader, status: Status, rest: Bytes, n: nat)
    ensures fresh(r) && n <= |pieces| && (status == Input || status == Sections || status == Invalid)
    ensures status.Input? ==> n == |pieces| && Whole(f, Join(pieces)) == Starved(r.f, r.held) && r.Valid()
    ensures status.Sections? ==> r.f.place.Emit? && Whole(f, Join(pieces)) == Stopped(r.f, rest + Join(pieces[n..]))
    ensures status.Invalid? ==> Whole(f, Join(pieces)).Stopped? && Whole(f, Join(pieces)).fields.place.Failed?
  {
    r := new Reader(f);
    status, rest, n := Input, [], 0;
    assert pieces[..0] == [] && Join([]) == [];
    ghost var none: Bytes := [];
    assert none + none == none && Join(pieces[..0]) == none;
    status, rest := r.Feed([]);
    while n < |pieces| && status.Input?
      invariant n <= |pieces| && fresh(r) && (status == Input || status == Sections || status == Invalid)
      invariant status.Input? ==> Whole(f, Join(pieces[..n])) == Starved(r.f, r.held) && r.Valid()
      invariant status.Sections? ==> r.f.place.Emit? && Whole(f, Join(pieces[..n])) == Stopped(r.f, rest)
      invariant status.Invalid? ==> Whole(f, Join(pieces[..n])).Stopped?
      invariant status.Invalid? ==> Whole(f, Join(pieces[..n])).fields.place.Failed?
    {
      JoinSnoc(pieces, n);
      WholeSplit(f, Join(pieces[..n]), pieces[n]);
      status, rest := r.Feed(pieces[n]);
      n := n + 1;
    }
    assert pieces[..|pieces|] == pieces;
    if !status.Input? {
      JoinSplit(pieces, n);
      WholeSplit(f, Join(pieces[..n]), Join(pieces[n..]));
    }
  }

  function Join(pieces: seq<Bytes>): Bytes {
    if pieces == [] then [] else pieces[0] + Join(pieces[1..])
  }

  lemma {:induction false} JoinSplit(pieces: seq<Bytes>, n: nat)
    requires n <= |pieces|
    ensures Join(pieces) == Join(pieces[..n]) + Join(pieces[n..])
  {
    if n == 0 {
      assert pieces[0..] == pieces && pieces[..0] == [];
    } else {
      JoinSplit(pieces[1..], n - 1);
      assert pieces[..n][1..] == pieces[1..][..n - 1] && pieces[1..][n - 1..] == pieces[n..];
      assert pieces[0] + (Join(pieces[..n][1..]) + Join(pieces[n..])) == Join(pieces[..n]) + Join(pieces[n..]);
    }
  }

  lemma JoinSnoc(pieces: seq<Bytes>, n: nat)
    requires n < |pieces|
    ensures Join(pieces[..n + 1]) == Join(pieces[..n]) + pieces[n]
  {
    var p := pieces[..n + 1];
    JoinSplit(p, n);
    var one: seq<Bytes> := [pieces[n]];
    assert p[..n] == pieces[..n] && p[n..] == one && |one[1..]| == 0;
    assert Join(one) == pieces[n] + Join(one[1..]);
  }
}

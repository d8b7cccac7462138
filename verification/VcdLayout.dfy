/** The layout of a VCDIFF header and window (sections 4.1 to 4.3 of RFC 3284), as bytes made from their
    parts; and that the reader of Baseline/third/xdelta/xdelta3-decode.h accepts just that. A part is
    written before what follows it, `rest`. */
module VcdLayout {
  import opened Basics
  import opened VcdInt
  import opened VcdInput

  // ----- numbers -----

  /** The digits of a number, the most significant first, all but the last with the continuation bit. */
  predicate IsNumber(d: Bytes) {
    d != [] && d[|d| - 1] < 128 && forall i :: 0 <= i < |d| - 1 ==> d[i] >= 128
  }

  /** The number that the digits stand for, after those of `high`. */
  function Horner(high: nat, d: Bytes): nat
    decreases |d|
  {
    if d == [] then high else Horner(128 * high + d[0] % 128, d[1..])
  }

  function NumberOf(d: Bytes): nat {
    Horner(0, d)
  }

  /** A number that fits 64 bits, with leading zeros or without. */
  predicate Fits64(d: Bytes) {
    IsNumber(d) && NumberOf(d) <= SIZE_MAX
  }

  lemma {:induction false} HornerGrows(high: nat, d: Bytes)
    requires d != []
    ensures Horner(high, d) >= 128 * high
    decreases |d|
  {
    if |d| > 1 {
      HornerGrows(128 * high + d[0] % 128, d[1..]);
    }
  }

  lemma {:induction false} ScanDigits(d: Bytes, rest: Bytes, high: nat, lim: nat)
    requires IsNumber(d) && Horner(high, d) < 128 * lim
    ensures Scan(d + rest, high, lim) == Value(Horner(high, d), |d|)
    decreases |d|
  {
    HornerGrows(high, d);
    assert (d + rest)[1..] == d[1..] + rest;
    if |d| > 1 {
      ScanDigits(d[1..], rest, 128 * high + d[0] % 128, lim);
    }
  }

  lemma {:induction false} DigitsScanned(input: Bytes, high: nat, lim: nat)
    requires Scan(input, high, lim).Value?
    ensures var r := Scan(input, high, lim);
            1 <= r.used <= |input| && IsNumber(input[..r.used]) && Horner(high, input[..r.used]) == r.val < 128 * lim
  {
    var r := Scan(input, high, lim);
    if input[0] < 128 {
      assert input[..1][1..] == [];
    } else {
      DigitsScanned(input[1..], 128 * high + input[0] % 128, lim);
      assert input[..r.used][1..] == input[1..][..r.used - 1];
      forall i | 0 <= i < r.used - 1 ensures input[..r.used][i] >= 128 {
        assert i > 0 ==> input[..r.used][i] == input[1..][..r.used - 1][i - 1];
      }
      assert input[..r.used][r.used - 1] == input[1..][..r.used - 1][r.used - 2];
    }
  }

  /** The digits that EMIT_INTEGER_TYPE writes are such a number, without leading zeros. */
  lemma EmittedIsNumber(n: nat)
    ensures AreBytes(Base128(n)) && IsNumber(AsBytes(Base128(n))) && NumberOf(AsBytes(Base128(n))) == n
  {
    HighBytes(n / 128);
    var d := AsBytes(Base128(n));
    RoundTrip(n, [], n + 1);
    assert d + [] == d;
    DigitsScanned(d, 0, n + 1);
    assert d[..|d|] == d;
  }

  predicate AreBytes(s: seq<nat>) {
    forall i :: 0 <= i < |s| ==> s[i] < 256
  }

  function AsBytes(s: seq<nat>): (b: Bytes)
    requires AreBytes(s)
    ensures b == s
  {
    seq(|s|, i requires 0 <= i < |s| => s[i] as Byte)
  }

  lemma {:induction false} HighBytes(n: nat)
    ensures AreBytes(High(n))
  {
    if n > 0 {
      HighBytes(n / 128);
    }
  }

  // ----- the layout -----

  /** The parts of a header; `appLen` are digits. There is no code table of its own: the reader has none. */
  datatype Header = Header(ind: Byte, secondId: Byte, appLen: Bytes, app: Bytes)

  predicate HeaderOk(h: Header) {
    && h.ind < 8 && !Bit(h.ind, 1) && (Bit(h.ind, 0) ==> h.secondId in {1, 2, 16})
    && (Bit(h.ind, 2) ==> Fits64(h.appLen) && NumberOf(h.appLen) == |h.app| < SIZE_MAX)
  }

  /** Magic and version, indicator, secondary compressor, application data. */
  function HeaderThen(h: Header, rest: Bytes): Bytes {
    [0xd6, 0xc3, 0xc4, 0] + ([h.ind] + SecondThen(h, AppThen(h, rest)))
  }

  function SecondThen(h: Header, rest: Bytes): Bytes {
    if Bit(h.ind, 0) then [h.secondId] + rest else rest
  }

  function AppThen(h: Header, rest: Bytes): Bytes {
    if Bit(h.ind, 2) then h.appLen + (h.app + rest) else rest
  }

  /** The parts of a window; the lengths and the offset are digits. */
  datatype Window = Window(ind: Byte, copyLen: Bytes, copyOff: Bytes, encLen: Bytes, tgtLen: Bytes, delInd: Byte,
                           dataLen: Bytes, instLen: Bytes, addrLen: Bytes, cksum: Bytes,
                           data: Bytes, inst: Bytes, addr: Bytes)

  /** Indicator, source segment, length of the delta encoding, and the delta encoding. */
  function WindowThen(x: Window, rest: Bytes): Bytes {
    [x.ind] + CopyThen(x, x.encLen + DeltaThen(x, rest))
  }

  function CopyThen(x: Window, rest: Bytes): Bytes {
    if CopyWindow(x.ind) then x.copyLen + (x.copyOff + rest) else rest
  }

  /** The delta encoding: length of the target window, indicator, lengths of the sections, checksum, and
      the sections for data, instructions and addresses. */
  function DeltaThen(x: Window, rest: Bytes): Bytes {
    x.tgtLen + ([x.delInd] + (x.dataLen + (x.instLen + (x.addrLen + CksumThen(x, SectionsThen(x, rest))))))
  }

  function CksumThen(x: Window, rest: Bytes): Bytes {
    if Bit(x.ind, 2) then x.cksum + rest else rest
  }

  function SectionsThen(x: Window, rest: Bytes): Bytes {
    x.data + (x.inst + (x.addr + rest))
  }

  function CopyLength(x: Window): nat {
    if CopyWindow(x.ind) then NumberOf(x.copyLen) else 0
  }

  function CopyOffset(x: Window): nat {
    if CopyWindow(x.ind) then NumberOf(x.copyOff) else 0
  }

  /** The size of the delta encoding with its numbers written without leading zeros. */
  function DeltaSize(x: Window): nat {
    |Base128(NumberOf(x.tgtLen))| + 1 + |Base128(|x.data|)| + |Base128(|x.inst|)| + |Base128(|x.addr|)|
    + (if Bit(x.ind, 2) then 4 else 0) + |x.data| + |x.inst| + |x.addr|
  }

  /** What must hold of the parts of a window that comes after `before` bytes of output, in a file with
      secondary compression or without. */
  predicate WindowOk(x: Window, before: nat, secondary: bool) {
    PartsOk(x, before, secondary) && NumberOf(x.encLen) == DeltaSize(x) % (SIZE_MAX + 1)
  }

  /** All of it but the value of the length of the delta encoding. */
  predicate PartsOk(x: Window, before: nat, secondary: bool) {
    && x.ind < 8 && before <= SIZE_MAX
    && (CopyWindow(x.ind) ==> Fits64(x.copyLen) && Fits64(x.copyOff))
    && CopyOffset(x) + CopyLength(x) <= (if Bit(x.ind, 1) then before else SIZE_MAX)
    && Fits64(x.encLen) && Fits64(x.tgtLen) && NumberOf(x.tgtLen) <= HARD_MAX_WINDOW
    && CopyLength(x) + NumberOf(x.tgtLen) <= SIZE_MAX
    && x.delInd < 8 && (x.delInd != 0 ==> secondary)
    && SectionsOk(x) && (Bit(x.ind, 2) ==> |x.cksum| == 4)
  }

  predicate SectionsOk(x: Window) {
    && Fits64(x.dataLen) && Fits64(x.instLen) && Fits64(x.addrLen)
    && NumberOf(x.dataLen) == |x.data| && NumberOf(x.instLen) == |x.inst| && NumberOf(x.addrLen) == |x.addr|
    && |x.data| + |x.inst| + |x.addr| <= SIZE_MAX
  }

  /** What the reader holds after the header. */
  function AfterHeader(f: Fields, h: Header): Fields {
    f.(place := WinInd, hdrInd := h.ind, secondId := if Bit(h.ind, 0) then h.secondId else f.secondId,
       appLen := if Bit(h.ind, 2) then |h.app| else f.appLen, app := if Bit(h.ind, 2) then h.app else f.app)
  }

  /** What the reader holds after the window. */
  function AfterWindow(f: Fields, x: Window): Fields {
    f.(place := Emit, winInd := x.ind, winStart := f.winStart + f.tgtLen,
       cpyLen := CopyLength(x), cpyOff := CopyOffset(x),
       encLen := NumberOf(x.encLen), tgtLen := NumberOf(x.tgtLen), delInd := x.delInd,
       dataLen := |x.data|, instLen := |x.inst|, addrLen := |x.addr|,
       cksum := if Bit(x.ind, 2) then x.cksum else f.cksum, data := x.data, inst := x.inst, addr := x.addr)
  }

  // ----- a step of the reader -----

  predicate Accepted(r: Reading) {
    r.Stopped? && r.fields.place.Emit?
  }

  lemma ReadByte(f: Fields, b: Byte, rest: Bytes)
    requires Needs(f).OneByte?
    ensures Whole(f, [b] + rest) == Whole(Given(f, b), rest)
  {
    hide Given, Needs;
    assert ([b] + rest)[1..] == rest;
  }

  lemma ReadNumber(f: Fields, d: Bytes, rest: Bytes)
    requires Needs(f).Integer? && Fits64(d)
    ensures Whole(f, d + rest) == Whole(Given(f, NumberOf(d)), rest)
  {
    hide Given, Needs, Scan;
    ScanDigits(d, rest, 0, LIMIT);
    assert (d + rest)[|d|..] == rest;
  }

  lemma ReadRaw(f: Fields, b: Bytes, rest: Bytes)
    requires Needs(f).Raw? && |b| == Needs(f).n
    ensures Whole(f, b + rest) == Whole(GivenRaw(f, b), rest)
  {
    hide GivenRaw, Needs;
    assert (b + rest)[..|b|] == b && (b + rest)[|b|..] == rest;
  }

  lemma ReadNothing(f: Fields, rest: Bytes)
    requires Needs(f).Skip?
    ensures Whole(f, rest) == Whole(Passed(f), rest)
  {
    hide Passed, Needs;
  }

  lemma TakeByte(f: Fields, input: Bytes)
    requires Needs(f).OneByte? && Accepted(Whole(f, input))
    ensures input != [] && input == [input[0]] + input[1..]
    ensures Whole(f, input) == Whole(Given(f, input[0]), input[1..]) && !Given(f, input[0]).place.Failed?
  {
    NotFailed(Given(f, if input == [] then 0 else input[0]), input[if input == [] then 0 else 1..]);
    hide Given, Needs;
  }

  lemma TakeNumber(f: Fields, input: Bytes) returns (d: Bytes, rest: Bytes)
    requires Needs(f).Integer? && Accepted(Whole(f, input))
    ensures input == d + rest && Fits64(d)
    ensures Whole(f, input) == Whole(Given(f, NumberOf(d)), rest) && !Given(f, NumberOf(d)).place.Failed?
  {
    hide Given, Needs, Scan, IsNumber;
    var r := Scan(input, 0, LIMIT);
    assert r.Value?;
    DigitsScanned(input, 0, LIMIT);
    d, rest := input[..r.used], input[r.used..];
    NotFailed(Given(f, r.val), rest);
  }

  lemma TakeRaw(f: Fields, input: Bytes) returns (b: Bytes, rest: Bytes)
    requires Needs(f).Raw? && Accepted(Whole(f, input))
    ensures input == b + rest && |b| == Needs(f).n
    ensures Whole(f, input) == Whole(GivenRaw(f, b), rest) && !GivenRaw(f, b).place.Failed?
  {
    hide GivenRaw, Needs;
    var n := Needs(f).n;
    assert |input| >= n;
    b, rest := input[..n], input[n..];
    NotFailed(GivenRaw(f, b), rest);
  }

  lemma NotFailed(f: Fields, input: Bytes)
    ensures f.place.Failed? ==> !Accepted(Whole(f, input))
  {
  }

  // ----- the header -----

  /** A header of the layout is read, and the reader goes on with what follows. */
  lemma HeaderReads(f: Fields, h: Header, rest: Bytes)
    requires f.place.VcHead? && HeaderOk(h)
    ensures Whole(f, HeaderThen(h, rest)) == Whole(AfterHeader(f, h), rest)
  {
    hide Whole, Fits64, NumberOf, Bit;
    var magic: Bytes := [0xd6, 0xc3, 0xc4, 0];
    var t := AppThen(h, rest);
    var f1 := f.(place := HdrInd);
    ReadRaw(f, magic, [h.ind] + SecondThen(h, t));
    ReadByte(f1, h.ind, SecondThen(h, t));
    var f2 := f1.(hdrInd := h.ind, place := SecondId);
    var f3 := f2.(secondId := if Bit(h.ind, 0) then h.secondId else f.secondId, place := TabLen);
    if Bit(h.ind, 0) {
      ReadByte(f2, h.secondId, t);
    } else {
      ReadNothing(f2, t);
    }
    var f4 := NoTable(f3, t);
    if Bit(h.ind, 2) {
      ReadNumber(f4, h.appLen, h.app + rest);
      ReadRaw(f4.(appLen := |h.app|, place := AppDat), h.app, rest);
    } else {
      ReadNothing(f4, rest);
      ReadNothing(f4.(place := AppDat), rest);
    }
  }

  /** Without a code table its four places are passed. */
  lemma NoTable(f: Fields, rest: Bytes) returns (g: Fields)
    requires f.place.TabLen? && !Bit(f.hdrInd, 1)
    ensures g == f.(place := AppLen) && Whole(f, rest) == Whole(g, rest)
  {
    hide Whole, Bit;
    ReadNothing(f, rest);
    ReadNothing(f.(place := Near), rest);
    ReadNothing(f.(place := Same), rest);
    ReadNothing(f.(place := TabDat), rest);
    g := f.(place := AppLen);
  }

  /** What is accepted begins with a header of the layout. */
  lemma HeaderRead(f: Fields, input: Bytes) returns (h: Header, rest: Bytes)
    requires f.place.VcHead? && Accepted(Whole(f, input))
    ensures HeaderOk(h) && input == HeaderThen(h, rest) && Whole(f, input) == Whole(AfterHeader(f, h), rest)
  {
    hide Whole, Fits64, NumberOf, Bit, Accepted;
    var magic, t1 := TakeRaw(f, input);
    var f1 := f.(place := HdrInd);
    TakeByte(f1, t1);
    var ind := t1[0];
    var f2 := f1.(hdrInd := ind, place := SecondId);
    var t2 := t1[1..];
    var secondId: Byte, t3 := 0, t2;
    if Bit(ind, 0) {
      TakeByte(f2, t2);
      secondId, t3 := t2[0], t2[1..];
    } else {
      ReadNothing(f2, t2);
    }
    var f3 := f2.(secondId := if Bit(ind, 0) then secondId else f.secondId, place := TabLen);
    if Bit(ind, 1) {
      TableRefused(f3, t3);
    }
    var f4 := NoTable(f3, t3);
    var appLen, app;
    appLen, app, rest := [], [], t3;
    if Bit(ind, 2) {
      var t4;
      appLen, t4 := TakeNumber(f4, t3);
      app, rest := TakeRaw(f4.(appLen := NumberOf(appLen), place := AppDat), t4);
    } else {
      ReadNothing(f4, t3);
      ReadNothing(f4.(place := AppDat), t3);
    }
    h := Header(ind, secondId, appLen, app);
  }

  /** A code table in the file is never accepted. */
  lemma TableRefused(f: Fields, input: Bytes)
    requires f.place.TabLen? && Bit(f.hdrInd, 1)
    ensures !Accepted(Whole(f, input))
  {
    hide Whole, Bit, Accepted;
    if Accepted(Whole(f, input)) {
      var d, t1 := TakeNumber(f, input);
      var g := f.(tabLen := NumberOf(d) - 2, place := Near);
      TakeByte(g, t1);
      var g2 := g.(near := t1[0], place := Same);
      TakeByte(g2, t1[1..]);
      var g3 := g2.(same := t1[1..][0], place := TabDat);
      ReadNothing(g3, t1[1..][1..]);
      NotFailed(Fail(g3), t1[1..][1..]);
    }
  }

  // ----- the window -----

  /** The reader stands before the length of the delta encoding, with the copy window read. */
  function AfterCopy(f: Fields, x: Window): Fields {
    f.(place := EncLen, winInd := x.ind, winStart := f.winStart + f.tgtLen,
       cpyLen := CopyLength(x), cpyOff := CopyOffset(x))
  }

  /** It stands before the checksum, with all lengths read. */
  function AfterLengths(f: Fields, x: Window): Fields {
    f.(place := Cksum, encLen := NumberOf(x.encLen), tgtLen := NumberOf(x.tgtLen), delInd := x.delInd,
       dataLen := |x.data|, instLen := |x.inst|, addrLen := |x.addr|)
  }

  lemma CopyReads(f: Fields, x: Window, rest: Bytes)
    requires f.place.WinInd? && x.ind < 8 && f.winStart + f.tgtLen <= SIZE_MAX
    requires CopyWindow(x.ind) ==> Fits64(x.copyLen) && Fits64(x.copyOff)
    requires CopyOffset(x) + CopyLength(x) <= if Bit(x.ind, 1) then f.winStart + f.tgtLen else SIZE_MAX
    ensures Whole(f, [x.ind] + CopyThen(x, rest)) == Whole(AfterCopy(f, x), rest)
  {
    hide Whole, Fits64, NumberOf, Bit;
    ReadByte(f, x.ind, CopyThen(x, rest));
    var f1 := Given(f, x.ind);
    if CopyWindow(x.ind) {
      ReadNumber(f1, x.copyLen, x.copyOff + rest);
      ReadNumber(Given(f1, NumberOf(x.copyLen)), x.copyOff, rest);
    } else {
      ReadNothing(f1, rest);
      ReadNothing(f1.(place := CpyOff), rest);
    }
  }

  lemma LengthsRead(f: Fields, x: Window, rest: Bytes)
    requires f.place.EncLen? && Fits64(x.encLen) && Fits64(x.tgtLen) && NumberOf(x.tgtLen) <= HARD_MAX_WINDOW
    requires f.cpyLen + NumberOf(x.tgtLen) <= SIZE_MAX && x.delInd < 8 && (x.delInd != 0 ==> Bit(f.hdrInd, 0))
    requires SectionsOk(x)
    ensures Whole(f, x.encLen + (x.tgtLen + ([x.delInd] + (x.dataLen + (x.instLen + (x.addrLen + rest))))))
            == Whole(AfterLengths(f, x), rest)
  {
    hide Whole, Fits64, NumberOf, Bit;
    var t := x.dataLen + (x.instLen + (x.addrLen + rest));
    ReadNumber(f, x.encLen, x.tgtLen + ([x.delInd] + t));
    var f1 := Given(f, NumberOf(x.encLen));
    ReadNumber(f1, x.tgtLen, [x.delInd] + t);
    var f2 := Given(f1, NumberOf(x.tgtLen));
    ReadByte(f2, x.delInd, t);
    var f3 := Given(f2, x.delInd);
    ReadNumber(f3, x.dataLen, x.instLen + (x.addrLen + rest));
    var f4 := Given(f3, |x.data|);
    ReadNumber(f4, x.instLen, x.addrLen + rest);
    ReadNumber(Given(f4, |x.inst|), x.addrLen, rest);
  }

  lemma SectionsRead(f: Fields, x: Window, rest: Bytes)
    requires f.place.Cksum? && f.winInd == x.ind && (Bit(x.ind, 2) ==> |x.cksum| == 4) && SectionsOk(x)
    requires f == AfterLengths(f, x) && f.encLen == DeltaSize(x) % (SIZE_MAX + 1)
    ensures Whole(f, CksumThen(x, SectionsThen(x, rest))) ==
            Stopped(f.(place := Emit, cksum := if Bit(x.ind, 2) then x.cksum else f.cksum,
                       data := x.data, inst := x.inst, addr := x.addr), rest)
  {
    hide Whole, Fits64, NumberOf, Bit, Base128;
    var t := SectionsThen(x, rest);
    if Bit(x.ind, 2) {
      ReadRaw(f, x.cksum, t);
    } else {
      ReadNothing(f, t);
    }
    var f1 := f.(cksum := if Bit(x.ind, 2) then x.cksum else f.cksum, place := Data);
    ReadRaw(f1, x.data, x.inst + (x.addr + rest));
    var f2 := f1.(data := x.data, place := Inst);
    ReadRaw(f2, x.inst, x.addr + rest);
    var f3 := f2.(inst := x.inst, place := Addr);
    ReadRaw(f3, x.addr, rest);
    AtEmit(f3.(addr := x.addr, place := Emit), rest);
  }

  lemma AtEmit(f: Fields, rest: Bytes)
    requires f.place.Emit?
    ensures Whole(f, rest) == Stopped(f, rest)
  {
  }

  /** A window of the layout is read to its end, into just the fields that its parts give. */
  lemma WindowReads(f: Fields, x: Window, rest: Bytes)
    requires f.place.WinInd? && WindowOk(x, f.winStart + f.tgtLen, Bit(f.hdrInd, 0))
    ensures Whole(f, WindowThen(x, rest)) == Stopped(AfterWindow(f, x), rest)
  {
    hide Whole, Fits64, NumberOf, Bit, DeltaSize, SectionsThen;
    CopyReads(f, x, x.encLen + DeltaThen(x, rest));
    var f1 := AfterCopy(f, x);
    LengthsRead(f1, x, CksumThen(x, SectionsThen(x, rest)));
    SectionsRead(AfterLengths(f1, x), x, rest);
  }

  // ----- and back -----

  lemma CopyTaken(f: Fields, input: Bytes) returns (ind: Byte, copyLen: Bytes, copyOff: Bytes, rest: Bytes)
    requires f.place.WinInd? && Accepted(Whole(f, input))
    ensures ind < 8 && f.winStart + f.tgtLen <= SIZE_MAX
    ensures CopyWindow(ind) ==> Fits64(copyLen) && Fits64(copyOff)
    ensures forall x: Window :: x.ind == ind && x.copyLen == copyLen && x.copyOff == copyOff ==>
              && CopyOffset(x) + CopyLength(x) <= (if Bit(ind, 1) then f.winStart + f.tgtLen else SIZE_MAX)
              && input == [ind] + CopyThen(x, rest) && Whole(f, input) == Whole(AfterCopy(f, x), rest)
  {
    hide Whole, Fits64, NumberOf, Bit, Accepted;
    TakeByte(f, input);
    ind := input[0];
    var f1 := Given(f, ind);
    copyLen, copyOff, rest := [], [], input[1..];
    if CopyWindow(ind) {
      var t;
      copyLen, t := TakeNumber(f1, rest);
      copyOff, rest := TakeNumber(Given(f1, NumberOf(copyLen)), t);
    } else {
      ReadNothing(f1, rest);
      ReadNothing(f1.(place := CpyOff), rest);
      NotFailed(CheckCopy(f1.(place := CpyOff)), rest);
    }
  }

  lemma LengthsTaken(f: Fields, input: Bytes) returns (x: Window, rest: Bytes)
    requires f.place.EncLen? && Accepted(Whole(f, input))
    ensures Fits64(x.encLen) && Fits64(x.tgtLen) && NumberOf(x.tgtLen) <= HARD_MAX_WINDOW
    ensures f.cpyLen + NumberOf(x.tgtLen) <= SIZE_MAX && x.delInd < 8 && (x.delInd != 0 ==> Bit(f.hdrInd, 0))
    ensures Fits64(x.dataLen) && Fits64(x.instLen) && Fits64(x.addrLen)
    ensures input == x.encLen + (x.tgtLen + ([x.delInd] + (x.dataLen + (x.instLen + (x.addrLen + rest)))))
    ensures var g := f.(place := Cksum, encLen := NumberOf(x.encLen), tgtLen := NumberOf(x.tgtLen), delInd := x.delInd,
                        dataLen := NumberOf(x.dataLen), instLen := NumberOf(x.instLen), addrLen := NumberOf(x.addrLen));
            Whole(f, input) == Whole(g, rest)
  {
    hide Whole, Fits64, NumberOf, Bit, Accepted;
    var encLen, t1 := TakeNumber(f, input);
    var f1 := Given(f, NumberOf(encLen));
    var tgtLen, t2 := TakeNumber(f1, t1);
    var f2 := Given(f1, NumberOf(tgtLen));
    TakeByte(f2, t2);
    var f3 := Given(f2, t2[0]);
    var dataLen, t3 := TakeNumber(f3, t2[1..]);
    var f4 := Given(f3, NumberOf(dataLen));
    var instLen, t4 := TakeNumber(f4, t3);
    var f5 := Given(f4, NumberOf(instLen));
    var addrLen, t5 := TakeNumber(f5, t4);
    x, rest := Window(0, [], [], encLen, tgtLen, t2[0], dataLen, instLen, addrLen, [], [], [], []), t5;
  }

  lemma SectionsTaken(f: Fields, input: Bytes, y: Window) returns (x: Window, rest: Bytes)
    requires f.place.Cksum? && Accepted(Whole(f, input)) && f.winInd == y.ind
    requires Fits64(y.dataLen) && Fits64(y.instLen) && Fits64(y.addrLen)
    requires f.dataLen == NumberOf(y.dataLen) && f.instLen == NumberOf(y.instLen) && f.addrLen == NumberOf(y.addrLen)
    requires f.tgtLen == NumberOf(y.tgtLen)
    ensures x == y.(cksum := x.cksum, data := x.data, inst := x.inst, addr := x.addr)
    ensures SectionsOk(x) && (Bit(x.ind, 2) ==> |x.cksum| == 4) && f.encLen == DeltaSize(x) % (SIZE_MAX + 1)
    ensures input == CksumThen(x, SectionsThen(x, rest))
  {
    hide Whole, Fits64, NumberOf, Bit, Accepted, Base128;
    var cksum, t1 := [], input;
    if Bit(y.ind, 2) {
      cksum, t1 := TakeRaw(f, input);
    } else {
      ReadNothing(f, input);
      NotFailed(CheckEncLen(f), input);
    }
    var f1 := f.(cksum := if Bit(y.ind, 2) then cksum else f.cksum, place := Data);
    var data, t2 := TakeRaw(f1, t1);
    var f2 := f1.(data := data, place := Inst);
    var inst, t3 := TakeRaw(f2, t2);
    var f3 := f2.(inst := inst, place := Addr);
    var addr;
    addr, rest := TakeRaw(f3, t3);
    x := y.(cksum := cksum, data := data, inst := inst, addr := addr);
  }

  /** What is accepted from the beginning of a window on begins with a window of the layout. */
  lemma WindowRead(f: Fields, input: Bytes) returns (x: Window, rest: Bytes)
    requires f.place.WinInd? && Accepted(Whole(f, input))
    ensures WindowOk(x, f.winStart + f.tgtLen, Bit(f.hdrInd, 0)) && input == WindowThen(x, rest)
  {
    hide Whole, Fits64, NumberOf, Bit, Accepted, DeltaSize, SectionsThen;
    var ind, copyLen, copyOff, t1 := CopyTaken(f, input);
    var c := Window(ind, copyLen, copyOff, [], [], 0, [], [], [], [], [], [], []);
    var f1 := AfterCopy(f, c);
    var l, t2 := LengthsTaken(f1, t1);
    var y := l.(ind := ind, copyLen := copyLen, copyOff := copyOff);
    var f2 := f1.(place := Cksum, encLen := NumberOf(y.encLen), tgtLen := NumberOf(y.tgtLen), delInd := y.delInd,
                  dataLen := NumberOf(y.dataLen), instLen := NumberOf(y.instLen), addrLen := NumberOf(y.addrLen));
    x, rest := SectionsTaken(f2, t2, y);
  }

  // ----- the length of the delta encoding -----

  /** Written without leading zeros. */
  predicate Shortest(d: Bytes) {
    |d| == |Base128(NumberOf(d))|
  }

  lemma {:induction false} HornerBound(high: nat, d: Bytes)
    ensures Horner(high, d) < (high + 1) * Pow128(|d|)
    decreases |d|
  {
    if d != [] {
      var next, p := 128 * high + d[0] % 128, Pow128(|d| - 1);
      HornerBound(next, d[1..]);
      MulLe(next + 1, 128 * (high + 1), p);
      assert 128 * (high + 1) * p == (high + 1) * (128 * p);
    }
  }

  /** No number takes fewer digits than are emitted for it. */
  lemma NoShorter(d: Bytes)
    requires IsNumber(d)
    ensures |Base128(NumberOf(d))| <= |d|
  {
    HornerBound(0, d);
    Digits(NumberOf(d), |d| - 1);
    HighLength(NumberOf(d) / 128, |d| - 1);
  }

  /** A window whose length field is the number of bytes that follow it, as the standard has it, is read if
      and only if its four lengths are written without leading zeros: the reader counts them so. */
  lemma TrueLength(x: Window, before: nat, secondary: bool)
    requires PartsOk(x, before, secondary) && NumberOf(x.encLen) == |DeltaThen(x, [])|
    ensures WindowOk(x, before, secondary) <==>
            Shortest(x.tgtLen) && Shortest(x.dataLen) && Shortest(x.instLen) && Shortest(x.addrLen)
  {
    hide Base128, NumberOf, Bit, DeltaThen;
    NoShorter(x.tgtLen);
    NoShorter(x.dataLen);
    NoShorter(x.instLen);
    NoShorter(x.addrLen);
    TrueSize(x);
    assert DeltaSize(x) <= SIZE_MAX;
    assert DeltaSize(x) % (SIZE_MAX + 1) == DeltaSize(x);
  }

  /** The empty window, its length 0 written in two digits: six bytes follow the length, which says 6. */
  lemma PaddedRefused()
    ensures var x := Window(0, [], [], [6], [128, 0], 0, [0], [0], [0], [], [], [], []);
            PartsOk(x, 0, false) && NumberOf(x.encLen) == |DeltaThen(x, [])| && !WindowOk(x, 0, false)
  {
    var one: Bytes, two: Bytes := [0], [128, 0];
    assert two[1..] == one && one[1..] == [];
    assert Horner(0, one) == Horner(0, one[1..]) && Horner(0, two) == Horner(0, two[1..]);
    var six: Bytes := [6];
    assert Horner(0, six) == Horner(6, six[1..]);
    assert Pow2(1) == 2 * Pow2(0) && Pow2(2) == 2 * Pow2(1);
    var x := Window(0, [], [], six, two, 0, one, one, one, [], [], [], []);
    TrueSize(x);
    assert High(0) == [] && |Base128(0)| == 1;
  }

  lemma TrueSize(x: Window)
    ensures |DeltaThen(x, [])| == |x.tgtLen| + 1 + |x.dataLen| + |x.instLen| + |x.addrLen|
                                  + (if Bit(x.ind, 2) then |x.cksum| else 0) + |x.data| + |x.inst| + |x.addr|
  {
  }

  // ----- a file -----

  /** The reader before a file. */
  predicate AtStart(f: Fields) {
    f.place.VcHead? && f.winStart == 0 && f.tgtLen == 0
  }

  /** The bytes begin with a header and a window of the layout; `g` is what they say, `rest` follows them. */
  ghost predicate LaidOut(f: Fields, input: Bytes, h: Header, x: Window, rest: Bytes, g: Fields) {
    && HeaderOk(h) && WindowOk(x, 0, Bit(h.ind, 0))
    && input == HeaderThen(h, WindowThen(x, rest)) && g == AfterWindow(AfterHeader(f, h), x)
  }

  /** The reader stops before the sections' contents, with all sections in its fields, if and only if the
      input begins with a header and a window of the layout; and its fields are then what these say. */
  lemma AcceptedIffLaidOut(f: Fields, input: Bytes, g: Fields, rest: Bytes)
    requires AtStart(f)
    ensures (Whole(f, input) == Stopped(g, rest) && g.place.Emit?) <==> exists h, x :: LaidOut(f, input, h, x, rest, g)
  {
    hide Whole, HeaderOk, WindowOk, HeaderThen, WindowThen;
    if h, x :| LaidOut(f, input, h, x, rest, g) {
      HeaderReads(f, h, WindowThen(x, rest));
      WindowReads(AfterHeader(f, h), x, rest);
    }
    if Whole(f, input) == Stopped(g, rest) && g.place.Emit? {
      var h, t := HeaderRead(f, input);
      var x, u := WindowRead(AfterHeader(f, h), t);
      WindowReads(AfterHeader(f, h), x, u);
      assert LaidOut(f, input, h, x, rest, g);
    }
  }

  /** However the bytes of a file are cut into pieces: the reader comes to the end of a window if and only
      if they begin with a header and a window of the layout; and then its fields are what these say. */
  method FeedFile(f: Fields, pieces: seq<Bytes>) returns (r: Reader, status: Status, rest: Bytes, n: nat)
    requires AtStart(f)
    ensures fresh(r) && n <= |pieces|
    ensures status.Sections? <==> exists h, x, tail, g :: LaidOut(f, Join(pieces), h, x, tail, g)
    ensures status.Sections? ==> exists h, x :: LaidOut(f, Join(pieces), h, x, rest + Join(pieces[n..]), r.f)
  {
    hide Whole, LaidOut;
    r, status, rest, n := FeedAll(f, pieces);
    ghost var input := Join(pieces);
    if status.Sections? {
      AcceptedIffLaidOut(f, input, r.f, rest + Join(pieces[n..]));
    } else if h, x, tail, g :| LaidOut(f, input, h, x, tail, g) {
      AcceptedIffLaidOut(f, input, g, tail);
    }
  }
}

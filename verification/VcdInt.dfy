/** The base 128 integers of VCDIFF (section 2 of RFC 3284): the macros EMIT_INTEGER_TYPE and
    READ_INTEGER_TYPE and xd3_sizeof_uint64_t of
    Baseline/third/xdelta/xdelta3-internal.h. A byte is a number below 256. */
module VcdInt {

  function Pow128(k: nat): (r: nat)
    ensures r >= 1
  {
    if k == 0 then 1 else 128 * Pow128(k - 1)
  }

  /** The leading digits of a number, each with its continuation bit. */
  function High(n: nat): seq<nat> {
    if n == 0 then [] else High(n / 128) + [n % 128 + 128]
  }

  /** The digits of a number, the last one without the bit. */
  function Base128(n: nat): (r: seq<nat>)
    ensures |r| >= 1
  {
    High(n / 128) + [n % 128]
  }

  /** EMIT_INTEGER_TYPE: digits from the last to the first, then the last one's bit is turned off. */
  method EmitInteger(num: nat) returns (bytes: seq<nat>)
    requires num < Pow128(10)
    ensures bytes == Base128(num)
  {
    var buf := new nat[10];
    buf[9] := num % 128 + 128;
    Digits(num, 9);
    hide Pow128, High;
    var bufi := EmitHigh(buf, num / 128);
    buf[9] := buf[9] % 128;
    bytes := buf[bufi..10];
    assert bytes == buf[bufi..9] + [buf[9]];
  }

  /** The loop of EMIT_INTEGER_TYPE, from its second turn on. */
  method EmitHigh(buf: array<nat>, num: nat) returns (bufi: nat)
    requires buf.Length == 10 && num < Pow128(9)
    modifies buf
    ensures bufi <= 9 && buf[9] == old(buf[9]) && buf[bufi..9] == High(num)
  {
    hide Pow128, High;
    bufi := 9;
    var n: nat := num;
    NoDigits(High(num));
    ghost var done: seq<nat> := [];
    assert High(n) + done == High(num);
    while n != 0
      invariant bufi <= 9 && n < Pow128(bufi) && buf[9] == old(buf[9]) && buf[bufi..9] == done
      invariant High(n) + done == High(num)
    {
      SomeDigit(n, bufi);
      Digits(n, bufi - 1);
      HighStep(n, done);
      bufi := bufi - 1;
      buf[bufi] := n % 128 + 128;
      done := [n % 128 + 128] + done;
      n := n / 128;
    }
    NoDigits(done);
  }

  lemma SomeDigit(n: nat, k: nat)
    requires 0 < n < Pow128(k)
    ensures k > 0
  {
  }

  lemma HighStep(n: nat, was: seq<nat>)
    requires n > 0
    ensures High(n) + was == High(n / 128) + ([n % 128 + 128] + was)
  {
  }

  lemma NoDigits(was: seq<nat>)
    ensures High(0) + was == was
  {
  }

  lemma Digits(n: nat, k: nat)
    requires n < Pow128(k + 1)
    ensures n / 128 < Pow128(k)
  {
  }

  lemma {:induction false} HighLength(n: nat, k: nat)
    ensures |High(n)| <= k <==> n < Pow128(k)
  {
    if n == 0 {
    } else if k == 0 {
    } else {
      HighLength(n / 128, k - 1);
    }
  }

  /** xd3_sizeof_uint64_t: the number of bytes that EmitInteger writes. */
  function SizeofUint64(num: nat): (size: nat)
    requires num < 0x1_0000_0000_0000_0000
    ensures size == |Base128(num)|
  {
    var size := if num < 0x80 then 1 else if num < 0x4000 then 2 else if num < 0x20_0000 then 3
                else if num < 0x1000_0000 then 4 else if num < 0x8_0000_0000 then 5
                else if num < 0x400_0000_0000 then 6 else if num < 0x2_0000_0000_0000 then 7
                else if num < 0x100_0000_0000_0000 then 8 else if num < 0x8000_0000_0000_0000 then 9 else 10;
    Powers();
    SizeIs(num, size);
    size
  }

  /** The size is the k that has 128^(k-1) <= num < 128^k, or 1 for 0. */
  lemma SizeIs(num: nat, k: nat)
    requires k >= 1 && num < Pow128(k) && (k > 1 ==> num >= Pow128(k - 1))
    ensures k == |Base128(num)|
  {
    HighLength(num / 128, k - 1);
    if k > 1 {
      HighLength(num / 128, k - 2);
    }
  }

  lemma Powers()
    ensures Pow128(1) == 0x80 && Pow128(2) == 0x4000 && Pow128(3) == 0x20_0000 && Pow128(4) == 0x1000_0000
    ensures Pow128(5) == 0x8_0000_0000 && Pow128(6) == 0x400_0000_0000 && Pow128(7) == 0x2_0000_0000_0000
    ensures Pow128(8) == 0x100_0000_0000_0000 && Pow128(9) == 0x8000_0000_0000_0000 &&
            Pow128(10) == 0x40_0000_0000_0000_0000
  {
    assert Pow128(2) == 128 * Pow128(1) && Pow128(3) == 128 * Pow128(2) && Pow128(4) == 128 * Pow128(3);
    assert Pow128(5) == 128 * Pow128(4) && Pow128(6) == 128 * Pow128(5) && Pow128(7) == 128 * Pow128(6);
    assert Pow128(8) == 128 * Pow128(7) && Pow128(9) == 128 * Pow128(8) && Pow128(10) == 128 * Pow128(9);
  }

  /** How the reading of an integer ends: with its value and the number of bytes read; for want of more
      bytes, with the value so far; or because the value would not fit. */
  datatype Scanned = Value(val: nat, used: nat) | More(part: nat) | Overflow

  /** Reading on from the value so far; lim is the bound that the overflow mask tests, 2^25 or 2^57. */
  function Scan(input: seq<nat>, part: nat, lim: nat): Scanned {
    if input == [] then More(part)
    else if part >= lim then Overflow
    else
      var val := part * 128 + input[0] % 128;
      if input[0] < 128 then Value(val, 1)
      else
        var r := Scan(input[1..], val, lim);
        if r.Value? then Value(r.val, r.used + 1) else r
  }

  lemma {:induction false} ScanHigh(n: nat, rest: seq<nat>, lim: nat)
    requires n < lim
    ensures Scan(High(n) + rest, 0, lim) ==
            var r := Scan(rest, n, lim);
            if r.Value? then Value(r.val, r.used + |High(n)|) else r
  {
    if n == 0 {
      assert High(n) + rest == rest;
    } else {
      var last := [n % 128 + 128];
      assert High(n) + rest == High(n / 128) + (last + rest);
      ScanHigh(n / 128, last + rest, lim);
      assert (last + rest)[1..] == rest;
    }
  }

  /** Every integer of the type comes back, from exactly the bytes it was written in. */
  lemma RoundTrip(num: nat, rest: seq<nat>, lim: nat)
    requires num / 128 < lim
    ensures Scan(Base128(num) + rest, 0, lim) == Value(num, |Base128(num)|)
  {
    var last := [num % 128];
    assert Base128(num) + rest == High(num / 128) + (last + rest);
    ScanHigh(num / 128, last + rest, lim);
  }

  /** Reading may stop for want of input and go on with more of it. */
  lemma {:induction false} ScanSplit(a: seq<nat>, b: seq<nat>, part: nat, lim: nat)
    ensures Scan(a + b, part, lim) ==
            var r := Scan(a, part, lim);
            if r.More? then
              var q := Scan(b, r.part, lim);
              if q.Value? then Value(q.val, q.used + |a|) else q
            else r
  {
    if a == [] {
      assert a + b == b;
    } else {
      assert (a + b)[1..] == a[1..] + b;
      if part < lim && a[0] >= 128 {
        ScanSplit(a[1..], b, part * 128 + a[0] % 128, lim);
      }
    }
  }

  lemma {:induction false} ScanBounds(input: seq<nat>, part: nat, lim: nat)
    ensures var r := Scan(input, part, lim);
            (r.Value? ==> 1 <= r.used <= |input| && r.val < 128 * lim) &&
                (r.More? && part < 128 * lim ==> r.part < 128 * lim)
  {
    if input != [] && part < lim && input[0] >= 128 {
      ScanBounds(input[1..], part * 128 + input[0] % 128, lim);
    }
  }

  /** READ_INTEGER_TYPE */
  method ReadInteger(input: seq<nat>, lim: nat) returns (r: Scanned)
    ensures r == Scan(input, 0, lim)
  {
    var val: nat, inp: nat := 0, 0;
    assert input[0..] == input;
    while true
      invariant inp <= |input|
      invariant Scan(input, 0, lim) ==
                var q := Scan(input[inp..], val, lim);
                if q.Value? then Value(q.val, q.used + inp) else q
      decreases |input| - inp
    {
      if inp == |input| {
        return More(val);
      }
      if val >= lim {
        return Overflow;
      }
      var next := input[inp];
      assert input[inp..][1..] == input[inp + 1..];
      inp := inp + 1;
      val := val * 128 + next % 128;
      if next < 128 {
        return Value(val, inp);
      }
    }
  }
}

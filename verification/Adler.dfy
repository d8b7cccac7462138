/** The checksum of a target window: adler32 of Baseline/third/xdelta/xdelta3.c (section 8.2 of RFC 1950),
    which reduces its sums only once in 5552 bytes, in 32 bits. */
module Adler {
  import opened Basics

  const BASE: nat := 65521
  const NMAX: nat := 5552
  const WORD32: nat := 0x1_0000_0000

  /** The two sums by the standard, reduced after every byte. */
  function Sums(s1: nat, s2: nat, s: Bytes): (nat, nat) {
    if s == [] then (s1, s2)
    else
      var (a, b) := Sums(s1, s2, s[..|s| - 1]);
      ((a + s[|s| - 1]) % BASE, (b + a + s[|s| - 1]) % BASE)
  }

  function Checksum(s: Bytes): nat {
    var (a, b) := Sums(1, 0, s);
    b * 0x1_0000 + a
  }

  function Add32(x: nat, y: nat): nat {
    (x + y) % WORD32
  }

  // ----- how large the sums get before they are reduced -----

  function Triangle(j: nat): nat {
    if j == 0 then 0 else Triangle(j - 1) + j
  }

  lemma {:induction false} TriangleIs(j: nat)
    ensures 2 * Triangle(j) == j * (j + 1)
  {
    if j > 0 {
      TriangleIs(j - 1);
    }
  }

  lemma {:induction false} TriangleGrows(i: nat, j: nat)
    requires i <= j
    ensures Triangle(i) <= Triangle(j)
  {
    if i < j {
      TriangleGrows(i, j - 1);
    }
  }

  /** What the sums are at most after j bytes of a stretch. */
  predicate Within(s1: nat, s2: nat, j: nat) {
    s1 <= 65535 + 255 * j && s2 <= 65535 + 65535 * j + 255 * Triangle(j)
  }

  /** The greatest stretch just fits. */
  lemma Fits(s1: nat, s2: nat, j: nat, x: Byte)
    requires Within(s1, s2, j) && j < NMAX
    ensures Add32(s1, x) == s1 + x && Add32(s2, s1 + x) == s2 + s1 + x && Within(s1 + x, s2 + s1 + x, j + 1)
  {
    TriangleGrows(j + 1, NMAX);
    TriangleIs(NMAX);
    hide Triangle;
    TriangleNext(j);
  }

  lemma TriangleNext(j: nat)
    ensures Triangle(j + 1) == Triangle(j) + j + 1
  {
  }

  // ----- the loops -----

  /** The sums are those of the standard, up to multiples of the base. */
  predicate Alike(s1: nat, s2: nat, t: (nat, nat)) {
    s1 % BASE == t.0 % BASE && s2 % BASE == t.1 % BASE
  }

  lemma SumsNext(buf: Bytes, i: nat)
    requires i < |buf|
    ensures var (a, b) := Sums(1, 0, buf[..i]);
            Sums(1, 0, buf[..i + 1]) == ((a + buf[i]) % BASE, (b + a + buf[i]) % BASE)
  {
    assert buf[..i + 1][..i] == buf[..i];
  }

  lemma SameSum(p: nat, q: nat, c: nat, d: nat)
    requires p % BASE == q % BASE && c % BASE == d % BASE
    ensures (p + c) % BASE == (q + d) % BASE == (q + d) % BASE % BASE
  {
  }

  lemma NextAlike(s1: nat, s2: nat, buf: Bytes, i: nat)
    requires i < |buf| && Alike(s1, s2, Sums(1, 0, buf[..i]))
    ensures Alike(s1 + buf[i], s2 + s1 + buf[i], Sums(1, 0, buf[..i + 1]))
  {
    hide Sums;
    SumsNext(buf, i);
    var (a, b) := Sums(1, 0, buf[..i]);
    SameSum(s1, a, buf[i], buf[i]);
    SameSum(s2, b, s1 + buf[i], a + buf[i]);
  }

  /** A32_DO1 */
  method DoOne(buf: Bytes, i: nat, ghost j: nat, s1: nat, s2: nat) returns (r1: nat, r2: nat)
    requires i < |buf| && j < NMAX && Within(s1, s2, j) && Alike(s1, s2, Sums(1, 0, buf[..i]))
    ensures Within(r1, r2, j + 1) && Alike(r1, r2, Sums(1, 0, buf[..i + 1]))
  {
    Fits(s1, s2, j, buf[i]);
    NextAlike(s1, s2, buf, i);
    r1 := Add32(s1, buf[i]);
    r2 := Add32(s2, r1);
  }

  /** Up to NMAX bytes, sixteen at a time and then one at a time. */
  method Stretch(buf: Bytes, at: nat, n: nat, s10: nat, s20: nat) returns (s1: nat, s2: nat)
    requires at + n <= |buf| && n <= NMAX && Within(s10, s20, 0) && Alike(s10, s20, Sums(1, 0, buf[..at]))
    ensures Alike(s1, s2, Sums(1, 0, buf[..at + n]))
  {
    hide Alike, Within, Sums;
    s1, s2 := s10, s20;
    var i, k: nat := at, n;
    while k >= 16
      invariant k <= n && i == at + (n - k)
      invariant Within(s1, s2, n - k) && Alike(s1, s2, Sums(1, 0, buf[..i]))
    {
      for j := 0 to 16
        invariant Within(s1, s2, n - k + j) && Alike(s1, s2, Sums(1, 0, buf[..i + j]))
      {
        s1, s2 := DoOne(buf, i + j, n - k + j, s1, s2);
      }
      i := i + 16;
      k := k - 16;
    }
    while k != 0
      invariant k <= n && i == at + (n - k)
      invariant Within(s1, s2, n - k) && Alike(s1, s2, Sums(1, 0, buf[..i]))
    {
      s1, s2 := DoOne(buf, i, n - k, s1, s2);
      i := i + 1;
      k := k - 1;
    }
  }

  method Adler32(buf: Bytes) returns (r: nat)
    ensures r == Checksum(buf)
  {
    hide Sums;
    var s1: nat, s2: nat := 1, 0;
    var len: nat, i: nat := |buf|, 0;
    NoSums(buf);
    while len > 0
      invariant i + len == |buf| && s1 < BASE && s2 < BASE && Alike(s1, s2, Sums(1, 0, buf[..i]))
    {
      var k: nat := if len < NMAX then len else NMAX;
      len := len - k;
      s1, s2 := Stretch(buf, i, k, s1, s2);
      i := i + k;
      s1, s2 := s1 % BASE, s2 % BASE;
    }
    assert buf[..i] == buf;
    SumsReduced(buf);
    r := s2 * 0x1_0000 + s1;
  }

  lemma NoSums(s: Bytes)
    ensures Sums(1, 0, s[..0]) == (1, 0)
  {
  }

  lemma SumsReduced(s: Bytes)
    ensures Sums(1, 0, s).0 < BASE && Sums(1, 0, s).1 < BASE
  {
  }
}

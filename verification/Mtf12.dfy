/** Move-to-front with bijective base 2 run lengths: djw_compute_mtf_1_2, djw_update_1_2,
    djw_update_mtf and djw_decode_1_2 of Baseline/third/xdelta/xdelta3-djw.h. */
module Mtf12 {
  import opened Basics
  import opened BitStream
  import opened Canonical

  /** Where x first stands in the list. */
  function Find(list: seq<nat>, x: nat): (j: nat)
    requires x in list
    ensures j < |list| && list[j] == x && (j == 0 <==> list[0] == x)
  {
    if list[0] == x then 0 else 1 + Find(list[1..], x)
  }

  /** The list with its j-th element moved to the front. */
  function Front(list: seq<nat>, j: nat): (r: seq<nat>)
    requires j < |list|
    ensures |r| == |list| && r[0] == list[j] && forall x :: x in r <==> x in list
  {
    var r := [list[j]] + list[..j] + list[j + 1..];
    assert forall k :: 0 <= k < j ==> r[k + 1] == list[k];
    assert forall k :: j < k < |list| ==> r[k] == list[k];
    assert forall x :: x in list ==> x in r by {
      forall x | x in list ensures x in r {
        var k :| 0 <= k < |list| && list[k] == x;
        assert r[if k < j then k + 1 else if k == j then 0 else k] == x;
      }
    }
    r
  }

  /** All of s is in the list. */
  predicate Within(s: seq<nat>, list: seq<nat>) {
    forall k :: 0 <= k < |s| ==> s[k] in list
  }

  /** A run length in bijective base 2, the lowest digit first; the digits 1 and 2 are written as
      the codes 0 and 1 (RUN_0 and RUN_1). */
  function RunCodes(run: nat): seq<nat> {
    if run == 0 then [] else [(run - 1) % 2] + RunCodes((run - 1) / 2)
  }

  /** The codes of the symbols s, with a run of the front symbol not yet written. */
  function Enc(s: seq<nat>, list: seq<nat>, run: nat): seq<nat>
    requires Within(s, list)
    decreases |s|
  {
    if s == [] then RunCodes(run)
    else
      var j := Find(list, s[0]);
      if j == 0 then Enc(s[1..], list, run + 1)
      else RunCodes(run) + [j + 1] + Enc(s[1..], Front(list, j), 0)
  }

  /** The number of bijective base 2 digits. */
  function RunLength(codes: seq<nat>): nat {
    if codes == [] then 0 else codes[0] + 1 + 2 * RunLength(codes[1..])
  }

  lemma {:induction false} RunCodesMean(run: nat)
    ensures RunLength(RunCodes(run)) == run
  {
    if run > 0 {
      RunCodesMean((run - 1) / 2);
      assert RunCodes(run)[1..] == RunCodes((run - 1) / 2);
    }
  }

  /** Moving a symbol to the front is taking it out and putting it before the others. */
  lemma {:induction false} FrontIs(list: seq<nat>, x: nat)
    requires x in list
    ensures Front(list, Find(list, x)) == [x] + Without(list, x)
  {
    hide Front;
    if list[0] != x {
      FrontIs(list[1..], x);
      FrontTail(list, Find(list[1..], x));
    } else {
      FrontFirst(list);
    }
  }

  lemma FrontFirst(list: seq<nat>)
    requires list != []
    ensures Front(list, 0) == [list[0]] + list[1..]
  {
  }

  lemma FrontTail(list: seq<nat>, j: nat)
    requires j + 1 < |list|
    ensures Front(list, j + 1) == [list[j + 1]] + ([list[0]] + Front(list[1..], j)[1..])
  {
    var t := list[1..];
    assert Front(t, j)[1..] == t[..j] + t[j + 1..];
    assert list[..j + 1] == [list[0]] + t[..j] && list[j + 2..] == t[j + 1..];
  }

  /** The list after the symbols s. */
  function ListAfter(list: seq<nat>, s: seq<nat>): (r: seq<nat>)
    requires Within(s, list)
    ensures forall x :: x in r <==> x in list
  {
    if s == [] then list
    else
      var r := ListAfter(list, s[..|s| - 1]);
      Front(r, Find(r, s[|s| - 1]))
  }

  /** The list without the symbols of s. */
  function Others(list: seq<nat>, s: seq<nat>): seq<nat> {
    if s == [] then list else Without(Others(list, s[..|s| - 1]), s[|s| - 1])
  }

  lemma {:induction false} OthersUnused(list: seq<nat>, s: seq<nat>)
    requires Distinct(list)
    ensures Distinct(Others(list, s)) && forall x :: x in s ==> x !in Others(list, s)
  {
    if s != [] {
      var n := |s| - 1;
      OthersUnused(list, s[..n]);
      WithoutOk(Others(list, s[..n]), s[n]);
      assert forall x :: x in s <==> x in s[..n] || x == s[n];
    }
  }

  /** The list is the order of the last uses: a symbol's place is the number of different symbols since
      its last occurrence, and those not seen yet come after all others. */
  lemma {:induction false} ListIsRecency(list: seq<nat>, s: seq<nat>)
    requires Within(s, list) && Distinct(list)
    ensures ListAfter(list, s) == Recent(s) + Others(list, s)
  {
    if s != [] {
      var n := |s| - 1;
      var t, x := s[..n], s[n];
      ListIsRecency(list, t);
      FrontIs(ListAfter(list, t), x);
      WithoutConcat(Recent(t), Others(list, t), x);
      RecentDistinct(t);
      if x in Recent(t) {
        OthersUnused(list, t);
        WithoutAbsent(Others(list, t), x);
      } else {
        WithoutAbsent(Recent(t), x);
      }
    } else {
      assert Recent(s) + list == list;
    }
  }

  // ----- the encoder -----

  lemma {:induction false} RunCodesShort(run: nat)
    ensures |RunCodes(run)| <= run && forall c :: c in RunCodes(run) ==> c <= 1
  {
    if run > 0 {
      RunCodesShort((run - 1) / 2);
    }
  }

  /** The codes are no more than the symbols, and smaller than two more than the list is long. */
  lemma {:induction false} EncBounds(s: seq<nat>, list: seq<nat>, run: nat)
    requires Within(s, list)
    ensures |Enc(s, list, run)| <= |s| + run
    ensures forall c :: c in Enc(s, list, run) ==> c <= 1 || c <= |list|
    decreases |s|
  {
    RunCodesShort(run);
    if s != [] {
      var j := Find(list, s[0]);
      if j == 0 {
        EncBounds(s[1..], list, run + 1);
      } else {
        EncBounds(s[1..], Front(list, j), 0);
      }
    }
  }

  /** djw_update_mtf, and the shift in djw_compute_mtf_1_2. */
  method UpdateMtf(mtf: array<nat>, i: nat) returns (sym: nat)
    requires i < mtf.Length
    modifies mtf
    ensures mtf[..] == Front(old(mtf[..]), i) && sym == old(mtf[i])
  {
    sym := mtf[i];
    var k := i;
    while k != 0
      invariant k <= i
      invariant forall m :: 0 <= m <= k ==> mtf[m] == old(mtf[m])
      invariant forall m :: k < m <= i ==> mtf[m] == old(mtf[m - 1])
      invariant forall m :: i < m < mtf.Length ==> mtf[m] == old(mtf[m])
    {
      mtf[k] := mtf[k - 1];
      k := k - 1;
    }
    mtf[0] := sym;
    assert mtf[..] == Front(old(mtf[..]), i);
  }

  /** The codes and their frequencies. */
  predicate Counted(codes: seq<nat>, freq: seq<nat>) {
    forall c :: 0 <= c < |freq| ==> freq[c] == multiset(codes)[c]
  }

  /** djw_update_1_2 */
  method Update12(run: nat, codes: seq<nat>, freq: array<nat>) returns (out: seq<nat>)
    requires run > 0 && freq.Length >= 2 && Counted(codes, freq[..])
    modifies freq
    ensures out == codes + RunCodes(run) && Counted(out, freq[..])
  {
    out := codes;
    var mtfRun := run;
    while mtfRun >= 1
      invariant out + RunCodes(mtfRun) == codes + RunCodes(run)
      invariant Counted(out, freq[..])
    {
      ghost var left := mtfRun;
      mtfRun := mtfRun - 1;
      var code := mtfRun % 2;
      assert out + RunCodes(left) == out + [code] + RunCodes(mtfRun / 2);
      out := out + [code];
      freq[code] := freq[code] + 1;
      mtfRun := mtfRun / 2;
    }
  }

  /** The run so far, if there is one. */
  method FlushRun(run: nat, codes: seq<nat>, freq: array<nat>) returns (out: seq<nat>)
    requires freq.Length >= 2 && Counted(codes, freq[..])
    modifies freq
    ensures out == codes + RunCodes(run) && Counted(out, freq[..])
  {
    out := codes;
    if run > 0 {
      out := Update12(run, codes, freq);
    }
  }

  lemma EncStep(s: seq<nat>, list: seq<nat>, run: nat)
    requires s != [] && Within(s, list)
    ensures s[0] in list
    ensures var j := Find(list, s[0]);
            Within(s[1..], Front(list, j)) &&
            Enc(s, list, run) == (if j == 0 then Enc(s[1..], Front(list, j), run + 1)
                                  else RunCodes(run) + [j + 1] + Enc(s[1..], Front(list, j), 0))
  {
    assert s[0] in list;
    assert Front(list, 0) == list;
  }

  lemma Assoc4<T>(a: seq<T>, b: seq<T>, c: seq<T>, d: seq<T>)
    ensures a + (b + c + d) == a + b + c + d
  {
  }

  /** The codes written and those of what is left are the codes of all symbols. */
  ghost predicate Writing(codes: seq<nat>, left: seq<nat>, list: seq<nat>, run: nat, all: seq<nat>) {
    Within(left, list) && codes + Enc(left, list, run) == all
  }

  lemma WriteNext(codes: seq<nat>, left: seq<nat>, list: seq<nat>, run: nat, all: seq<nat>)
    requires Writing(codes, left, list, run, all) && left != []
    ensures left[0] in list
    ensures var j := Find(list, left[0]);
            if j == 0 then Writing(codes, left[1..], Front(list, j), run + 1, all)
            else Writing(codes + RunCodes(run) + [j + 1], left[1..], Front(list, j), 0, all)
  {
    hide Within, RunCodes, Front, Find, Enc;
    EncStep(left, list, run);
    var j := Find(list, left[0]);
    if j != 0 {
      Assoc4(codes, RunCodes(run), [j + 1], Enc(left[1..], Front(list, j), 0));
    }
  }

  lemma WriteLast(codes: seq<nat>, list: seq<nat>, run: nat, all: seq<nat>)
    requires Writing(codes, [], list, run, all)
    ensures codes + RunCodes(run) == all
  {
  }

  /** The memset of djw_compute_mtf_1_2. */
  method ClearFreq(freq: array<nat>)
    modifies freq
    ensures Counted([], freq[..])
  {
    for c := 0 to freq.Length
      invariant forall k :: 0 <= k < c ==> freq[k] == 0
    {
      freq[c] := 0;
    }
  }

  lemma CountedStep(codes: seq<nat>, code: nat, freq: seq<nat>)
    requires Counted(codes, freq) && code < |freq|
    ensures Counted(codes + [code], freq[code := freq[code] + 1])
  {
  }

  /** djw_compute_mtf_1_2: the codes of the symbols, and how often each occurs. */
  method ComputeMtf12(symbols: seq<nat>, mtf: array<nat>, freq: array<nat>) returns (codes: seq<nat>)
    requires mtf != freq && mtf.Length > 0 && freq.Length >= mtf.Length + 1
    requires Within(symbols, mtf[..])
    modifies mtf, freq
    ensures codes == Enc(symbols, old(mtf[..]), 0) && Counted(codes, freq[..])
    ensures |codes| <= |symbols|
  {
    hide RunCodes, Front, Find, Enc, Counted, Writing, Within;
    ClearFreq(freq);
    codes := [];
    var i, mtfRun := 0, 0;
    assert mtf[..] == old(mtf[..]) && symbols[0..] == symbols;
    ghost var all := Enc(symbols, mtf[..], 0);
    StartWriting(symbols, mtf[..]);
    while i < |symbols|
      invariant i <= |symbols| && Counted(codes, freq[..])
      invariant Writing(codes, symbols[i..], mtf[..], mtfRun, all)
    {
      ghost var left := symbols[i..];
      assert left[0] == symbols[i] && left[1..] == symbols[i + 1..];
      WriteNext(codes, left, mtf[..], mtfRun, all);
      var sym := symbols[i];
      i := i + 1;
      var j := FindIn(mtf, sym);
      var _ := UpdateMtf(mtf, j);
      if j == 0 {
        mtfRun := mtfRun + 1;
      } else {
        codes := FlushRun(mtfRun, codes, freq);
        mtfRun := 0;
        CountedStep(codes, j + 1, freq[..]);
        codes := codes + [j + 1];
        freq[j + 1] := freq[j + 1] + 1;
      }
    }
    assert symbols[i..] == [];
    WriteLast(codes, mtf[..], mtfRun, all);
    codes := FlushRun(mtfRun, codes, freq);
    EncBounds(symbols, old(mtf[..]), 0);
  }

  lemma StartWriting(s: seq<nat>, list: seq<nat>)
    requires Within(s, list)
    ensures Writing([], s, list, 0, Enc(s, list, 0))
  {
    assert [] + Enc(s, list, 0) == Enc(s, list, 0);
  }

  /** The search for the symbol in the list. */
  method FindIn(mtf: array<nat>, sym: nat) returns (j: nat)
    requires sym in mtf[..]
    ensures j == Find(mtf[..], sym)
  {
    j := 0;
    while mtf[j] != sym
      invariant j < mtf.Length && sym in mtf[j..]
      invariant j + Find(mtf[j..], sym) == Find(mtf[..], sym)
      decreases mtf.Length - j
    {
      assert mtf[j..][0] == mtf[j] && mtf[j..][1..] == mtf[j + 1..];
      j := j + 1;
    }
  }

  // ----- the decoder -----

  /** The codes of symbols that do not begin with the front of the list. */
  function Break(s: seq<nat>, list: seq<nat>): seq<nat>
    requires Within(s, list)
    requires s != [] ==> s[0] != list[0]
  {
    if s == [] then []
    else
      var j := Find(list, s[0]);
      [j + 1] + Enc(s[1..], Front(list, j), 0)
  }

  lemma EncBreak(s: seq<nat>, list: seq<nat>, run: nat)
    requires list != [] && Within(s, list) && (s != [] ==> s[0] != list[0])
    ensures Enc(s, list, run) == RunCodes(run) + Break(s, list)
  {
    hide RunCodes, Front;
    if s == [] {
      assert Break(s, list) == [];
    } else {
      var j := Find(list, s[0]);
      Assoc(RunCodes(run), [j + 1], Enc(s[1..], Front(list, j), 0));
    }
  }

  lemma Assoc<T>(a: seq<T>, b: seq<T>, c: seq<T>)
    ensures a + b + c == a + (b + c)
  {
  }

  /** A run and what follows it are coded one after the other. */
  lemma {:induction false} EncSplit(s: seq<nat>, list: seq<nat>, run: nat) returns (k: nat)
    requires list != [] && Within(s, list)
    ensures k <= |s| && s == Repeat(list[0], k) + s[k..] && (k < |s| ==> s[k] != list[0])
    ensures Within(s[k..], list) && Enc(s, list, run) == RunCodes(run + k) + Break(s[k..], list)
    decreases |s|
  {
    hide RunCodes, Front, Break, Find;
    if s != [] && s[0] == list[0] {
      k := EncSplit(s[1..], list, run + 1);
      assert s[1..][k..] == s[k + 1..];
      RepeatTail(list[0], k + 1, s[k + 1..]);
      assert s == [s[0]] + s[1..];
      k := k + 1;
    } else {
      k := 0;
      assert s[0..] == s;
      EncBreak(s, list, run);
    }
  }

  lemma RepeatTail(x: nat, n: nat, rest: seq<nat>)
    requires n > 0
    ensures Repeat(x, n) + rest == [x] + (Repeat(x, n - 1) + rest)
    ensures (Repeat(x, n) + rest)[1..] == Repeat(x, n - 1) + rest
  {
    assert Repeat(x, n) == [x] + Repeat(x, n - 1);
  }

  /** v << s */
  function Shl(v: nat, s: nat): (r: nat)
    ensures v > 0 ==> r > 0
  {
    MulLe(if v > 0 then 1 else 0, v, Pow2(s));
    v * Pow2(s)
  }

  /** What the decoder's variables say about the symbols still to come, rem, and the codes still to
      be read, cs: `rep` copies are due and a number q of 2^s copies follows, and then rest; or
      the symbol at place mtf of the list is due. */
  ghost predicate State(list: seq<nat>, rep: nat, mtf: nat, s: nat, q: nat, rest: seq<nat>, rem: seq<nat>,
      cs: seq<nat>) {
    && list != [] && Within(rem, list)
    && if mtf == 0 then
         && rem == Repeat(list[0], rep + q * Pow2(s)) + rest && (rest != [] ==> rest[0] != list[0])
         && Within(rest, list) && cs == RunCodes(q) + Break(rest, list)
       else
         && mtf < |list| && rep == 0 && s == 0 && rem != [] && rem[0] == list[mtf]
         && cs == Enc(rem[1..], Front(list, mtf), 0)
  }

  lemma Begin(list: seq<nat>, rem: seq<nat>) returns (q: nat, rest: seq<nat>)
    requires list != [] && Within(rem, list)
    ensures State(list, 0, 0, 0, q, rest, rem, Enc(rem, list, 0))
  {
    hide RunCodes, Break, Front, Find, Enc, Repeat;
    q := EncSplit(rem, list, 0);
    rest := rem[q..];
    assert q * Pow2(0) == q;
  }

  lemma StepRepeat(list: seq<nat>, rep: nat, mtf: nat, s: nat, q: nat, rest: seq<nat>, rem: seq<nat>, cs: seq<nat>)
    requires State(list, rep, mtf, s, q, rest, rem, cs) && rep > 0
    ensures mtf == 0 && rem != [] && rem[0] == list[0] && State(list, rep - 1, 0, s, q, rest, rem[1..], cs)
  {
    hide RunCodes, Break, Front, Pow2, Repeat;
    RepeatTail(list[0], rep + q * Pow2(s), rest);
  }

  lemma StepMtf(list: seq<nat>, mtf: nat, s: nat, q: nat, rest: seq<nat>, rem: seq<nat>, cs: seq<nat>)
    returns (q': nat, rest': seq<nat>)
    requires State(list, 0, mtf, s, q, rest, rem, cs) && mtf != 0
    ensures s == 0 && mtf < |list| && rem != [] && rem[0] == list[mtf] &&
            State(Front(list, mtf), 0, 0, 0, q', rest', rem[1..], cs)
  {
    q', rest' := Begin(Front(list, mtf), rem[1..]);
  }

  /** A run code doubles the weight of the next one. */
  lemma StepRun(list: seq<nat>, s: nat, q: nat, rest: seq<nat>, rem: seq<nat>, cs: seq<nat>)
    requires State(list, 0, 0, s, q, rest, rem, cs) && q > 0
    ensures cs != [] && cs[0] <= 1
    ensures State(list, (cs[0] + 1) * Pow2(s), 0, s + 1, (q - 1) / 2, rest, rem, cs[1..])
  {
    hide RunCodes, Front, Find, Break, Repeat, Within;
    RunTail(q, Break(rest, list));
    Digit((q - 1) % 2, (q - 1) / 2, Pow2(s));
  }

  /** Any other code is a place in the list. */
  lemma StepPlace(list: seq<nat>, s: nat, rest: seq<nat>, rem: seq<nat>, cs: seq<nat>)
    requires State(list, 0, 0, s, 0, rest, rem, cs) && rem != []
    ensures cs != [] && cs[0] > 1
    ensures State(list, 0, cs[0] - 1, 0, 0, rest, rem, cs[1..])
  {
    hide State, RunCodes, Front, Find, Within, Enc, Break, Repeat;
    NoMore(list, s, rest, rem, cs);
    BreakFirst(rem, list);
    StatePlace(list, cs[0] - 1, rest, rem, cs[1..]);
  }

  lemma NoMore(list: seq<nat>, s: nat, rest: seq<nat>, rem: seq<nat>, cs: seq<nat>)
    requires State(list, 0, 0, s, 0, rest, rem, cs)
    ensures rest == rem && list != [] && Within(rem, list) && (rem != [] ==> rem[0] != list[0])
    ensures cs == Break(rem, list)
  {
    hide RunCodes, Front, Find, Within, Enc, Break, Pow2;
    assert Repeat(list[0], 0) + rest == rest;
    NoRun(Break(rest, list));
  }

  lemma StatePlace(list: seq<nat>, mtf: nat, rest: seq<nat>, rem: seq<nat>, cs: seq<nat>)
    requires list != [] && Within(rem, list) && rem != [] && 0 < mtf < |list| && list[mtf] == rem[0]
    requires Within(rem[1..], Front(list, mtf)) && cs == Enc(rem[1..], Front(list, mtf), 0)
    ensures State(list, 0, mtf, 0, 0, rest, rem, cs)
  {
    hide Enc, Front, Within;
  }

  lemma BreakFirst(s: seq<nat>, list: seq<nat>)
    requires list != [] && Within(s, list) && s != [] && s[0] != list[0]
    ensures Break(s, list) != [] && 1 < Break(s, list)[0] <= |list|
    ensures list[Break(s, list)[0] - 1] == s[0] && Within(s[1..], Front(list, Break(s, list)[0] - 1))
    ensures Break(s, list)[1..] == Enc(s[1..], Front(list, Break(s, list)[0] - 1), 0)
  {
    hide RunCodes, Enc, Front;
    var j := Find(list, s[0]);
    assert ([j + 1] + Enc(s[1..], Front(list, j), 0))[1..] == Enc(s[1..], Front(list, j), 0);
  }

  lemma StepCode(list: seq<nat>, s: nat, q: nat, rest: seq<nat>, rem: seq<nat>, cs: seq<nat>) returns (q': nat)
    requires State(list, 0, 0, s, q, rest, rem, cs) && rem != []
    ensures cs != []
    ensures cs[0] <= 1 ==> State(list, (cs[0] + 1) * Pow2(s), 0, s + 1, q', rest, rem, cs[1..])
    ensures cs[0] > 1 ==> State(list, 0, cs[0] - 1, 0, q', rest, rem, cs[1..])
  {
    hide State;
    if q == 0 {
      q' := 0;
      StepPlace(list, s, rest, rem, cs);
    } else {
      q' := (q - 1) / 2;
      StepRun(list, s, q, rest, rem, cs);
    }
  }

  lemma NoRun(next: seq<nat>)
    ensures RunCodes(0) + next == next
  {
  }

  lemma RunTail(q: nat, next: seq<nat>)
    requires q > 0
    ensures RunCodes(q) + next == [(q - 1) % 2] + (RunCodes((q - 1) / 2) + next)
    ensures (RunCodes(q) + next)[1..] == RunCodes((q - 1) / 2) + next
  {
  }

  lemma Digit(c: nat, q: nat, p: nat)
    ensures (1 + c + 2 * q) * p == (c + 1) * p + q * (2 * p)
  {
  }

  lemma Done(list: seq<nat>, rep: nat, mtf: nat, s: nat, q: nat, rest: seq<nat>, cs: seq<nat>)
    requires State(list, rep, mtf, s, q, rest, [], cs)
    ensures rep == 0 && mtf == 0 && cs == []
  {
    assert |Repeat(list[0], rep + q * Pow2(s)) + rest| == 0;
    if q > 0 {
      MulLe(1, q, Pow2(s));
    }
  }

  /** The words of several codes, one after the other. */
  function Words(clen: seq<nat>, cs: seq<nat>): seq<bool>
    requires Coded(clen, cs)
  {
    if cs == [] then [] else Word(clen, cs[0]) + Words(clen, cs[1..])
  }

  /** All of the codes have a word. */
  predicate Coded(clen: seq<nat>, cs: seq<nat>) {
    forall k :: 0 <= k < |cs| ==> cs[k] < |clen| && clen[cs[k]] > 0
  }

  lemma {:induction false} WordsAppend(clen: seq<nat>, cs: seq<nat>, c: nat)
    requires Coded(clen, cs) && c < |clen| && clen[c] > 0
    ensures Words(clen, cs + [c]) == Words(clen, cs) + Word(clen, c)
  {
    if cs == [] {
      assert [c][1..] == [];
    } else {
      assert (cs + [c])[1..] == cs[1..] + [c];
      WordsAppend(clen, cs[1..], c);
    }
  }

  /** What DecodeSymbol promises, where words of a code lie ahead. */
  lemma NextWord(clen: seq<nat>, maxLen: nat, cs: seq<nat>, tail: seq<bool>, ok: bool, sym: nat,
                 before: seq<bool>, after: seq<bool>)
    requires Kraft(clen, maxLen) && Coded(clen, cs) && cs != [] && before == Words(clen, cs) + tail
    requires ok ==> sym < |clen| && clen[sym] > 0 && before == Word(clen, sym) + after
    requires !ok ==> NoWordAhead(clen, before)
    ensures ok && sym == cs[0] && after == Words(clen, cs[1..]) + tail
  {
    hide Word, Kraft;
    var c := cs[0];
    Assoc(Word(clen, c), Words(clen, cs[1..]), tail);
    hide Words;
    Fronts(Word(clen, c), Words(clen, cs[1..]) + tail, before);
    assert ok;
    Fronts(Word(clen, sym), after, before);
    DecodeUnique(clen, maxLen, before, sym, c);
  }

  lemma Fronts<T>(a: seq<T>, b: seq<T>, all: seq<T>)
    requires all == a + b
    ensures a <= all && b == all[|a|..]
  {
  }

  /** The symbols sent for the values v from the n-th on: a value that a zero stands skip places
      before is not sent (skip 0: all are sent). */
  function Sent(v: seq<nat>, skip: nat, n: nat): (r: seq<nat>)
    requires n <= |v|
    ensures Within(r, v)
    decreases |v| - n
  {
    if n == |v| then []
    else if Skipped(v, skip, n) then Sent(v, skip, n + 1)
    else [v[n]] + Sent(v, skip, n + 1)
  }

  predicate Skipped(v: seq<nat>, skip: nat, n: nat)
    requires n < |v|
  {
    skip != 0 && n >= skip && v[n - skip] == 0
  }

  /** The values that are not sent are zero. */
  predicate Skippable(v: seq<nat>, skip: nat) {
    forall n :: 0 <= n < |v| && Skipped(v, skip, n) ==> v[n] == 0
  }

  lemma {:induction false} SentAll(v: seq<nat>, skip: nat, n: nat)
    requires n <= |v| && (skip == 0 || skip >= |v|)
    ensures Sent(v, skip, n) == v[n..]
    decreases |v| - n
  {
    if n < |v| {
      SentAll(v, skip, n + 1);
    }
  }

  lemma SentStep(v: seq<nat>, skip: nat, n: nat)
    requires n < |v| && Skippable(v, skip)
    ensures Skipped(v, skip, n) ==> v[n] == 0 && Sent(v, skip, n) == Sent(v, skip, n + 1)
    ensures !Skipped(v, skip, n) ==> Sent(v, skip, n) != [] && Sent(v, skip, n)[0] == v[n]
                                     && Sent(v, skip, n)[1..] == Sent(v, skip, n + 1)
  {
    assert ([v[n]] + Sent(v, skip, n + 1))[1..] == Sent(v, skip, n + 1);
  }

  /** The input ahead holds the words for v, followed by tail. */
  ghost predicate Ahead(clen: seq<nat>, maxLen: nat, list: seq<nat>, v: seq<nat>, skip: nat, input: seq<bool>,
      tail: seq<bool>) {
    && Kraft(clen, maxLen) && Skippable(v, skip) && list != []
    && Within(v, list)
    && Coded(clen, Enc(Sent(v, skip, 0), list, 0))
    && input == Words(clen, Enc(Sent(v, skip, 0), list, 0)) + tail
  }

  /** The decoder's loop invariant: n values are written and the rest of the words lies ahead. */
  ghost predicate Decoding(clen: seq<nat>, maxLen: nat, v: seq<nat>, skip: nat, tail: seq<bool>, done: seq<nat>,
                           input: seq<bool>, list: seq<nat>, rep: nat, mtf: nat, s: nat,
                           q: nat, rest: seq<nat>, cs: seq<nat>) {
    && Kraft(clen, maxLen) && Skippable(v, skip) && done <= v && Coded(clen, cs)
    && State(list, rep, mtf, s, q, rest, Sent(v, skip, |done|), cs) && input == Words(clen, cs) + tail
  }

  lemma DecodeSkip(clen: seq<nat>, maxLen: nat, v: seq<nat>, skip: nat, tail: seq<bool>, done: seq<nat>,
                   input: seq<bool>, list: seq<nat>, rep: nat, mtf: nat, s: nat, q: nat, rest: seq<nat>, cs: seq<nat>)
    requires Decoding(clen, maxLen, v, skip, tail, done, input, list, rep, mtf, s, q, rest, cs) && |done| < |v|
    requires skip != 0 && |done| >= skip && done[|done| - skip] == 0
    ensures Decoding(clen, maxLen, v, skip, tail, done + [0], input, list, rep, mtf, s, q, rest, cs)
  {
    hide State, Words, Kraft, Sent, Skippable;
    SentStep(v, skip, |done|);
  }

  lemma DecodeRepeat(clen: seq<nat>, maxLen: nat, v: seq<nat>, skip: nat, tail: seq<bool>, done: seq<nat>,
                     input: seq<bool>, list: seq<nat>, rep: nat, mtf: nat, s: nat, q: nat, rest: seq<nat>, cs: seq<nat>)
    requires Decoding(clen, maxLen, v, skip, tail, done, input, list, rep, mtf, s, q, rest, cs) && |done| < |v|
    requires !(skip != 0 && |done| >= skip && done[|done| - skip] == 0) && rep > 0 && list != []
    ensures mtf == 0
    ensures Decoding(clen, maxLen, v, skip, tail, done + [list[0]], input, list, rep - 1, mtf, s, q, rest, cs)
  {
    hide State, Words, Kraft, Sent, Skippable;
    SentStep(v, skip, |done|);
    StepRepeat(list, rep, mtf, s, q, rest, Sent(v, skip, |done|), cs);
  }

  lemma DecodeMtf(clen: seq<nat>, maxLen: nat, v: seq<nat>, skip: nat, tail: seq<bool>, done: seq<nat>,
                  input: seq<bool>, list: seq<nat>, mtf: nat, s: nat, q: nat, rest: seq<nat>, cs: seq<nat>)
    returns (q': nat, rest': seq<nat>)
    requires Decoding(clen, maxLen, v, skip, tail, done, input, list, 0, mtf, s, q, rest, cs) && |done| < |v|
    requires !(skip != 0 && |done| >= skip && done[|done| - skip] == 0) && 0 < mtf < |list|
    ensures Decoding(clen, maxLen, v, skip, tail, done + [list[mtf]], input, Front(list, mtf), 0, 0, s, q', rest', cs)
  {
    hide State, Words, Kraft, Sent, Skippable;
    SentStep(v, skip, |done|);
    q', rest' := StepMtf(list, mtf, s, q, rest, Sent(v, skip, |done|), cs);
  }

  lemma DecodeCode(clen: seq<nat>, maxLen: nat, v: seq<nat>, skip: nat, tail: seq<bool>, done: seq<nat>,
                   input: seq<bool>, list: seq<nat>, s: nat, q: nat, rest: seq<nat>, cs: seq<nat>,
                   ok: bool, sym: nat, after: seq<bool>) returns (q': nat)
    requires Decoding(clen, maxLen, v, skip, tail, done, input, list, 0, 0, s, q, rest, cs) && |done| < |v|
    requires !(skip != 0 && |done| >= skip && done[|done| - skip] == 0)
    requires ok ==> sym < |clen| && clen[sym] > 0 && input == Word(clen, sym) + after
    requires !ok ==> NoWordAhead(clen, input)
    ensures ok && cs != []
    ensures sym <= 1 ==>
              Decoding(clen, maxLen, v, skip, tail, done, after, list, Shl(sym + 1, s), 0, s + 1, q', rest, cs[1..])
    ensures sym > 1 ==>
              Decoding(clen, maxLen, v, skip, tail, done, after, list, 0, sym - 1, 0, q', rest, cs[1..])
  {
    hide State, Words, Kraft, Sent, Skippable, Word, NoWordAhead;
    SentStep(v, skip, |done|);
    q' := StepCode(list, s, q, rest, Sent(v, skip, |done|), cs);
    NextWord(clen, maxLen, cs, tail, ok, sym, input, after);
  }

  lemma DecodeBegin(clen: seq<nat>, maxLen: nat, list: seq<nat>, v: seq<nat>, skip: nat, input: seq<bool>,
                    tail: seq<bool>) returns (q: nat, rest: seq<nat>, cs: seq<nat>)
    requires Ahead(clen, maxLen, list, v, skip, input, tail)
    ensures Decoding(clen, maxLen, v, skip, tail, [], input, list, 0, 0, 0, q, rest, cs)
  {
    hide State, Words, Kraft, Skippable, Enc;
    cs := Enc(Sent(v, skip, 0), list, 0);
    q, rest := Begin(list, Sent(v, skip, 0));
  }

  lemma DecodeEnd(clen: seq<nat>, maxLen: nat, v: seq<nat>, skip: nat, tail: seq<bool>, done: seq<nat>,
                  input: seq<bool>, list: seq<nat>, rep: nat, mtf: nat, s: nat, q: nat, rest: seq<nat>, cs: seq<nat>)
    requires Decoding(clen, maxLen, v, skip, tail, done, input, list, rep, mtf, s, q, rest, cs) && |done| == |v|
    ensures done == v && rep == 0 && input == tail
  {
    hide State, Kraft, Skippable;
    Done(list, rep, mtf, s, q, rest, cs);
  }

  predicate AtMost(s: seq<nat>, bound: nat) {
    forall k :: 0 <= k < |s| ==> s[k] <= bound
  }

  lemma FrontAtMost(list: seq<nat>, j: nat, bound: nat)
    requires j < |list| && AtMost(list, bound)
    ensures AtMost(Front(list, j), bound)
  {
    hide Front;
    assert forall k :: 0 <= k < |list| ==> Front(list, j)[k] in list;
  }

  lemma AtMostNothing(bound: nat)
    ensures AtMost([], bound)
  {
  }

  lemma AtMostMore(done: seq<nat>, x: nat, list: seq<nat>, bound: nat)
    requires AtMost(done, bound) && AtMost(list, bound) && (x == 0 || x in list)
    ensures AtMost(done + [x], bound)
  {
  }

  /** An element that lies an offset behind a zero is zero. */
  predicate ZerosStay(v: seq<nat>, offset: nat) {
    offset != 0 ==> forall n :: offset <= n < |v| && v[n - offset] == 0 ==> v[n] == 0
  }

  lemma ZerosMore(done: seq<nat>, x: nat, offset: nat)
    requires ZerosStay(done, offset) && (offset != 0 && |done| >= offset && done[|done| - offset] == 0 ==> x == 0)
    ensures ZerosStay(done + [x], offset)
  {
    var v := done + [x];
    if offset != 0 {
      forall n | offset <= n < |v| && v[n - offset] == 0 ensures v[n] == 0 {
        assert v[n - offset] == done[n - offset];
      }
    }
  }

  /** djw_decode_1_2: where the words for any values v lie ahead, the values are v and exactly those
      words are consumed. */
  method Decode12(reader: BitReader, ghost clen: seq<nat>, inorder: seq<int>, base: seq<int>, limit: seq<int>,
                  minClen: nat, maxClen: nat, mtfvals: array<nat>, elts: nat, skipOffset: nat, values: array<nat>,
                  ghost maxLen: nat, ghost v: seq<nat>, ghost tail: seq<bool>, ghost bound: nat)
    returns (ok: bool)
    requires reader.Valid() && |clen| <= 22 && mtfvals != values
    requires IsDecoder(clen, inorder, base, limit, minClen, maxClen)
    requires mtfvals.Length > 0 && mtfvals.Length + 1 >= |clen| && values.Length >= elts
    requires AtMost(mtfvals[..], bound)
    modifies reader, mtfvals, values
    ensures reader.Valid() && (ok ==> AtMost(values[..elts], bound) && ZerosStay(values[..elts], skipOffset))
    ensures |v| == elts && Ahead(clen, maxLen, old(mtfvals[..]), v, skipOffset, old(reader.Rest()), tail)
            ==> ok && values[..elts] == v && reader.Rest() == tail
  {
    hide IsDecoder, Kraft, Decoding, Ahead, Front, Word, BytesBits, BitsOf, Within, Shl, NoWordAhead, AtMost;
    AtMostNothing(bound);
    assert values[..0] == [] && ZerosStay([], skipOffset);
    hide ZerosStay;
    var n: nat, rep: nat, mtf: nat, s: nat := 0, 0, 0, 0;
    ghost var good := |v| == elts && Ahead(clen, maxLen, mtfvals[..], v, skipOffset, reader.Rest(), tail);
    ghost var q: nat, rest: seq<nat>, cs: seq<nat> := 0, [], [];
    if good {
      q, rest, cs := DecodeBegin(clen, maxLen, mtfvals[..], v, skipOffset, reader.Rest(), tail);
    }
    while n < elts
      invariant reader.Valid() && n <= elts && mtf < mtfvals.Length
      invariant AtMost(mtfvals[..], bound) && AtMost(values[..n], bound) && ZerosStay(values[..n], skipOffset)
      invariant good ==> Decoding(clen, maxLen, v, skipOffset, tail, values[..n], reader.Rest(), mtfvals[..],
                                  rep, mtf, s, q, rest, cs)
      decreases elts - n, if rep == 0 && mtf == 0 then 1 else 0
    {
      ghost var done, input, list := values[..n], reader.Rest(), mtfvals[..];
      if skipOffset != 0 && n >= skipOffset && values[n - skipOffset] == 0 {
        if good {
          DecodeSkip(clen, maxLen, v, skipOffset, tail, done, input, list, rep, mtf, s, q, rest, cs);
        }
        values[n] := 0;
        n := n + 1;
        assert values[..n] == done + [0];
        AtMostMore(done, 0, list, bound);
        ZerosMore(done, 0, skipOffset);
        continue;
      }
      if rep != 0 {
        if good {
          DecodeRepeat(clen, maxLen, v, skipOffset, tail, done, input, list, rep, mtf, s, q, rest, cs);
        }
        values[n] := mtfvals[0];
        n := n + 1;
        assert values[..n] == done + [list[0]];
        AtMostMore(done, list[0], list, bound);
        ZerosMore(done, list[0], skipOffset);
        rep := rep - 1;
        continue;
      }
      if mtf != 0 {
        if good {
          q, rest := DecodeMtf(clen, maxLen, v, skipOffset, tail, done, input, list, mtf, s, q, rest, cs);
        }
        FrontAtMost(list, mtf, bound);
        var sym := UpdateMtf(mtfvals, mtf);
        values[n] := sym;
        n := n + 1;
        assert values[..n] == done + [sym];
        AtMostMore(done, sym, list, bound);
        ZerosMore(done, sym, skipOffset);
        mtf := 0;
        continue;
      }
      ok, mtf := DecodeSymbol(reader, clen, inorder, base, limit, minClen, maxClen, 22);
      if good {
        q := DecodeCode(clen, maxLen, v, skipOffset, tail, done, input, list, s, q, rest, cs, ok, mtf, reader.Rest());
        cs := cs[1..];
      }
      if !ok {
        return;
      }
      if mtf <= 1 {
        rep := Shl(mtf + 1, s);
        mtf := 0;
        s := s + 1;
      } else {
        mtf := mtf - 1;
        s := 0;
      }
    }
    if good {
      DecodeEnd(clen, maxLen, v, skipOffset, tail, values[..n], reader.Rest(), mtfvals[..], rep, mtf, s, q, rest, cs);
    }
    ok := rep == 0;
  }
}

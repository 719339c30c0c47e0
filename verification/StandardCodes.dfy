/** The canonical codes are those of RFC 1951: the numbers of section 3.2.2, transmitted from the
    most significant bit on, and for the fixed codes the words section 3.2.6 lists. */
module StandardCodes {
  import opened Bits
  import opened HuffmanCodes
  import opened Canonical
  import opened Inflate
  import opened Rfc1951

  // ---------------------------------------------------------------------------
  // Canonical codes
  // ---------------------------------------------------------------------------

  lemma {:induction false} CountOf(lengths: seq<nat>, len: nat)
    ensures |SymbolsOf(lengths, len)| == multiset(lengths)[len]
  {
    if |lengths| > 0 {
      var n := |lengths| - 1;
      CountOf(lengths[..n], len);
      assert lengths == lengths[..n] + [lengths[n]];
    }
  }

  lemma {:induction false} FirstIsNext(lengths: seq<nat>, len: nat)
    ensures FirstCode(lengths, len) == NextCode(lengths, len)
  {
    if len > 1 {
      FirstIsNext(lengths, len - 1);
      CountOf(lengths, len - 1);
    }
  }

  /** Every symbol has the code the standard gives it. */
  lemma {:induction false} CodeIsStandard(lengths: seq<nat>, s: nat)
    requires s < |lengths|
    ensures CodeOf(lengths, s) == StandardCode(lengths, s)
  {
    FirstIsNext(lengths, lengths[s]);
    CountOf(lengths[..s], lengths[s]);
  }

  lemma {:induction false} MsbBitIs(v: nat, n: nat, j: nat)
    requires j < n
    ensures MsbBits(v, n)[j] == (v / Pow2(n - 1 - j)) % 2
  {
    if j < n - 1 {
      MsbBitIs(v / 2, n - 1, j);
      HalfThenDrop(v, Pow2(n - 2 - j));
    }
  }

  /** It is transmitted from the most significant bit on. */
  lemma {:induction false} WordIsStandard(lengths: seq<nat>, s: nat, j: nat)
    requires s < |lengths| && j < lengths[s]
    ensures |CodeWord(lengths, s)| == lengths[s]
    ensures CodeWord(lengths, s)[j] == (StandardCode(lengths, s) / Pow2(lengths[s] - 1 - j)) % 2
  {
    hide StandardCode, CodeOf;
    CodeIsStandard(lengths, s);
    MsbBitIs(CodeOf(lengths, s), lengths[s], j);
  }

  // ---------------------------------------------------------------------------
  // Fixed codes
  // ---------------------------------------------------------------------------

  lemma {:induction false} CountStretch(lengths: seq<nat>, a: nat, b: nat, len: nat, x: nat)
    requires a <= b <= |lengths| && forall i :: a <= i < b ==> lengths[i] == len
    ensures multiset(lengths[..b])[x] == multiset(lengths[..a])[x] + if x == len then b - a else 0
    decreases b
  {
    if a < b {
      CountStretch(lengths, a, b - 1, len, x);
      assert lengths[..b] == lengths[..b - 1] + [lengths[b - 1]];
    }
  }

  /** How many of the first `s` symbols have length `x`. */
  lemma {:induction false} FixedCount(s: nat, x: nat)
    requires s <= 288
    ensures multiset(FixedLit()[..s])[x] ==
            if x == 8 then (if s < 144 then s else if s < 280 then 144 else s - 136)
            else if x == 9 then (if s < 144 then 0 else if s < 256 then s - 144 else 112)
            else if x == 7 then (if s < 256 then 0 else if s < 280 then s - 256 else 24)
            else 0
  {
    var l := FixedLit();
    var a, b, c := if s < 144 then s else 144, if s < 256 then s else 256, if s < 280 then s else 280;
    assert multiset(l[..0])[x] == 0;
    CountStretch(l, 0, a, 8, x);
    if s > 144 {
      CountStretch(l, 144, b, 9, x);
    }
    if s > 256 {
      CountStretch(l, 256, c, 7, x);
    }
    if s > 280 {
      CountStretch(l, 280, s, 8, x);
    }
  }

  lemma {:induction false} FixedTotal(x: nat)
    ensures multiset(FixedLit())[x] == if x == 7 then 24 else if x == 8 then 152 else if x == 9 then 112 else 0
  {
    FixedCount(288, x);
    assert FixedLit()[..288] == FixedLit();
  }

  lemma {:induction false} FixedNext()
    ensures NextCode(FixedLit(), 7) == 0 && NextCode(FixedLit(), 8) == 0x30 && NextCode(FixedLit(), 9) == 0x190
  {
    hide FixedLit;
    var l: seq<nat> := FixedLit();
    forall x: nat
      ensures multiset(l)[x] == if x == 7 then 24 else if x == 8 then 152 else if x == 9 then 112 else 0
    {
      FixedTotal(x);
    }
    assert NextCode(l, 1) == 0;
    assert NextCode(l, 2) == 0;
    assert NextCode(l, 3) == 0;
    assert NextCode(l, 4) == 0;
    assert NextCode(l, 5) == 0;
    assert NextCode(l, 6) == 0;
    assert NextCode(l, 7) == 0;
    assert NextCode(l, 8) == 48;
    assert NextCode(l, 9) == 400;
  }

  /** The fixed literal and length code consists of the words the standard lists. */
  lemma {:induction false} FixedWords(s: nat)
    requires s < 288
    ensures CodeWord(FixedLit(), s) == FixedWord(s)
  {
    hide MsbBits, NextCode;
    CodeIsStandard(FixedLit(), s);
    FixedCount(s, FixedLit()[s]);
    FixedNext();
  }

  /** The fixed distance code is the symbol itself in five bits. */
  lemma {:induction false} FixedDistanceWords(s: nat)
    requires s < 30
    ensures CodeWord(FixedDist(), s) == MsbBits(s, 5)
  {
    hide MsbBits;
    var d := FixedDist();
    CodeIsStandard(d, s);
    assert multiset(d[..0])[5] == 0;
    CountStretch(d, 0, s, 5, 5);
    NoneShorter(d);
  }

  lemma {:induction false} NoneShorter(d: seq<nat>)
    requires forall i :: 0 <= i < |d| ==> d[i] == 5
    ensures NextCode(d, 5) == 0
  {
    forall x: nat | x < 5
      ensures multiset(d)[x] == 0
    {
      assert x !in d;
    }
    assert NextCode(d, 1) == 0;
    assert NextCode(d, 2) == 0;
    assert NextCode(d, 3) == 0;
    assert NextCode(d, 4) == 0;
  }
}

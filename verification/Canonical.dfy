/** The code words RFC 1951, section 3.2.2 assigns to a vector of code lengths, and the
    proof that the decoder inverts exactly the assignments that fit. */
module Canonical {
  import opened Bits
  import opened HuffmanCodes

  /** `next_code[len]` of the standard: the smallest code of length `len`. */
  function FirstCode(lengths: seq<nat>, len: nat): nat {
    if len <= 1 then 0 else 2 * (FirstCode(lengths, len - 1) + |SymbolsOf(lengths, len - 1)|)
  }

  /** Codes of one length are consecutive, in the order of the symbols. */
  function CodeOf(lengths: seq<nat>, s: nat): nat
    requires s < |lengths|
  {
    FirstCode(lengths, lengths[s]) + |SymbolsOf(lengths[..s], lengths[s])|
  }

  /** The code word as it is transmitted, most significant bit first. */
  function CodeWord(lengths: seq<nat>, s: nat): (w: seq<bit>)
    requires s < |lengths|
  {
    MsbBits(CodeOf(lengths, s), lengths[s])
  }

  /** The share of the code space the lengths ask for, in units of 2^-n. */
  function KraftSum(lengths: seq<nat>, n: nat): nat
    requires CodeLengths(lengths, n)
  {
    if |lengths| == 0 then 0
    else
      var last := lengths[|lengths| - 1];
      KraftSum(lengths[..|lengths| - 1], n) + (if last == 0 then 0 else Pow2(n - last))
  }

  predicate Oversubscribed(lengths: seq<nat>, n: nat)
    requires CodeLengths(lengths, n)
  {
    KraftSum(lengths, n) > Pow2(n)
  }

  // ---------------------------------------------------------------------------
  // The first codes and the Kraft sum
  // ---------------------------------------------------------------------------

  /** `x` doubled `k` times. */
  function Scale(x: nat, k: nat): nat {
    if k == 0 then x else 2 * Scale(x, k - 1)
  }

  lemma {:induction false} ScaleAdd(x: nat, y: nat, k: nat)
    ensures Scale(x + y, k) == Scale(x, k) + Scale(y, k)
  {
    if k > 0 {
      ScaleAdd(x, y, k - 1);
    }
  }

  lemma {:induction false} ScaleZero(k: nat)
    ensures Scale(0, k) == 0
  {
    if k > 0 {
      ScaleZero(k - 1);
    }
  }

  lemma {:induction false} ScaleDouble(x: nat, k: nat)
    ensures Scale(2 * x, k) == Scale(x, k + 1)
  {
    if k > 0 {
      ScaleDouble(x, k - 1);
    }
  }

  lemma {:induction false} ScaleCancel(x: nat, y: nat, k: nat)
    requires Scale(x, k) <= Scale(y, k)
    ensures x <= y
  {
    if k > 0 {
      ScaleCancel(x, y, k - 1);
    }
  }

  lemma {:induction false} ScalePow2(n: nat, k: nat)
    ensures Scale(Pow2(n), k) == Pow2(n + k)
  {
    if k > 0 {
      ScalePow2(n, k - 1);
    }
  }

  /** The same share, summed by length up to `len`. */
  function KraftBelow(lengths: seq<nat>, len: nat, n: nat): nat
    requires len <= n + 1
    decreases len
  {
    if len <= 1 then 0
    else KraftBelow(lengths, len - 1, n) + Scale(|SymbolsOf(lengths, len - 1)|, n + 1 - len)
  }

  lemma {:induction false} KraftBelowStep(lengths: seq<nat>, len: nat, n: nat)
    requires CodeLengths(lengths, n) && lengths != [] && len <= n + 1
    ensures var m := |lengths| - 1;
            KraftBelow(lengths, len, n) == KraftBelow(lengths[..m], len, n) +
                                           (if 1 <= lengths[m] < len then Pow2(n - lengths[m]) else 0)
    decreases len
  {
    if len > 1 {
      KraftBelowStep(lengths, len - 1, n);
      var m := |lengths| - 1;
      ScaleAdd(|SymbolsOf(lengths[..m], len - 1)|, 1, n + 1 - len);
      ScalePow2(0, n + 1 - len);
    }
  }

  lemma {:induction false} KraftBelowEmpty(len: nat, n: nat)
    requires len <= n + 1
    ensures KraftBelow([], len, n) == 0
    decreases len
  {
    if len > 1 {
      KraftBelowEmpty(len - 1, n);
      ScaleZero(n + 1 - len);
    }
  }

  lemma {:induction false} KraftByLength(lengths: seq<nat>, n: nat)
    requires CodeLengths(lengths, n)
    ensures KraftBelow(lengths, n + 1, n) == KraftSum(lengths, n)
    decreases |lengths|
  {
    if lengths == [] {
      KraftBelowEmpty(n + 1, n);
    } else {
      KraftByLength(lengths[..|lengths| - 1], n);
      KraftBelowStep(lengths, n + 1, n);
    }
  }

  lemma {:induction false} FirstCodeKraft(lengths: seq<nat>, len: nat, n: nat)
    requires 1 <= len <= n
    ensures Scale(FirstCode(lengths, len), n - len) == KraftBelow(lengths, len, n)
    ensures Scale(FirstCode(lengths, len) + |SymbolsOf(lengths, len)|, n - len) == KraftBelow(lengths, len + 1, n)
    decreases len
  {
    if len > 1 {
      FirstCodeKraft(lengths, len - 1, n);
      ScaleDouble(FirstCode(lengths, len - 1) + |SymbolsOf(lengths, len - 1)|, n - len);
    } else {
      ScaleZero(n - len);
    }
    ScaleAdd(FirstCode(lengths, len), |SymbolsOf(lengths, len)|, n - len);
  }

  lemma {:induction false} KraftBelowMono(lengths: seq<nat>, a: nat, b: nat, n: nat)
    requires a <= b <= n + 1
    ensures KraftBelow(lengths, a, n) <= KraftBelow(lengths, b, n)
    decreases b
  {
    if a < b {
      KraftBelowMono(lengths, a, b - 1, n);
    }
  }

  /** Without oversubscription the codes of every length fit in that many bits. */
  lemma {:induction false} CodesFit(lengths: seq<nat>, len: nat, n: nat)
    requires CodeLengths(lengths, n) && !Oversubscribed(lengths, n) && 1 <= len <= n
    ensures FirstCode(lengths, len) + |SymbolsOf(lengths, len)| <= Pow2(len)
  {
    FirstCodeKraft(lengths, len, n);
    KraftBelowMono(lengths, len + 1, n + 1, n);
    KraftByLength(lengths, n);
    FitsInBits(FirstCode(lengths, len) + |SymbolsOf(lengths, len)|, len, n);
  }

  lemma {:induction false} FitsInBits(x: nat, len: nat, n: nat)
    requires len <= n && Scale(x, n - len) <= Pow2(n)
    ensures x <= Pow2(len)
  {
    ScalePow2(len, n - len);
    ScaleCancel(x, Pow2(len), n - len);
  }

  /** A longer code never starts with a shorter one: it is at least as large as the first
      unassigned value of every shorter length. */
  lemma {:induction false} FirstCodeGrows(lengths: seq<nat>, a: nat, b: nat)
    requires 1 <= a < b
    ensures FirstCode(lengths, b) >= Scale(FirstCode(lengths, a) + |SymbolsOf(lengths, a)|, b - a)
    decreases b
  {
    if b > a + 1 {
      FirstCodeGrows(lengths, a, b - 1);
    } else {
      assert Scale(FirstCode(lengths, a) + |SymbolsOf(lengths, a)|, 1) ==
        2 * Scale(FirstCode(lengths, a) + |SymbolsOf(lengths, a)|, 0);
    }
  }

  // ---------------------------------------------------------------------------
  // Ranks
  // ---------------------------------------------------------------------------

  /** A symbol's position among those of its length is its rank. */
  lemma {:induction false} RankInverse(lengths: seq<nat>, s: nat)
    requires s < |lengths|
    ensures var r := |SymbolsOf(lengths[..s], lengths[s])|;
            r < |SymbolsOf(lengths, lengths[s])| && SymbolsOf(lengths, lengths[s])[r] == s
  {
    SymbolsOfStep(lengths, s, lengths[s]);
    SymbolsOfPrefix(lengths, s + 1, lengths[s]);
  }

  lemma {:induction false} SymbolsOfAt(lengths: seq<nat>, len: nat, j: nat)
    requires j < |SymbolsOf(lengths, len)|
    ensures var s := SymbolsOf(lengths, len)[j];
            s < |lengths| && lengths[s] == len && |SymbolsOf(lengths[..s], len)| == j
  {
    var n := |lengths| - 1;
    if j < |SymbolsOf(lengths[..n], len)| {
      SymbolsOfAt(lengths[..n], len, j);
      var s := SymbolsOf(lengths, len)[j];
      assert lengths[..n][..s] == lengths[..s];
    }
  }

  lemma {:induction false} SymbolsBelowAt(lengths: seq<nat>, len: nat, j: nat, n: nat)
    requires 1 <= len < n && j < |SymbolsOf(lengths, len)|
    ensures |SymbolsBelow(lengths, len)| + j < |SymbolsBelow(lengths, n)|
    ensures SymbolsBelow(lengths, n)[|SymbolsBelow(lengths, len)| + j] == SymbolsOf(lengths, len)[j]
    decreases n
  {
    if n > len + 1 {
      SymbolsBelowAt(lengths, len, j, n - 1);
    }
  }

  /** What the table holds at an index the decoder computes. */
  lemma {:induction false} TableEntry(lengths: seq<nat>, n: nat, len: nat, j: nat)
    requires 1 <= len <= n && j < |SymbolsOf(lengths, len)|
    ensures TableOf(lengths, n).Offset(len) == |SymbolsBelow(lengths, len)|
    ensures |SymbolsBelow(lengths, len)| + j < |TableOf(lengths, n).symbol|
    ensures TableOf(lengths, n).symbol[|SymbolsBelow(lengths, len)| + j] == SymbolsOf(lengths, len)[j]
  {
    TableOfOffset(lengths, n, len);
    SymbolsBelowAt(lengths, len, j, n + 1);
  }

  // ---------------------------------------------------------------------------
  // Decoding
  // ---------------------------------------------------------------------------

  /** `v` without its low `k` bits. */
  function Drop(v: nat, k: nat): nat {
    if k == 0 then v else Drop(v / 2, k - 1)
  }

  lemma {:induction false} DropHalf(v: nat, k: nat)
    ensures Drop(v, k + 1) == Drop(v, k) / 2
  {
    if k > 0 {
      DropHalf(v / 2, k - 1);
    }
  }

  lemma {:induction false} DropZero(v: nat, k: nat)
    requires v < Pow2(k)
    ensures Drop(v, k) == 0
  {
    if k > 0 {
      DropZero(v / 2, k - 1);
    }
  }

  lemma {:induction false} DropLowerBound(v: nat, k: nat, m: nat)
    requires v >= Scale(m, k)
    ensures Drop(v, k) >= m
  {
    if k > 0 {
      DropLowerBound(v / 2, k - 1, m);
    }
  }

  lemma {:induction false} MsbBitAt(v: nat, n: nat, j: nat)
    requires j < n
    ensures MsbBits(v, n)[j] == Drop(v, n - 1 - j) % 2
  {
    if j < n - 1 {
      MsbBitAt(v / 2, n - 1, j);
    }
  }

  /** The first `k` bits of a code word are past every code of `k` bits. */
  lemma {:induction false} CodeBeyond(lengths: seq<nat>, s: nat, k: nat)
    requires s < |lengths| && 1 <= k < lengths[s]
    ensures FirstCode(lengths, k) + |SymbolsOf(lengths, k)| <= Drop(CodeOf(lengths, s), lengths[s] - k)
  {
    var l, v := lengths[s], CodeOf(lengths, s);
    FirstCodeGrows(lengths, k, l);
    DropLowerBound(v, l - k, FirstCode(lengths, k) + |SymbolsOf(lengths, k)|);
  }

  lemma {:induction false} PrefixAtLeast(lengths: seq<nat>, s: nat, k: nat)
    requires s < |lengths| && k < lengths[s]
    ensures FirstCode(lengths, k + 1) <= 2 * Drop(CodeOf(lengths, s), lengths[s] - k)
  {
    if k > 0 {
      CodeBeyond(lengths, s, k);
    }
  }

  /** The decoder's walk when `p` is the value of the `len - 1` bits read so far. */
  ghost function DecodeAt(lengths: seq<nat>, n: nat, bits: seq<bit>, len: nat, p: nat): Decoded
    requires 1 <= len <= n + 1 && FirstCode(lengths, len) <= 2 * p
  {
    TableOfFilled(lengths, n);
    TableOfOffset(lengths, n, len);
    DecodeFrom(TableOf(lengths, n), bits, len, 2 * p, FirstCode(lengths, len), |SymbolsBelow(lengths, len)|)
  }

  /** One step of that walk, in terms of the symbols themselves. */
  lemma {:induction false} DecodeStep(lengths: seq<nat>, n: nat, bits: seq<bit>, len: nat, p: nat)
    requires 1 <= len <= n && bits != [] && FirstCode(lengths, len) <= 2 * p
    ensures var c := 2 * p + bits[0];
            var of := SymbolsOf(lengths, len);
            DecodeAt(lengths, n, bits, len, p) ==
            if c - FirstCode(lengths, len) < |of| then Symbol(of[c - FirstCode(lengths, len)], bits[1..])
            else DecodeAt(lengths, n, bits[1..], len + 1, c)
  {
    var t := TableOf(lengths, n);
    var c := 2 * p + bits[0];
    var j := c - FirstCode(lengths, len);
    TableOfFilled(lengths, n);
    TableOfOffset(lengths, n, len);
    DecodeFromStep(t, bits, len, 2 * p, FirstCode(lengths, len), |SymbolsBelow(lengths, len)|);
    assert t.count[len] == |SymbolsOf(lengths, len)|;
    if j < |SymbolsOf(lengths, len)| {
      TableEntry(lengths, n, len, j);
    } else {
      assert FirstCode(lengths, len + 1) == 2 * (FirstCode(lengths, len) + |SymbolsOf(lengths, len)|);
      assert |SymbolsBelow(lengths, len + 1)| == |SymbolsBelow(lengths, len)| + |SymbolsOf(lengths, len)|;
    }
  }

  lemma {:induction false} NextBit(lengths: seq<nat>, s: nat, k: nat)
    requires s < |lengths| && k < lengths[s]
    ensures Drop(CodeOf(lengths, s), lengths[s] - (k + 1)) ==
            2 * Drop(CodeOf(lengths, s), lengths[s] - k) + CodeWord(lengths, s)[k]
  {
    MsbBitAt(CodeOf(lengths, s), lengths[s], k);
    DropHalf(CodeOf(lengths, s), lengths[s] - (k + 1));
  }

  /** No code of `k + 1` bits matches while the word goes on. */
  lemma {:induction false} WalkOn(lengths: seq<nat>, n: nat, s: nat, bits: seq<bit>, k: nat)
    requires s < |lengths| && k + 1 < lengths[s] <= n
    requires bits != [] && bits[0] == CodeWord(lengths, s)[k]
    ensures var p := Drop(CodeOf(lengths, s), lengths[s] - k);
            var c := Drop(CodeOf(lengths, s), lengths[s] - (k + 1));
            FirstCode(lengths, k + 1) <= 2 * p && FirstCode(lengths, k + 2) <= 2 * c &&
            DecodeAt(lengths, n, bits, k + 1, p) == DecodeAt(lengths, n, bits[1..], k + 2, c)
  {
    hide DecodeAt, Drop, CodeOf, CodeWord, FirstCode;
    PrefixAtLeast(lengths, s, k);
    PrefixAtLeast(lengths, s, k + 1);
    CodeBeyond(lengths, s, k + 1);
    NextBit(lengths, s, k);
    DecodeStep(lengths, n, bits, k + 1, Drop(CodeOf(lengths, s), lengths[s] - k));
  }

  /** The last bit of the word completes the code of `s`. */
  lemma {:induction false} WalkEnd(lengths: seq<nat>, n: nat, s: nat, bits: seq<bit>, k: nat)
    requires s < |lengths| && k + 1 == lengths[s] <= n
    requires bits != [] && bits[0] == CodeWord(lengths, s)[k]
    ensures var p := Drop(CodeOf(lengths, s), 1);
            FirstCode(lengths, k + 1) <= 2 * p &&
            DecodeAt(lengths, n, bits, k + 1, p) == Symbol(s, bits[1..])
  {
    PrefixAtLeast(lengths, s, k);
    NextBit(lengths, s, k);
    DecodeStep(lengths, n, bits, k + 1, Drop(CodeOf(lengths, s), 1));
    RankInverse(lengths, s);
  }

  /** The walk down a code word. */
  lemma {:induction false} DecodeWalk(lengths: seq<nat>, n: nat, s: nat, bits: seq<bit>, k: nat)
    requires s < |lengths| && k < lengths[s] <= n
    requires CodeWord(lengths, s)[k..] <= bits
    ensures FirstCode(lengths, k + 1) <= 2 * Drop(CodeOf(lengths, s), lengths[s] - k)
    ensures DecodeAt(lengths, n, bits, k + 1, Drop(CodeOf(lengths, s), lengths[s] - k))
            == Symbol(s, bits[lengths[s] - k..])
    decreases lengths[s] - k
  {
    NextBits(CodeWord(lengths, s), bits, k);
    if k + 1 < lengths[s] {
      WalkOn(lengths, n, s, bits, k);
      DecodeWalk(lengths, n, s, bits[1..], k + 1);
      assert bits[1..][lengths[s] - (k + 1)..] == bits[lengths[s] - k..];
    } else {
      WalkEnd(lengths, n, s, bits, k);
    }
  }

  lemma {:induction false} NextBits(w: seq<bit>, bits: seq<bit>, k: nat)
    requires k < |w| && w[k..] <= bits
    ensures bits[0] == w[k] && w[k + 1..] <= bits[1..]
  {
    assert bits[0] == w[k..][0];
    assert w[k + 1..] == w[k..][1..];
  }

  /** Decoding a code word gives its symbol and consumes exactly the word. */
  lemma {:induction false} DecodeCodeWord(lengths: seq<nat>, n: nat, s: nat, rest: seq<bit>)
    requires CodeLengths(lengths, n) && !Oversubscribed(lengths, n)
    requires s < |lengths| && lengths[s] != 0
    ensures TableOf(lengths, n).Filled()
    ensures DecodeSpec(TableOf(lengths, n), CodeWord(lengths, s) + rest) == Symbol(s, rest)
  {
    var l := lengths[s];
    TableOfFilled(lengths, n);
    RankInverse(lengths, s);
    CodesFit(lengths, l, n);
    DropZero(CodeOf(lengths, s), l);
    var bits := CodeWord(lengths, s) + rest;
    assert CodeWord(lengths, s)[0..] <= bits && bits[l..] == rest;
    DecodeWalk(lengths, n, s, bits, 0);
  }

  /** Whatever the decoder answers is right, for every vector of lengths: the bits it
      consumed are the code word of the symbol it returns. */
  lemma {:induction false} DecodeAtSound(lengths: seq<nat>, n: nat, bits: seq<bit>, len: nat, p: nat)
    requires 1 <= len <= n + 1 && p < Pow2(len - 1) && FirstCode(lengths, len) <= 2 * p
    ensures var d := DecodeAt(lengths, n, bits, len, p);
            d.Symbol? ==>
              && d.value < |lengths| && len <= lengths[d.value]
              && CodeOf(lengths, d.value) < Pow2(lengths[d.value])
              && MsbBits(p, len - 1) + bits == CodeWord(lengths, d.value) + d.rest
    decreases n + 1 - len
  {
    if len <= n && bits != [] {
      var c := 2 * p + bits[0];
      var f := FirstCode(lengths, len);
      DecodeStep(lengths, n, bits, len, p);
      assert MsbBits(c, len) + bits[1..] == MsbBits(p, len - 1) + bits;
      if c - f < |SymbolsOf(lengths, len)| {
        SymbolsOfAt(lengths, len, c - f);
      } else {
        DecodeAtSound(lengths, n, bits[1..], len + 1, c);
      }
    }
  }

  lemma {:induction false} DecodeSound(lengths: seq<nat>, n: nat, bits: seq<bit>)
    ensures TableOf(lengths, n).Filled()
    ensures var d := DecodeSpec(TableOf(lengths, n), bits);
            d.Symbol? ==>
              && d.value < |lengths| && 1 <= lengths[d.value]
              && CodeOf(lengths, d.value) < Pow2(lengths[d.value])
              && bits == CodeWord(lengths, d.value) + d.rest
  {
    TableOfFilled(lengths, n);
    DecodeAtSound(lengths, n, bits, 1, 0);
  }

  /** The decoder inverts the assignment: it answers (s, rest) on exactly the inputs that
      start with the code word of s. */
  lemma {:induction false} DecodeExact(lengths: seq<nat>, n: nat, bits: seq<bit>, s: nat, rest: seq<bit>)
    requires CodeLengths(lengths, n) && !Oversubscribed(lengths, n) && s < |lengths|
    ensures TableOf(lengths, n).Filled()
    ensures DecodeSpec(TableOf(lengths, n), bits) == Symbol(s, rest) <==>
            lengths[s] != 0 && bits == CodeWord(lengths, s) + rest
  {
    DecodeSound(lengths, n, bits);
    if lengths[s] != 0 {
      DecodeCodeWord(lengths, n, s, rest);
    }
  }

  /** With too many codes some symbol's code is wider than its length. */
  lemma {:induction false} OversubscribedWitness(lengths: seq<nat>, len: nat) returns (s: nat)
    requires 1 <= len
    requires FirstCode(lengths, len) + |SymbolsOf(lengths, len)| > Pow2(len)
    ensures s < |lengths| && lengths[s] != 0 && CodeOf(lengths, s) >= Pow2(lengths[s])
  {
    var of := SymbolsOf(lengths, len);
    if of != [] {
      s := of[|of| - 1];
      SymbolsOfAt(lengths, len, |of| - 1);
    } else {
      assert len > 1;
      s := OversubscribedWitness(lengths, len - 1);
    }
  }

  ghost predicate DecodesEverySymbol(lengths: seq<nat>, n: nat) {
    TableOf(lengths, n).Filled() &&
    forall s: nat, rest: seq<bit> :: s < |lengths| && lengths[s] != 0 ==>
      DecodeSpec(TableOf(lengths, n), CodeWord(lengths, s) + rest) == Symbol(s, rest)
  }

  /** The round trip holds for every symbol exactly when the lengths are not oversubscribed. */
  lemma {:induction false} DecodesIffNotOversubscribed(lengths: seq<nat>, n: nat)
    requires CodeLengths(lengths, n)
    ensures DecodesEverySymbol(lengths, n) <==> !Oversubscribed(lengths, n)
  {
    TableOfFilled(lengths, n);
    if !Oversubscribed(lengths, n) {
      forall s: nat, rest: seq<bit> | s < |lengths| && lengths[s] != 0
        ensures DecodeSpec(TableOf(lengths, n), CodeWord(lengths, s) + rest) == Symbol(s, rest)
      {
        DecodeCodeWord(lengths, n, s, rest);
      }
    } else {
      KraftByLength(lengths, n);
      assert KraftBelow(lengths, 1, n) == 0;
      FirstCodeKraft(lengths, n, n);
      var s := OversubscribedWitness(lengths, n);
      DecodeSound(lengths, n, CodeWord(lengths, s) + []);
    }
  }

  // ---------------------------------------------------------------------------
  // Symbol sequences
  // ---------------------------------------------------------------------------

  predicate Codable(lengths: seq<nat>, symbols: seq<nat>) {
    forall i :: 0 <= i < |symbols| ==> symbols[i] < |lengths| && lengths[symbols[i]] != 0
  }

  function EncodeSymbols(lengths: seq<nat>, symbols: seq<nat>): seq<bit>
    requires Codable(lengths, symbols)
  {
    if symbols == [] then [] else CodeWord(lengths, symbols[0]) + EncodeSymbols(lengths, symbols[1..])
  }

  /** Decodes `n` symbols; fewer come back when the bits run out or match no code. */
  function DecodeSymbols(t: Table, bits: seq<bit>, n: nat): (seq<nat>, seq<bit>)
    requires t.Filled()
    decreases n
  {
    if n == 0 then ([], bits)
    else
      match DecodeSpec(t, bits)
      case NoSymbol => ([], bits)
      case Symbol(s, rest) =>
        var (ss, r) := DecodeSymbols(t, rest, n - 1);
        ([s] + ss, r)
  }

  /** Concatenated code words decode to the symbols they came from. */
  lemma {:induction false} SymbolsRoundTrip(lengths: seq<nat>, n: nat, symbols: seq<nat>, rest: seq<bit>)
    requires CodeLengths(lengths, n) && !Oversubscribed(lengths, n) && Codable(lengths, symbols)
    ensures TableOf(lengths, n).Filled()
    ensures DecodeSymbols(TableOf(lengths, n), EncodeSymbols(lengths, symbols) + rest, |symbols|) == (symbols, rest)
  {
    TableOfFilled(lengths, n);
    if symbols == [] {
      assert EncodeSymbols(lengths, symbols) + rest == rest;
    } else {
      var w, e := CodeWord(lengths, symbols[0]), EncodeSymbols(lengths, symbols[1..]);
      assert (w + e) + rest == w + (e + rest);
      DecodeCodeWord(lengths, n, symbols[0], e + rest);
      SymbolsRoundTrip(lengths, n, symbols[1..], rest);
      assert [symbols[0]] + symbols[1..] == symbols;
    }
  }
}

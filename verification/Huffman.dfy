/** Canonical Huffman codes (RFC 1951, section 3.2.2): the table the decoder walks,
    the code words the standard assigns, and the proof that they are inverse. */
module HuffmanCodes {
  import opened Bits

  /** The longest code; the lemmas about codes hold for any longest code `n`. */
  const MAX_BITS: nat := 15

  /** The decoder's table: how many codes there are of each length, and the symbols
      ordered by length, then by value. */
  datatype Table = Table(count: seq<nat>, symbol: seq<nat>) {

    /** How many symbols have a code shorter than `len`. */
    function Offset(len: nat): nat
      requires 1 <= len <= |count|
    {
      if len == 1 then 0 else Offset(len - 1) + count[len - 1]
    }

    /** `symbol` holds exactly the filled entries. */
    predicate Filled() {
      |count| >= 1 && Offset(|count|) == |symbol|
    }

    lemma {:induction false} OffsetMono(a: nat, b: nat)
      requires 1 <= a <= b <= |count|
      ensures Offset(a) <= Offset(b)
      decreases b
    {
      if a < b {
        OffsetMono(a, b - 1);
      }
    }
  }

  datatype Decoded = Symbol(value: nat, rest: seq<bit>) | NoSymbol

  /** The decoder's walk, one code length per step. `code` is twice the value of the bits
      read so far and `first` the first code of length `len`. The table is arbitrary: that
      the indexing below is within `t.symbol`, the filled part, holds even for tables that
      no prefix code has. */
  function DecodeFrom(t: Table, bits: seq<bit>, len: nat, code: nat, first: nat, index: nat): Decoded
    requires t.Filled()
    requires 1 <= len <= |t.count| && first <= code && index == t.Offset(len)
    decreases |t.count| - len
  {
    if len == |t.count| || bits == [] then NoSymbol
    else
      var c := code + bits[0];
      var n := t.count[len];
      t.OffsetMono(len + 1, |t.count|);
      if c - n < first then Symbol(t.symbol[index + (c - first)], bits[1..])
      else DecodeFrom(t, bits[1..], len + 1, 2 * c, 2 * (first + n), index + n)
  }

  function DecodeSpec(t: Table, bits: seq<bit>): Decoded
    requires t.Filled()
  {
    DecodeFrom(t, bits, 1, 0, 0, 0)
  }

  /** One step of the walk. */
  lemma {:induction false} DecodeFromStep(t: Table, bits: seq<bit>, len: nat, code: nat, first: nat, index: nat)
    requires t.Filled() && 1 <= len < |t.count|
    requires first <= code && index == t.Offset(len)
    ensures index + t.count[len] == t.Offset(len + 1) <= |t.symbol|
    ensures bits == [] ==> DecodeFrom(t, bits, len, code, first, index) == NoSymbol
    ensures bits != [] ==>
              var c := code + bits[0];
              DecodeFrom(t, bits, len, code, first, index) ==
              if c - first < t.count[len] then Symbol(t.symbol[index + (c - first)], bits[1..])
              else DecodeFrom(t, bits[1..], len + 1, 2 * c, 2 * (first + t.count[len]), index + t.count[len])
  {
    t.OffsetMono(len + 1, |t.count|);
  }

  lemma {:induction false} DecodeConsumes(t: Table, bits: seq<bit>, len: nat, code: nat, first: nat, index: nat)
    requires t.Filled()
    requires 1 <= len <= |t.count| && first <= code && index == t.Offset(len)
    ensures var d := DecodeFrom(t, bits, len, code, first, index);
            d.Symbol? ==> |d.rest| < |bits| && d.rest == bits[|bits| - |d.rest|..]
    decreases |t.count| - len
  {
    if len < |t.count| && bits != [] {
      var c := code + bits[0];
      var n := t.count[len];
      if c - n >= first {
        DecodeConsumes(t, bits[1..], len + 1, 2 * c, 2 * (first + n), index + n);
      }
    }
  }

  /** Whatever the table's counts, a decoded symbol is one of the table's. */
  lemma {:induction false} DecodeInTable(t: Table, bits: seq<bit>, len: nat, code: nat, first: nat, index: nat)
    requires t.Filled()
    requires 1 <= len <= |t.count| && first <= code && index == t.Offset(len)
    ensures var d := DecodeFrom(t, bits, len, code, first, index);
            d.Symbol? ==> d.value in t.symbol
    decreases |t.count| - len
  {
    if len < |t.count| && bits != [] {
      var c := code + bits[0];
      var n := t.count[len];
      DecodeFromStep(t, bits, len, code, first, index);
      if c - n < first {
        assert t.symbol[index + (c - first)] in t.symbol;
      } else {
        DecodeInTable(t, bits[1..], len + 1, 2 * c, 2 * (first + n), index + n);
      }
    }
  }

  // ---------------------------------------------------------------------------
  // Building the table
  // ---------------------------------------------------------------------------

  predicate CodeLengths(lengths: seq<nat>, n: nat) {
    forall i :: 0 <= i < |lengths| ==> lengths[i] <= n
  }

  /** The symbols whose code has length `len`, in increasing order. */
  function SymbolsOf(lengths: seq<nat>, len: nat): seq<nat> {
    if |lengths| == 0 then []
    else
      var n := |lengths| - 1;
      if lengths[n] == len then SymbolsOf(lengths[..n], len) + [n] else SymbolsOf(lengths[..n], len)
  }

  /** The symbols whose code is shorter than `len`, by length and then by value. */
  function SymbolsBelow(lengths: seq<nat>, len: nat): seq<nat> {
    if len <= 1 then [] else SymbolsBelow(lengths, len - 1) + SymbolsOf(lengths, len - 1)
  }

  /** The table of a code whose longest code word has `n` bits. */
  function TableOf(lengths: seq<nat>, n: nat): Table {
    Table(seq(n + 1, len requires 0 <= len <= n => if len == 0 then 0 else |SymbolsOf(lengths, len)|),
          SymbolsBelow(lengths, n + 1))
  }

  lemma {:induction false} TableOfOffset(lengths: seq<nat>, n: nat, len: nat)
    requires 1 <= len <= n + 1
    ensures TableOf(lengths, n).Offset(len) == |SymbolsBelow(lengths, len)|
    decreases len
  {
    if len > 1 {
      TableOfOffset(lengths, n, len - 1);
    }
  }

  lemma {:induction false} TableOfFilled(lengths: seq<nat>, n: nat)
    ensures TableOf(lengths, n).Filled()
  {
    TableOfOffset(lengths, n, n + 1);
  }

  lemma {:induction false} SymbolsOfPrefix(lengths: seq<nat>, i: nat, len: nat)
    requires i <= |lengths|
    ensures SymbolsOf(lengths[..i], len) <= SymbolsOf(lengths, len)
    decreases |lengths|
  {
    if i < |lengths| {
      var n := |lengths| - 1;
      SymbolsOfPrefix(lengths[..n], i, len);
      assert lengths[..n][..i] == lengths[..i];
    } else {
      assert lengths[..i] == lengths;
    }
  }

  lemma {:induction false} SymbolsOfStep(lengths: seq<nat>, i: nat, len: nat)
    requires i < |lengths|
    ensures SymbolsOf(lengths[..i + 1], len) ==
            if lengths[i] == len then SymbolsOf(lengths[..i], len) + [i] else SymbolsOf(lengths[..i], len)
  {
    assert lengths[..i + 1][..i] == lengths[..i];
  }

  lemma {:induction false} SymbolsBelowMono(lengths: seq<nat>, a: nat, b: nat)
    requires a <= b
    ensures |SymbolsBelow(lengths, a)| <= |SymbolsBelow(lengths, b)|
    decreases b
  {
    if a < b {
      SymbolsBelowMono(lengths, a, b - 1);
    }
  }

  /** `s[..|SymbolsBelow|]` filled class by class is `SymbolsBelow`. */
  lemma {:induction false} SymbolsBelowByClass(lengths: seq<nat>, s: seq<nat>, len: nat)
    requires 1 <= len && |SymbolsBelow(lengths, len)| <= |s|
    requires forall k, j {:trigger Slot(lengths, k, j)} :: 1 <= k < len && 0 <= j < |SymbolsOf(lengths, k)| ==>
               Slot(lengths, k, j) < |s| && s[Slot(lengths, k, j)] == SymbolsOf(lengths, k)[j]
    ensures SymbolsBelow(lengths, len) <= s
  {
    if len > 1 {
      SymbolsBelowByClass(lengths, s, len - 1);
      var below, of := SymbolsBelow(lengths, len - 1), SymbolsOf(lengths, len - 1);
      forall i | 0 <= i < |below| + |of|
        ensures s[i] == (below + of)[i]
      {
        if i >= |below| {
          assert Slot(lengths, len - 1, i - |below|) == i;
        }
      }
    }
  }

  /** No more symbols than lengths are filed below any length. */
  lemma {:induction false} SymbolsBelowSize(lengths: seq<nat>, len: nat)
    ensures |SymbolsBelow(lengths, len)| <= |lengths|
    decreases |lengths|
  {
    if lengths == [] {
      SymbolsBelowEmpty(len);
    } else {
      var n := |lengths| - 1;
      SymbolsBelowSize(lengths[..n], len);
      SymbolsBelowGrow(lengths, len);
    }
  }

  lemma {:induction false} SymbolsBelowEmpty(len: nat)
    ensures SymbolsBelow([], len) == []
  {
    if len > 1 {
      SymbolsBelowEmpty(len - 1);
    }
  }

  lemma {:induction false} SymbolsBelowGrow(lengths: seq<nat>, len: nat)
    requires lengths != []
    ensures var n := |lengths| - 1;
            |SymbolsBelow(lengths, len)| ==
            |SymbolsBelow(lengths[..n], len)| + (if 1 <= lengths[n] < len then 1 else 0)
    decreases len
  {
    if len > 1 {
      SymbolsBelowGrow(lengths, len - 1);
    }
  }

  class Huffman {
    const count: array<nat>
    const symbol: array<nat>

    constructor ()
      ensures Valid() && fresh(count) && fresh(symbol)
    {
      count := new nat[16](_ => 0);
      symbol := new nat[288](_ => 0);
    }

    ghost predicate Valid() {
      count.Length == 16 && symbol.Length == 288 && count != symbol
    }

    /** What the two arrays hold: the counts and the filled part of the symbols. */
    ghost function Contents(filled: nat): Table
      requires Valid() && filled <= 288
      reads count, symbol
    {
      Table(count[..], symbol[..filled])
    }

    /** The arrays hold table `t`. */
    ghost predicate Holds(t: Table)
      requires Valid()
      reads count, symbol
    {
      t.Filled() && |t.symbol| <= 288 && Contents(|t.symbol|) == t
    }

    lemma {:induction false} CountAt(t: Table, len: nat)
      requires Valid() && Holds(t) && len < |t.count|
      ensures |t.count| == 16 && count[len] == t.count[len]
    {
      assert count[..][len] == t.count[len];
    }

    lemma {:induction false} SymbolAt(t: Table, i: nat)
      requires Valid() && Holds(t) && i < |t.symbol|
      ensures i < 288 && symbol[i] == t.symbol[i]
    {
      assert symbol[..|t.symbol|][i] == t.symbol[i];
    }

    /** Counts the codes of each length, then files every symbol under its length. */
    method Build(lengths: seq<nat>)
      requires Valid() && |lengths| <= 288 && CodeLengths(lengths, MAX_BITS)
      modifies count, symbol
      ensures Holds(TableOf(lengths, MAX_BITS))
    {
      var n := |lengths|;
      forall k | 0 <= k < 16 {
        count[k] := 0;
      }
      for i := 0 to n
        invariant forall k :: 0 <= k < 16 ==> count[k] == |SymbolsOf(lengths[..i], k)|
      {
        SymbolsOfStepAll(lengths, i);
        count[lengths[i]] := count[lengths[i]] + 1;
      }
      assert lengths[..n] == lengths;
      count[0] := 0;
      var offs := new nat[16](_ => 0);
      for i := 1 to 15
        invariant forall k :: 1 <= k <= i ==> offs[k] == Slot(lengths, k, 0)
        invariant forall k :: 0 <= k < 16 ==> count[k] == TableOf(lengths, MAX_BITS).count[k]
      {
        offs[i + 1] := offs[i] + count[i];
      }
      FileSymbols(lengths, offs);
      SymbolsBelowSize(lengths, 16);
      TableOfFilled(lengths, MAX_BITS);
      assert lengths[..n] == lengths;
      SymbolsBelowByClass(lengths, symbol[..], 16);
      assert count[..] == TableOf(lengths, MAX_BITS).count;
      assert symbol[..|SymbolsBelow(lengths, 16)|] == TableOf(lengths, MAX_BITS).symbol;
    }

    /** The last loop of `Build`: `offs` says where each class of symbols goes next. */
    method FileSymbols(lengths: seq<nat>, offs: array<nat>)
      requires Valid() && |lengths| <= 288 && CodeLengths(lengths, MAX_BITS)
      requires offs.Length == 16 && offs != symbol && offs != count
      requires forall k :: 1 <= k < 16 ==> offs[k] == Slot(lengths, k, 0)
      modifies symbol, offs
      ensures Filed(symbol[..], lengths, |lengths|)
    {
      for i := 0 to |lengths|
        invariant forall k :: 1 <= k < 16 ==> offs[k] == Slot(lengths, k, |SymbolsOf(lengths[..i], k)|)
        invariant Filed(symbol[..], lengths, i)
      {
        SymbolsOfStepAll(lengths, i);
        if lengths[i] != 0 {
          ghost var before := symbol[..];
          SlotFree(lengths, i, before);
          symbol[offs[lengths[i]]] := i;
          assert symbol[..] == before[Slot(lengths, lengths[i], |SymbolsOf(lengths[..i], lengths[i])|) := i];
          offs[lengths[i]] := offs[lengths[i]] + 1;
        } else {
          FiledSkip(symbol[..], lengths, i);
        }
      }
    }
  }

  /** Where the `j`-th symbol of length `k` is filed. */
  function Slot(lengths: seq<nat>, k: nat, j: nat): nat {
    |SymbolsBelow(lengths, k)| + j
  }

  /** The first `i` symbols are in their slots. */
  ghost predicate Filed(s: seq<nat>, lengths: seq<nat>, i: nat)
    requires i <= |lengths|
  {
    forall k, j {:trigger Slot(lengths, k, j)} :: 1 <= k < 16 && 0 <= j < |SymbolsOf(lengths[..i], k)| ==>
      Slot(lengths, k, j) < |s| && s[Slot(lengths, k, j)] == SymbolsOf(lengths[..i], k)[j]
  }

  lemma {:induction false} SlotInjective(lengths: seq<nat>, k: nat, j: nat, k': nat, j': nat)
    requires 1 <= k < 16 && 1 <= k' < 16
    requires j < |SymbolsOf(lengths, k)| && j' < |SymbolsOf(lengths, k')|
    ensures Slot(lengths, k, j) == Slot(lengths, k', j') ==> k == k' && j == j'
    ensures Slot(lengths, k, j) < |SymbolsBelow(lengths, 16)|
  {
    SymbolsBelowMono(lengths, k + 1, 16);
    if k < k' {
      SymbolsBelowMono(lengths, k + 1, k');
    } else if k' < k {
      SymbolsBelowMono(lengths, k' + 1, k);
    }
  }

  lemma {:induction false} SymbolsOfStepAll(lengths: seq<nat>, i: nat)
    requires i < |lengths|
    ensures forall k: nat :: (SymbolsOf(lengths[..i + 1], k) ==
              if lengths[i] == k then SymbolsOf(lengths[..i], k) + [i] else SymbolsOf(lengths[..i], k))
  {
    forall k: nat
      ensures SymbolsOf(lengths[..i + 1], k) ==
              if lengths[i] == k then SymbolsOf(lengths[..i], k) + [i] else SymbolsOf(lengths[..i], k)
    {
      SymbolsOfStep(lengths, i, k);
    }
  }

  lemma {:induction false} FiledSkip(s: seq<nat>, lengths: seq<nat>, i: nat)
    requires i < |lengths| && lengths[i] == 0 && Filed(s, lengths, i)
    ensures Filed(s, lengths, i + 1)
  {
    SymbolsOfStepAll(lengths, i);
  }

  /** Filing symbol `i` in its own slot disturbs no symbol filed before it. */
  lemma {:induction false} SlotFree(lengths: seq<nat>, i: nat, s: seq<nat>)
    requires |lengths| <= 288 && CodeLengths(lengths, MAX_BITS) && i < |lengths| && lengths[i] != 0
    requires |s| == 288 && Filed(s, lengths, i)
    ensures var at := Slot(lengths, lengths[i], |SymbolsOf(lengths[..i], lengths[i])|);
            at < 288 && Filed(s[at := i], lengths, i + 1)
  {
    var l := lengths[i];
    var rank := |SymbolsOf(lengths[..i], l)|;
    var at := Slot(lengths, l, rank);
    SymbolsOfStep(lengths, i, l);
    SymbolsOfPrefix(lengths, i + 1, l);
    SymbolsBelowSize(lengths, 16);
    SlotInjective(lengths, l, rank, l, rank);
    forall k, j | 1 <= k < 16 && 0 <= j < |SymbolsOf(lengths[..i + 1], k)|
      ensures Slot(lengths, k, j) < 288 && s[at := i][Slot(lengths, k, j)] == SymbolsOf(lengths[..i + 1], k)[j]
    {
      SymbolsOfStep(lengths, i, k);
      SymbolsOfPrefix(lengths, i + 1, k);
      SlotInjective(lengths, k, j, l, rank);
    }
  }
}

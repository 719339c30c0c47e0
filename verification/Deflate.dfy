/** A reference encoder for RFC 1951 and the proof that the decoder undoes it: what block
    lists mean (`ExpandBlocks`), how they are written as bits (`EncodeBlocks`), and that
    reading those bits gives that meaning. */
module Deflate {
  import opened Bits
  import opened HuffmanCodes
  import opened Canonical
  import opened Inflate
  import opened Options
  import opened Rfc1951

  // ---------------------------------------------------------------------------
  // Literals and matches
  // ---------------------------------------------------------------------------

  /** One element of the compressed data; a match names its length and distance by code and
      extra bits, so every choice an encoder has is a token. */
  datatype Token = Literal(b: byte) | Match(lcode: nat, lextra: nat, dcode: nat, dextra: nat)

  predicate ValidToken(t: Token) {
    t.Match? ==> t.lcode < 29 && t.lextra < Pow2(LengthExtra(t.lcode)) &&
                 t.dcode < 30 && t.dextra < Pow2(DistanceExtra(t.dcode))
  }

  function Length(t: Token): nat
    requires t.Match? && t.lcode < 29
  {
    LengthBase(t.lcode) + t.lextra
  }

  function Distance(t: Token): (d: nat)
    requires t.Match? && t.dcode < 30
    ensures d >= 1
  {
    DistanceBase(t.dcode) + t.dextra
  }

  /** What the tokens stand for after `out`; nothing when a distance reaches too far back. */
  ghost function Expand(tokens: seq<Token>, out: seq<byte>): Option<seq<byte>>
    requires forall i :: 0 <= i < |tokens| ==> ValidToken(tokens[i])
    decreases |tokens|
  {
    if |tokens| == 0 then Some(out)
    else
      var t := tokens[0];
      assert ValidToken(t);
      if t.Literal? then Expand(tokens[1..], out + [t.b])
      else if Distance(t) > |out| then None
      else Expand(tokens[1..], Copy(out, Distance(t), Length(t)))
  }

  // ---------------------------------------------------------------------------
  // The decoder's tables are the standard's
  // ---------------------------------------------------------------------------

  ghost predicate Standard(tb: Tables) {
    && tb.Valid()
    && (forall c: nat :: c < 29 ==> tb.lenBase[c] == LengthBase(c) && tb.lenExtra[c] == LengthExtra(c))
    && (forall c: nat :: c < 30 ==> tb.distBase[c] == DistanceBase(c) && tb.distExtra[c] == DistanceExtra(c))
  }

  lemma {:induction false} SmallPowers()
    ensures Pow2(0) == 1 && Pow2(1) == 2 && Pow2(2) == 4 && Pow2(3) == 8 && Pow2(4) == 16
    ensures Pow2(5) == 32 && Pow2(6) == 64 && Pow2(7) == 128 && Pow2(8) == 256
    ensures Pow2(9) == 512 && Pow2(10) == 1024 && Pow2(11) == 2048 && Pow2(12) == 4096 && Pow2(13) == 8192
  {
    assert Pow2(3) == 8 && Pow2(6) == 64 && Pow2(9) == 512;
  }

  lemma {:induction false} LengthExtraAt(c: nat)
    requires c < 29
    ensures TABLES.lenExtra[c] == LengthExtra(c)
  {}

  lemma {:induction false} DistanceExtraAt(c: nat)
    requires c < 30
    ensures TABLES.distExtra[c] == DistanceExtra(c)
  {}

  /** The values of each code end where those of the next one begin. */
  ghost predicate Contiguous(base: seq<nat>, extra: seq<nat>, n: nat) {
    n < |base| == |extra| && forall c :: 0 <= c < n ==> base[c] + Pow2(extra[c]) == base[c + 1]
  }

  lemma {:induction false} LengthsContiguous()
    ensures Contiguous(TABLES.lenBase, TABLES.lenExtra, 27)
  {
    hide Pow2;
    SmallPowers();
  }

  lemma {:induction false} DistancesContiguous()
    ensures Contiguous(TABLES.distBase, TABLES.distExtra, 29)
  {
    hide Pow2;
    SmallPowers();
  }

  lemma {:induction false} LengthBaseAt(base: seq<nat>, extra: seq<nat>, c: nat)
    requires Contiguous(base, extra, 27) && |base| == 29 && base[0] == 3 && base[28] == 258 && c < 29
    requires forall k: nat :: k < 29 ==> extra[k] == LengthExtra(k)
    ensures base[c] == LengthBase(c)
  {
    hide Pow2, LengthExtra;
    if 0 < c < 28 {
      LengthBaseAt(base, extra, c - 1);
    }
  }

  lemma {:induction false} DistanceBaseAt(base: seq<nat>, extra: seq<nat>, c: nat)
    requires Contiguous(base, extra, 29) && |base| == 30 && base[0] == 1 && c < 30
    requires forall k: nat :: k < 30 ==> extra[k] == DistanceExtra(k)
    ensures base[c] == DistanceBase(c)
  {
    hide Pow2, DistanceExtra;
    if c > 0 {
      DistanceBaseAt(base, extra, c - 1);
    }
  }

  /** The decoder's tables hold the bases and extra bits of RFC 1951, section 3.2.5. */
  lemma {:induction false} TablesStandard()
    ensures Standard(TABLES) && TABLES.Valid()
  {
    hide Contiguous, LengthExtra, DistanceExtra, LengthBase, DistanceBase;
    forall c: nat | c < 29
      ensures TABLES.lenExtra[c] == LengthExtra(c)
    {
      LengthExtraAt(c);
    }
    forall c: nat | c < 30
      ensures TABLES.distExtra[c] == DistanceExtra(c)
    {
      DistanceExtraAt(c);
    }
    LengthsContiguous();
    DistancesContiguous();
    forall c: nat | c < 29
      ensures TABLES.lenBase[c] == LengthBase(c)
    {
      LengthBaseAt(TABLES.lenBase, TABLES.lenExtra, c);
    }
    forall c: nat | c < 30
      ensures TABLES.distBase[c] == DistanceBase(c)
    {
      DistanceBaseAt(TABLES.distBase, TABLES.distExtra, c);
    }
    TablesValid();
  }

  // ---------------------------------------------------------------------------
  // Every match has a token
  // ---------------------------------------------------------------------------

  lemma {:induction false} CodeFor(base: seq<nat>, extra: seq<nat>, n: nat, v: nat) returns (c: nat)
    requires Contiguous(base, extra, n) && base[0] <= v < base[n] + Pow2(extra[n])
    ensures c <= n && base[c] <= v < base[c] + Pow2(extra[c])
  {
    hide Pow2;
    c := 0;
    while c < n && base[c + 1] <= v
      invariant c <= n && base[c] <= v
    {
      c := c + 1;
    }
  }

  lemma {:induction false} MatchFor(tb: Tables, length: nat, distance: nat) returns (t: Token)
    requires Standard(tb) && Contiguous(tb.lenBase, tb.lenExtra, 27) && Contiguous(tb.distBase, tb.distExtra, 29)
    requires tb.lenBase[0] <= length < tb.lenBase[27] + Pow2(tb.lenExtra[27])
    requires tb.distBase[0] <= distance < tb.distBase[29] + Pow2(tb.distExtra[29])
    ensures ValidToken(t) && t.Match? && Length(t) == length && Distance(t) == distance
  {
    hide Pow2, Contiguous, LengthBase, LengthExtra, DistanceBase, DistanceExtra;
    var lc := CodeFor(tb.lenBase, tb.lenExtra, 27, length);
    var dc := CodeFor(tb.distBase, tb.distExtra, 29, distance);
    t := Match(lc, length - LengthBase(lc), dc, distance - DistanceBase(dc));
  }

  /** Every match the standard allows has a token: lengths 3 to 258, distances to 32768. */
  lemma {:induction false} EveryMatch(length: nat, distance: nat) returns (t: Token)
    requires 3 <= length <= 258 && 1 <= distance <= 32768
    ensures ValidToken(t) && t.Match? && Length(t) == length && Distance(t) == distance
  {
    hide Pow2, Contiguous, Standard;
    LengthsContiguous();
    DistancesContiguous();
    SmallPowers();
    TablesStandard();
    t := MatchFor(TABLES, length, distance);
  }

  /** A copy extends what was there, and every copied byte equals the one `d` before it,
      overlapping or not. */
  lemma {:induction false} CopyPeriodic(out: seq<byte>, d: nat, len: nat)
    requires 1 <= d <= |out|
    ensures var r := Copy(out, d, len);
            && |r| == |out| + len && r[..|out|] == out
            && forall k :: |out| <= k < |r| ==> r[k] == r[k - d]
    decreases len
  {
    if len > 0 {
      var longer := out + [out[|out| - d]];
      CopyPeriodic(longer, d, len - 1);
      var r := Copy(out, d, len);
      assert r[..|out|] == longer[..|out|] == out;
      assert r[|out|] == longer[|out|] && r[|out| - d] == longer[|out| - d];
    }
  }

  lemma {:induction false} ExpandGrows(tokens: seq<Token>, out: seq<byte>)
    requires forall i :: 0 <= i < |tokens| ==> ValidToken(tokens[i])
    ensures Expand(tokens, out).Some? ==> |Expand(tokens, out).value| >= |out|
    decreases |tokens|
  {
    if |tokens| > 0 {
      var t := tokens[0];
      assert ValidToken(t);
      if t.Literal? {
        ExpandGrows(tokens[1..], out + [t.b]);
      } else if Distance(t) <= |out| {
        CopyPeriodic(out, Distance(t), Length(t));
        ExpandGrows(tokens[1..], Copy(out, Distance(t), Length(t)));
      }
    }
  }

  // ---------------------------------------------------------------------------
  // Compressed data
  // ---------------------------------------------------------------------------

  /** A code a standard encoder may use. */
  predicate GoodCode(lengths: seq<nat>) {
    CodeLengths(lengths, MAX_BITS) && !Oversubscribed(lengths, MAX_BITS)
  }

  predicate Has(lengths: seq<nat>, s: nat) {
    s < |lengths| && lengths[s] != 0
  }

  predicate Writable(lit: seq<nat>, dist: seq<nat>, t: Token) {
    match t
    case Literal(b) => Has(lit, b)
    case Match(lcode, _, dcode, _) => Has(lit, 257 + lcode) && Has(dist, dcode)
  }

  ghost function TokenBits(lit: seq<nat>, dist: seq<nat>, t: Token): seq<bit>
    requires ValidToken(t) && Writable(lit, dist, t)
  {
    match t
    case Literal(b) => CodeWord(lit, b)
    case Match(lcode, lextra, dcode, dextra) =>
      CodeWord(lit, 257 + lcode) + (LsbBits(lextra, LengthExtra(lcode)) +
      (CodeWord(dist, dcode) + LsbBits(dextra, DistanceExtra(dcode))))
  }

  ghost predicate WritableAll(lit: seq<nat>, dist: seq<nat>, tokens: seq<Token>) {
    forall i :: 0 <= i < |tokens| ==> ValidToken(tokens[i]) && Writable(lit, dist, tokens[i])
  }

  /** The tokens, then the end-of-block symbol. */
  ghost function DataBits(lit: seq<nat>, dist: seq<nat>, tokens: seq<Token>): seq<bit>
    requires WritableAll(lit, dist, tokens) && Has(lit, 256)
    decreases |tokens|
  {
    if |tokens| == 0 then CodeWord(lit, 256)
    else
      assert ValidToken(tokens[0]);
      TokenBits(lit, dist, tokens[0]) + DataBits(lit, dist, tokens[1..])
  }

  lemma {:induction false} ReadsCode(lengths: seq<nat>, s: nat, rest: seq<bit>)
    requires GoodCode(lengths) && Has(lengths, s)
    ensures TableOf(lengths, MAX_BITS).Filled()
    ensures DecodeSpec(TableOf(lengths, MAX_BITS), CodeWord(lengths, s) + rest) == Symbol(s, rest)
  {
    hide CodeWord, DecodeSpec, TableOf, Oversubscribed;
    DecodeCodeWord(lengths, MAX_BITS, s, rest);
  }

  /** Writing `v` in `n` bits and reading it back. */
  lemma {:induction false} ExtraBits(v: nat, n: nat, rest: seq<bit>)
    requires v < Pow2(n)
    ensures (LsbBits(v, n) + rest)[..n] == LsbBits(v, n) && (LsbBits(v, n) + rest)[n..] == rest
    ensures LsbValue(LsbBits(v, n)) == v
  {
    LsbRoundTrip(v, n);
  }

  /** A match reads back as its copy, or as an error when it reaches too far back or the copy
      does not fit. */
  lemma {:induction false} MatchRoundTrip(tb: Tables, dist: seq<nat>, t: Token, rest: seq<bit>, out: seq<byte>,
      cap: nat)
    requires Standard(tb) && t.Match? && ValidToken(t) && GoodCode(dist) && Has(dist, t.dcode)
    ensures TableOf(dist, MAX_BITS).Filled()
    ensures MatchSpec(tb, TableOf(dist, MAX_BITS), t.lcode, MatchTail(dist, t, rest), out, cap) ==
            if Distance(t) > |out| || |out| + Length(t) > cap then Corrupt
            else Done(rest, Copy(out, Distance(t), Length(t)))
  {
    hide CodeWord, Copy, DecodeSpec, LsbBits, LsbValue, Pow2, GoodCode, TableOf;
    hide LengthBase, LengthExtra, DistanceBase, DistanceExtra;
    TableOfFilled(dist, MAX_BITS);
    var far := LsbBits(t.dextra, DistanceExtra(t.dcode)) + rest;
    ExtraBits(t.lextra, LengthExtra(t.lcode), CodeWord(dist, t.dcode) + far);
    ReadsCode(dist, t.dcode, far);
    ExtraBits(t.dextra, DistanceExtra(t.dcode), rest);
  }

  /** One step of the decoder, by the symbol it reads. */
  lemma {:induction false} CodesStep(lit: Table, dist: Table, bits: seq<bit>, sym: nat, r: seq<bit>, out: seq<byte>,
      cap: nat)
    requires lit.Filled() && dist.Filled() && TABLES.Valid() && DecodeSpec(lit, bits) == Symbol(sym, r) && sym < 286
    ensures sym < 256 ==>
              CodesSpec(lit, dist, bits, out, cap) ==
              if |out| < cap then CodesSpec(lit, dist, r, out + [sym], cap) else Corrupt
    ensures sym == 256 ==> CodesSpec(lit, dist, bits, out, cap) == Done(r, out)
    ensures sym > 256 ==>
              CodesSpec(lit, dist, bits, out, cap) ==
              match MatchSpec(TABLES, dist, sym - 257, r, out, cap)
              case Corrupt => Corrupt
              case Done(r2, longer) => CodesSpec(lit, dist, r2, longer, cap)
  {
    hide DecodeSpec, MatchSpec;
  }

  /** What a match adds before the rest of the data. */
  ghost function MatchTail(dist: seq<nat>, t: Token, more: seq<bit>): seq<bit>
    requires t.Match? && ValidToken(t) && t.dcode < |dist|
  {
    LsbBits(t.lextra, LengthExtra(t.lcode)) +
    (CodeWord(dist, t.dcode) + (LsbBits(t.dextra, DistanceExtra(t.dcode)) + more))
  }

  lemma {:induction false} DataBitsStep(
    lit: seq<nat>, dist: seq<nat>, tokens: seq<Token>, rest: seq<bit>)
    requires WritableAll(lit, dist, tokens) && Has(lit, 256) && |tokens| > 0
    ensures ValidToken(tokens[0]) && Writable(lit, dist, tokens[0]) && WritableAll(lit, dist, tokens[1..])
    ensures var more := DataBits(lit, dist, tokens[1..]) + rest;
            DataBits(lit, dist, tokens) + rest ==
            match tokens[0]
            case Literal(b) => CodeWord(lit, b) + more
            case Match(lcode, _, _, _) => CodeWord(lit, 257 + lcode) + MatchTail(dist, tokens[0], more)
  {
    hide CodeWord, LsbBits, Pow2;
    var t := tokens[0];
    assert ValidToken(t);
    var data := DataBits(lit, dist, tokens[1..]);
    if t.Match? {
      var a, b := CodeWord(lit, 257 + t.lcode), LsbBits(t.lextra, LengthExtra(t.lcode));
      var c, d := CodeWord(dist, t.dcode), LsbBits(t.dextra, DistanceExtra(t.dcode));
      Regroup(a, b, c, d, data, rest);
    } else {
      assert (CodeWord(lit, t.b) + data) + rest == CodeWord(lit, t.b) + (data + rest);
    }
  }

  lemma {:induction false} Regroup(a: seq<bit>, b: seq<bit>, c: seq<bit>, d: seq<bit>, e: seq<bit>, f: seq<bit>)
    ensures ((a + (b + (c + d))) + e) + f == a + (b + (c + (d + (e + f))))
  {}

  /** Compressed data reads back as the expansion of its tokens when there is one and the output
      buffer is large enough for it; otherwise the decoder reports an error. */
  lemma {:induction false} DataRoundTrip(
    lit: seq<nat>, dist: seq<nat>, tokens: seq<Token>, rest: seq<bit>, out: seq<byte>, cap: nat)
    requires GoodCode(lit) && GoodCode(dist) && Has(lit, 256)
    requires WritableAll(lit, dist, tokens) && |out| <= cap
    ensures TableOf(lit, MAX_BITS).Filled() && TableOf(dist, MAX_BITS).Filled()
    ensures CodesSpec(TableOf(lit, MAX_BITS), TableOf(dist, MAX_BITS), DataBits(lit, dist, tokens) + rest, out, cap)
            == Fit(Expand(tokens, out), rest, cap)
    decreases |tokens|
  {
    hide CodeWord, Copy, DecodeSpec, LsbBits, MatchSpec, CodesSpec, DataBits, MatchTail, Pow2, GoodCode, TableOf;
    hide LengthBase, LengthExtra, DistanceBase, DistanceExtra, Length, Distance, Standard, Tables.Valid;
    TablesStandard();
    var tl, td := TableOf(lit, MAX_BITS), TableOf(dist, MAX_BITS);
    TableOfFilled(lit, MAX_BITS);
    TableOfFilled(dist, MAX_BITS);
    var bits := DataBits(lit, dist, tokens) + rest;
    if |tokens| == 0 {
      EndOfBlock(lit, dist, rest, out, cap);
      assert tokens == [];
    } else {
      var t := tokens[0];
      DataBitsStep(lit, dist, tokens, rest);
      var more := DataBits(lit, dist, tokens[1..]) + rest;
      if t.Literal? {
        ReadsCode(lit, t.b, more);
        CodesStep(tl, td, bits, t.b, more, out, cap);
        ExpandGrows(tokens[1..], out + [t.b]);
        if |out| < cap {
          DataRoundTrip(lit, dist, tokens[1..], rest, out + [t.b], cap);
        }
      } else {
        ReadsCode(lit, 257 + t.lcode, MatchTail(dist, t, more));
        CodesStep(tl, td, bits, 257 + t.lcode, MatchTail(dist, t, more), out, cap);
        MatchRoundTrip(TABLES, dist, t, more, out, cap);
        if Distance(t) <= |out| {
          CopyPeriodic(out, Distance(t), Length(t));
          var longer := Copy(out, Distance(t), Length(t));
          ExpandGrows(tokens[1..], longer);
          if |longer| <= cap {
            DataRoundTrip(lit, dist, tokens[1..], rest, longer, cap);
          }
        }
      }
    }
  }

  lemma {:induction false} EndOfBlock(lit: seq<nat>, dist: seq<nat>, rest: seq<bit>, out: seq<byte>,
      cap: nat)
    requires GoodCode(lit) && Has(lit, 256)
    ensures TableOf(lit, MAX_BITS).Filled() && TableOf(dist, MAX_BITS).Filled()
    ensures WritableAll(lit, dist, []) &&
            CodesSpec(TableOf(lit, MAX_BITS), TableOf(dist, MAX_BITS), DataBits(lit, dist, []) + rest, out, cap)
            == Done(rest, out)
  {
    hide CodeWord, DecodeSpec, MatchSpec, CodesSpec, GoodCode, TableOf, Tables.Valid;
    TablesValid();
    TableOfFilled(lit, MAX_BITS);
    TableOfFilled(dist, MAX_BITS);
    ReadsCode(lit, 256, rest);
    CodesStep(TableOf(lit, MAX_BITS), TableOf(dist, MAX_BITS), CodeWord(lit, 256) + rest, 256, rest, out, cap);
  }

  /** `o` when there is one and it fits in the output buffer, an error otherwise. */
  function Fit(o: Option<seq<byte>>, rest: seq<bit>, cap: nat): Outcome {
    if o.None? || |o.value| > cap then Corrupt else Done(rest, o.value)
  }
}

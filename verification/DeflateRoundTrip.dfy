/** The zlib decoder undoes the reference encoder. */
module DeflateRoundTrip {
  import opened Bits
  import opened HuffmanCodes
  import opened Canonical
  import opened Inflate
  import opened Deflate
  import opened Options
  import opened Rfc1951
  import opened DeflateBlocks

  // ---------------------------------------------------------------------------
  // Stored blocks
  // ---------------------------------------------------------------------------

  lemma {:induction false} TakeBytesThenRest(s: seq<byte>, rest: seq<bit>)
    ensures TakeBytes(BytesBits(s) + rest, |s|) == s && (BytesBits(s) + rest)[8 * |s|..] == rest
    decreases |s|
  {
    if |s| > 0 {
      hide LsbBits, LsbValue;
      var tail := BytesBits(s[1..]) + rest;
      assert BytesBits(s) + rest == LsbBits(s[0], 8) + tail;
      assert Pow2(8) == 256;
      ExtraBits(s[0], 8, tail);
      TakeBytesThenRest(s[1..], rest);
      assert (LsbBits(s[0], 8) + tail)[8 * |s|..] == tail[8 * |s| - 8..];
      assert [s[0]] + s[1..] == s;
    }
  }

  lemma {:induction false} DropTwo(a: seq<bit>, b: seq<bit>, rest: seq<bit>)
    ensures (a + (b + rest))[|a| + |b|..] == rest
  {}

  lemma {:induction false} AlignedRoundTrip(data: seq<byte>, check: seq<bit>, rest: seq<bit>, out: seq<byte>, cap: nat)
    requires |data| < 0x1_0000 && |check| == 16
    ensures AlignedSpec(LsbBits(|data|, 16) + (check + (BytesBits(data) + rest)), out, cap) ==
            Fit(Some(out + data), rest, cap)
  {
    hide LsbBits, LsbValue, TakeBytes, BytesBits;
    var tail := BytesBits(data) + rest;
    var bits := LsbBits(|data|, 16) + (check + tail);
    assert Pow2(8) == 256;
    Pow2Add(8, 8);
    ExtraBits(|data|, 16, check + tail);
    DropTwo(LsbBits(|data|, 16), check, tail);
    TakeBytesThenRest(data, rest);
  }

  /** A stored block is found at the byte boundary the encoder padded to. */
  lemma {:induction false} StoredRoundTrip(data: seq<byte>, pos: nat, rest: seq<bit>, out: seq<byte>, cap: nat)
    requires |data| < 0x1_0000
    requires (pos + |StoredBits(data, pos)| + |rest|) % 8 == 0
    ensures StoredSpec(StoredBits(data, pos) + rest, out, cap) == Fit(Some(out + data), rest, cap)
  {
    hide LsbBits, AlignedSpec, BytesBits;
    var check := LsbBits(0xffff - |data| % 0x1_0000, 16);
    var bits := StoredBits(data, pos) + rest;
    var aligned := LsbBits(|data|, 16) + (check + (BytesBits(data) + rest));
    var pad := Padding(pos);
    assert bits == pad + aligned;
    assert |bits| % 8 == |pad|;
    assert bits[|pad|..] == aligned;
    AlignedRoundTrip(data, check, rest, out, cap);
  }

  // ---------------------------------------------------------------------------
  // Fixed codes
  // ---------------------------------------------------------------------------

  /** A stretch of equal lengths adds as many equal shares. */
  lemma {:induction false} KraftStretch(lengths: seq<nat>, a: nat, b: nat, len: nat, n: nat)
    requires CodeLengths(lengths, n) && a <= b <= |lengths| && 1 <= len <= n
    requires forall i :: a <= i < b ==> lengths[i] == len
    ensures KraftSum(lengths[..b], n) == KraftSum(lengths[..a], n) + (b - a) * Pow2(n - len)
    decreases b
  {
    if a < b {
      KraftStretch(lengths, a, b - 1, len, n);
      assert lengths[..b][..b - 1] == lengths[..b - 1];
      OneMore(b - 1 - a, Pow2(n - len));
    }
  }

  lemma {:induction false} OneMore(k: int, p: int)
    ensures (k + 1) * p == k * p + p
  {}

  /** The fixed literal code uses up the code space exactly; the fixed distance code leaves
      two codes unused. */
  lemma {:induction false} FixedCodesGood()
    ensures GoodCode(FixedLit()) && KraftSum(FixedLit(), MAX_BITS) == Pow2(15)
    ensures GoodCode(FixedDist())
  {
    hide KraftSum;
    var l, d := FixedLit(), FixedDist();
    assert Pow2(6) == 64 && Pow2(7) == 128 && Pow2(8) == 256 && Pow2(10) == 1024 && Pow2(15) == 32768;
    KraftNone(l);
    KraftNone(d);
    KraftStretch(l, 0, 144, 8, 15);
    KraftStretch(l, 144, 256, 9, 15);
    KraftStretch(l, 256, 280, 7, 15);
    KraftStretch(l, 280, 288, 8, 15);
    assert l[..288] == l;
    KraftStretch(d, 0, 30, 5, 15);
    assert d[..30] == d;
  }

  lemma {:induction false} KraftNone(lengths: seq<nat>)
    ensures KraftSum(lengths[..0], 15) == 0
  {}

  // ---------------------------------------------------------------------------
  // Dynamic codes
  // ---------------------------------------------------------------------------

  lemma {:induction false} NumbersRoundTrip(values: seq<nat>, w: nat, rest: seq<bit>)
    requires forall i :: 0 <= i < |values| ==> values[i] < Pow2(w)
    ensures |NumbersBits(values, w) + rest| >= w * |values|
    ensures TakeNumbers(NumbersBits(values, w) + rest, w, |values|) == values
    ensures (NumbersBits(values, w) + rest)[w * |values|..] == rest
    decreases |values|
  {
    if |values| > 0 {
      hide LsbBits, LsbValue;
      var tail := NumbersBits(values[1..], w) + rest;
      assert NumbersBits(values, w) + rest == LsbBits(values[0], w) + tail;
      ExtraBits(values[0], w, tail);
      NumbersRoundTrip(values[1..], w, rest);
      assert [values[0]] + values[1..] == values;
    }
  }

  lemma {:induction false} HeaderRoundTrip(c: Codes, rest: seq<bit>)
    requires ValidCodes(c)
    ensures HeaderSpec(c.nlen, c.ndist, |c.cl|, NumbersBits(c.cl, 3) + (OpsBits(ClLengths(c), c.ops) + rest))
            == Lengths(rest, ApplyAll(c.ops, []).value)
  {
    hide NumbersBits, OpsBits, TakeNumbers, PlaceLengths, LengthsSpec, ApplyAll;
    var tail := OpsBits(ClLengths(c), c.ops) + rest;
    assert Pow2(3) == 8;
    NumbersRoundTrip(c.cl, 3, tail);
    PlacedLengths(c);
    LengthsRoundTrip(ClLengths(c), c.ops, rest, [], c.nlen + c.ndist);
  }

  lemma {:induction false} SizesRoundTrip(x: nat, y: nat, z: nat, rest: seq<bit>, out: seq<byte>, cap: nat)
    requires x < 32 && y < 32 && z < 16
    ensures DynamicSpec(LsbBits(x, 5) + (LsbBits(y, 5) + (LsbBits(z, 4) + rest)), out, cap)
            == SizesSpec(x + 257, y + 1, z + 4, rest, out, cap)
  {
    hide LsbBits, LsbValue, SizesSpec, DynamicSpec;
    var a, b, c := LsbBits(x, 5), LsbBits(y, 5), LsbBits(z, 4);
    var bits := a + (b + (c + rest));
    assert Pow2(5) == 32 && Pow2(4) == 16;
    ExtraBits(x, 5, []);
    ExtraBits(y, 5, []);
    ExtraBits(z, 4, []);
    assert bits[..5] == a && bits[5..10] == b && bits[10..14] == c && bits[14..] == rest;
    DynamicSizes(bits, out, cap);
  }

  lemma {:induction false} DynamicRoundTrip(c: Codes, rest: seq<bit>, out: seq<byte>, cap: nat)
    requires ValidCodes(c)
    ensures DynamicSpec(CodesBits(c) + rest, out, cap)
            == DataSpec(ApplyAll(c.ops, []).value, c.nlen, rest, out, cap)
  {
    hide LsbBits, DynamicSpec, HeaderSpec, DataSpec, NumbersBits, OpsBits, ClLengths, ApplyAll, GoodCode;
    var p, q, r := LsbBits(c.nlen - 257, 5), LsbBits(c.ndist - 1, 5), LsbBits(|c.cl| - 4, 4);
    var n, o := NumbersBits(c.cl, 3), OpsBits(ClLengths(c), c.ops);
    Regroup5(p, q, r, n, o, rest);
    SizesRoundTrip(c.nlen - 257, c.ndist - 1, |c.cl| - 4, n + (o + rest), out, cap);
    HeaderRoundTrip(c, rest);
  }

  lemma {:induction false} Regroup5(p: seq<bit>, q: seq<bit>, r: seq<bit>, n: seq<bit>, o: seq<bit>, rest: seq<bit>)
    ensures (p + (q + (r + (n + o)))) + rest == p + (q + (r + (n + (o + rest))))
  {}

  // ---------------------------------------------------------------------------
  // Blocks
  // ---------------------------------------------------------------------------

  lemma {:induction false} BlockExpandGrows(b: Block, out: seq<byte>)
    requires ValidBlock(b) && BlockExpand(b, out).Some?
    ensures |BlockExpand(b, out).value| >= |out|
  {
    if !b.Stored? {
      ExpandGrows(b.tokens, out);
    }
  }

  lemma {:induction false} DynamicBlockRoundTrip(b: Block, rest: seq<bit>, out: seq<byte>, cap: nat)
    requires b.Dynamic? && ValidBlock(b) && |out| <= cap
    ensures var data := DataBits(LitOf(b.codes), DistOf(b.codes), b.tokens);
            DynamicSpec(CodesBits(b.codes) + data + rest, out, cap) == Fit(BlockExpand(b, out), rest, cap)
  {
    hide CodesBits, DataBits, DynamicSpec, CodesSpec, GoodCode, ApplyAll, Expand, WritableAll;
    var c := b.codes;
    var lit, dist := LitOf(c), DistOf(c);
    var data := DataBits(lit, dist, b.tokens);
    assert CodesBits(c) + data + rest == CodesBits(c) + (data + rest);
    DynamicRoundTrip(c, data + rest, out, cap);
    DataRoundTrip(lit, dist, b.tokens, rest, out, cap);
  }

  /** Every block reads back as what it adds, or as an error when that does not fit or a match
      reaches too far back. */
  lemma {:induction false} BlockRoundTrip(b: Block, pos: nat, rest: seq<bit>, out: seq<byte>, cap: nat)
    requires ValidBlock(b) && |out| <= cap
    requires (pos + |BodyBits(b, pos)| + |rest|) % 8 == 0
    ensures BlockSpec(Kind(b), BodyBits(b, pos) + rest, out, cap) == Fit(BlockExpand(b, out), rest, cap)
  {
    hide CodesBits, DataBits, DynamicSpec, CodesSpec, StoredSpec, StoredBits, GoodCode, Expand, WritableAll;
    match b
    case Stored(data) => StoredRoundTrip(data, pos, rest, out, cap);
    case Fixed(tokens) =>
      FixedCodesGood();
      DataRoundTrip(FixedLit(), FixedDist(), tokens, rest, out, cap);
    case Dynamic(_, _) => DynamicBlockRoundTrip(b, rest, out, cap);
  }

  lemma {:induction false} ExpandBlocksGrows(blocks: seq<Block>, out: seq<byte>)
    requires ValidBlocks(blocks)
    ensures ExpandBlocks(blocks, out).Some? ==> |ExpandBlocks(blocks, out).value| >= |out|
    decreases |blocks|
  {
    if BlockExpand(blocks[0], out).Some? {
      BlockExpandGrows(blocks[0], out);
    }
    if |blocks| > 1 && BlockExpand(blocks[0], out).Some? {
      ExpandBlocksGrows(blocks[1..], BlockExpand(blocks[0], out).value);
    }
  }

  /** Reading a block's three header bits. */
  lemma {:induction false} BlockHeader(b: Block, last: bool, pos: nat, rest: seq<bit>)
    requires ValidBlock(b)
    ensures var bits := BlockBits(b, last, pos) + rest;
            && |bits| >= 3 && bits[0] == (if last then 1 else 0) && LsbValue(bits[1..3]) == Kind(b)
            && bits[3..] == BodyBits(b, pos + 3) + rest
  {
    hide BodyBits, LsbBits, LsbValue, ValidBlock;
    var bits := BlockBits(b, last, pos) + rest;
    assert Pow2(2) == 4;
    ExtraBits(Kind(b), 2, []);
    assert bits[1..3] == LsbBits(Kind(b), 2);
  }

  lemma {:induction false} BlocksRoundTrip(blocks: seq<Block>, pos: nat, rest: seq<bit>, out: seq<byte>, cap: nat)
    requires ValidBlocks(blocks) && |out| <= cap
    requires (pos + |EncodeBlocks(blocks, pos)| + |rest|) % 8 == 0
    ensures BlocksSpec(EncodeBlocks(blocks, pos) + rest, out, cap) == Fit(ExpandBlocks(blocks, out), rest, cap)
    decreases |blocks|
  {
    hide BlockSpec, BodyBits, LsbValue, LsbBits, BlockExpand, ValidBlock, BlockBits;
    var b := blocks[0];
    var last := |blocks| == 1;
    var first := BlockBits(b, last, pos);
    var longer := BlockExpand(b, out);
    if longer.Some? {
      BlockExpandGrows(b, out);
    }
    if last {
      BlockHeader(b, last, pos, rest);
      BlockRoundTrip(b, pos + 3, rest, out, cap);
    } else {
      var more := EncodeBlocks(blocks[1..], pos + |first|) + rest;
      assert EncodeBlocks(blocks, pos) + rest == first + more;
      BlockHeader(b, last, pos, more);
      BlockRoundTrip(b, pos + 3, more, out, cap);
      if longer.Some? {
        ExpandBlocksGrows(blocks[1..], longer.value);
        if |longer.value| <= cap {
          BlocksRoundTrip(blocks[1..], pos + |first|, rest, longer.value, cap);
        }
      }
    }
  }

  /** Any zlib stream whose bits start with the encoding of a block list decompresses to what
      the blocks stand for, whatever follows them; when a match reaches too far back or the
      buffer is too small it is rejected. */
  lemma {:induction false} ZlibRoundTrip(src: seq<byte>, blocks: seq<Block>, tail: seq<bit>, cap: nat)
    requires |src| >= 2 && src[0] % 16 == 8
    requires ValidBlocks(blocks)
    requires BytesBits(src[2..]) == EncodeBlocks(blocks, 0) + tail
    ensures ZlibSpec(src, cap) == Fit(ExpandBlocks(blocks, []), tail, cap)
  {
    hide EncodeBlocks, BytesBits, ExpandBlocks, ValidBlocks, BlocksSpec;
    BlocksRoundTrip(blocks, 0, tail, [], cap);
  }

  /** A complete stream for a block list: header, packed bits, checksum. */
  ghost function EncodeZlib(blocks: seq<Block>, checksum: seq<byte>): seq<byte>
    requires ValidBlocks(blocks)
  {
    [0x78, 0x9c] + (Pack(EncodeBlocks(blocks, 0)) + checksum)
  }

  /** Every block list that stands for something survives being written and read back; the
      others are rejected. */
  lemma {:induction false} EncodeZlibRoundTrip(blocks: seq<Block>, checksum: seq<byte>, cap: nat)
    requires ValidBlocks(blocks)
    ensures var o, r := ExpandBlocks(blocks, []), ZlibSpec(EncodeZlib(blocks, checksum), cap);
            if o.None? || |o.value| > cap then r == Corrupt else r.Done? && r.out == o.value
  {
    hide EncodeBlocks, Pack, BytesBits, ExpandBlocks, ValidBlocks, BlocksSpec;
    var bits := EncodeBlocks(blocks, 0);
    var src := EncodeZlib(blocks, checksum);
    assert src[2..] == Pack(bits) + checksum;
    BytesBitsConcat(Pack(bits), checksum);
    PackRoundTrip(bits);
    var tail := BytesBits(src[2..])[|bits|..];
    assert BytesBits(src[2..]) == bits + tail;
    ZlibRoundTrip(src, blocks, tail, cap);
  }

  // ---------------------------------------------------------------------------
  // What is rejected
  // ---------------------------------------------------------------------------

  /** Streams that are too short or use another compression method, and reserved block types. */
  lemma {:induction false} MethodRejected(src: seq<byte>, bits: seq<bit>, last: bit, out: seq<byte>, cap: nat)
    ensures |src| < 2 || src[0] % 16 != 8 ==> ZlibSpec(src, cap) == Corrupt
    ensures BlocksSpec([last, 1, 1] + bits, out, cap) == Corrupt
  {
    var all := [last, 1, 1] + bits;
    assert all[1..3] == [1, 1] && [1, 1][1..] == [1] && [1][1..] == [];
    assert LsbValue([1]) == 1;
    assert LsbValue([1, 1]) == 3;
  }

  /** The two reserved length symbols. */
  lemma {:induction false} LengthRejected(
    lit: seq<nat>, dist: seq<nat>, s: nat, rest: seq<bit>, out: seq<byte>, cap: nat)
    requires GoodCode(lit) && Has(lit, s) && s >= 286
    ensures TableOf(lit, MAX_BITS).Filled() && TableOf(dist, MAX_BITS).Filled()
    ensures CodesSpec(TableOf(lit, MAX_BITS), TableOf(dist, MAX_BITS), CodeWord(lit, s) + rest, out, cap) == Corrupt
  {
    hide CodeWord, TableOf, DecodeSpec, MatchSpec, GoodCode, Tables.Valid;
    TableOfFilled(dist, MAX_BITS);
    ReadsCode(lit, s, rest);
    TablesValid();
  }

  /** The two reserved distance symbols, after any length. */
  lemma {:induction false} DistanceRejected(
    tb: Tables, dist: seq<nat>, s: nat, lcode: nat, extra: seq<bit>, rest: seq<bit>, out: seq<byte>, cap: nat)
    requires Standard(tb) && GoodCode(dist) && Has(dist, s) && s >= 30 && lcode < 29 && |extra| == LengthExtra(lcode)
    ensures TableOf(dist, MAX_BITS).Filled()
    ensures MatchSpec(tb, TableOf(dist, MAX_BITS), lcode, extra + (CodeWord(dist, s) + rest), out, cap) == Corrupt
  {
    hide CodeWord, TableOf, DecodeSpec, GoodCode, LsbValue, LengthBase, DistanceBase, LengthExtra;
    ReadsCode(dist, s, rest);
    assert (extra + (CodeWord(dist, s) + rest))[|extra|..] == CodeWord(dist, s) + rest;
  }

  /** A repetition without a length before it, and a run past the number of lengths. */
  lemma {:induction false} RunRejected(code: seq<nat>, op: RunOp, rest: seq<bit>, acc: seq<nat>, total: nat)
    requires GoodCode(code) && ValidOp(op) && !op.Len? && Has(code, OpSymbol(op)) && |acc| < total
    requires Apply(op, acc).None? || |Apply(op, acc).value| > total
    ensures TableOf(code, MAX_BITS).Filled()
    ensures LengthsSpec(TableOf(code, MAX_BITS), OpBits(code, op) + rest, acc, total) == NoLengths
  {
    hide CodeWord, TableOf, DecodeSpec, GoodCode, RunBits, RunSpec, LengthsSpec;
    var sym, tail := OpSymbol(op), RunBits(op) + rest;
    assert OpBits(code, op) + rest == CodeWord(code, sym) + tail;
    ReadsCode(code, sym, tail);
    LengthsStep(TableOf(code, MAX_BITS), OpBits(code, op) + rest, sym, tail, acc, total);
    RunRefused(op, rest, acc, total);
  }

  lemma {:induction false} RunRefused(op: RunOp, rest: seq<bit>, acc: seq<nat>, total: nat)
    requires ValidOp(op) && !op.Len? && |acc| < total
    requires Apply(op, acc).None? || |Apply(op, acc).value| > total
    ensures RunSpec(OpSymbol(op), RunBits(op) + rest, acc, total) == NoLengths
  {
    hide LsbBits, LsbValue;
    assert Pow2(2) == 4 && Pow2(3) == 8 && Pow2(7) == 128;
    match op
    case Prev(rep) => ExtraBits(rep - 3, 2, rest);
    case Zeros(rep) => ExtraBits(rep - 3, 3, rest);
    case ManyZeros(rep) => ExtraBits(rep - 11, 7, rest);
  }
}

/** Whole streams: block headers, the run-length coded code lengths of dynamic blocks, byte
    alignment of stored blocks, and the round trip through the zlib decoder. */
module DeflateBlocks {
  import opened Bits
  import opened HuffmanCodes
  import opened Canonical
  import opened Inflate
  import opened Deflate
  import opened Options
  import opened Rfc1951

  // ---------------------------------------------------------------------------
  // Run-length coded code lengths
  // ---------------------------------------------------------------------------

  /** A code length, or a run of `rep` copies of the previous length or of zero. */
  datatype RunOp = Len(l: nat) | Prev(rep: nat) | Zeros(rep: nat) | ManyZeros(rep: nat)

  predicate ValidOp(op: RunOp) {
    match op
    case Len(l) => l <= 15
    case Prev(rep) => 3 <= rep <= 6
    case Zeros(rep) => 3 <= rep <= 10
    case ManyZeros(rep) => 11 <= rep <= 138
  }

  function OpSymbol(op: RunOp): nat {
    match op
    case Len(l) => l
    case Prev(_) => 16
    case Zeros(_) => 17
    case ManyZeros(_) => 18
  }

  /** The lengths after `acc`; nothing when there is no previous length to copy. */
  function Apply(op: RunOp, acc: seq<nat>): Option<seq<nat>> {
    match op
    case Len(l) => Some(acc + [l])
    case Prev(rep) => if |acc| == 0 then None else Some(acc + Repeat(acc[|acc| - 1], rep))
    case Zeros(rep) => Some(acc + Repeat(0, rep))
    case ManyZeros(rep) => Some(acc + Repeat(0, rep))
  }

  function ApplyAll(ops: seq<RunOp>, acc: seq<nat>): Option<seq<nat>>
    decreases |ops|
  {
    if |ops| == 0 then Some(acc)
    else
      match Apply(ops[0], acc)
      case None => None
      case Some(longer) => ApplyAll(ops[1..], longer)
  }

  /** How often a run repeats: 2 bits for 3 to 6, 3 bits for 3 to 10, 7 bits for 11 to 138. */
  function RunBits(op: RunOp): seq<bit>
    requires ValidOp(op) && !op.Len?
  {
    match op
    case Prev(rep) => LsbBits(rep - 3, 2)
    case Zeros(rep) => LsbBits(rep - 3, 3)
    case ManyZeros(rep) => LsbBits(rep - 11, 7)
  }

  function OpBits(code: seq<nat>, op: RunOp): seq<bit>
    requires ValidOp(op) && Has(code, OpSymbol(op))
  {
    if op.Len? then CodeWord(code, op.l) else CodeWord(code, OpSymbol(op)) + RunBits(op)
  }

  predicate WritableOps(code: seq<nat>, ops: seq<RunOp>) {
    forall i :: 0 <= i < |ops| ==> ValidOp(ops[i]) && Has(code, OpSymbol(ops[i]))
  }

  function OpsBits(code: seq<nat>, ops: seq<RunOp>): seq<bit>
    requires WritableOps(code, ops)
    decreases |ops|
  {
    if |ops| == 0 then [] else OpBits(code, ops[0]) + OpsBits(code, ops[1..])
  }

  /** Operations only add lengths, at least one each. */
  lemma {:induction false} ApplyGrows(code: seq<nat>, ops: seq<RunOp>, acc: seq<nat>)
    requires WritableOps(code, ops) && ApplyAll(ops, acc).Some?
    ensures |ApplyAll(ops, acc).value| >= |acc| + |ops|
    decreases |ops|
  {
    if |ops| > 0 {
      assert ValidOp(ops[0]);
      ApplyGrows(code, ops[1..], Apply(ops[0], acc).value);
    }
  }

  lemma {:induction false} RunRoundTrip(op: RunOp, rest: seq<bit>, acc: seq<nat>, total: nat)
    requires ValidOp(op) && !op.Len? && Apply(op, acc).Some?
    requires |acc| < |Apply(op, acc).value| <= total
    ensures RunSpec(OpSymbol(op), RunBits(op) + rest, acc, total)
            == Lengths(rest, Apply(op, acc).value)
  {
    hide LsbBits, LsbValue;
    assert Pow2(2) == 4 && Pow2(3) == 8 && Pow2(7) == 128;
    ExtraBits(op.rep - RunBase(OpSymbol(op)), RunExtra(OpSymbol(op)), rest);
  }

  lemma {:induction false} LengthsStep(t: Table, bits: seq<bit>, sym: nat, r: seq<bit>, acc: seq<nat>, total: nat)
    requires t.Filled() && |acc| < total && DecodeSpec(t, bits) == Symbol(sym, r)
    ensures sym < 16 ==> LengthsSpec(t, bits, acc, total) == LengthsSpec(t, r, acc + [sym], total)
    ensures sym >= 16 ==>
              LengthsSpec(t, bits, acc, total) ==
              match RunSpec(sym, r, acc, total)
              case NoLengths => NoLengths
              case Lengths(r2, longer) => LengthsSpec(t, r2, longer, total)
  {
    hide DecodeSpec, RunSpec;
  }

  /** Run-length coded lengths read back as the lengths. */
  lemma {:induction false} LengthsRoundTrip(code: seq<nat>, ops: seq<RunOp>, rest: seq<bit>, acc: seq<nat>, total: nat)
    requires GoodCode(code) && WritableOps(code, ops)
    requires ApplyAll(ops, acc).Some? && |ApplyAll(ops, acc).value| == total
    ensures TableOf(code, MAX_BITS).Filled() && |acc| <= total
    ensures LengthsSpec(TableOf(code, MAX_BITS), OpsBits(code, ops) + rest, acc, total)
            == Lengths(rest, ApplyAll(ops, acc).value)
    decreases |ops|
  {
    hide CodeWord, DecodeSpec, LsbBits, RunSpec, Apply;
    var t := TableOf(code, MAX_BITS);
    TableOfFilled(code, MAX_BITS);
    ApplyGrows(code, ops, acc);
    if |ops| == 0 {
      assert OpsBits(code, ops) + rest == rest;
    } else {
      var op := ops[0];
      var sym := OpSymbol(op);
      assert ValidOp(op) && Has(code, sym);
      var more := OpsBits(code, ops[1..]) + rest;
      var longer := Apply(op, acc).value;
      ApplyGrows(code, ops[1..], longer);
      OneOp(code, op, acc, more, longer, total);
      assert OpsBits(code, ops) + rest == OpBits(code, op) + more;
      LengthsRoundTrip(code, ops[1..], rest, longer, total);
    }
  }

  lemma {:induction false} OneOp(code: seq<nat>, op: RunOp, acc: seq<nat>, more: seq<bit>, longer: seq<nat>, total: nat)
    requires GoodCode(code) && ValidOp(op) && Has(code, OpSymbol(op))
    requires Apply(op, acc) == Some(longer) && |longer| <= total
    ensures TableOf(code, MAX_BITS).Filled() && |acc| < |longer|
    ensures LengthsSpec(TableOf(code, MAX_BITS), OpBits(code, op) + more, acc, total)
            == LengthsSpec(TableOf(code, MAX_BITS), more, longer, total)
  {
    hide CodeWord, DecodeSpec, RunBits, RunSpec, LengthsSpec;
    var t := TableOf(code, MAX_BITS);
    var sym := OpSymbol(op);
    TableOfFilled(code, MAX_BITS);
    if op.Len? {
      DecodeCodeWord(code, MAX_BITS, sym, more);
      LengthsStep(t, OpBits(code, op) + more, sym, more, acc, total);
    } else {
      var tail := RunBits(op) + more;
      assert OpBits(code, op) + more == CodeWord(code, sym) + tail;
      DecodeCodeWord(code, MAX_BITS, sym, tail);
      LengthsStep(t, OpBits(code, op) + more, sym, tail, acc, total);
      RunRoundTrip(op, more, acc, total);
    }
  }

  // ---------------------------------------------------------------------------
  // Blocks
  // ---------------------------------------------------------------------------

  /** The two codes of a dynamic block: the 3-bit lengths of the code length code in their
      transmission order, and the operations that spell out both codes' lengths. */
  datatype Codes = Codes(cl: seq<nat>, ops: seq<RunOp>, nlen: nat, ndist: nat)

  datatype Block = Stored(data: seq<byte>) | Fixed(tokens: seq<Token>) | Dynamic(codes: Codes, tokens: seq<Token>)

  ghost predicate ValidCodes(c: Codes) {
    && 4 <= |c.cl| <= 19 && (forall i :: 0 <= i < |c.cl| ==> c.cl[i] < 8)
    && 257 <= c.nlen <= 288 && 1 <= c.ndist <= 32
    && GoodCode(ClLengths(c)) && WritableOps(ClLengths(c), c.ops)
    && ApplyAll(c.ops, []).Some? && |ApplyAll(c.ops, []).value| == c.nlen + c.ndist
    && GoodCode(LitOf(c)) && GoodCode(DistOf(c))
  }

  /** The lengths of the code length code; those that are not sent are zero. */
  function ClLengths(c: Codes): seq<nat> {
    seq(19, s requires 0 <= s < 19 => if SentAt(s) < |c.cl| then c.cl[SentAt(s)] else 0)
  }

  /** The decoder puts the lengths where the standard's order says. */
  lemma {:induction false} PlacedLengths(c: Codes)
    requires |c.cl| <= 19
    ensures |CODE_ORDER| == 19 && forall k :: 0 <= k < 19 ==> CODE_ORDER[k] < 19
    ensures PlaceLengths(CODE_ORDER, c.cl, |c.cl|) == ClLengths(c)
  {
    hide PlaceLengths;
    CodeOrderValid();
    forall s: nat | s < 19
      ensures PlaceLengths(CODE_ORDER, c.cl, |c.cl|)[s] == ClLengths(c)[s]
    {
      OrderSent();
      PlacedAt(CODE_ORDER, c.cl, |c.cl|, SentAt(s));
    }
  }

  /** The decoder's order is the standard's: symbol `s` is number `SentAt(s)` in it. */
  lemma {:induction false} OrderSent()
    ensures |CODE_ORDER| == 19
    ensures forall s: nat :: s < 19 ==> CODE_ORDER[SentAt(s)] == s
    ensures forall j, k :: 0 <= j < k < 19 ==> CODE_ORDER[j] != CODE_ORDER[k]
  {}

  lemma {:induction false} PlacedAt(order: seq<nat>, values: seq<nat>, i: nat, k: nat)
    requires i <= |values| <= |order| == 19 && k < 19
    requires forall k :: 0 <= k < 19 ==> order[k] < 19
    requires forall j, k :: 0 <= j < k < 19 ==> order[j] != order[k]
    ensures PlaceLengths(order, values, i)[order[k]] == if k < i then values[k] else 0
    decreases i
  {
    if i > 0 {
      PlacedAt(order, values, i - 1, k);
    }
  }

  ghost function LitOf(c: Codes): seq<nat>
    requires ApplyAll(c.ops, []).Some? && |ApplyAll(c.ops, []).value| == c.nlen + c.ndist
  {
    ApplyAll(c.ops, []).value[..c.nlen]
  }

  ghost function DistOf(c: Codes): seq<nat>
    requires ApplyAll(c.ops, []).Some? && |ApplyAll(c.ops, []).value| == c.nlen + c.ndist
  {
    ApplyAll(c.ops, []).value[c.nlen..]
  }

  ghost predicate ValidData(lit: seq<nat>, dist: seq<nat>, tokens: seq<Token>) {
    WritableAll(lit, dist, tokens) && Has(lit, 256)
  }

  ghost predicate ValidBlock(b: Block) {
    match b
    case Stored(data) => |data| < 0x1_0000
    case Fixed(tokens) => ValidData(FixedLit(), FixedDist(), tokens)
    case Dynamic(c, tokens) => ValidCodes(c) && ValidData(LitOf(c), DistOf(c), tokens)
  }

  /** What a block adds to the output. */
  ghost function BlockExpand(b: Block, out: seq<byte>): Option<seq<byte>>
    requires ValidBlock(b)
  {
    if b.Stored? then Some(out + b.data) else Expand(b.tokens, out)
  }

  function Zeroes(n: nat): (r: seq<bit>)
    ensures |r| == n
  {
    seq(n, _ => 0)
  }

  /** Zeros up to the next byte boundary from bit `pos`. */
  function Padding(pos: nat): seq<bit> {
    Zeroes((8 - pos % 8) % 8)
  }

  ghost function StoredBits(data: seq<byte>, pos: nat): seq<bit> {
    Padding(pos) + (LsbBits(|data|, 16) + (LsbBits(0xffff - |data| % 0x1_0000, 16) + BytesBits(data)))
  }

  ghost function CodesBits(c: Codes): seq<bit>
    requires ValidCodes(c)
  {
    LsbBits(c.nlen - 257, 5) + (LsbBits(c.ndist - 1, 5) + (LsbBits(|c.cl| - 4, 4) +
    (NumbersBits(c.cl, 3) + OpsBits(ClLengths(c), c.ops))))
  }

  function NumbersBits(values: seq<nat>, w: nat): (r: seq<bit>)
    ensures |r| == w * |values|
  {
    if |values| == 0 then []
    else
      MulStep(w, |values|);
      LsbBits(values[0], w) + NumbersBits(values[1..], w)
  }

  function Kind(b: Block): nat {
    match b
    case Stored(_) => 0
    case Fixed(_) => 1
    case Dynamic(_, _) => 2
  }

  /** A block after its header, which ends at bit `pos`. */
  ghost function BodyBits(b: Block, pos: nat): seq<bit>
    requires ValidBlock(b)
  {
    match b
    case Stored(data) => StoredBits(data, pos)
    case Fixed(tokens) => DataBits(FixedLit(), FixedDist(), tokens)
    case Dynamic(c, tokens) => CodesBits(c) + DataBits(LitOf(c), DistOf(c), tokens)
  }

  ghost function BlockBits(b: Block, last: bool, pos: nat): seq<bit>
    requires ValidBlock(b)
  {
    [if last then 1 else 0] + (LsbBits(Kind(b), 2) + BodyBits(b, pos + 3))
  }

  ghost predicate ValidBlocks(blocks: seq<Block>) {
    |blocks| > 0 && forall i :: 0 <= i < |blocks| ==> ValidBlock(blocks[i])
  }

  /** A list of blocks from bit `pos` on, the last one marked as such. */
  ghost function EncodeBlocks(blocks: seq<Block>, pos: nat): seq<bit>
    requires ValidBlocks(blocks)
    decreases |blocks|
  {
    var first := BlockBits(blocks[0], |blocks| == 1, pos);
    if |blocks| == 1 then first else first + EncodeBlocks(blocks[1..], pos + |first|)
  }

  ghost function ExpandBlocks(blocks: seq<Block>, out: seq<byte>): Option<seq<byte>>
    requires ValidBlocks(blocks)
    decreases |blocks|
  {
    match BlockExpand(blocks[0], out)
    case None => None
    case Some(longer) => if |blocks| == 1 then Some(longer) else ExpandBlocks(blocks[1..], longer)
  }
}

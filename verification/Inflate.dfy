/** The zlib decoder: what each of its routines computes from the bits that are left, as
    functions, and the class whose methods compute it byte by byte. */
module Inflate {
  import opened Bits
  import opened HuffmanCodes

  // ---------------------------------------------------------------------------
  // What the decoder computes
  // ---------------------------------------------------------------------------

  /** What the length codes 257.. and the distance codes stand for: a base and a number of
      extra bits each. */
  datatype Tables = Tables(lenBase: seq<nat>, lenExtra: seq<nat>, distBase: seq<nat>, distExtra: seq<nat>) {
    ghost predicate Valid() {
      && |lenBase| == |lenExtra| == 29 && |distBase| == |distExtra| == 30
      && forall i :: 0 <= i < 30 ==> distBase[i] >= 1
    }
  }

  const TABLES := Tables(
    [3, 4, 5, 6, 7, 8, 9, 10, 11, 13, 15, 17, 19, 23, 27, 31, 35, 43, 51, 59, 67, 83, 99, 115, 131, 163, 195, 227, 258],
    [0, 0, 0, 0, 0, 0, 0, 0, 1, 1, 1, 1, 2, 2, 2, 2, 3, 3, 3, 3, 4, 4, 4, 4, 5, 5, 5, 5, 0],
    [1, 2, 3, 4, 5, 7, 9, 13, 17, 25, 33, 49, 65, 97, 129, 193, 257, 385, 513, 769, 1025, 1537, 2049, 3073, 4097,
     6145, 8193, 12289, 16385, 24577],
    [0, 0, 0, 0, 1, 1, 2, 2, 3, 3, 4, 4, 5, 5, 6, 6, 7, 7, 8, 8, 9, 9, 10, 10, 11, 11, 12, 12, 13, 13])

  lemma {:induction false} TablesValid()
    ensures TABLES.Valid()
  {}

  const CODE_ORDER: seq<nat> := [16, 17, 18, 0, 8, 7, 9, 6, 10, 5, 11, 4, 12, 3, 13, 2, 14, 1, 15]

  datatype Outcome = Done(rest: seq<bit>, out: seq<byte>) | Corrupt
  datatype Header = Lengths(rest: seq<bit>, lengths: seq<nat>) | NoLengths

  /** `len` bytes copied one at a time from `d` bytes back, each copied byte being
      available to the next: an overlapping match repeats its last `d` bytes. */
  function Copy(out: seq<byte>, d: nat, len: nat): seq<byte>
    requires 1 <= d <= |out|
    decreases len
  {
    if len == 0 then out else Copy(out + [out[|out| - d]], d, len - 1)
  }

  /** The compressed data of one block. */
  function CodesSpec(lit: Table, dist: Table, bits: seq<bit>, out: seq<byte>, cap: nat): (r: Outcome)
    requires lit.Filled() && dist.Filled()
    ensures r.Done? ==> |r.rest| <= |bits|
    decreases |bits|
  {
    match DecodeSpec(lit, bits)
    case NoSymbol => Corrupt
    case Symbol(sym, r1) =>
      DecodeConsumes(lit, bits, 1, 0, 0, 0);
      if sym < 256 then
        if |out| < cap then CodesSpec(lit, dist, r1, out + [sym], cap) else Corrupt
      else if sym == 256 then Done(r1, out)
      else if sym >= 286 then Corrupt
      else
        TablesValid();
        match MatchSpec(TABLES, dist, sym - 257, r1, out, cap)
        case Corrupt => Corrupt
        case Done(r2, longer) => CodesSpec(lit, dist, r2, longer, cap)
  }

  /** The rest of a match whose length code is `sym`: extra bits, distance, copy. */
  function MatchSpec(tb: Tables, dist: Table, sym: nat, bits: seq<bit>, out: seq<byte>, cap: nat): (r: Outcome)
    requires tb.Valid() && dist.Filled() && sym < 29
    ensures r.Done? ==> |r.rest| <= |bits|
  {
    var e := tb.lenExtra[sym];
    if |bits| < e then Corrupt
    else
      match DecodeSpec(dist, bits[e..])
      case NoSymbol => Corrupt
      case Symbol(ds, r) =>
        DecodeConsumes(dist, bits[e..], 1, 0, 0, 0);
        if ds >= 30 || |r| < tb.distExtra[ds] then Corrupt
        else
          var len := tb.lenBase[sym] + LsbValue(bits[..e]);
          var d := tb.distBase[ds] + LsbValue(r[..tb.distExtra[ds]]);
          if d > |out| || |out| + len > cap then Corrupt
          else Done(r[tb.distExtra[ds]..], Copy(out, d, len))
  }

  /** `n` whole bytes off a byte-aligned bit stream. */
  function TakeBytes(bits: seq<bit>, n: nat): seq<byte>
    requires |bits| >= 8 * n
    decreases n
  {
    if n == 0 then []
    else
      LsbValueBound(bits[..8]);
      assert Pow2(8) == 256;
      [LsbValue(bits[..8])] + TakeBytes(bits[8..], n - 1)
  }

  /** A stored block: the bits up to the next byte boundary are dropped. The total number of
      bits is a multiple of eight, so the boundary is where the rest is one too. */
  function StoredSpec(bits: seq<bit>, out: seq<byte>, cap: nat): (r: Outcome)
    ensures r.Done? ==> |r.rest| <= |bits|
  {
    AlignedSpec(bits[|bits| % 8..], out, cap)
  }

  function AlignedSpec(bits: seq<bit>, out: seq<byte>, cap: nat): (r: Outcome)
    ensures r.Done? ==> |r.rest| <= |bits|
  {
    if |bits| < 32 then Corrupt
    else
      var n := LsbValue(bits[..16]);
      if |bits[32..]| < 8 * n || |out| + n > cap then Corrupt
      else Done(bits[32..][8 * n..], out + TakeBytes(bits[32..], n))
  }

  /** The fixed code of RFC 1951, section 3.2.6. */
  function FixedLit(): seq<nat> {
    seq(288, i => if i < 144 then 8 else if i < 256 then 9 else if i < 280 then 7 else 8)
  }

  function FixedDist(): seq<nat> {
    seq(30, i => 5)
  }

  /** `n` numbers of `w` bits each. */
  function TakeNumbers(bits: seq<bit>, w: nat, n: nat): (r: seq<nat>)
    requires |bits| >= w * n
    ensures |r| == n
    decreases n
  {
    if n == 0 then []
    else
      assert |bits| >= w * (n - 1) + w;
      [LsbValue(bits[..w])] + TakeNumbers(bits[w..], w, n - 1)
  }

  /** The lengths of the code length code, which arrive in the order of CODE_ORDER. */
  function PlaceLengths(order: seq<nat>, values: seq<nat>, i: nat): (r: seq<nat>)
    requires i <= |values| <= |order| == 19 && forall k :: 0 <= k < 19 ==> order[k] < 19
    ensures |r| == 19
  {
    if i == 0 then seq(19, _ => 0)
    else PlaceLengths(order, values, i - 1)[order[i - 1] := values[i - 1]]
  }

  lemma {:induction false} CodeOrderValid()
    ensures |CODE_ORDER| == 19 && forall k :: 0 <= k < 19 ==> CODE_ORDER[k] < 19
  {}

  function Repeat(v: nat, n: nat): (r: seq<nat>)
    ensures |r| == n
  {
    seq(n, _ => v)
  }

  /** The shortest run a run-length symbol stands for, and its number of extra bits. */
  function RunBase(sym: nat): nat {
    if sym == 16 || sym == 17 then 3 else 11
  }

  function RunExtra(sym: nat): nat {
    if sym == 16 then 2 else if sym == 17 then 3 else 7
  }

  /** A run of zeros, or of the previous length. */
  function RunSpec(sym: nat, bits: seq<bit>, acc: seq<nat>, total: nat): (h: Header)
    requires |acc| < total
    ensures h.Lengths? ==> |acc| < |h.lengths| <= total && |h.rest| <= |bits|
    ensures h.Lengths? && CodeLengths(acc, MAX_BITS) ==> CodeLengths(h.lengths, MAX_BITS)
  {
    var w := RunExtra(sym);
    if (sym == 16 && acc == []) || |bits| < w then NoLengths
    else
      var rep := RunBase(sym) + LsbValue(bits[..w]);
      var v := if sym == 16 then acc[|acc| - 1] else 0;
      if |acc| + rep > total then NoLengths
      else Lengths(bits[w..], acc + Repeat(v, rep))
  }

  /** The run-length coded code lengths, up to `total` of them. */
  function LengthsSpec(t: Table, bits: seq<bit>, acc: seq<nat>, total: nat): (h: Header)
    requires t.Filled() && |acc| <= total
    ensures h.Lengths? ==> |h.lengths| == total && |h.rest| <= |bits|
    ensures h.Lengths? && CodeLengths(acc, MAX_BITS) ==> CodeLengths(h.lengths, MAX_BITS)
    decreases total - |acc|
  {
    if |acc| == total then Lengths(bits, acc)
    else
      match DecodeSpec(t, bits)
      case NoSymbol => NoLengths
      case Symbol(sym, r) =>
        DecodeConsumes(t, bits, 1, 0, 0, 0);
        if sym < 16 then LengthsSpec(t, r, acc + [sym], total)
        else
          match RunSpec(sym, r, acc, total)
          case NoLengths => NoLengths
          case Lengths(r2, longer) => LengthsSpec(t, r2, longer, total)
  }

  /** The two codes of a block with dynamic codes. */
  function HeaderSpec(nlen: nat, ndist: nat, ncode: nat, bits: seq<bit>): (h: Header)
    requires ncode <= 19
    ensures h.Lengths? ==> |h.lengths| == nlen + ndist && |h.rest| <= |bits|
    ensures h.Lengths? ==> CodeLengths(h.lengths, MAX_BITS)
  {
    if |bits| < 3 * ncode then NoLengths
    else
      CodeOrderValid();
      var code := PlaceLengths(CODE_ORDER, TakeNumbers(bits, 3, ncode), ncode);
      TableOfFilled(code, MAX_BITS);
      LengthsSpec(TableOf(code, MAX_BITS), bits[3 * ncode..], [], nlen + ndist)
  }

  /** The data of a block whose codes are `l[..nlen]` and `l[nlen..]`. */
  function DataSpec(l: seq<nat>, nlen: nat, bits: seq<bit>, out: seq<byte>, cap: nat): (r: Outcome)
    requires nlen <= |l|
    ensures r.Done? ==> |r.rest| <= |bits|
  {
    TableOfFilled(l[..nlen], MAX_BITS);
    TableOfFilled(l[nlen..], MAX_BITS);
    CodesSpec(TableOf(l[..nlen], MAX_BITS), TableOf(l[nlen..], MAX_BITS), bits, out, cap)
  }

  /** A block with dynamic codes: the sizes of the codes, the codes, the data. */
  function DynamicSpec(bits: seq<bit>, out: seq<byte>, cap: nat): (r: Outcome)
    ensures r.Done? ==> |r.rest| <= |bits|
  {
    if |bits| < 14 then Corrupt
    else
      LsbValueBound(bits[10..14]);
      assert Pow2(4) == 16;
      SizesSpec(LsbValue(bits[..5]) + 257, LsbValue(bits[5..10]) + 1, LsbValue(bits[10..14]) + 4, bits[14..], out, cap)
  }

  lemma {:induction false} DynamicSizes(bits: seq<bit>, out: seq<byte>, cap: nat)
    ensures |bits| < 14 ==> DynamicSpec(bits, out, cap) == Corrupt
    ensures |bits| >= 14 ==>
              LsbValue(bits[10..14]) < 16 &&
              DynamicSpec(bits, out, cap) ==
              SizesSpec(LsbValue(bits[..5]) + 257, LsbValue(bits[5..10]) + 1, LsbValue(bits[10..14]) + 4,
                        bits[14..], out, cap)
  {
    hide SizesSpec;
    if |bits| >= 14 {
      LsbValueBound(bits[10..14]);
      assert Pow2(4) == 16;
    }
  }

  function SizesSpec(nlen: nat, ndist: nat, ncode: nat, bits: seq<bit>, out: seq<byte>, cap: nat): (r: Outcome)
    requires ncode <= 19
    ensures r.Done? ==> |r.rest| <= |bits|
  {
    match HeaderSpec(nlen, ndist, ncode, bits)
    case NoLengths => Corrupt
    case Lengths(r, l) => DataSpec(l, nlen, r, out, cap)
  }

  /** One block after its three header bits. */
  function BlockSpec(kind: nat, bits: seq<bit>, out: seq<byte>, cap: nat): (r: Outcome)
    ensures r.Done? ==> |r.rest| <= |bits|
  {
    if kind == 0 then StoredSpec(bits, out, cap)
    else if kind == 1 then
      TableOfFilled(FixedLit(), MAX_BITS);
      TableOfFilled(FixedDist(), MAX_BITS);
      CodesSpec(TableOf(FixedLit(), MAX_BITS), TableOf(FixedDist(), MAX_BITS), bits, out, cap)
    else if kind == 2 then DynamicSpec(bits, out, cap)
    else Corrupt
  }

  /** Blocks up to and including the one marked last. */
  function BlocksSpec(bits: seq<bit>, out: seq<byte>, cap: nat): Outcome
    decreases |bits|
  {
    if |bits| < 3 then Corrupt
    else
      match BlockSpec(LsbValue(bits[1..3]), bits[3..], out, cap)
      case Corrupt => Corrupt
      case Done(rest, longer) => if bits[0] == 1 then Done(rest, longer) else BlocksSpec(rest, longer, cap)
  }

  /** A zlib stream: only the compression method of its two-byte header is looked at, and
      the checksum after the last block is not. */
  function ZlibSpec(src: seq<byte>, cap: nat): Outcome {
    if |src| < 2 || src[0] % 16 != 8 then Corrupt else BlocksSpec(BytesBits(src[2..]), [], cap)
  }

  // ---------------------------------------------------------------------------
  // How it computes it
  // ---------------------------------------------------------------------------

  /** The bits not read yet: those left in the buffer, then the bytes not fetched. */
  ghost function Unread(src: seq<byte>, pos: nat, bitbuf: nat, bitcnt: nat): seq<bit>
    requires pos <= |src|
    decreases bitcnt
  {
    if bitcnt == 0 then BytesBits(src[pos..]) else [bitbuf % 2] + Unread(src, pos, bitbuf / 2, bitcnt - 1)
  }

  lemma {:induction false} UnreadSplit(src: seq<byte>, pos: nat, bitbuf: nat, bitcnt: nat)
    requires pos <= |src|
    ensures Unread(src, pos, bitbuf, bitcnt) == LsbBits(bitbuf, bitcnt) + BytesBits(src[pos..])
    decreases bitcnt
  {
    if bitcnt > 0 {
      UnreadSplit(src, pos, bitbuf / 2, bitcnt - 1);
    }
  }

  /** Fetching a byte into an empty buffer reads nothing. */
  lemma {:induction false} UnreadFetch(src: seq<byte>, pos: nat, bitbuf: nat)
    requires pos < |src|
    ensures Unread(src, pos, bitbuf, 0) == Unread(src, pos + 1, src[pos], 8)
    ensures Unread(src, pos, bitbuf, 0) != []
  {
    UnreadSplit(src, pos + 1, src[pos], 8);
    assert src[pos..][1..] == src[pos + 1..];
  }

  lemma {:induction false} UnreadBit(src: seq<byte>, pos: nat, bitbuf: nat, bitcnt: nat)
    requires pos <= |src| && bitcnt > 0
    ensures Unread(src, pos, bitbuf, bitcnt) == [bitbuf % 2] + Unread(src, pos, bitbuf / 2, bitcnt - 1)
  {}

  lemma {:induction false} UnreadBytes(src: seq<byte>, pos: nat, bitbuf: nat)
    requires pos <= |src|
    ensures Unread(src, pos, bitbuf, 0) == BytesBits(src[pos..])
    ensures pos == |src| ==> Unread(src, pos, bitbuf, 0) == []
  {}

  class Inflate {
    const src: seq<byte>
    var pos: nat
    var bitbuf: nat
    var bitcnt: nat
    const out: array<byte>
    var outLen: nat
    var error: bool
    ghost var rest: seq<bit>

    constructor (src: seq<byte>, out: array<byte>)
      requires |src| >= 2
      ensures this.src == src && this.out == out
      ensures Valid() && !error && outLen == 0 && rest == BytesBits(src[2..])
    {
      this.src, this.out := src, out;
      pos, bitbuf, bitcnt := 2, 0, 0;
      outLen, error := 0, false;
      rest := BytesBits(src[2..]);
    }

    ghost predicate Valid()
      reads this
    {
      pos <= |src| && bitcnt < 8 && bitbuf < 256 && outLen <= out.Length &&
      rest == Unread(src, pos, bitbuf, bitcnt)
    }

    ghost function Contents(): seq<byte>
      requires outLen <= out.Length
      reads `outLen, out
    {
      out[..outLen]
    }

    method GetBit() returns (b: bit)
      requires Valid()
      modifies `pos, `bitbuf, `bitcnt, `error, `rest
      ensures Valid()
      ensures old(rest) == [] ==> b == 0 && error && rest == []
      ensures old(rest) != [] ==> b == old(rest)[0] && error == old(error) && rest == old(rest)[1..]
    {
      hide Unread, BytesBits;
      if bitcnt == 0 {
        UnreadBytes(src, pos, bitbuf);
        if pos >= |src| {
          error := true;
          return 0;
        }
        UnreadFetch(src, pos, bitbuf);
        bitbuf := src[pos];
        pos := pos + 1;
        bitcnt := 8;
      }
      UnreadBit(src, pos, bitbuf, bitcnt);
      b := bitbuf % 2;
      bitbuf := bitbuf / 2;
      bitcnt := bitcnt - 1;
      rest := rest[1..];
    }

    /** `n` bits as a number; missing bits read as zero and set `error`. */
    method GetBits(n: nat) returns (v: nat)
      requires Valid()
      modifies `pos, `bitbuf, `bitcnt, `error, `rest
      ensures Valid() && v < Pow2(n)
      ensures |old(rest)| < n ==> error && rest == []
      ensures |old(rest)| >= n ==>
                v == LsbValue(old(rest)[..n]) && error == old(error) && rest == old(rest)[n..]
    {
      v := 0;
      var weight: nat := 1;  // 1 << i
      ghost var bits := rest;
      for i := 0 to n
        invariant Valid() && weight == Pow2(i) && v < weight
        invariant |bits| < i ==> error && rest == []
        invariant |bits| >= i ==> v == LsbValue(bits[..i]) && error == old(error) && rest == bits[i..]
      {
        if i < |bits| {
          LsbValueTake(bits, i);
        }
        var b := GetBit();
        v := if b == 1 then v + weight else v;
        weight := 2 * weight;
      }
    }

    method Put(b: byte)
      requires Valid()
      modifies `outLen, `error, out
      ensures Valid()
      ensures old(outLen) >= out.Length ==> error && outLen == old(outLen) && Contents() == old(Contents())
      ensures old(outLen) < out.Length ==> error == old(error) && Contents() == old(Contents()) + [b]
    {
      if outLen >= out.Length {
        error := true;
        return;
      }
      out[outLen] := b;
      outLen := outLen + 1;
    }

    /** The symbol of the next code word. The bits may end in the middle of it, and `error`
        may already be set; then `error` is set afterwards and the answer is arbitrary. */
    method Decode(h: Huffman, ghost t: Table) returns (sym: int)
      requires Valid() && h.Valid() && h.Holds(t)
      modifies `pos, `bitbuf, `bitcnt, `error, `rest
      ensures Valid()
      ensures old(error) ==> error
      ensures !old(error) ==>
                match DecodeSpec(t, old(rest))
                case NoSymbol => error
                case Symbol(value, r) => !error && sym == value && rest == r
    {
      hide Unread;
      var code: nat, first: nat, index: nat := 0, 0, 0;
      ghost var d := DecodeSpec(t, rest);
      for len := 1 to 16
        invariant Valid() && error == old(error)
        invariant first <= code && index == t.Offset(len)
        invariant !error ==> d == DecodeFrom(t, rest, len, code, first, index)
      {
        ghost var bits := rest;
        h.CountAt(t, len);
        DecodeFromStep(t, bits, len, code, first, index);
        var b := GetBit();
        code := code + b;
        var count := h.count[len];
        if code - count < first {
          h.SymbolAt(t, index + (code - first));
          return h.symbol[index + (code - first)];
        }
        index := index + count;
        first := 2 * (first + count);
        code := 2 * code;
        if error {
          return -1;
        }
      }
      error := true;
      return -1;
    }

    /** Length and distance of a match whose length code is `sym`, then the copy. */
    method Match(tb: Tables, sym: nat, dist: Huffman, ghost td: Table)
      requires Valid() && dist.Valid() && dist.Holds(td) && sym < 29 && tb.Valid()
      modifies this, out
      ensures Valid()
      ensures old(error) ==> error
      ensures !old(error) ==>
                match MatchSpec(tb, td, sym, old(rest), old(Contents()), out.Length)
                case Corrupt => error
                case Done(r, o) => !error && rest == r && Contents() == o
    {
      hide Unread, DecodeSpec, LsbValue, Copy;
      var extra := GetBits(tb.lenExtra[sym]);
      var len := tb.lenBase[sym] + extra;
      var ds := Decode(dist, td);
      if ds < 0 || ds >= 30 {
        error := true;
        return;
      }
      var far := GetBits(tb.distExtra[ds]);
      var d := tb.distBase[ds] + far;
      if d > outLen {
        error := true;
        return;
      }
      CopyWithin(d, len);
    }

    /** Copies byte by byte, so that the copy may overlap what it copies from. */
    method CopyWithin(d: nat, len: nat)
      requires Valid() && 1 <= d <= outLen
      modifies `error, `outLen, out
      ensures Valid()
      ensures old(error) ==> error
      ensures old(outLen) + len > out.Length ==> error
      ensures old(outLen) + len <= out.Length ==>
                error == old(error) && Contents() == Copy(old(Contents()), d, len)
    {
      ghost var start := outLen;
      ghost var target := Copy(Contents(), d, len);
      for i := 0 to len
        invariant Valid() && d <= outLen && (old(error) ==> error)
        invariant start + i > out.Length ==> error
        invariant start + i <= out.Length ==>
                    outLen == start + i && error == old(error) && Copy(Contents(), d, len - i) == target
      {
        Put(out[outLen - d]);
      }
    }

    /** The compressed data of one block. */
    method Codes(lit: Huffman, ghost tl: Table, dist: Huffman, ghost td: Table)
      requires Valid() && lit.Valid() && lit.Holds(tl) && dist.Valid() && dist.Holds(td)
      modifies this, out
      ensures Valid()
      ensures old(error) ==> error
      ensures !old(error) ==>
                match CodesSpec(tl, td, old(rest), old(Contents()), out.Length)
                case Corrupt => error
                case Done(r, o) => !error && rest == r && Contents() == o
    {
      hide Unread, MatchSpec;
      ghost var target := CodesSpec(tl, td, rest, Contents(), out.Length);
      while true
        invariant Valid() && (old(error) ==> error)
        invariant !old(error) && error ==> target == Corrupt
        invariant !error ==> target == CodesSpec(tl, td, rest, Contents(), out.Length)
        decreases if error then 0 else |rest| + 1
      {
        DecodeConsumes(tl, rest, 1, 0, 0, 0);
        var sym := Decode(lit, tl);
        if error || sym < 0 {
          return;
        }
        if sym < 256 {
          Put(sym);
          continue;
        }
        if sym == 256 {
          return;
        }
        sym := sym - 257;
        if sym >= 29 {
          error := true;
          return;
        }
        TablesValid();
        Match(TABLES, sym, dist, td);
        if error {
          return;
        }
      }
    }

    /** A stored block: whole bytes, straight from the source. */
    method Stored() returns (ok: bool)
      requires Valid()
      modifies `pos, `bitcnt, `error, `rest, `outLen, out
      ensures Valid()
      ensures old(error) && ok ==> error
      ensures !old(error) ==>
                match StoredSpec(old(rest), old(Contents()), out.Length)
                case Corrupt => error || !ok
                case Done(r, o) => ok && !error && rest == r && Contents() == o
    {
      UnreadAlign(src, pos, bitbuf, bitcnt);
      bitcnt := 0;
      rest := BytesBits(src[pos..]);
      ok := AlignedBytes();
    }

    method AlignedBytes() returns (ok: bool)
      requires Valid() && bitcnt == 0 && rest == BytesBits(src[pos..])
      modifies `pos, `error, `rest, `outLen, out
      ensures Valid()
      ensures old(error) && ok ==> error
      ensures !old(error) ==>
                match AlignedSpec(old(rest), old(Contents()), out.Length)
                case Corrupt => error || !ok
                case Done(r, o) => ok && !error && rest == r && Contents() == o
    {
      hide Unread, BytesBits, AlignedSpec;
      ghost var s := src[pos..];
      StoredBytes(s, Contents(), out.Length);
      ghost var target := AlignedSpec(rest, Contents(), out.Length);
      if pos + 4 > |src| {
        return false;
      }
      var n: nat := (src[pos] as int) + 256 * (src[pos + 1] as int);
      assert n == StoredLength(s);
      pos := pos + 4;
      rest := BytesBits(src[pos..]);
      UnreadBytes(src, pos, bitbuf);
      if pos + n > |src| {
        return false;
      }
      assert src[pos..pos + n] == s[4..4 + n] && src[pos + n..] == s[4 + n..];
      assert outLen + n <= out.Length ==> target == Done(BytesBits(src[pos + n..]), Contents() + src[pos..pos + n]);
      assert outLen + n > out.Length ==> target == Corrupt;
      PutBytes(n);
      return true;
    }

    /** The bytes of a stored block. */
    method PutBytes(n: nat)
      requires Valid() && bitcnt == 0 && pos + n <= |src|
      modifies `pos, `error, `rest, `outLen, out
      ensures Valid() && rest == BytesBits(src[pos..]) && pos == old(pos) + n
      ensures old(error) ==> error
      ensures old(outLen) + n > out.Length ==> error
      ensures old(outLen) + n <= out.Length ==>
                error == old(error) && Contents() == old(Contents()) + src[old(pos)..old(pos) + n]
    {
      ghost var start, before := pos, Contents();
      for i := 0 to n
        invariant Valid() && pos == start + i && rest == BytesBits(src[pos..])
        invariant old(error) ==> error
        invariant |before| + i > out.Length ==> error
        invariant |before| + i <= out.Length ==>
                    error == old(error) && outLen == |before| + i && Contents() == before + src[start..start + i]
      {
        Put(src[pos]);
        pos := pos + 1;
        rest := BytesBits(src[pos..]);
        assert src[start..start + i + 1] == src[start..start + i] + [src[start + i]];
      }
    }

    /** The lengths of the code length code. */
    method CodeLengthCode(ncode: nat) returns (l: seq<nat>)
      requires Valid() && ncode <= 19
      modifies `pos, `bitbuf, `bitcnt, `error, `rest
      ensures Valid() && |l| == 19 && CodeLengths(l, 7)
      ensures old(error) ==> error
      ensures |old(rest)| < 3 * ncode ==> error
      ensures |old(rest)| >= 3 * ncode ==>
                error == old(error) && rest == old(rest)[3 * ncode..]
      ensures |old(rest)| >= 3 * ncode ==>
                (CodeOrderValid(); l == PlaceLengths(CODE_ORDER, TakeNumbers(old(rest), 3, ncode), ncode))
    {
      CodeOrderValid();
      hide TakeNumbers;
      ghost var order := CODE_ORDER;
      ghost var bits := rest;
      ghost var values := if |bits| >= 3 * ncode then TakeNumbers(bits, 3, ncode) else Repeat(0, ncode);
      l := seq(19, _ => 0);
      for i := 0 to ncode
        invariant Valid() && |l| == 19 && CodeLengths(l, 7)
        invariant old(error) ==> error
        invariant |bits| < 3 * i ==> error && rest == []
        invariant |bits| >= 3 * i ==> error == old(error) && rest == bits[3 * i..]
        invariant |bits| >= 3 * ncode ==> l == PlaceLengths(order, values, i)
      {
        if |bits| >= 3 * ncode {
          TakeNumbersAt(bits, 3, ncode, i);
        }
        var v := GetBits(3);
        assert Pow2(3) == 8;
        l := l[CODE_ORDER[i] := v];
      }
    }

    /** Fills `l[..total]` with the run-length coded lengths; false when they are malformed. */
    method RunLengths(code: Huffman, ghost t: Table, total: nat, l: array<nat>) returns (ok: bool)
      requires Valid() && code.Valid() && code.Holds(t) && total <= l.Length
      requires l != code.count && l != code.symbol
      modifies `pos, `bitbuf, `bitcnt, `error, `rest, l
      ensures Valid()
      ensures old(error) && ok ==> error
      ensures ok ==> CodeLengths(l[..total], MAX_BITS)
      ensures !old(error) ==>
                match LengthsSpec(t, old(rest), [], total)
                case NoLengths => !ok || error
                case Lengths(r, ls) => ok && !error && rest == r && l[..total] == ls
    {
      ghost var target := LengthsSpec(t, rest, [], total);
      var idx := 0;
      while idx < total
        invariant Valid() && idx <= total && (old(error) ==> error)
        invariant CodeLengths(l[..idx], MAX_BITS)
        invariant !old(error) && error ==> target == NoLengths
        invariant !error ==> target == LengthsSpec(t, rest, l[..idx], total)
        invariant code.Holds(t)
      {
        ghost var acc := l[..idx];
        var sym := Decode(code, t);
        if error || sym < 0 {
          return false;
        }
        if sym < 16 {
          l[idx] := sym;
          idx := idx + 1;
          assert l[..idx] == acc + [sym];
          continue;
        }
        var fits;
        fits, idx := Run(sym, l, idx, total);
        if !fits {
          return false;
        }
      }
      return true;
    }

    /** Writes one run after `l[..idx]`. */
    method Run(sym: nat, l: array<nat>, idx: nat, total: nat) returns (ok: bool, next: nat)
      requires Valid() && idx < total <= l.Length
      modifies `pos, `bitbuf, `bitcnt, `error, `rest, l
      ensures Valid() && idx <= next <= total && (ok ==> idx < next)
      ensures old(error) ==> error
      ensures CodeLengths(old(l[..idx]), MAX_BITS) ==> CodeLengths(l[..next], MAX_BITS)
      ensures match RunSpec(sym, old(rest), old(l[..idx]), total)
              case NoLengths => !ok || error
              case Lengths(r, ls) => ok && error == old(error) && rest == r && l[..next] == ls
    {
      var v := 0;
      if sym == 16 {
        if idx == 0 {
          return false, idx;
        }
        v := l[idx - 1];
      }
      var rep := GetBits(RunExtra(sym));
      rep := RunBase(sym) + rep;
      if idx + rep > total {
        return false, idx;
      }
      Fill(l, idx, rep, v);
      next := idx + rep;
      assert l[..next] == old(l[..idx]) + Repeat(v, rep);
      return true, next;
    }

    /** The data of a block whose two codes have lengths `l[..nlen]` and `l[nlen..]`. */
    method Data(l: seq<nat>, nlen: nat)
      requires Valid() && nlen <= 288 && nlen <= |l| <= nlen + 288 && CodeLengths(l, MAX_BITS)
      modifies this, out
      ensures Valid()
      ensures old(error) ==> error
      ensures !old(error) ==>
                match DataSpec(l, nlen, old(rest), old(Contents()), out.Length)
                case Corrupt => error
                case Done(r, o) => !error && rest == r && Contents() == o
    {
      var lit := new Huffman();
      lit.Build(l[..nlen]);
      var dist := new Huffman();
      dist.Build(l[nlen..]);
      Codes(lit, TableOf(l[..nlen], MAX_BITS), dist, TableOf(l[nlen..], MAX_BITS));
    }

    /** The lengths of both codes of a block with dynamic codes. */
    method CodeHeader(nlen: nat, ndist: nat, ncode: nat) returns (ok: bool, l: seq<nat>)
      requires Valid() && ncode <= 19
      modifies `pos, `bitbuf, `bitcnt, `error, `rest
      ensures Valid()
      ensures old(error) && ok ==> error
      ensures ok ==> |l| == nlen + ndist && CodeLengths(l, MAX_BITS)
      ensures !old(error) ==>
                match HeaderSpec(nlen, ndist, ncode, old(rest))
                case NoLengths => !ok || error
                case Lengths(r, ls) => ok && !error && rest == r && l == ls
    {
      hide LengthsSpec, PlaceLengths, TakeNumbers, Unread;
      var code := CodeLengthCode(ncode);
      var lencode := new Huffman();
      lencode.Build(code);
      var buf := new nat[nlen + ndist](_ => 0);
      ok := RunLengths(lencode, TableOf(code, MAX_BITS), nlen + ndist, buf);
      l := buf[..];
    }

    method Dynamic() returns (ok: bool)
      requires Valid()
      modifies this, out
      ensures Valid()
      ensures old(error) && ok ==> error
      ensures !old(error) ==>
                match DynamicSpec(old(rest), old(Contents()), out.Length)
                case Corrupt => error || !ok
                case Done(r, o) => ok && !error && rest == r && Contents() == o
    {
      hide DynamicSpec, SizesSpec, Unread, LsbValue;
      ghost var bits, before := rest, Contents();
      var nlen, ndist, ncode := ReadSizes();
      DynamicSizes(bits, before, out.Length);
      ok := Sizes(nlen, ndist, ncode);
    }

    method ReadSizes() returns (nlen: nat, ndist: nat, ncode: nat)
      requires Valid()
      modifies `pos, `bitbuf, `bitcnt, `error, `rest
      ensures Valid() && nlen <= 288 && ndist <= 32 && ncode <= 19
      ensures old(error) || |old(rest)| < 14 ==> error
      ensures |old(rest)| >= 14 ==>
                error == old(error) && rest == old(rest)[14..] && nlen == LsbValue(old(rest)[..5]) + 257 &&
                ndist == LsbValue(old(rest)[5..10]) + 1 && ncode == LsbValue(old(rest)[10..14]) + 4
    {
      ghost var bits := rest;
      assert Pow2(4) == 16 && Pow2(5) == 32;
      nlen := GetBits(5);
      ndist := GetBits(5);
      ncode := GetBits(4);
      if |bits| >= 14 {
        SliceSlice(bits, 5, 10);
        SliceSlice(bits, 10, 14);
      }
      nlen, ndist, ncode := nlen + 257, ndist + 1, ncode + 4;
    }

    method Sizes(nlen: nat, ndist: nat, ncode: nat) returns (ok: bool)
      requires Valid() && ncode <= 19 && nlen <= 288 && ndist <= 288
      modifies this, out
      ensures Valid()
      ensures old(error) && ok ==> error
      ensures !old(error) ==>
                match SizesSpec(nlen, ndist, ncode, old(rest), old(Contents()), out.Length)
                case Corrupt => error || !ok
                case Done(r, o) => ok && !error && rest == r && Contents() == o
    {
      var l;
      ok, l := CodeHeader(nlen, ndist, ncode);
      if ok {
        Data(l, nlen);
      }
    }

    /** One block; false or `error` when it is malformed. */
    method Block(kind: nat) returns (ok: bool)
      requires Valid()
      modifies this, out
      ensures Valid()
      ensures old(error) && ok ==> error
      ensures !old(error) ==>
                match BlockSpec(kind, old(rest), old(Contents()), out.Length)
                case Corrupt => error || !ok
                case Done(r, o) => ok && !error && rest == r && Contents() == o
    {
      if kind == 0 {
        ok := Stored();
      } else if kind == 1 {
        var lit := new Huffman();
        lit.Build(FixedLit());
        var dist := new Huffman();
        dist.Build(FixedDist());
        Codes(lit, TableOf(FixedLit(), MAX_BITS), dist, TableOf(FixedDist(), MAX_BITS));
        ok := true;
      } else if kind == 2 {
        ok := Dynamic();
      } else {
        ok := false;
      }
    }

    /** All blocks. */
    method Blocks() returns (ok: bool)
      requires Valid() && !error
      modifies this, out
      ensures Valid()
      ensures match BlocksSpec(old(rest), old(Contents()), out.Length)
              case Corrupt => !ok
              case Done(r, o) => ok && rest == r && Contents() == o
    {
      ghost var target := BlocksSpec(rest, Contents(), out.Length);
      while true
        invariant Valid() && !error
        invariant target == BlocksSpec(rest, Contents(), out.Length)
        decreases |rest|
      {
        ghost var bits, before := rest, Contents();
        var last := GetBit();
        var kind := GetBits(2);
        assert |bits| >= 3 ==> bits[1..][..2] == bits[1..3] && bits[1..][2..] == bits[3..];
        var ok' := Block(kind);
        if !ok' || error {
          return false;
        }
        if last == 1 {
          return true;
        }
      }
    }
  }

  /** Decompresses a zlib stream into `out`. */
  method InflateZlib(src: seq<byte>, out: array<byte>) returns (ok: bool, outLen: nat)
    modifies out
    ensures match ZlibSpec(src, out.Length)
            case Corrupt => !ok
            case Done(_, o) => ok && outLen == |o| <= out.Length && out[..outLen] == o
  {
    if |src| < 2 || src[0] % 16 != 8 {
      return false, 0;
    }
    var s := new Inflate(src, out);
    assert s.Contents() == [];
    ok := s.Blocks();
    outLen := s.outLen;
  }

  /** Writes `v` to `l[from..from + n]`. */
  method Fill(l: array<nat>, from: nat, n: nat, v: nat)
    requires from + n <= l.Length
    modifies l
    ensures l[..from] == old(l[..from]) && l[from..from + n] == Repeat(v, n)
  {
    for i := 0 to n
      invariant l[..from] == old(l[..from]) && l[from..from + i] == Repeat(v, i)
    {
      l[from + i] := v;
      assert l[from..from + i + 1] == l[from..from + i] + [v];
    }
  }

  lemma {:induction false} SliceSlice(bits: seq<bit>, a: nat, b: nat)
    requires a <= b <= |bits|
    ensures bits[a..][..b - a] == bits[a..b] && bits[a..][b - a..] == bits[b..]
  {}

  /** Dropping the buffered bits drops the bits up to the next byte. */
  lemma {:induction false} UnreadAlign(src: seq<byte>, pos: nat, bitbuf: nat, bitcnt: nat)
    requires pos <= |src| && bitcnt < 8
    ensures var rest := Unread(src, pos, bitbuf, bitcnt);
            |rest| % 8 == bitcnt && rest[bitcnt..] == BytesBits(src[pos..])
  {
    UnreadSplit(src, pos, bitbuf, bitcnt);
  }

  /** The length a stored block starts with. */
  function StoredLength(s: seq<byte>): nat
    requires |s| >= 4
  {
    (s[0] as int) + 256 * (s[1] as int)
  }

  /** A stored block in terms of the bytes `s` it is read from. */
  lemma {:induction false} StoredBytes(s: seq<byte>, out: seq<byte>, cap: nat)
    ensures |s| < 4 ==> AlignedSpec(BytesBits(s), out, cap) == Corrupt
    ensures |s| >= 4 && (4 + StoredLength(s) > |s| || |out| + StoredLength(s) > cap) ==>
              AlignedSpec(BytesBits(s), out, cap) == Corrupt
    ensures |s| >= 4 && 4 + StoredLength(s) <= |s| && |out| + StoredLength(s) <= cap ==>
              AlignedSpec(BytesBits(s), out, cap) ==
              Done(BytesBits(s[4 + StoredLength(s)..]), out + s[4..4 + StoredLength(s)])
  {
    if |s| >= 4 {
      var n := StoredLength(s);
      StoredHeader(s);
      if 4 + n <= |s| {
        StoredData(s[4..], n);
        assert s[4..][..n] == s[4..4 + n] && s[4..][n..] == s[4 + n..];
      }
    }
  }

  lemma {:induction false} StoredHeader(s: seq<byte>)
    requires |s| >= 4
    ensures |BytesBits(s)| >= 32 && LsbValue(BytesBits(s)[..16]) == StoredLength(s)
    ensures BytesBits(s)[32..] == BytesBits(s[4..])
  {
    BytesBitsDrop(s, 2);
    BytesBitsDrop(s, 4);
    assert s[..2] == [s[0], s[1]];
    TwoBytes(s[0], s[1]);
  }

  lemma {:induction false} TwoBytes(a: byte, b: byte)
    ensures LsbValue(BytesBits([a, b])) == (a as int) + 256 * (b as int)
  {
    assert [a, b][1..] == [b] && [b][1..] == [];
    assert BytesBits([b]) == LsbBits(b, 8);
    assert BytesBits([a, b]) == LsbBits(a, 8) + LsbBits(b, 8);
    LsbValueConcat(LsbBits(a, 8), LsbBits(b, 8));
    assert Pow2(8) == 256;
    LsbRoundTrip(a, 8);
    LsbRoundTrip(b, 8);
  }

  lemma {:induction false} StoredData(s: seq<byte>, n: nat)
    requires n <= |s|
    ensures TakeBytes(BytesBits(s), n) == s[..n] && BytesBits(s)[8 * n..] == BytesBits(s[n..])
  {
    BytesBitsDrop(s, n);
    TakeBytesOf(s, n);
  }

  lemma {:induction false} TakeBytesOf(s: seq<byte>, n: nat)
    requires n <= |s|
    ensures TakeBytes(BytesBits(s), n) == s[..n]
    decreases n
  {
    if n > 0 {
      var bits := BytesBits(s);
      assert bits[..8] == LsbBits(s[0], 8) && bits[8..] == BytesBits(s[1..]);
      assert Pow2(8) == 256;
      LsbRoundTrip(s[0], 8);
      TakeBytesOf(s[1..], n - 1);
      assert s[..n] == [s[0]] + s[1..][..n - 1];
    }
  }

  lemma {:induction false} TakeNumbersAt(bits: seq<bit>, w: nat, n: nat, i: nat)
    requires |bits| >= w * n && i < n
    ensures w * i + w <= |bits| && TakeNumbers(bits, w, n)[i] == LsbValue(bits[w * i..][..w])
    ensures bits[w * i..][w..] == bits[w * (i + 1)..]
    decreases n
  {
    MulStep(w, n);
    MulStep(w, i + 1);
    MulLe(w, i + 1, n);
    assert bits[w * i..][w..] == bits[w * (i + 1)..];
    if i > 0 {
      TakeNumbersAt(bits[w..], w, n - 1, i - 1);
      MulStep(w, i);
      assert bits[w..][w * (i - 1)..] == bits[w * i..];
    } else {
      assert bits[w * i..] == bits;
    }
  }

  lemma {:induction false} MulStep(w: nat, n: nat)
    requires n > 0
    ensures w * n == w * (n - 1) + w
  {}

  lemma {:induction false} MulLe(w: nat, a: nat, b: nat)
    requires a <= b
    ensures w * a <= w * b
  {}
}

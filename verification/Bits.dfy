/** Bytes, bits and the two bit orders of RFC 1951, section 3.1.1: data elements
    travel least significant bit first, Huffman codes most significant bit first. */
module Bits {

  type byte = x: int | 0 <= x < 256
  type bit = x: int | 0 <= x < 2

  function Pow2(n: nat): (r: nat)
    ensures r > 0
  {
    if n == 0 then 1 else 2 * Pow2(n - 1)
  }

  /** The low `n` bits of `v`, least significant first. */
  function LsbBits(v: nat, n: nat): (r: seq<bit>)
    ensures |r| == n
  {
    if n == 0 then [] else [v % 2] + LsbBits(v / 2, n - 1)
  }

  /** The number whose bits, least significant first, are `bits`. */
  function LsbValue(bits: seq<bit>): nat {
    if bits == [] then 0 else bits[0] + 2 * LsbValue(bits[1..])
  }

  /** The low `n` bits of `v`, most significant first. */
  function MsbBits(v: nat, n: nat): (r: seq<bit>)
    ensures |r| == n
  {
    if n == 0 then [] else MsbBits(v / 2, n - 1) + [v % 2]
  }

  /** A byte string as the bit stream a reader sees. */
  function BytesBits(s: seq<byte>): (r: seq<bit>)
    ensures |r| == 8 * |s|
  {
    if s == [] then [] else LsbBits(s[0], 8) + BytesBits(s[1..])
  }

  /** Packs bits into whole bytes, the last one padded with zeros. */
  function Pack(bits: seq<bit>): (s: seq<byte>)
  {
    if bits == [] then []
    else
      var n := if |bits| < 8 then |bits| else 8;
      LsbValueBound(bits[..n]);
      Pow2Mono(n, 8);
      assert Pow2(8) == 256;
      [LsbValue(bits[..n])] + Pack(bits[n..])
  }

  lemma {:induction false} Pow2Add(m: nat, n: nat)
    ensures Pow2(m + n) == Pow2(m) * Pow2(n)
  {
    if m > 0 {
      Pow2Add(m - 1, n);
    }
  }

  lemma {:induction false} Pow2Mono(m: nat, n: nat)
    requires m <= n
    ensures Pow2(m) <= Pow2(n)
    decreases n
  {
    if m < n {
      Pow2Mono(m, n - 1);
    }
  }

  lemma {:induction false} LsbValueBound(bits: seq<bit>)
    ensures LsbValue(bits) < Pow2(|bits|)
  {
    if bits != [] {
      LsbValueBound(bits[1..]);
    }
  }

  lemma {:induction false} LsbRoundTrip(v: nat, n: nat)
    requires v < Pow2(n)
    ensures LsbValue(LsbBits(v, n)) == v
  {
    if n > 0 {
      LsbRoundTrip(v / 2, n - 1);
      assert LsbBits(v, n)[1..] == LsbBits(v / 2, n - 1);
    }
  }

  /** Reading bits back and writing them again, with zeros above them. */
  lemma {:induction false} LsbBitsOfValue(bits: seq<bit>, n: nat)
    requires |bits| <= n
    ensures LsbBits(LsbValue(bits), n) == bits + seq(n - |bits|, _ => 0)
  {
    if n == 0 {
    } else if bits == [] {
      LsbBitsOfValue([], n - 1);
    } else {
      LsbBitsOfValue(bits[1..], n - 1);
      assert LsbValue(bits) % 2 == bits[0] && LsbValue(bits) / 2 == LsbValue(bits[1..]);
    }
  }

  /** One more bit at the high end adds its weight. */
  lemma {:induction false} LsbValueAppend(bits: seq<bit>, b: bit)
    ensures LsbValue(bits + [b]) == LsbValue(bits) + b * Pow2(|bits|)
  {
    if bits == [] {
      assert [b][1..] == [];
    } else {
      LsbValueAppend(bits[1..], b);
      assert (bits + [b])[1..] == bits[1..] + [b];
    }
  }

  lemma {:induction false} LsbValueTake(bits: seq<bit>, i: nat)
    requires i < |bits|
    ensures bits[i..][0] == bits[i] && bits[i..][1..] == bits[i + 1..]
    ensures LsbValue(bits[..i + 1]) == LsbValue(bits[..i]) + (if bits[i] == 1 then Pow2(i) else 0)
  {
    LsbValueAppend(bits[..i], bits[i]);
    assert bits[..i + 1] == bits[..i] + [bits[i]];
  }

  lemma {:induction false} BytesBitsConcat(s: seq<byte>, t: seq<byte>)
    ensures BytesBits(s + t) == BytesBits(s) + BytesBits(t)
  {
    if s == [] {
      assert s + t == t;
    } else {
      assert (s + t)[1..] == s[1..] + t;
      BytesBitsConcat(s[1..], t);
    }
  }

  /** Packed bits read back as themselves followed by fewer than eight zeros. */
  lemma {:induction false} PackRoundTrip(bits: seq<bit>)
    ensures bits <= BytesBits(Pack(bits))
    ensures |BytesBits(Pack(bits))| < |bits| + 8
    ensures forall i :: |bits| <= i < |BytesBits(Pack(bits))| ==> BytesBits(Pack(bits))[i] == 0
    decreases |bits|
  {
    if bits != [] {
      var n := if |bits| < 8 then |bits| else 8;
      PackRoundTrip(bits[n..]);
      LsbBitsOfValue(bits[..n], 8);
      assert bits == bits[..n] + bits[n..];
      assert Pack(bits)[1..] == Pack(bits[n..]);
    }
  }

  /** The low bits of a concatenation weigh less than the high ones. */
  lemma {:induction false} LsbValueConcat(a: seq<bit>, b: seq<bit>)
    ensures LsbValue(a + b) == LsbValue(a) + Pow2(|a|) * LsbValue(b)
  {
    if |a| == 0 {
      assert a + b == b;
    } else {
      LsbValueConcat(a[1..], b);
      assert (a + b)[1..] == a[1..] + b;
      LsbShift(LsbValue(a[1..]), Pow2(|a| - 1), LsbValue(b));
    }
  }

  lemma {:induction false} LsbShift(x: int, p: int, y: int)
    ensures 2 * (x + p * y) == 2 * x + (2 * p) * y
  {}

  lemma {:induction false} BytesBitsDrop(s: seq<byte>, n: nat)
    requires n <= |s|
    ensures BytesBits(s)[8 * n..] == BytesBits(s[n..])
    ensures BytesBits(s)[..8 * n] == BytesBits(s[..n])
  {
    assert s == s[..n] + s[n..];
    BytesBitsConcat(s[..n], s[n..]);
  }

  /** The bit of weight 2^i comes at place `i`. */
  lemma {:induction false} LsbBitAt(v: nat, n: nat, i: nat)
    requires i < n
    ensures LsbBits(v, n)[i] == (v / Pow2(i)) % 2
  {
    if i > 0 {
      LsbBitAt(v / 2, n - 1, i - 1);
      HalfThenDrop(v, Pow2(i - 1));
    }
  }

  lemma {:induction false} HalfThenDrop(v: nat, p: nat)
    requires p > 0
    ensures (v / 2) / p == v / (2 * p)
  {
    var q := v / (2 * p);
    assert 2 * p * q <= v < 2 * p * q + 2 * p;
    assert 2 * p * q == 2 * (p * q);
    QuotientIs(v / 2, p, q);
  }

  lemma {:induction false} QuotientIs(x: nat, p: nat, q: nat)
    requires p > 0 && p * q <= x < p * q + p
    ensures x / p == q
  {
    var d := x / p;
    assert p * d <= x < p * d + p;
    if d < q {
      AtLeastOneMore(p, d, q);
    } else if q < d {
      AtLeastOneMore(p, q, d);
    }
  }

  lemma {:induction false} AtLeastOneMore(p: nat, a: nat, b: nat)
    requires a < b
    ensures p * a + p <= p * b
    decreases b
  {
    assert p * b == p * (b - 1) + p;
    if a < b - 1 {
      AtLeastOneMore(p, a, b - 1);
    }
  }

  /** In a stream of bytes, the bit of weight 2^k of byte `j` comes at place 8j + k. */
  lemma {:induction false} ByteBitAt(s: seq<byte>, j: nat, k: nat)
    requires j < |s| && k < 8
    ensures BytesBits(s)[8 * j + k] == (s[j] / Pow2(k)) % 2
  {
    if j == 0 {
      LsbBitAt(s[0], 8, k);
    } else {
      ByteBitAt(s[1..], j - 1, k);
    }
  }
}

/** The numbers RFC 1951 fixes, written from the standard: what an encoder knows. */
module Rfc1951 {
  import opened Bits

  // ---------------------------------------------------------------------------
  // Lengths and distances (section 3.2.5)
  // ---------------------------------------------------------------------------

  /** Extra bits of length code 257 + `c`: none for the first eight and the last, then one more
      for every four codes. */
  function LengthExtra(c: nat): nat
    requires c < 29
  {
    if c < 8 || c == 28 then 0 else c / 4 - 1
  }

  /** The smallest length of code 257 + `c`: codes start at 3, each where the one before ends,
      except that the last one is for 258 alone. */
  function LengthBase(c: nat): nat
    requires c < 29
  {
    if c == 0 then 3 else if c == 28 then 258 else LengthBase(c - 1) + Pow2(LengthExtra(c - 1))
  }

  /** Extra bits of distance code `c`: none for the first four, then one more for every two. */
  function DistanceExtra(c: nat): nat
    requires c < 30
  {
    if c < 4 then 0 else c / 2 - 1
  }

  /** The smallest distance of code `c`: codes start at 1, each where the one before ends. */
  function DistanceBase(c: nat): (d: nat)
    requires c < 30
    ensures d >= 1
  {
    if c == 0 then 1 else DistanceBase(c - 1) + Pow2(DistanceExtra(c - 1))
  }

  // ---------------------------------------------------------------------------
  // Fixed codes (section 3.2.6)
  // ---------------------------------------------------------------------------

  /** The bits of a literal or length symbol in the fixed code: 00110000 to 10111111, 110010000
      to 111111111, 0000000 to 0010111 and 11000000 to 11000111. */
  function FixedWord(s: nat): seq<bit>
    requires s < 288
  {
    if s < 144 then MsbBits(0x30 + s, 8)
    else if s < 256 then MsbBits(0x190 + (s - 144), 9)
    else if s < 280 then MsbBits(s - 256, 7)
    else MsbBits(0xc0 + (s - 280), 8)
  }

  // ---------------------------------------------------------------------------
  // Codes of a dynamic block (section 3.2.7)
  // ---------------------------------------------------------------------------

  /** When the length of symbol `s` of the code length code is sent: those of 16, 17, 18 and 0
      first, then from 8 outwards, each higher symbol before the lower one. */
  function SentAt(s: nat): (k: nat)
    requires s < 19
    ensures k < 19
  {
    if s >= 16 then s - 16
    else if s == 0 then 3
    else if s >= 8 then 4 + 2 * (s - 8)
    else 3 + 2 * (8 - s)
  }

  // ---------------------------------------------------------------------------
  // Codes from code lengths (section 3.2.2)
  // ---------------------------------------------------------------------------

  /** The first code of `len` bits: the number of shorter codes, each counted as often as it has
      extensions to `len` bits. */
  function NextCode(lengths: seq<nat>, len: nat): nat {
    if len <= 1 then 0 else 2 * (NextCode(lengths, len - 1) + multiset(lengths)[len - 1])
  }

  /** The code of symbol `s`: symbols of one length have consecutive codes. */
  function StandardCode(lengths: seq<nat>, s: nat): nat
    requires s < |lengths|
  {
    NextCode(lengths, lengths[s]) + multiset(lengths[..s])[lengths[s]]
  }
}

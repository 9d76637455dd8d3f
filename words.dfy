/** Fixed-width unsigned integers and the little-endian byte layout shared by the
    assembler (struct.pack('<Q', ...)) and the emulator's instruction fetch. */
module Words {

  newtype u8 = x: int | 0 <= x < 0x100
  newtype u16 = x: int | 0 <= x < 0x1_0000
  newtype u64 = x: int | 0 <= x < 0x1_0000_0000_0000_0000

  const WORD_LIMIT: nat := 0x1_0000_0000_0000_0000

  /** `a + b` on uint64_t: wraps around modulo 2^64. */
  function Add64(a: u64, b: u64): (r: u64)
  {
    ((a as int + b as int) % WORD_LIMIT) as u64
  }

  /** `static_cast<uint8_t>(x & 0xFF)`: for an unsigned value, keeping the low
      eight bits is taking the remainder modulo 256. */
  function Mask8(x: u64): (r: u8)
  {
    (x as int % 0x100) as u8
  }

  /** 256^n: the number of values n bytes can hold. */
  function Pow256(n: nat): (p: nat)
    ensures p >= 1
  {
    if n == 0 then 1 else 0x100 * Pow256(n - 1)
  }

  /** The n bytes of v, least significant first (v is taken modulo 256^n). */
  function LeBytes(v: nat, n: nat): (bs: seq<u8>)
    ensures |bs| == n
  {
    if n == 0 then [] else [(v % 0x100) as u8] + LeBytes(v / 0x100, n - 1)
  }

  /** The number whose little-endian bytes are bs. */
  function LeValue(bs: seq<u8>): (v: nat)
    ensures v < Pow256(|bs|)
  {
    if bs == [] then 0 else bs[0] as nat + 0x100 * LeValue(bs[1..])
  }

  /** Encoding then decoding n little-endian bytes gives back any value that fits. */
  lemma {:induction false} LeValueOfBytes(v: nat, n: nat)
    requires v < Pow256(n)
    ensures LeValue(LeBytes(v, n)) == v
  {
    if n > 0 {
      LeValueOfBytes(v / 0x100, n - 1);
      assert LeBytes(v, n)[1..] == LeBytes(v / 0x100, n - 1);
    }
  }

  /** Decoding then encoding a byte string gives back the same bytes. */
  lemma {:induction false} LeBytesOfValue(bs: seq<u8>)
    ensures LeBytes(LeValue(bs), |bs|) == bs
  {
    if bs != [] {
      LeBytesOfValue(bs[1..]);
      var v := LeValue(bs);
      assert v % 0x100 == bs[0] as nat;
      assert v / 0x100 == LeValue(bs[1..]);
    }
  }

  /** The low byte of a little-endian value is its first byte. */
  lemma LeValueLowByte(bs: seq<u8>)
    requires bs != []
    ensures LeValue(bs) % 0x100 == bs[0] as nat
  {
  }

  /** Appending a byte adds it at the next power of 256: how the fetch loop
      builds a word one byte at a time. */
  lemma {:induction false} LeValueAppend(bs: seq<u8>, b: u8)
    ensures LeValue(bs + [b]) == LeValue(bs) + b as nat * Pow256(|bs|)
  {
    if bs != [] {
      var rest, p := bs[1..], Pow256(|bs| - 1);
      assert (bs + [b])[1..] == rest + [b];
      LeValueAppend(rest, b);
      calc {
        LeValue(bs + [b]);
        bs[0] as nat + 0x100 * LeValue(rest + [b]);
        bs[0] as nat + 0x100 * (LeValue(rest) + b as nat * p);
        { MulShift(b as nat, p); }
        bs[0] as nat + 0x100 * LeValue(rest) + b as nat * (0x100 * p);
      }
    }
  }

  lemma MulShift(x: nat, p: nat)
    ensures 0x100 * (x * p) == x * (0x100 * p)
  {
  }

  /** More bytes hold more values. */
  lemma {:induction false} Pow256Monotone(m: nat, n: nat)
    requires m <= n
    ensures Pow256(m) <= Pow256(n)
  {
    if m < n {
      Pow256Monotone(m, n - 1);
    }
  }

  /** At most eight bytes always fit in a 64-bit word. */
  lemma LeValueFitsWord(bs: seq<u8>)
    requires |bs| <= 8
    ensures LeValue(bs) < WORD_LIMIT
  {
    WordIsEightBytes();
    Pow256Monotone(|bs|, 8);
  }

  /** A 64-bit word is 8 bytes. */
  lemma WordIsEightBytes()
    ensures Pow256(8) == WORD_LIMIT
  {
  }
}

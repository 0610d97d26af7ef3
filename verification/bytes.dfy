/** Bytes and fixed-width little-endian integers, as written and read by the
    `byteorder` calls of the compiler and the runtime. Integers are unbounded in
    Dafny, so the 64-bit ranges are subset types and every conversion between
    them is written out. */
module Bytes {

  type byte = x: int | 0 <= x < 0x100

  /** Values of Rust's `u64` and `i64`. */
  type u64 = x: int | 0 <= x < 0x1_0000_0000_0000_0000
  type i64 = x: int | -0x8000_0000_0000_0000 <= x < 0x8000_0000_0000_0000

  const TWO_64: int := 0x1_0000_0000_0000_0000
  const I64_MAX: int := 0x7FFF_FFFF_FFFF_FFFF
  const U64_MAX: int := 0xFFFF_FFFF_FFFF_FFFF

  /** A `Vec<u8>` never holds more than `isize::MAX` bytes (a 64-bit target is
      assumed): asking it to grow further is Rust's "capacity overflow" panic. */
  const MAX_VEC_LEN: int := I64_MAX

  function Pow256(k: nat): (r: nat)
    ensures r > 0
  {
    if k == 0 then 1 else 256 * Pow256(k - 1)
  }

  /** The `k` low-order base-256 digits of `n`, least significant first. */
  function EncodeLE(n: nat, k: nat): (bs: seq<byte>)
    ensures |bs| == k
  {
    if k == 0 then [] else [n % 256] + EncodeLE(n / 256, k - 1)
  }

  /** The number whose little-endian base-256 digits are `bs`. */
  function DecodeLE(bs: seq<byte>): (n: nat)
    ensures n < Pow256(|bs|)
  {
    if |bs| == 0 then 0 else bs[0] + 256 * DecodeLE(bs[1..])
  }

  lemma DivBelowPower(n: nat, k: nat)
    requires k > 0 && n < Pow256(k)
    ensures n / 256 < Pow256(k - 1)
  {
  }

  /** Decoding undoes encoding for every number that fits in `k` bytes. */
  lemma {:induction false} DecodeEncodeLE(n: nat, k: nat)
    requires n < Pow256(k)
    ensures DecodeLE(EncodeLE(n, k)) == n
  {
    if k > 0 {
      DivBelowPower(n, k);
      DecodeEncodeLE(n / 256, k - 1);
      assert EncodeLE(n, k)[1..] == EncodeLE(n / 256, k - 1);
    }
  }

  /** Encoding undoes decoding: every byte string is the encoding of its value. */
  lemma {:induction false} EncodeDecodeLE(bs: seq<byte>)
    ensures EncodeLE(DecodeLE(bs), |bs|) == bs
  {
    if |bs| > 0 {
      var d := DecodeLE(bs[1..]);
      assert DecodeLE(bs) == bs[0] + 256 * d;
      assert DecodeLE(bs) % 256 == bs[0];
      assert DecodeLE(bs) / 256 == d;
      EncodeDecodeLE(bs[1..]);
    }
  }

  lemma Pow256Of8()
    ensures Pow256(8) == TWO_64
  {
  }

  /** `write_u64::<LittleEndian>`. */
  function EncodeU64(n: u64): (bs: seq<byte>)
    ensures |bs| == 8
  {
    EncodeLE(n, 8)
  }

  /** `read_u64::<LittleEndian>` on exactly eight bytes. */
  function DecodeU64(bs: seq<byte>): (n: u64)
    requires |bs| == 8
  {
    Pow256Of8();
    DecodeLE(bs)
  }

  /** Reading back a written `u64` gives the value written. */
  lemma DecodeEncodeU64(n: u64)
    ensures DecodeU64(EncodeU64(n)) == n
  {
    Pow256Of8();
    DecodeEncodeLE(n, 8);
  }

  /** Every eight bytes are the encoding of the `u64` they decode to. */
  lemma EncodeDecodeU64(bs: seq<byte>)
    requires |bs| == 8
    ensures EncodeU64(DecodeU64(bs)) == bs
  {
    EncodeDecodeLE(bs);
  }

  /** Two's complement: the `u64` with the same bit pattern as `v`. */
  function I64Bits(v: i64): (u: u64)
    ensures u % TWO_64 == v % TWO_64
    ensures v >= 0 <==> u <= I64_MAX
  {
    if v < 0 then v + TWO_64 else v
  }

  /** The `i64` with the same bit pattern as `u`. */
  function U64Signed(u: u64): (v: i64)
    ensures I64Bits(v) == u
  {
    if u <= I64_MAX then u else u - TWO_64
  }

  /** `write_i64::<LittleEndian>`. */
  function EncodeI64(v: i64): (bs: seq<byte>)
    ensures |bs| == 8
  {
    EncodeU64(I64Bits(v))
  }

  /** `read_i64::<LittleEndian>` on exactly eight bytes. */
  function DecodeI64(bs: seq<byte>): (v: i64)
    requires |bs| == 8
  {
    U64Signed(DecodeU64(bs))
  }

  /** Reading back a written `i64` gives the value written. */
  lemma DecodeEncodeI64(v: i64)
    ensures DecodeI64(EncodeI64(v)) == v
  {
    DecodeEncodeU64(I64Bits(v));
  }
}

/** The Rust integer conversions (`as`) that the fuzzer relies on, stated on
    two's-complement bit patterns. */
module Casts {
  import opened Catalog

  /** `o as u16` for an `i32` value `o`: the low 16 bits of its bit pattern. */
  function Wrap16(o: int): bv16
  {
    (o % 0x1_0000) as bv16
  }

  /** A `u16` read back as an `i16`, the way a jump offset is interpreted. */
  function Signed16(b: bv16): (v: int)
    ensures -0x8000 <= v < 0x8000
    ensures v < 0 <==> b >= 0x8000
  {
    if b >> 15 == 0 then b as int else b as int - 0x1_0000
  }

  /** Reading a 16-bit pattern as signed and truncating it again gives the pattern back. */
  lemma WrapSigned16(b: bv16)
    ensures Wrap16(Signed16(b)) == b
  {
    assert Signed16(b) % 0x1_0000 == b as int;
  }

  /** Truncating a small signed value to 16 bits and reading it back as signed
      gives the value back; the range covers every jump offset the generator
      draws for a program position. The proof exhibits the pattern of each
      offset for `NbrInstr = 3` and must be extended if that constant grows. */
  lemma SignedWrap16(o: int)
    requires -(NbrInstr as int) < o < NbrInstr
    ensures Signed16(Wrap16(o)) == o
  {
    var b: bv16 :=
      if o == -2 then 0xFFFE else if o == -1 then 0xFFFF
      else if o == 0 then 0 else if o == 1 then 1 else 2;
    assert Signed16(b) == o;
    WrapSigned16(b);
  }

  /** `imm as u64` for an `i32` with bit pattern `imm`: sign extension. The low
      half is the pattern itself and the high half copies its sign bit. */
  function SignExtend64(imm: bv32): (w: bv64)
    ensures w & 0xFFFF_FFFF == imm as bv64
    ensures w >> 32 == if imm & 0x8000_0000 == 0 then 0 else 0xFFFF_FFFF
  {
    if imm & 0x8000_0000 == 0 then imm as bv64 else imm as bv64 | 0xFFFF_FFFF_0000_0000
  }
}

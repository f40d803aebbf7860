/** The instruction encoder (`EbpfBytecode::from`): the fields are masked and
    packed into a 64-bit word, which is stored as 8 little-endian bytes. The
    decoder is not part of the fuzzer; it is the inverse the encoder is proved
    against. */
module Bytecode {
  import opened Catalog
  import opened Casts
  import opened Instruction

  /** Eight bytes, the least significant first. */
  type Octets = s: seq<bv8> | |s| == 8 witness [0, 0, 0, 0, 0, 0, 0, 0]

  /** One encoded instruction (`EbpfBytecode`, a wrapper around 8 bytes). */
  datatype EbpfBytecode = EbpfBytecode(bytes: Octets)

  /** The all-zero encoding (`EbpfBytecode::default`). */
  const ZeroBytecode: EbpfBytecode := EbpfBytecode([0, 0, 0, 0, 0, 0, 0, 0])

  /** The 64-bit word of an instruction as the fuzzer packs it: opcode in bits
      0..8, `src` in bits 8..12, `dst` in bits 12..16, offset in bits 16..32 and
      the immediate, sign-extended and then masked, in bits 32..64. */
  function Pack(instr: EbpfInstr): bv64
  {
      ((SignExtend64(instr.imm) & 0xFFFF_FFFF) << 32)
    | ((instr.offset as bv64 & 0xFFFF) << 16)
    | ((instr.src as bv64 & 0xF) << 8)
    | ((instr.dst as bv64 & 0xF) << 12)
    | (instr.opcode as bv64 & 0xFF)
  }

  /** Byte `k` of a word, counting from the least significant. */
  function ByteAt(w: bv64, k: nat): bv8
    requires k < 8
  {
    ((w >> (8 * k as bv7)) & 0xFF) as bv8
  }

  /** The little-endian bytes of a word. */
  function WordBytes(w: bv64): Octets
  {
    seq(8, k requires 0 <= k < 8 => ByteAt(w, k))
  }

  /** The encoding of an instruction. */
  function Encode(instr: EbpfInstr): EbpfBytecode
  {
    EbpfBytecode(WordBytes(Pack(instr)))
  }

  /** The encoder as the source runs it: pack the word, then fill a zeroed
      8-byte buffer one byte at a time. */
  method FromInstr(instr: EbpfInstr) returns (code: EbpfBytecode)
    ensures code == Encode(instr)
  {
    var arr := new bv8[8](_ => 0);
    var word := Pack(instr);
    for k := 0 to 8
      invariant forall m :: 0 <= m < k ==> arr[m] == ByteAt(word, m)
    {
      arr[k] := ByteAt(word, k);
    }
    code := EbpfBytecode(arr[..]);
  }

  /** The word whose little-endian bytes are `code`. */
  function WordOf(code: Octets): bv64
  {
      (code[0] as bv64)
    | ((code[1] as bv64) << 8)
    | ((code[2] as bv64) << 16)
    | ((code[3] as bv64) << 24)
    | ((code[4] as bv64) << 32)
    | ((code[5] as bv64) << 40)
    | ((code[6] as bv64) << 48)
    | ((code[7] as bv64) << 56)
  }

  /** The fields of a word, read with the fuzzer's layout. */
  function Unpack(w: bv64): EbpfInstr
  {
    EbpfInstr(
      (w & 0xFF) as bv8,
      ((w >> 12) & 0xF) as bv8,
      ((w >> 8) & 0xF) as bv8,
      ((w >> 16) & 0xFFFF) as bv16,
      (w >> 32) as bv32)
  }

  /** The decoder: the instruction an 8-byte encoding stands for. */
  function Decode(code: EbpfBytecode): EbpfInstr
  {
    Unpack(WordOf(code.bytes))
  }

  /** What survives encoding: registers keep only their low four bits. */
  function Masked(instr: EbpfInstr): (m: EbpfInstr)
    ensures m.dst < 16 && m.src < 16
    ensures instr.dst < 16 && instr.src < 16 ==> m == instr
  {
    instr.(dst := instr.dst & 0xF, src := instr.src & 0xF)
  }

  /** Each field can be read back from the packed word at its bit position. */
  lemma PackFields(instr: EbpfInstr)
    ensures (Pack(instr) & 0xFF) as bv8 == instr.opcode
    ensures ((Pack(instr) >> 8) & 0xF) as bv8 == instr.src & 0xF
    ensures ((Pack(instr) >> 12) & 0xF) as bv8 == instr.dst & 0xF
    ensures ((Pack(instr) >> 16) & 0xFFFF) as bv16 == instr.offset
    ensures (Pack(instr) >> 32) as bv32 == instr.imm
  {
  }

  /** Assembling the little-endian bytes of a word gives the word back. */
  lemma WordOfBytes(w: bv64)
    ensures WordOf(WordBytes(w)) == w
  {
  }

  /** Splitting the word assembled from 8 bytes gives the bytes back. */
  lemma BytesOfWord(code: Octets)
    ensures WordBytes(WordOf(code)) == code
  {
    var w := WordOf(code);
    assert ByteAt(w, 0) == code[0] && ByteAt(w, 1) == code[1];
    assert ByteAt(w, 2) == code[2] && ByteAt(w, 3) == code[3];
    assert ByteAt(w, 4) == code[4] && ByteAt(w, 5) == code[5];
    assert ByteAt(w, 6) == code[6] && ByteAt(w, 7) == code[7];
  }

  /** Packing the fields read from any word rebuilds that word: the five fields
      cover all 64 bits. */
  lemma PackUnpack(w: bv64)
    ensures Pack(Unpack(w)) == w
  {
  }

  /** The bytes of any word, in terms of the fields read from it. */
  lemma WordLayout(w: bv64)
    ensures ByteAt(w, 0) == Unpack(w).opcode
    ensures ByteAt(w, 1) == Unpack(w).src | (Unpack(w).dst << 4)
    ensures ByteAt(w, 2) == (Unpack(w).offset & 0xFF) as bv8
    ensures ByteAt(w, 3) == (Unpack(w).offset >> 8) as bv8
    ensures ByteAt(w, 4) == (Unpack(w).imm & 0xFF) as bv8
    ensures ByteAt(w, 5) == ((Unpack(w).imm >> 8) & 0xFF) as bv8
    ensures ByteAt(w, 6) == ((Unpack(w).imm >> 16) & 0xFF) as bv8
    ensures ByteAt(w, 7) == (Unpack(w).imm >> 24) as bv8
  {
  }

  /** Reading the fields of a packed word gives the instruction back, registers
      masked to 4 bits. */
  lemma UnpackPack(instr: EbpfInstr)
    ensures Unpack(Pack(instr)) == Masked(instr)
  {
    PackFields(instr);
  }

  /** Byte layout of an encoding: the opcode; `src` in the low and `dst` in the
      high nibble; the offset, low byte first; the immediate's bit pattern, low
      byte first. */
  lemma EncodeLayout(instr: EbpfInstr)
    ensures Encode(instr).bytes[0] == instr.opcode
    ensures Encode(instr).bytes[1] == (instr.src & 0xF) | ((instr.dst & 0xF) << 4)
    ensures Encode(instr).bytes[2] == (instr.offset & 0xFF) as bv8
    ensures Encode(instr).bytes[3] == (instr.offset >> 8) as bv8
    ensures Encode(instr).bytes[4] == (instr.imm & 0xFF) as bv8
    ensures Encode(instr).bytes[5] == ((instr.imm >> 8) & 0xFF) as bv8
    ensures Encode(instr).bytes[6] == ((instr.imm >> 16) & 0xFF) as bv8
    ensures Encode(instr).bytes[7] == (instr.imm >> 24) as bv8
  {
    UnpackPack(instr);
    WordLayout(Pack(instr));
  }

  /** Decoding an encoding gives back every field, registers masked to 4 bits. */
  lemma DecodeEncode(instr: EbpfInstr)
    ensures Decode(Encode(instr)) == Masked(instr)
  {
    WordOfBytes(Pack(instr));
    UnpackPack(instr);
  }

  /** Every 8-byte string is the encoding of what it decodes to. */
  lemma EncodeDecode(code: EbpfBytecode)
    ensures Encode(Decode(code)) == code
  {
    PackUnpack(WordOf(code.bytes));
    BytesOfWord(code.bytes);
  }

  /** The encoder is injective on instructions whose registers fit in 4 bits. */
  lemma EncodeInjective(a: EbpfInstr, b: EbpfInstr)
    requires a.dst < 16 && a.src < 16 && b.dst < 16 && b.src < 16
    requires Encode(a) == Encode(b)
    ensures a == b
  {
    DecodeEncode(a);
    DecodeEncode(b);
  }

  /** The terminal instruction encodes to the bytes `95 00 00 00 00 00 00 00`. */
  lemma ExitWord()
    ensures Encode(ExitInstr) == EbpfBytecode([0x95, 0, 0, 0, 0, 0, 0, 0])
  {
    EncodeLayout(ExitInstr);
  }

  /** Generated instructions survive encoding unchanged, since their registers
      are below 10 and the 4-bit masks leave them alone. */
  lemma GeneratedRoundTrip(i: int, d: Draws)
    requires PositionFits(i) && DrawsFit(i, d)
    ensures Decode(Encode(Generated(i, d))) == Generated(i, d)
  {
    DecodeEncode(Generated(i, d));
  }

  /** The word as section 3.1 of RFC 9669 lays it out on a little-endian host:
      the destination register in bits 8..12 and the source in bits 12..16. */
  function IsaPack(instr: EbpfInstr): bv64
  {
      ((SignExtend64(instr.imm) & 0xFFFF_FFFF) << 32)
    | ((instr.offset as bv64 & 0xFFFF) << 16)
    | ((instr.dst as bv64 & 0xF) << 8)
    | ((instr.src as bv64 & 0xF) << 12)
    | (instr.opcode as bv64 & 0xFF)
  }

  /** Each field can be read back from the standard word at its bit position. */
  lemma IsaPackFields(instr: EbpfInstr)
    ensures (IsaPack(instr) & 0xFF) as bv8 == instr.opcode
    ensures ((IsaPack(instr) >> 8) & 0xF) as bv8 == instr.dst & 0xF
    ensures ((IsaPack(instr) >> 12) & 0xF) as bv8 == instr.src & 0xF
    ensures ((IsaPack(instr) >> 16) & 0xFFFF) as bv16 == instr.offset
    ensures (IsaPack(instr) >> 32) as bv32 == instr.imm
  {
  }

  /** The fuzzer's word for an instruction is the standard word for the same
      instruction with its two registers exchanged. */
  lemma RegistersSwapped(instr: EbpfInstr)
    ensures Pack(instr) == IsaPack(instr.(dst := instr.src, src := instr.dst))
  {
    var twin := instr.(dst := instr.src, src := instr.dst);
    PackFields(instr);
    IsaPackFields(twin);
    assert Unpack(Pack(instr)) == Unpack(IsaPack(twin));
    PackUnpack(Pack(instr));
    PackUnpack(IsaPack(twin));
  }

  /** The register exchange is harmless to the fuzzer: the twin of a generable
      instruction with its registers exchanged is generable at the same
      position, and the fuzzer's word for either is the standard word for the
      other. So the words the fuzzer can emit at a position are exactly the
      standard encodings of the instructions it can generate there. */
  lemma SwapIsHarmless(i: int, r: EbpfInstr)
    requires WellFormedAt(i, r)
    ensures var twin := r.(dst := r.src, src := r.dst);
      WellFormedAt(i, twin) && Pack(r) == IsaPack(twin) && Pack(twin) == IsaPack(r)
  {
    RegistersSwapped(r);
    RegistersSwapped(r.(dst := r.src, src := r.dst));
  }
}

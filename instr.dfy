/** The instruction record and its random generator. The generator's calls to
    the random number generator are explicit inputs (`Draws`), each with the
    range the source asks the generator for. */
module Instruction {
  import opened Catalog
  import opened Casts

  /** One instruction before encoding (`EbpfInstr`; `EbpfInstr::new` is this
      constructor). `imm` holds the two's-complement bit pattern of the `i32`. */
  datatype EbpfInstr = EbpfInstr(opcode: bv8, dst: bv8, src: bv8, offset: bv16, imm: bv32)

  /** The terminal instruction every program ends with: `exit`, all else zero. */
  const ExitInstr: EbpfInstr := EbpfInstr(ExitOpcode, 0, 0, 0, 0)

  /** The operand widths a byte-swap instruction may select. */
  const SwapWidths: seq<bv32> := [16, 32, 64]

  /** The outcomes of the random draws one call of the generator makes:
      an index into `Opcode`; a jump offset (drawn for branches) or a plain
      offset (drawn otherwise); an index into `SwapWidths` (drawn for byte
      swaps) or an arbitrary `i32` pattern (drawn otherwise); two registers. */
  datatype Draws = Draws(
    opcodeIndex: int,
    branchOffset: int,
    plainOffset: bv16,
    swapIndex: int,
    imm: bv32,
    dst: bv8,
    src: bv8)

  predicate InI32(x: int)
  {
    -0x8000_0000 <= x <= 0x7FFF_FFFF
  }

  /** `i` is an `i32` for which the bounds `-i` and `(NBR_INSTR + 1) - i - 1`
      of the jump-offset range are computed without overflow. */
  predicate PositionFits(i: int)
  {
    InI32(i) && InI32(-i) && InI32((NbrInstr + 1) - i)
  }

  /** Each draw lies in the range the generator asks for; a draw the generator
      does not make for the chosen opcode is unconstrained. All ranges are
      half-open, as Rust's `gen_range(a..b)` is. */
  predicate DrawsFit(i: int, d: Draws)
  {
    && 0 <= d.opcodeIndex < |Opcode|
    && (Opcode[d.opcodeIndex] in BranchOpcode ==>
          -i <= d.branchOffset < (NbrInstr + 1) - i - 1)
    && (Opcode[d.opcodeIndex] !in BranchOpcode ==> d.plainOffset < 0xFFFF)
    && (Opcode[d.opcodeIndex] in BitswapInstr ==> 0 <= d.swapIndex < |SwapWidths|)
    && d.dst < 10
    && d.src < 10
  }

  /** Every range the generator draws from is non-empty, whatever the position
      and the catalog slot, so a call of the generator always has an outcome. */
  lemma DrawsExist(i: int, k: int)
    requires 0 <= k < |Opcode|
    ensures exists d :: DrawsFit(i, d) && d.opcodeIndex == k
  {
    assert DrawsFit(i, Draws(k, -i, 0, 0, 0, 0, 0));
  }

  /** The entry of the byte-swap width table picked by a draw. */
  function SwapWidth(k: int): (w: bv32)
    requires 0 <= k < |SwapWidths|
    ensures w in {16, 32, 64}
  {
    SwapWidths[k]
  }

  /** The offset the generator draws: for a branch, the jump draw truncated to
      16 bits, whose signed reading at a program position keeps the target,
      counted as `i + offset`, inside the generated instructions; otherwise the
      plain draw, never 0xFFFF. */
  function DrawnOffset(i: int, isBranch: bool, d: Draws): (o: bv16)
    requires isBranch ==> -i <= d.branchOffset < (NbrInstr + 1) - i - 1
    requires !isBranch ==> d.plainOffset < 0xFFFF
    ensures !isBranch ==> o != 0xFFFF
    ensures isBranch && 0 <= i < NbrInstr ==> -i <= Signed16(o) < NbrInstr - i
  {
    if isBranch then
      assert 0 <= i < NbrInstr ==> Signed16(Wrap16(d.branchOffset)) == d.branchOffset by {
        if 0 <= i < NbrInstr {
          SignedWrap16(d.branchOffset);
        }
      }
      Wrap16(d.branchOffset)
    else
      d.plainOffset
  }

  /** The immediate the generator draws: a width from the table for a byte
      swap, otherwise an arbitrary `i32` pattern. */
  function DrawnImm(isBitSwap: bool, d: Draws): (imm: bv32)
    requires isBitSwap ==> 0 <= d.swapIndex < |SwapWidths|
    ensures isBitSwap ==> imm in {16, 32, 64}
    ensures !isBitSwap ==> imm == d.imm
  {
    if isBitSwap then SwapWidth(d.swapIndex) else d.imm
  }

  /** The instruction the generator builds at position `i` from the draws `d`.
      Its fields lie in the domains the fuzzer promises: a catalog opcode,
      registers below 10, a byte-swap width for byte swaps, a plain offset other
      than 0xFFFF, and for a branch at a program position an offset whose target
      `i + offset` is one of the generated instructions. */
  function Generated(i: int, d: Draws): (r: EbpfInstr)
    requires PositionFits(i) && DrawsFit(i, d)
    ensures r.opcode in Opcode
    ensures r.dst < 10 && r.src < 10
    ensures r.opcode in BitswapInstr ==> r.imm in {16, 32, 64}
    ensures r.opcode !in BranchOpcode ==> r.offset != 0xFFFF
    ensures r.opcode in BranchOpcode && 0 <= i < NbrInstr ==>
              -i <= Signed16(r.offset) < NbrInstr - i
  {
    var opcode := Opcode[d.opcodeIndex];
    var offset := DrawnOffset(i, opcode in BranchOpcode, d);
    var imm := DrawnImm(opcode in BitswapInstr, d);
    EbpfInstr(opcode, d.dst, d.src, offset, imm)
  }

  /** The instructions the generator can produce at program position `i`. */
  ghost predicate WellFormedAt(i: int, r: EbpfInstr)
  {
    && r.opcode in Opcode
    && r.dst < 10
    && r.src < 10
    && (if r.opcode in BranchOpcode then -i <= Signed16(r.offset) < NbrInstr - i
        else r.offset != 0xFFFF)
    && (r.opcode in BitswapInstr ==> r.imm in {16, 32, 64})
  }

  /** The draws that reproduce instruction `r` from catalog slot `k`: its
      offset (read as signed, for a branch), the table slot of its width (for a
      byte swap), its immediate and its registers. */
  function ReplayDraws(r: EbpfInstr, k: int): Draws
  {
    var swap := if r.imm == 16 then 0 else if r.imm == 32 then 1 else 2;
    Draws(k, Signed16(r.offset), r.offset, swap, r.imm, r.dst, r.src)
  }

  /** Replaying a well-formed instruction's draws from a slot holding its opcode
      fits the generator's ranges and rebuilds the instruction. */
  lemma ReplayGenerates(i: int, r: EbpfInstr, k: int)
    requires 0 <= i < NbrInstr && WellFormedAt(i, r)
    requires 0 <= k < |Opcode| && Opcode[k] == r.opcode
    ensures DrawsFit(i, ReplayDraws(r, k)) && Generated(i, ReplayDraws(r, k)) == r
  {
    WrapSigned16(r.offset);
  }

  /** Every well-formed instruction at a program position is the result of
      some draws. */
  lemma GeneratorComplete(i: int, r: EbpfInstr)
    requires 0 <= i < NbrInstr && WellFormedAt(i, r)
    ensures exists d :: DrawsFit(i, d) && Generated(i, d) == r
  {
    var k :| 0 <= k < |Opcode| && Opcode[k] == r.opcode;
    ReplayGenerates(i, r, k);
  }

  /** At every program position the generator produces exactly the well-formed
      instructions: each result is well formed, and each well-formed instruction
      is the result of some draws. */
  lemma GeneratorImage(i: int, r: EbpfInstr)
    requires 0 <= i < NbrInstr
    ensures WellFormedAt(i, r) <==> exists d :: DrawsFit(i, d) && Generated(i, d) == r
  {
    if WellFormedAt(i, r) {
      GeneratorComplete(i, r);
    }
  }

  /** The generator as the source runs it: the opcode is classified by two
      linear scans, then the offset and the immediate are set by class. */
  method GenerateRandomInstr(i: int, d: Draws) returns (instr: EbpfInstr)
    requires PositionFits(i) && DrawsFit(i, d)
    ensures instr == Generated(i, d)
  {
    var opcode := Opcode[d.opcodeIndex];
    var isBranch := Contains(BranchOpcode, opcode);
    var isBitSwap := Contains(BitswapInstr, opcode);
    var offset: bv16 := 0;
    if isBranch {
      offset := Wrap16(d.branchOffset);
    } else {
      offset := d.plainOffset;
    }
    var imm: bv32 := 0;
    if isBitSwap {
      imm := SwapWidths[d.swapIndex];
    } else {
      imm := d.imm;
    }
    instr := EbpfInstr(opcode, d.dst, d.src, offset, imm);
  }
}

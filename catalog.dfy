/** The instruction catalog of the fuzzer: the opcodes it may emit and the two
    classes of opcode whose fields it constrains. The tables are read-only, so
    they are sequences; the duplicate entries of `Opcode` are kept verbatim
    because they weight the uniform draw of an index into it. */
module Catalog {

  /** Every opcode the generator may pick, duplicates included (102 entries),
      in the source's order; the groups below are its runs by instruction class. */
  const Opcode: seq<bv8> :=
    Alu64Ops + Alu32Ops + ByteSwapOps + LoadStoreOps + JumpOps + [0x85, 0x95]

  /** 64-bit arithmetic (entries 0-24 of `Opcode`). */
  const Alu64Ops: seq<bv8> := [
    0x07, 0x0f, 0x17, 0x1f, 0x27, 0x2f, 0x37, 0x3f, 0x47, 0x4f, 0x57, 0x5f,
    0x67, 0x6f, 0x77, 0x7f, 0x87, 0x97, 0x9f, 0xa7, 0xaf, 0xb7, 0xbf, 0xc7,
    0xcf
  ]

  /** 32-bit arithmetic (entries 25-49). */
  const Alu32Ops: seq<bv8> := [
    0x04, 0x0c, 0x14, 0x1c, 0x24, 0x2c, 0x34, 0x3c, 0x44, 0x4c, 0x54, 0x5c,
    0x64, 0x6c, 0x74, 0x7c, 0x84, 0x94, 0x9c, 0xa4, 0xac, 0xb4, 0xbc, 0xc4,
    0xcc
  ]

  /** Byte swaps, each listed three times (entries 50-55). */
  const ByteSwapOps: seq<bv8> := [0xd4, 0xd4, 0xd4, 0xdc, 0xdc, 0xdc]

  /** Loads and stores (entries 56-76). */
  const LoadStoreOps: seq<bv8> := [
    0x18, 0x20, 0x28, 0x30, 0x38, 0x40, 0x48, 0x50, 0x58, 0x61, 0x69, 0x71,
    0x79, 0x62, 0x6a, 0x72, 0x7a, 0x63, 0x6b, 0x73, 0x7b
  ]

  /** Conditional and unconditional jumps (entries 77-99); then call and exit. */
  const JumpOps: seq<bv8> := [
    0x05, 0x15, 0x1d, 0x25, 0x2d, 0x35, 0x3d, 0xa5, 0xad, 0xb5, 0xbd, 0x45,
    0x4d, 0x55, 0x5d, 0x65, 0x6d, 0x75, 0x7d, 0xc5, 0xcd, 0xd5, 0xdd
  ]

  /** Opcodes whose offset field is a relative jump (23 entries). */
  const BranchOpcode: seq<bv8> := [
    0x05, 0x15, 0x1d, 0x25, 0x2d, 0x35, 0x3d, 0xa5, 0xad, 0xb5, 0xbd, 0x45,
    0x4d, 0x55, 0x5d, 0x65, 0x6d, 0x75, 0x7d, 0xc5, 0xcd, 0xd5, 0xdd
  ]

  /** Byte-swap opcodes, whose immediate selects a width of 16, 32 or 64 bits. */
  const BitswapInstr: seq<bv8> := [0xd4, 0xd4, 0xd4, 0xdc, 0xdc, 0xdc]

  /** Number of generated instructions per program; the exit instruction follows them. */
  const NbrInstr: nat := 3

  /** The `exit` opcode that terminates every program. */
  const ExitOpcode: bv8 := 0x95

  /** Linear scan of a table that stops at the first match, as the generator
      does to classify the opcode it drew. */
  method Contains(table: seq<bv8>, x: bv8) returns (found: bool)
    ensures found <==> x in table
  {
    found := false;
    for k := 0 to |table|
      invariant !found
      invariant x !in table[..k]
    {
      if table[k] == x {
        found := true;
        break;
      }
    }
  }

  /** The three tables have the sizes the source declares. */
  lemma TableSizes()
    ensures |Opcode| == 102 && |BranchOpcode| == 23 && |BitswapInstr| == 6
  {
  }

  /** Where each entry of `Opcode` lies: the entry of its class group at the
      same position within the group. */
  lemma EntryGroup(k: int)
    requires 0 <= k < |Opcode|
    ensures k < 25 ==> Opcode[k] == Alu64Ops[k]
    ensures 25 <= k < 50 ==> Opcode[k] == Alu32Ops[k - 25]
    ensures 50 <= k < 56 ==> Opcode[k] == ByteSwapOps[k - 50]
    ensures 56 <= k < 77 ==> Opcode[k] == LoadStoreOps[k - 56]
    ensures 77 <= k < 100 ==> Opcode[k] == JumpOps[k - 77]
    ensures k == 100 ==> Opcode[k] == 0x85
    ensures k == 101 ==> Opcode[k] == ExitOpcode
  {
  }

  /** The groups other than the byte swaps hold neither byte-swap opcode nor the
      exit opcode. */
  lemma GroupsFree()
    ensures forall j :: 0 <= j < |Alu64Ops| ==>
      Alu64Ops[j] != 0xd4 && Alu64Ops[j] != 0xdc && Alu64Ops[j] != ExitOpcode
    ensures forall j :: 0 <= j < |Alu32Ops| ==>
      Alu32Ops[j] != 0xd4 && Alu32Ops[j] != 0xdc && Alu32Ops[j] != ExitOpcode
    ensures forall j :: 0 <= j < |LoadStoreOps| ==>
      LoadStoreOps[j] != 0xd4 && LoadStoreOps[j] != 0xdc && LoadStoreOps[j] != ExitOpcode
    ensures forall j :: 0 <= j < |JumpOps| ==>
      JumpOps[j] != 0xd4 && JumpOps[j] != 0xdc && JumpOps[j] != ExitOpcode
  {
  }

  /** The byte-swap opcode 0xd4 fills exactly three of the 102 slots that the
      generator's uniform index draw chooses from. */
  lemma SwapSlotsD4(k: int)
    requires 0 <= k < |Opcode|
    ensures Opcode[k] == 0xd4 <==> 50 <= k < 53
  {
    EntryGroup(k);
    GroupsFree();
  }

  /** The byte-swap opcode 0xdc fills exactly three slots as well. */
  lemma SwapSlotsDc(k: int)
    requires 0 <= k < |Opcode|
    ensures Opcode[k] == 0xdc <==> 53 <= k < 56
  {
    EntryGroup(k);
    GroupsFree();
  }

  /** The exit opcode fills exactly one slot, the last. */
  lemma ExitSlot(k: int)
    requires 0 <= k < |Opcode|
    ensures Opcode[k] == ExitOpcode <==> k == 101
  {
    EntryGroup(k);
    GroupsFree();
  }

  /** Every branch opcode and every byte-swap opcode is also a catalog opcode. */
  lemma ClassesInCatalog()
    ensures forall x :: x in BranchOpcode ==> x in Opcode
    ensures forall x :: x in BitswapInstr ==> x in Opcode
  {
  }

  /** No opcode is both a branch and a byte swap, so the two class flags of the
      generator are never both set. */
  lemma ClassesDisjoint(x: bv8)
    ensures !(x in BranchOpcode && x in BitswapInstr)
  {
  }

  /** The exit opcode is an ordinary catalog entry of neither class, so the
      generator can emit it anywhere in a program. */
  lemma ExitOpcodeIsPlain()
    ensures ExitOpcode in Opcode && Opcode[101] == ExitOpcode
    ensures ExitOpcode !in BranchOpcode && ExitOpcode !in BitswapInstr
  {
  }
}

# eBPF fuzzer core in Dafny

This project models the instruction generator and encoder of a small eBPF
fuzzer, and proves properties of them. The fuzzer builds programs of
`NBR_INSTR` random instructions followed by an `exit` instruction. It encodes
each instruction into the 8-byte eBPF format and hands the program to an
eBPF virtual machine.

The model has five modules, one file each:

- `catalog.dfy` (`Catalog`): the opcode table and its two classes, branch
  opcodes and byte-swap opcodes. It also holds the linear scan that tests
  whether an opcode is in a table.
- `casts.dfy` (`Casts`): the Rust integer conversions the fuzzer relies on,
  on two's-complement bit patterns.
  - `i32 as u16` truncates.
  - A `u16` offset is read back as `i16`.
  - `i32 as u64` sign-extends.
- `instr.dfy` (`Instruction`): the instruction record and
  `generate_random_instr`.
  - Every random draw is an explicit input (`Draws`) with the range the
    source asks the random generator for.
  - The scanning generator is a method, proved equal to the function
    `Generated`.
  - The set of instructions that can be generated at a position is
    characterised exactly (`WellFormedAt`).
- `bytecode.dfy` (`Bytecode`): the encoder `EbpfBytecode::from`, modelled
  in two parts.
  - Packing into a 64-bit word, then a byte loop that fills an 8-byte buffer
    little-endian.
  - A decoder that is its inverse.
- `program.dfy` (`Program`): the program builder of `main`. It fills an
  array of `NBR_INSTR + 1` slots: the generated encodings, then the exit
  word.

Conventions of the model:

- Bytes are `bv8` and words are `bv64`.
- The `i32` immediate is kept as its `bv32` bit pattern.
- `EbpfInstr::new` is the datatype constructor `EbpfInstr`.
- `EbpfBytecode::default()` is `ZeroBytecode`.

Facts of the code that the model keeps and proves:

- **Branch offset range.** At position `i` the branch offset is drawn from
  the half-open Rust range `-i .. (NBR_INSTR + 1) - i - 1`
  (src/main.rs:229), so it lies in `[-i, NBR_INSTR - i - 1]`.
  - Counted from the jump itself, `i + offset` lies in `[0, NBR_INSTR)`.
  - Counted from the next instruction, as in section 4.3 of RFC 9669, the
    target lies in `[1, NBR_INSTR]` (`JumpsStayInProgram`).
  - So every jump stays inside the program and slot 0 is never a target.
    The exit slot can be one: offset 2 at position 0 (`JumpMayReachExit`).
- **Non-branch offset.** It is `gen_range(0..0xFFFF)` (src/main.rs:232),
  so it is never `0xFFFF`.
- **Exit word.** It is not reserved for the last slot. Opcode `0x95`
  (exit) is an ordinary catalog entry, so the generator may emit it
  anywhere (`ExitMayRepeat`).
- **Register nibbles.** The encoder puts `src` in bits 8..12 and `dst` in
  bits 12..16. This is the reverse of section 3.1 of RFC 9669 on a
  little-endian host. The model keeps the code's layout. It proves that the
  fuzzer's word is the standard word of the instruction with the registers
  exchanged (`RegistersSwapped`), and that this exchange maps generable
  instructions to generable instructions (`SwapIsHarmless`).

## Model

| member | source | states |
|---|---|---|
| Catalog.Contains | src/main.rs:211-225 | The scan that stops at the first match returns true exactly when the opcode is in the table. |
| Catalog.TableSizes | src/main.rs:8-146 | The three tables have the declared sizes 102, 23 and 6. |
| Catalog.GroupsFree | src/main.rs:9-58 | No group other than the byte swaps holds `0xd4` or `0xdc`, and no group holds the exit opcode. |
| Catalog.SwapSlotsD4 | src/main.rs:59-61 | `0xd4` fills exactly slots 50-52 of the 102, which triples its chance in the uniform slot draw. |
| Catalog.SwapSlotsDc | src/main.rs:62-64 | `0xdc` fills exactly slots 53-55. |
| Catalog.ExitSlot | src/main.rs:110 | The exit opcode `0x95` fills exactly one slot, the last (101). |
| Catalog.ClassesInCatalog | src/main.rs:113-146 | Every branch opcode and every byte-swap opcode is a catalog opcode. |
| Catalog.ClassesDisjoint | src/main.rs:113-146 | No opcode is both a branch and a byte swap. |
| Catalog.ExitOpcodeIsPlain | src/main.rs:110 | `0x95` is in the catalog at slot 101 and belongs to neither class. |
| Casts.Signed16 | src/main.rs:229 | Reading a `u16` as `i16` gives a value in `[-0x8000, 0x8000)` that is negative exactly when the top bit is set. |
| Casts.WrapSigned16 | src/main.rs:229 | Truncating the signed reading of any 16-bit pattern gives the pattern back. |
| Casts.SignedWrap16 | src/main.rs:229 | Truncating a jump offset in `(-NBR_INSTR, NBR_INSTR)`, that is `(-3, 3)`, to `u16` and reading it back as signed gives the offset back. |
| Casts.SignExtend64 | src/main.rs:174 | `imm as u64`: the low half is the `i32` pattern and the high half copies its sign bit. |
| Instruction.DrawsExist | src/main.rs:208-241 | For every position and catalog slot, all ranges the generator draws from are non-empty, so some draws fit. |
| Instruction.SwapWidth | src/main.rs:237-238 | The width picked for a byte swap is 16, 32 or 64. |
| Instruction.DrawnOffset | src/main.rs:227-233 | A non-branch offset is never `0xFFFF`. A branch offset at a position `0 <= i < NBR_INSTR`, read as signed, lies in `[-i, NBR_INSTR - i)`. |
| Instruction.DrawnImm | src/main.rs:235-241 | A byte swap gets a width of 16, 32 or 64. Any other opcode keeps the drawn `i32`. |
| Instruction.Generated | src/main.rs:208-251 | The generated instruction has a catalog opcode and registers below 10. A byte swap has a width immediate. A non-branch offset is not `0xFFFF`. A branch at a program position has its target, counted as `i + offset`, among the generated instructions. |
| Instruction.ReplayGenerates | src/main.rs:208-251 | Replaying a well-formed instruction's fields as draws from a slot that holds its opcode fits the ranges and rebuilds that instruction. |
| Instruction.GeneratorComplete | src/main.rs:208-251 | Every instruction well formed for a position is generated by some draws. |
| Instruction.GeneratorImage | src/main.rs:208-251 | At a program position, an instruction is well formed if and only if some fitting draws generate it. |
| Instruction.GenerateRandomInstr | src/main.rs:208-251 | The generator, which classifies by two linear scans and then sets the offset and immediate by class, returns exactly `Generated(i, d)`. |
| Bytecode.FromInstr | src/main.rs:170-186 | The byte loop over a zeroed buffer returns exactly the little-endian bytes of the packed word. |
| Bytecode.Masked | src/main.rs:176-177 | Masking leaves registers below 16, and changes nothing when both are already below 16. |
| Bytecode.PackFields | src/main.rs:174-178 | Each field is read back from its bit position of the word: the opcode, then `src` and `dst` masked to 4 bits, the offset, and the immediate pattern. |
| Bytecode.PackUnpack | src/main.rs:174-178 | Packing the fields read from any word rebuilds the word, so the five fields cover all 64 bits. |
| Bytecode.UnpackPack | src/main.rs:174-178 | Reading the fields of a packed word gives the instruction with its registers masked. |
| Bytecode.WordOfBytes | src/main.rs:180-182 | Assembling the little-endian bytes of a word gives the word back. |
| Bytecode.BytesOfWord | src/main.rs:180-182 | Splitting an assembled word gives the 8 bytes back. |
| Bytecode.WordLayout | src/main.rs:180-182 | Each byte of a word, in terms of the fields read from that word. |
| Bytecode.EncodeLayout | src/main.rs:170-186 | The byte layout of an encoding. Byte 0 is the opcode. Byte 1 has `src` in its low nibble and `dst` in its high nibble. Bytes 2-3 are the offset, low byte first. Bytes 4-7 are the immediate, low byte first. |
| Bytecode.DecodeEncode | src/main.rs:170-186 | Decoding an encoding gives back every field, with registers masked to 4 bits. |
| Bytecode.EncodeDecode | src/main.rs:170-186 | Every 8-byte value is the encoding of what it decodes to. |
| Bytecode.EncodeInjective | src/main.rs:170-186 | Two instructions whose registers fit in 4 bits and that have the same encoding are equal. |
| Bytecode.ExitWord | src/main.rs:395-396 | The terminal `exit` instruction encodes to `95 00 00 00 00 00 00 00`. |
| Bytecode.GeneratedRoundTrip | src/main.rs:246-247 | Registers are drawn below 10, so a generated instruction survives encoding and decoding unchanged. |
| Bytecode.RegistersSwapped | src/main.rs:176-177 | The fuzzer's word is the RFC 9669 word of the same instruction with `dst` and `src` exchanged. |
| Bytecode.SwapIsHarmless | src/main.rs:176-177 | The register-exchanged twin of a generable instruction is generable at the same position. The fuzzer's word of each is the standard word of the other. |
| Program.BuildProgram | src/main.rs:382-396 | The array fill of `main`, which generates and encodes slot `j` for each `j < NBR_INSTR` and then writes the exit word, returns exactly `ProgramOf(draws)`. |
| Program.ProgramLayout | src/main.rs:382-396 | A built program has `NBR_INSTR + 1` slots, and the last one is the exit word. Each slot `j` before it decodes to the instruction generated for position `j`. |
| Program.JumpsStayInProgram | src/main.rs:227-229 | A jump in slot `j` lands on slot `j + offset`, which is in `[0, NBR_INSTR)`. Counted from the next instruction, as in section 4.3 of RFC 9669, it lands in `[1, NBR_INSTR]`, inside the program. |
| Program.ReplayBuilds | src/main.rs:382-396 | Every well-formed program is rebuilt, slot by slot, by the draws replayed from its decoded instructions, and those draws fit the generator's ranges. |
| Program.ProgramImage | src/main.rs:382-396 | A program is built by some fitting draws if and only if it has `NBR_INSTR + 1` slots, ends with the exit word, and slot `j` holds the encoding of an instruction well formed for position `j`. |
| Program.JumpMayReachExit | src/main.rs:227-229 | Counted from the next instruction, a generated jump can target the exit slot: some fitting draws put a branch with offset 2 at position 0, whose target is slot `NBR_INSTR`. |
| Program.ExitDrawsGenerateExit | src/main.rs:209-241 | At every program position, drawing catalog slot 101 fits the generator's ranges and yields the terminal `exit` instruction itself. |
| Program.ExitMayRepeat | src/main.rs:382-396 | Some fitting draws produce a program whose every slot, not only the last, is the exit word. |

## Left out

- `get_functions_pointer` and `run_prgm`: loading the VM library, and the create/load/execute/destroy calls into it, are foreign calls with no behaviour to model here.
- Debug printing: the `Debug` impls and the `DEBUG` output are console output only.
- The main loop: the infinite loop of `main`, its iteration counter, `TOTAL_EXEC` and the timing code are not modelled. Each iteration builds one program, which is `BuildProgram`.
- Commented-out code: the crash-replay program and the throughput report are not modelled.
- Random draws are inputs with their ranges. The distribution of `thread_rng` is not modelled, except that slot positions in the catalog weight its uniform draw (`SwapSlotsD4`, `SwapSlotsDc`, `ExitSlot`).
- `c_char` signedness: bytes are `bv8` bit patterns, and whether `c_char` is signed on the host does not change the bytes stored.
- `i32` overflow in the branch range bounds `-i` and `(NBR_INSTR + 1) - i` would panic in a debug build. The source computes these bounds only for a branch, but `Instruction.Generated` and `Instruction.GenerateRandomInstr` require `PositionFits` for every opcode. No caller is affected, because `PositionFits` holds for every position the builder uses.
- Casts.SignedWrap16: proved only for offsets in `(-NBR_INSTR, NBR_INSTR)` with `NBR_INSTR = 3`, the offsets the generator draws at the positions `0..NBR_INSTR`, rather than for every `i32`; its proof lists the pattern of each such offset.
- Instruction.Generated: the landing property of a branch is stated for the positions `0 <= i < NBR_INSTR` that the builder uses, not for every `i32` position.
- The stack buffer and the return value of executing a program are not modelled. They belong to the VM interface, which this model does not cover.

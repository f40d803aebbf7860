/** The program builder of the fuzzer's main loop: `NbrInstr` generated
    instructions, slot `j` generated for position `j`, followed by the exit
    instruction, each stored as its 8-byte encoding. */
module Program {
  import opened Catalog
  import opened Casts
  import opened Instruction
  import opened Bytecode

  /** One set of draws per generated slot, each within the generator's ranges
      for that slot's position. */
  predicate ProgramDrawsFit(draws: seq<Draws>)
  {
    |draws| == NbrInstr && forall j :: 0 <= j < NbrInstr ==> DrawsFit(j, draws[j])
  }

  /** The encoding stored in slot `j` of the program built from `draws`. */
  function SlotCode(draws: seq<Draws>, j: int): EbpfBytecode
    requires ProgramDrawsFit(draws) && 0 <= j <= NbrInstr
  {
    if j < NbrInstr then Encode(Generated(j, draws[j])) else Encode(ExitInstr)
  }

  /** The program built from `draws`. */
  function ProgramOf(draws: seq<Draws>): seq<EbpfBytecode>
    requires ProgramDrawsFit(draws)
  {
    seq(NbrInstr + 1, j requires 0 <= j <= NbrInstr => SlotCode(draws, j))
  }

  /** The builder as the main loop runs it: a buffer of `NbrInstr + 1` zeroed
      slots, filled in order with the encodings of freshly generated
      instructions, the last slot with the exit instruction. */
  method BuildProgram(draws: seq<Draws>) returns (bytecode: seq<EbpfBytecode>)
    requires ProgramDrawsFit(draws)
    ensures bytecode == ProgramOf(draws)
  {
    var arr := new EbpfBytecode[NbrInstr + 1](_ => ZeroBytecode);
    ghost var built: seq<EbpfBytecode> := [];
    for j := 0 to NbrInstr
      invariant built == arr[..j]
      invariant forall m :: 0 <= m < j ==> built[m] == SlotCode(draws, m)
    {
      var instr := GenerateRandomInstr(j, draws[j]);
      var instrByte := FromInstr(instr);
      arr[j] := instrByte;
      built := built + [instrByte];
    }
    var exit := FromInstr(ExitInstr);
    arr[NbrInstr] := exit;
    bytecode := arr[..];
  }

  /** The programs the builder can produce: `NbrInstr + 1` slots, the last one
      the exit word, every other one the encoding of an instruction that is
      well formed for its position. */
  ghost predicate WellFormedProgram(p: seq<EbpfBytecode>)
  {
    && |p| == NbrInstr + 1
    && p[NbrInstr] == EbpfBytecode([0x95, 0, 0, 0, 0, 0, 0, 0])
    && forall j :: 0 <= j < NbrInstr ==> WellFormedAt(j, Decode(p[j]))
  }

  /** Layout of a built program: `NbrInstr + 1` slots, the last holding the
      exit word, and each slot `j` before it holding the encoding of the
      instruction generated for position `j`, which decodes back unchanged. */
  lemma ProgramLayout(draws: seq<Draws>)
    requires ProgramDrawsFit(draws)
    ensures |ProgramOf(draws)| == NbrInstr + 1
    ensures ProgramOf(draws)[NbrInstr] == EbpfBytecode([0x95, 0, 0, 0, 0, 0, 0, 0])
    ensures forall j :: 0 <= j < NbrInstr ==>
      Decode(ProgramOf(draws)[j]) == Generated(j, draws[j])
  {
    ExitWord();
    forall j | 0 <= j < NbrInstr
      ensures Decode(ProgramOf(draws)[j]) == Generated(j, draws[j])
    {
      GeneratedRoundTrip(j, draws[j]);
    }
  }

  /** Every jump of a built program lands on one of its generated slots when its
      offset is added to its own index, and on a slot of the program (possibly
      the exit) when, as in section 4.3 of RFC 9669, the offset is counted from
      the instruction after the jump. */
  lemma JumpsStayInProgram(draws: seq<Draws>, j: int)
    requires ProgramDrawsFit(draws) && 0 <= j < NbrInstr
    requires Decode(ProgramOf(draws)[j]).opcode in BranchOpcode
    ensures 0 <= j + Signed16(Decode(ProgramOf(draws)[j]).offset) < NbrInstr
    ensures 1 <= j + Signed16(Decode(ProgramOf(draws)[j]).offset) + 1 <= NbrInstr
  {
    ProgramLayout(draws);
  }

  /** The slot of the catalog holding opcode `x`, for replaying a draw. */
  ghost function OpcodeSlot(x: bv8): (k: int)
    requires x in Opcode
    ensures 0 <= k < |Opcode| && Opcode[k] == x
  {
    var k :| 0 <= k < |Opcode| && Opcode[k] == x;
    k
  }

  /** The draws that rebuild a well-formed program slot by slot. */
  ghost function ReplayProgram(p: seq<EbpfBytecode>): (draws: seq<Draws>)
    requires WellFormedProgram(p)
    ensures |draws| == NbrInstr
  {
    seq(NbrInstr, j requires 0 <= j < NbrInstr =>
      ReplayDraws(Decode(p[j]), OpcodeSlot(Decode(p[j]).opcode)))
  }

  /** Replaying a well-formed program slot by slot gives draws that fit and
      rebuild it. */
  lemma ReplayBuilds(p: seq<EbpfBytecode>)
    requires WellFormedProgram(p)
    ensures ProgramDrawsFit(ReplayProgram(p)) && ProgramOf(ReplayProgram(p)) == p
  {
    var draws := ReplayProgram(p);
    forall j | 0 <= j < NbrInstr
      ensures DrawsFit(j, draws[j]) && Encode(Generated(j, draws[j])) == p[j]
    {
      ReplayGenerates(j, Decode(p[j]), OpcodeSlot(Decode(p[j]).opcode));
      EncodeDecode(p[j]);
    }
    ExitWord();
    assert ProgramOf(draws) == p;
  }

  /** The builder produces exactly the well-formed programs: every built
      program is well formed, and every well-formed program is built from some
      draws. */
  lemma ProgramImage(p: seq<EbpfBytecode>)
    ensures WellFormedProgram(p) <==>
      exists draws :: ProgramDrawsFit(draws) && ProgramOf(draws) == p
  {
    if WellFormedProgram(p) {
      ReplayBuilds(p);
    }
    if draws :| ProgramDrawsFit(draws) && ProgramOf(draws) == p {
      ProgramLayout(draws);
    }
  }

  /** The draws that pick the exit opcode from its catalog slot (101). */
  const ExitDraws: Draws := Draws(101, 0, 0, 0, 0, 0, 0)

  /** At every program position, drawing the exit opcode fits the generator's
      ranges and generates the terminal instruction itself. */
  lemma ExitDrawsGenerateExit(j: int)
    requires 0 <= j < NbrInstr
    ensures DrawsFit(j, ExitDraws) && Generated(j, ExitDraws) == ExitInstr
  {
    ExitOpcodeIsPlain();
  }

  /** Counted from the next instruction, a generated jump can target the exit
      slot: an unconditional jump (`0x05`, catalog slot 77) drawn at position 0
      with offset 2 lands on slot `0 + 2 + 1 = NbrInstr`. */
  lemma JumpMayReachExit()
    ensures exists draws ::
      && ProgramDrawsFit(draws)
      && Decode(ProgramOf(draws)[0]).opcode in BranchOpcode
      && Signed16(Decode(ProgramOf(draws)[0]).offset) + 1 == NbrInstr
  {
    var jump := Draws(77, 2, 0, 0, 0, 0, 0);
    EntryGroup(77);
    assert Opcode[77] == 0x05 && BranchOpcode[0] == 0x05;
    ExitDrawsGenerateExit(1);
    ExitDrawsGenerateExit(2);
    var draws := [jump, ExitDraws, ExitDraws];
    assert ProgramDrawsFit(draws);
    ProgramLayout(draws);
    SignedWrap16(2);
    assert Generated(0, jump).offset == Wrap16(2);
  }

  /** The exit word is not reserved for the last slot: some draws fill every
      slot of the program with it, since the exit opcode is an ordinary catalog
      entry of neither class. */
  lemma ExitMayRepeat()
    ensures exists draws ::
      && ProgramDrawsFit(draws)
      && forall j :: 0 <= j <= NbrInstr ==> ProgramOf(draws)[j] == EbpfBytecode([0x95, 0, 0, 0, 0, 0, 0, 0])
  {
    var draws := [ExitDraws, ExitDraws, ExitDraws];
    forall j | 0 <= j < NbrInstr
      ensures DrawsFit(j, draws[j]) && Generated(j, draws[j]) == ExitInstr
    {
      ExitDrawsGenerateExit(j);
    }
    ExitWord();
    assert ProgramDrawsFit(draws);
  }
}

/** The assembler and the emulator together: the program `HLT` assembles to
    the single byte 0x01, and a CPU whose memory holds that byte at the
    bootstrap address halts after one step with ip at 1. */
module Toolchain {
  import opened Results
  import opened Words
  import opened AsmTokens
  import opened AsmText
  import opened AsmEncoding
  import opened Devices
  import opened SystemBus
  import opened Sx64

  /** The text `HLT` lexes to the one keyword HLT. */
  lemma LexHalt()
    ensures Lex("HLT") == Ok([Keyword("HLT")])
  {
    var ts := [Keyword("HLT")];
    assert AllPrintable(ts);
    LexRenderText(ts);
    assert Render(ts) == "HLT";
  }

  /** The keyword HLT assembles to its opcode byte alone: no operand bytes follow. */
  lemma AssembleHalt()
    ensures Assemble([Keyword("HLT")]) == Ok([HLT_OPCODE])
  {
    var ts := [Keyword("HLT")];
    var hlt := Instr(OPCODES["HLT"], NoOperands);
    assert OPCODES["HLT"] == HLT_OPCODE;
    assert ShapeOf("HLT") == Bare;
    assert ParseStatement(ts, 0) == Ok((hlt, 1));
    assert ParseProgram(ts, 1) == Ok([]);
    assert [hlt] + [] == [hlt];
    assert ParseProgram(ts, 0) == Ok([hlt]);
    assert EncodeProgram([hlt]) == Encode(hlt) == [HLT_OPCODE];
  }

  /** A new CPU with one writable memory device whose byte at the bootstrap
      address is `first`, run: with 0x01 it halts past that byte, with any
      other byte it reaches an undecodable word without moving. */
  method BootAndRun(first: u8) returns (outcome: Outcome, cpu: CPU)
    ensures first == HLT_OPCODE ==> outcome == Executed && !cpu.running && cpu.ip == 1
    ensures first != HLT_OPCODE ==> outcome.Undecodable? && cpu.running && cpu.ip == BOOTSTRAP_ADDRESS
    ensures forall i :: 0 <= i < cpu.r.Length ==> cpu.r[i] == 0
    ensures cpu.sb == 0 && cpu.sp == 0 && cpu.fr == 0
  {
    cpu := Boot(first);
    outcome := cpu.Run();
  }

  /** A new CPU with a 4 KiB writable memory holding `first` at the bootstrap address. */
  method Boot(first: u8) returns (cpu: CPU)
    ensures fresh(cpu) && fresh(cpu.r) && cpu.Valid()
    ensures ByteAt(cpu.bus, cpu.ip) == first && cpu.ip == BOOTSTRAP_ADDRESS
    ensures forall i :: 0 <= i < cpu.r.Length ==> cpu.r[i] == 0
    ensures cpu.sb == 0 && cpu.sp == 0 && cpu.fr == 0
  {
    cpu := new CPU();
    var ram := new Device.MemoryDevice("Memory", 0x1000, false);
    cpu.bus.AttachDevice(ram);
    cpu.bus.Write(BOOTSTRAP_ADDRESS, first as u64);
    assert ByteAt(cpu.bus, cpu.ip) == first;
  }

  /** Assemble `HLT`, load the bytes at the bootstrap address and run: the
      CPU stops after the one instruction. */
  method RunAssembledHalt() returns (outcome: Outcome, cpu: CPU)
    ensures outcome == Executed && !cpu.running && cpu.ip == 1
  {
    LexHalt();
    AssembleHalt();
    var tokens := Lex("HLT");
    var program := Assemble(tokens.value);
    outcome, cpu := BootAndRun(program.value[0]);
  }
}

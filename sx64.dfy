/** The sx64 CPU (core/sx64.cpp) and the instructions it can execute
    (core/instr.cpp, instructions/hlt.cpp, instructions/nop.cpp). The CPU
    fetches from the bus at `ip`, decodes the fetched word and runs the
    instruction's action. In this revision only the word 1 decodes, to HLT. */
module Sx64 {
  import opened Words
  import opened Devices
  import opened SystemBus
  import opened Slices

  /** SX64_ADDR_SYS_BOOTSTRAP: where execution starts. */
  const BOOTSTRAP_ADDRESS: u64 := 0x0000
  const REGISTER_COUNT: nat := 8
  /** The opcode (and the whole instruction word) of HLT. */
  const HLT_OPCODE: u8 := 0x01

  /** What an instruction reports as its type. */
  datatype InstructionType = NOP | HLT | UNKNOWN

  /** Which subclass an instruction object is. */
  datatype Behaviour = Halting | NoOperation

  /** How one fetch-decode-execute step ends: the instruction ran, or the
      fetched word decoded to nothing (where the source dereferences null). */
  datatype Outcome = Executed | Undecodable(word: u64)

  /** The byte the bus gives at an address. */
  ghost function ByteAt(bus: Bus, address: u64): u8
    requires bus.Valid()
    reads bus, bus.devices, bus.Memories()
  {
    bus.Peek(address) as u8
  }

  /** The n bytes the bus gives at `from`, `from + 1`, ... (addresses wrap
      around at 2^64). */
  ghost function FetchedBytes(bus: Bus, from: u64, n: nat): (bs: seq<u8>)
    requires bus.Valid() && n < WORD_LIMIT
    reads bus, bus.devices, bus.Memories()
    ensures |bs| == n
  {
    seq(n, k requires 0 <= k < n && bus.Valid() reads bus, bus.devices, bus.Memories() =>
              ByteAt(bus, Add64(from, k as u64)))
  }

  /** How many bytes an instruction with this opcode occupies when fetched. */
  function FetchWidth(opcode: u8): (n: nat)
    ensures n == 1 || n == 8
    ensures n == 1 <==> opcode == HLT_OPCODE
  {
    if opcode == HLT_OPCODE then 1 else 8
  }

  /** The instruction word at an address: the little-endian value of as
      many bytes as the opcode there calls for. */
  ghost function FetchedWord(bus: Bus, at: u64): (w: nat)
    requires bus.Valid()
    reads bus, bus.devices, bus.Memories()
    ensures w < WORD_LIMIT
  {
    WordIsEightBytes();
    LeValue(FetchedBytes(bus, at, FetchWidth(ByteAt(bus, at))))
  }

  /** A fetched word is the HLT word exactly when its first byte is the HLT
      opcode: a one-byte fetch of 0x01 gives 1, and an eight-byte fetch has a
      low byte other than 1. */
  lemma HaltWordIffOpcode(bs: seq<u8>)
    requires bs != [] && |bs| == FetchWidth(bs[0])
    ensures LeValue(bs) == HLT_OPCODE as nat <==> bs[0] == HLT_OPCODE
  {
    LeValueLowByte(bs);
    if bs[0] == HLT_OPCODE {
      assert bs[1..] == [];
    }
  }

  /** The word at an address decodes to HLT exactly when the byte there is 0x01. */
  lemma {:induction false} FetchedWordIsHalt(bus: Bus, at: u64)
    requires bus.Valid()
    ensures FetchedWord(bus, at) == 1 <==> ByteAt(bus, at) == HLT_OPCODE
  {
    var bs := FetchedBytes(bus, at, FetchWidth(ByteAt(bus, at)));
    FetchedByte(bus, at, |bs|, 0);
    HaltWordIffOpcode(bs);
  }

  /** Byte k of a fetch is the byte k places past the start address, wrapping around. */
  lemma FetchedByte(bus: Bus, from: u64, n: nat, k: nat)
    requires bus.Valid() && k < n < WORD_LIMIT
    ensures FetchedBytes(bus, from, n)[k] == ByteAt(bus, Add64(from, k as u64))
  {
  }

  /** One more byte of a fetch adds that byte at the next power of 256. */
  lemma FetchedPrefixStep(bus: Bus, from: u64, n: u64, i: u64, b: u64, bs: seq<u8>)
    requires bus.Valid() && i < n <= 8 && b == bus.Peek(Add64(from, i))
    requires bs == FetchedBytes(bus, from, n as nat)
    ensures LeValue(bs[..i + 1]) == LeValue(bs[..i]) + b as nat * Pow256(i as nat)
  {
    FetchedByte(bus, from, n as nat, i as nat);
    PrefixStep(bs, i as nat);
    LeValueAppend(bs[..i], bs[i]);
  }

  class Instruction {
    const behaviour: Behaviour
    const rawData: u64
    var instructionType: InstructionType
    var decodedString: string

    /** HLTInstruction(data): the base constructor stores the data with type
        UNKNOWN and no text, then decode fills both in. */
    constructor Hlt(data: u64)
      ensures behaviour == Halting && rawData == data
      ensures instructionType == HLT && decodedString == "HLT"
    {
      behaviour := Halting;
      rawData := data;
      instructionType := UNKNOWN;
      decodedString := "";
      new;
      Decode();
    }

    /** NOPInstruction(data), in the same two stages. */
    constructor Nop(data: u64)
      ensures behaviour == NoOperation && rawData == data
      ensures instructionType == NOP && decodedString == "NOP"
    {
      behaviour := NoOperation;
      rawData := data;
      instructionType := UNKNOWN;
      decodedString := "";
      new;
      Decode();
    }

    /** Set the type and the mnemonic text of the subclass. */
    method Decode()
      modifies this`instructionType, this`decodedString
      ensures behaviour == Halting ==> instructionType == HLT && decodedString == "HLT"
      ensures behaviour == NoOperation ==> instructionType == NOP && decodedString == "NOP"
    {
      match behaviour
      case Halting =>
        instructionType := HLT;
        decodedString := "HLT";
      case NoOperation =>
        instructionType := NOP;
        decodedString := "NOP";
    }

    /** Both HLT and NOP are one byte long. */
    function GetSize(): (n: u64)
      ensures n == 1
    {
      match behaviour
      case Halting => 1
      case NoOperation => 1
    }

    method GetType() returns (t: InstructionType)
      ensures t == instructionType
    {
      return instructionType;
    }

    method GetDecodedString() returns (s: string)
      ensures s == decodedString
    {
      return decodedString;
    }

    method GetRawData() returns (d: u64)
      ensures d == rawData
    {
      return rawData;
    }

    /** HLT stops the CPU; NOP does nothing. No other CPU field changes. */
    method Action(cpu: CPU)
      modifies cpu`running
      ensures behaviour == Halting ==> !cpu.running
      ensures behaviour == NoOperation ==> cpu.running == old(cpu.running)
    {
      match behaviour
      case Halting =>
        cpu.Halt();
      case NoOperation =>
    }
  }

  class CPU {
    /** R0-R7. */
    const r: array<u64>
    /** Stack base, stack pointer, instruction pointer and flags. */
    var sb: u64
    var sp: u64
    var ip: u64
    var fr: u16
    const bus: Bus
    var running: bool

    ghost predicate Valid()
      reads this, bus, bus.devices
    {
      r.Length == REGISTER_COUNT && bus.Valid()
    }

    /** Eight zero registers, zero pointers and flags, ip at the bootstrap
        address, a new empty bus, not running. */
    constructor ()
      ensures Valid() && fresh(r) && fresh(bus) && bus.devices == []
      ensures forall i :: 0 <= i < r.Length ==> r[i] == 0
      ensures sb == 0 && sp == 0 && ip == BOOTSTRAP_ADDRESS && fr == 0 && !running
    {
      r := new u64[REGISTER_COUNT](_ => 0);
      sb, sp, ip, fr := 0, 0, BOOTSTRAP_ADDRESS, 0;
      bus := new Bus();
      running := false;
    }

    /** Clear the running flag and nothing else. */
    method Halt()
      modifies this`running
      ensures !running
    {
      running := false;
    }

    /** Only the word 1 decodes, to a new HLT instruction holding it. */
    method DecodeInstruction(data: u64) returns (instruction: Instruction?)
      ensures instruction != null <==> data as nat == HLT_OPCODE as nat
      ensures instruction != null ==> fresh(instruction) && instruction.behaviour == Halting
                                      && instruction.rawData == data && instruction.instructionType == HLT
    {
      if data as nat == HLT_OPCODE as nat {
        instruction := new Instruction.Hlt(data);
      } else {
        instruction := null;
      }
    }

    /** The fetch half of fetchInstructions: read the opcode byte at `at`,
        choose the width (1 byte for HLT, else 8) and fetch that many bytes. */
    method FetchWord(at: u64) returns (word: u64)
      requires Valid()
      ensures word as nat == FetchedWord(bus, at)
    {
      var first := bus.Read(at);
      var opcode := Mask8(first);
      assert opcode == ByteAt(bus, at);
      var instructionSize: u64;
      if opcode == HLT_OPCODE {
        instructionSize := 1;
      } else {
        instructionSize := 8;
      }
      word := FetchBytes(at, instructionSize);
      assert instructionSize as nat == FetchWidth(ByteAt(bus, at));
    }

    /** The loop of the fetch: OR the bytes at `at`, `at + 1`, ... into one
        little-endian word. Each read is below 256, so the shifted bytes never
        overlap and OR-ing them is adding them. */
    method FetchBytes(at: u64, instructionSize: u64) returns (word: u64)
      requires Valid() && instructionSize <= 8
      ensures word as nat == LeValue(FetchedBytes(bus, at, instructionSize as nat))
    {
      ghost var bytes := FetchedBytes(bus, at, instructionSize as nat);
      var instructionData: nat := 0;
      var i: u64 := 0;
      while i < instructionSize
        invariant i <= instructionSize
        invariant instructionData == LeValue(bytes[..i])
        invariant bytes == FetchedBytes(bus, at, instructionSize as nat)
      {
        var b := bus.Read(Add64(at, i));
        FetchedPrefixStep(bus, at, instructionSize, i, b, bytes);
        instructionData := instructionData + b as nat * Pow256(i as nat);
        i := i + 1;
      }
      assert bytes[..i] == bytes;
      LeValueFitsWord(bytes);
      word := instructionData as u64;
    }

    /** One fetch-decode-execute step at ip. With 0x01 at ip, HLT runs:
        running is cleared and ip moves past it. Any other byte gives an
        eight-byte word that does not decode, and nothing changes. */
    method FetchInstructions() returns (outcome: Outcome)
      requires Valid()
      modifies this`running, this`ip
      ensures old(ByteAt(bus, ip)) == HLT_OPCODE ==>
                outcome == Executed && !running && ip == Add64(old(ip), 1)
      ensures old(ByteAt(bus, ip)) != HLT_OPCODE ==>
                outcome == Undecodable(old(FetchedWord(bus, ip)) as u64)
                && running == old(running) && ip == old(ip)
    {
      FetchedWordIsHalt(bus, ip);
      ghost var bytes := FetchedBytes(bus, ip, FetchWidth(ByteAt(bus, ip)));
      var instructionData := FetchWord(ip);
      assert FetchedBytes(bus, ip, FetchWidth(ByteAt(bus, ip))) == bytes;
      var instruction := DecodeInstruction(instructionData as u64);
      if instruction == null {
        return Undecodable(instructionData as u64);
      }
      instruction.Action(this);
      ip := Add64(ip, instruction.GetSize());
      return Executed;
    }

    method Step() returns (outcome: Outcome)
      requires Valid()
      modifies this`running, this`ip
      ensures old(ByteAt(bus, ip)) == HLT_OPCODE ==>
                outcome == Executed && !running && ip == Add64(old(ip), 1)
      ensures old(ByteAt(bus, ip)) != HLT_OPCODE ==>
                outcome == Undecodable(old(FetchedWord(bus, ip)) as u64)
                && running == old(running) && ip == old(ip)
    {
      outcome := FetchInstructions();
    }

    /** Set running and step until it is cleared. Only HLT executes, so the
        loop ends after one step: halted with ip past the HLT byte, or at an
        undecodable word with running still set. */
    method Run() returns (outcome: Outcome)
      requires Valid()
      modifies this`running, this`ip
      ensures old(ByteAt(bus, ip)) == HLT_OPCODE ==>
                outcome == Executed && !running && ip == Add64(old(ip), 1)
      ensures old(ByteAt(bus, ip)) != HLT_OPCODE ==>
                outcome == Undecodable(old(FetchedWord(bus, ip)) as u64) && running && ip == old(ip)
    {
      running := true;
      outcome := Executed;
      while running
        invariant Valid()
        invariant running ==> ip == old(ip) && ByteAt(bus, ip) == old(ByteAt(bus, ip))
        invariant running ==> FetchedBytes(bus, ip, FetchWidth(ByteAt(bus, ip)))
                              == old(FetchedBytes(bus, ip, FetchWidth(ByteAt(bus, ip))))
        invariant running ==> FetchedWord(bus, ip) == old(FetchedWord(bus, ip))
        invariant !running ==> old(ByteAt(bus, ip)) == HLT_OPCODE && outcome == Executed
                               && ip == Add64(old(ip), 1)
        decreases running
      {
        outcome := Step();
        if outcome.Undecodable? {
          return;
        }
      }
    }
  }
}

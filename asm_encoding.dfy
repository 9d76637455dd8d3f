/** What the Assembler of tools/asm.py computes from a token list: the
    instructions it reads (ParseProgram), the bytes it writes for them (Encode),
    and a disassembler that reads those bytes back. */
module AsmEncoding {
  import opened Results
  import opened Words
  import opened AsmTokens
  import opened Slices

  const OPCODES: map<string, u8> := map[
    "NOP" := 0x00, "HLT" := 0x01, "WRITE" := 0x02, "READ" := 0x03, "LDI" := 0x04,
    "ADD" := 0x05, "SUB" := 0x06, "MUL" := 0x07, "DIV" := 0x08, "PUSH" := 0x09,
    "POP" := 0x0A, "JMP" := 0x0B, "CMP" := 0x0C, "JE" := 0x0D, "JNE" := 0x0E]

  /** The mnemonic of each opcode, indexed by the opcode. */
  const MNEMONICS: seq<string> := [
    "NOP", "HLT", "WRITE", "READ", "LDI", "ADD", "SUB", "MUL", "DIV", "PUSH",
    "POP", "JMP", "CMP", "JE", "JNE"]

  const REGISTER_INDEX: map<string, u8> := map[
    "R0" := 0, "R1" := 1, "R2" := 2, "R3" := 3, "R4" := 4, "R5" := 5, "R6" := 6, "R7" := 7]

  /** The operands each mnemonic takes, in the order parse reads them. */
  datatype Shape = Bare | Reg | RegReg | RegValue | Value

  function ShapeOf(op: string): Shape
  {
    if op == "WRITE" || op == "READ" || op == "LDI" then RegValue
    else if op == "ADD" || op == "SUB" || op == "MUL" || op == "DIV" then RegReg
    else if op == "PUSH" || op == "POP" then Reg
    else if op == "CMP" || op == "JE" || op == "JNE" || op == "JMP" then Value
    else Bare
  }

  /** The same table by opcode: 0x02-0x04 take a register and a value, 0x05-0x08
      two registers, 0x09-0x0A one register, 0x0B-0x0E one value. */
  function ShapeOfOpcode(b: u8): Shape
  {
    if 0x02 <= b <= 0x04 then RegValue
    else if 0x05 <= b <= 0x08 then RegReg
    else if 0x09 <= b <= 0x0A then Reg
    else if 0x0B <= b <= 0x0E then Value
    else Bare
  }

  datatype Operands =
    | NoOperands
    | OneRegister(r: u8)
    | TwoRegisters(r1: u8, r2: u8)
    | RegisterValue(r: u8, v: u64)
    | OneValue(v: u64)

  function ShapeOfOperands(args: Operands): Shape
  {
    match args
    case NoOperands => Bare
    case OneRegister(_) => Reg
    case TwoRegisters(_, _) => RegReg
    case RegisterValue(_, _) => RegValue
    case OneValue(_) => Value
  }

  /** One assembled instruction: its opcode and its operands, registers by index. */
  datatype Instr = Instr(opcode: u8, args: Operands)

  /** Register operands are indices of R0..R7. */
  predicate RegistersValid(args: Operands)
  {
    match args
    case OneRegister(r) => r < 8
    case TwoRegisters(r1, r2) => r1 < 8 && r2 < 8
    case RegisterValue(r, _) => r < 8
    case _ => true
  }

  predicate WellFormed(ins: Instr)
  {
    ins.opcode as int < |MNEMONICS| && ShapeOfOperands(ins.args) == ShapeOfOpcode(ins.opcode)
    && RegistersValid(ins.args)
  }

  predicate AllWellFormed(p: seq<Instr>)
  {
    forall k :: 0 <= k < |p| ==> WellFormed(p[k])
  }

  /** Why assembling stops: the exception parse raises, or the loop it never leaves. */
  datatype AsmError =
    | UnknownInstruction(op: string)
    | ExpectedRegister(found: TokenType)
    | UnknownRegister(name: string)
    | ExpectedValue(found: TokenType)
    | MissingToken                            // `None.type` raises AttributeError
    | ValueOutOfRange(value: nat)             // struct.pack('<Q', v) raises for v >= 2^64
    | NoProgress(index: nat, found: TokenType) // parse spins on a token it never eats
    | ExpectedToken(expected: TokenType, got: Option<TokenType>)

  // Reading tokens.

  /** handle_register_operand at token i: a known register, then an optional comma.
      The lookahead for the comma fails at the end of the tokens. */
  function RegisterOperand(ts: seq<Token>, i: nat): (r: Result<(u8, nat), AsmError>)
    requires i <= |ts|
    ensures r.Ok? ==> i < r.value.1 <= |ts| && r.value.0 < 8
    ensures r.Ok? ==> ts[i].Register? && ts[i].name in REGISTER_INDEX && REGISTER_INDEX[ts[i].name] == r.value.0
    ensures r.Ok? ==> i + 1 < |ts| && r.value.1 == (if ts[i + 1] == Comma then i + 2 else i + 1)
  {
    if i == |ts| then Err(MissingToken)
    else if !ts[i].Register? then Err(ExpectedRegister(TypeOf(ts[i])))
    else if ts[i].name !in REGISTER_INDEX then Err(UnknownRegister(ts[i].name))
    else if i + 1 == |ts| then Err(MissingToken)
    else
      RegisterIndexBound(ts[i].name);
      var index := REGISTER_INDEX[ts[i].name];
      if ts[i + 1] == Comma then Ok((index, i + 2)) else Ok((index, i + 1))
  }

  lemma RegisterIndexBound(name: string)
    requires name in REGISTER_INDEX
    ensures REGISTER_INDEX[name] < 8
  {
  }

  /** handle_address_operand and handle_immediate_operand at token i: a number
      or a character code that fits the 8 bytes write_address packs it into. */
  function ValueOperand(ts: seq<Token>, i: nat): (r: Result<(u64, nat), AsmError>)
    requires i <= |ts|
    ensures r.Ok? ==> r.value.1 == i + 1 <= |ts|
    ensures r.Ok? ==> ts[i] == Number(r.value.0 as nat) || ts[i] == Char(r.value.0 as nat)
  {
    if i == |ts| then Err(MissingToken)
    else match ts[i]
      case Number(v) => if v < WORD_LIMIT then Ok((v as u64, i + 1)) else Err(ValueOutOfRange(v))
      case Char(v) => if v < WORD_LIMIT then Ok((v as u64, i + 1)) else Err(ValueOutOfRange(v))
      case _ => Err(ExpectedValue(TypeOf(ts[i])))
  }

  /** The operands of the given shape from token i on, and where they end. */
  function ParseOperands(ts: seq<Token>, i: nat, shape: Shape): (r: Result<(Operands, nat), AsmError>)
    requires i <= |ts|
    ensures r.Ok? ==> i <= r.value.1 <= |ts| && ShapeOfOperands(r.value.0) == shape
    ensures r.Ok? ==> RegistersValid(r.value.0)
  {
    match shape
    case Bare => Ok((NoOperands, i))
    case Reg =>
      var a :- RegisterOperand(ts, i);
      Ok((OneRegister(a.0), a.1))
    case RegReg =>
      var a :- RegisterOperand(ts, i);
      var b :- RegisterOperand(ts, a.1);
      Ok((TwoRegisters(a.0, b.0), b.1))
    case RegValue =>
      var a :- RegisterOperand(ts, i);
      var b :- ValueOperand(ts, a.1);
      Ok((RegisterValue(a.0, b.0), b.1))
    case Value =>
      var b :- ValueOperand(ts, i);
      Ok((OneValue(b.0), b.1))
  }

  /** The instruction introduced by the KEYWORD token at i, and where the next
      statement starts. */
  function ParseStatement(ts: seq<Token>, i: nat): (r: Result<(Instr, nat), AsmError>)
    requires i < |ts| && ts[i].Keyword?
    ensures r.Ok? ==> i < r.value.1 <= |ts| && WellFormed(r.value.0)
  {
    var op := ts[i].name;
    if op !in OPCODES then Err(UnknownInstruction(op))
    else
      ShapeOfMnemonic(op);
      OpcodeMnemonic(op);
      var a :- ParseOperands(ts, i + 1, ShapeOf(op));
      Ok((Instr(OPCODES[op], a.0), a.1))
  }

  /** The instructions of ts[i..]: NEWLINE tokens between statements are skipped,
      and any other token that does not start a statement stops parse for good. */
  function ParseProgram(ts: seq<Token>, i: nat): (r: Result<seq<Instr>, AsmError>)
    requires i <= |ts|
    ensures r.Ok? ==> AllWellFormed(r.value)
    decreases |ts| - i
  {
    if i == |ts| then Ok([])
    else match ts[i]
      case Keyword(_) =>
        var st :- ParseStatement(ts, i);
        var rest :- ParseProgram(ts, st.1);
        Ok([st.0] + rest)
      case Newline => ParseProgram(ts, i + 1)
      case _ => Err(NoProgress(i, TypeOf(ts[i])))
  }

  /** A statement emits the opcode OPCODES gives its mnemonic, and fails with
      UnknownInstruction exactly when the mnemonic is not in OPCODES. */
  lemma StatementOpcode(ts: seq<Token>, i: nat)
    requires i < |ts| && ts[i].Keyword?
    ensures ParseStatement(ts, i).Ok? ==>
              ts[i].name in OPCODES && ParseStatement(ts, i).value.0.opcode == OPCODES[ts[i].name]
    ensures ParseStatement(ts, i).Err? && ParseStatement(ts, i).error.UnknownInstruction?
            <==> ts[i].name !in OPCODES
  {
  }

  /** Parsing stops at the first unknown mnemonic. */
  lemma UnknownInstructionStops(ts: seq<Token>, i: nat)
    requires i < |ts| && ts[i].Keyword? && ts[i].name !in OPCODES
    ensures ParseProgram(ts, i) == Err(UnknownInstruction(ts[i].name))
  {
  }

  // Writing bytes.

  function OperandBytes(args: Operands): seq<u8>
  {
    match args
    case NoOperands => []
    case OneRegister(r) => [r]
    case TwoRegisters(r1, r2) => [r1, r2]
    case RegisterValue(r, v) => [r] + LeBytes(v as nat, 8)
    case OneValue(v) => LeBytes(v as nat, 8)
  }

  /** The opcode byte, one byte per register, eight little-endian bytes per value. */
  function Encode(ins: Instr): (bs: seq<u8>)
    ensures 1 <= |bs| <= 10 && bs[0] == ins.opcode
  {
    [ins.opcode] + OperandBytes(ins.args)
  }

  function EncodeProgram(p: seq<Instr>): (bs: seq<u8>)
    requires AllWellFormed(p)
    ensures |p| <= |bs| <= 10 * |p|
    ensures p != [] ==> bs[0] == p[0].opcode
  {
    if p == [] then [] else Encode(p[0]) + EncodeProgram(p[1..])
  }

  /** What parse returns for a token list: the encoded instructions in source order. */
  function Assemble(ts: seq<Token>): (r: Result<seq<u8>, AsmError>)
    ensures r.Ok? <==> ParseProgram(ts, 0).Ok?
    ensures r.Ok? ==> |ParseProgram(ts, 0).value| <= |r.value|
  {
    match ParseProgram(ts, 0)
    case Ok(p) => Ok(EncodeProgram(p))
    case Err(e) => Err(e)
  }

  /** The size of an encoded instruction, by mnemonic. */
  lemma EncodedLength(ins: Instr)
    requires WellFormed(ins)
    ensures |Encode(ins)| ==
      var op := MNEMONICS[ins.opcode];
      if op in {"NOP", "HLT"} then 1
      else if op in {"PUSH", "POP"} then 2
      else if op in {"ADD", "SUB", "MUL", "DIV"} then 3
      else if op in {"JMP", "CMP", "JE", "JNE"} then 9
      else 10
  {
  }

  /** Looking a mnemonic up by name and by opcode gives the same operands. */
  lemma ShapeOfMnemonic(op: string)
    requires op in OPCODES
    ensures ShapeOf(op) == ShapeOfOpcode(OPCODES[op])
  {
  }

  /** Each opcode's mnemonic maps back to that opcode. */
  lemma MnemonicOpcode(b: nat)
    requires b < |MNEMONICS|
    ensures MNEMONICS[b] in OPCODES && OPCODES[MNEMONICS[b]] as nat == b
  {
  }

  /** Each mnemonic's opcode indexes that mnemonic. */
  lemma OpcodeMnemonic(op: string)
    requires op in OPCODES
    ensures (OPCODES[op] as nat) < |MNEMONICS| && MNEMONICS[OPCODES[op]] == op
  {
  }

  // Reading bytes back.

  /** The 8-byte little-endian value at the start of bs. */
  function WordAt(bs: seq<u8>): (v: u64)
    requires |bs| >= 8
    ensures v as nat == LeValue(bs[..8])
  {
    WordIsEightBytes();
    LeValue(bs[..8]) as u64
  }

  /** The operands of the given shape at the start of bs and their length, if any. */
  function DecodeOperands(shape: Shape, bs: seq<u8>): (r: Option<(Operands, nat)>)
    ensures r.Some? ==> r.value.1 <= |bs| && ShapeOfOperands(r.value.0) == shape
    ensures r.Some? ==> RegistersValid(r.value.0)
  {
    match shape
    case Bare => Some((NoOperands, 0))
    case Reg =>
      if |bs| >= 1 && bs[0] < 8 then Some((OneRegister(bs[0]), 1)) else None
    case RegReg =>
      if |bs| >= 2 && bs[0] < 8 && bs[1] < 8 then Some((TwoRegisters(bs[0], bs[1]), 2)) else None
    case RegValue =>
      if |bs| >= 9 && bs[0] < 8 then Some((RegisterValue(bs[0], WordAt(bs[1..])), 9)) else None
    case Value =>
      if |bs| >= 8 then Some((OneValue(WordAt(bs)), 8)) else None
  }

  /** The instruction encoded at the start of bs and its length, if any. */
  function DecodeInstr(bs: seq<u8>): (r: Option<(Instr, nat)>)
    ensures r.Some? ==> 0 < r.value.1 <= |bs| && WellFormed(r.value.0)
  {
    if bs == [] || bs[0] as int >= |MNEMONICS| then None
    else
      match DecodeOperands(ShapeOfOpcode(bs[0]), bs[1..])
      case None => None
      case Some((args, n)) => Some((Instr(bs[0], args), n + 1))
  }

  function Disassemble(bs: seq<u8>): (r: Option<seq<Instr>>)
    ensures r.Some? ==> AllWellFormed(r.value)
    decreases |bs|
  {
    if bs == [] then Some([])
    else match DecodeInstr(bs)
      case None => None
      case Some((ins, n)) =>
        match Disassemble(bs[n..])
        case None => None
        case Some(rest) => Some([ins] + rest)
  }

  /** Encoded operands decode to themselves, whatever follows them. */
  lemma DecodeOperandBytes(args: Operands, tail: seq<u8>)
    requires RegistersValid(args)
    ensures DecodeOperands(ShapeOfOperands(args), OperandBytes(args) + tail)
            == Some((args, |OperandBytes(args)|))
  {
    var bs := OperandBytes(args) + tail;
    WordIsEightBytes();
    match args
    case NoOperands =>
    case OneRegister(r) =>
    case TwoRegisters(r1, r2) =>
    case RegisterValue(r, v) =>
      assert bs[1..][..8] == LeBytes(v as nat, 8);
      LeValueOfBytes(v as nat, 8);
    case OneValue(v) =>
      assert bs[..8] == LeBytes(v as nat, 8);
      LeValueOfBytes(v as nat, 8);
  }

  /** Decoded operands encode back to the bytes they were read from. */
  lemma OperandBytesDecoded(shape: Shape, bs: seq<u8>)
    requires DecodeOperands(shape, bs).Some?
    ensures OperandBytes(DecodeOperands(shape, bs).value.0) == bs[..DecodeOperands(shape, bs).value.1]
  {
    match shape
    case Bare =>
    case Reg =>
    case RegReg =>
    case RegValue =>
      LeBytesOfValue(bs[1..][..8]);
      assert bs[..9] == [bs[0]] + bs[1..][..8];
    case Value =>
      LeBytesOfValue(bs[..8]);
  }

  /** An encoded instruction decodes to itself, whatever follows it. */
  lemma DecodeEncode(ins: Instr, tail: seq<u8>)
    requires WellFormed(ins)
    ensures DecodeInstr(Encode(ins) + tail) == Some((ins, |Encode(ins)|))
  {
    var bs := Encode(ins) + tail;
    assert bs[1..] == OperandBytes(ins.args) + tail;
    DecodeOperandBytes(ins.args, tail);
  }

  /** A decoded instruction encodes back to the bytes it was read from. */
  lemma EncodeDecode(bs: seq<u8>)
    requires DecodeInstr(bs).Some?
    ensures Encode(DecodeInstr(bs).value.0) == bs[..DecodeInstr(bs).value.1]
  {
    OperandBytesDecoded(ShapeOfOpcode(bs[0]), bs[1..]);
    var n := DecodeOperands(ShapeOfOpcode(bs[0]), bs[1..]).value.1;
    assert bs[..n + 1] == [bs[0]] + bs[1..][..n];
  }

  /** Round trip: the disassembler reads back exactly the program encoded. */
  lemma {:induction false} DisassembleEncode(p: seq<Instr>)
    requires AllWellFormed(p)
    ensures Disassemble(EncodeProgram(p)) == Some(p)
  {
    if p != [] {
      var rest := p[1..];
      assert AllWellFormed(rest);
      DecodeEncode(p[0], EncodeProgram(rest));
      var bs := EncodeProgram(p);
      assert bs[|Encode(p[0])|..] == EncodeProgram(rest);
      DisassembleEncode(rest);
      assert [p[0]] + rest == p;
    }
  }

  /** Round trip the other way: bytes that disassemble are the encoding of what they disassemble to. */
  lemma {:induction false} EncodeDisassemble(bs: seq<u8>)
    requires Disassemble(bs).Some?
    ensures EncodeProgram(Disassemble(bs).value) == bs
    decreases |bs|
  {
    if bs != [] {
      var (ins, n) := DecodeInstr(bs).value;
      EncodeDecode(bs);
      EncodeDisassemble(bs[n..]);
      var p := Disassemble(bs).value;
      assert p[0] == ins && p[1..] == Disassemble(bs[n..]).value;
      EncodeFirst(p, bs, n);
    }
  }

  /** The encoding of a program whose first instruction gives the first n bytes
      and whose rest gives the remaining bytes. */
  lemma EncodeFirst(p: seq<Instr>, bs: seq<u8>, n: nat)
    requires AllWellFormed(p) && p != [] && n <= |bs|
    requires Encode(p[0]) == bs[..n] && EncodeProgram(p[1..]) == bs[n..]
    ensures EncodeProgram(p) == bs
  {
    assert bs == bs[..n] + bs[n..];
  }

  /** Assembled bytes always disassemble, to the instructions that were parsed. */
  lemma AssembledDisassembles(ts: seq<Token>)
    requires Assemble(ts).Ok?
    ensures ParseProgram(ts, 0).Ok?
    ensures Disassemble(Assemble(ts).value) == Some(ParseProgram(ts, 0).value)
  {
    DisassembleEncode(ParseProgram(ts, 0).value);
  }

  // Writing tokens.

  /** The register token for index r. */
  function RegisterName(r: u8): string
    requires r < 8
  {
    ['R', ('0' as int + r as int) as char]
  }

  lemma RegisterNameIndex(r: u8)
    requires r < 8
    ensures RegisterName(r) in REGISTER_INDEX && REGISTER_INDEX[RegisterName(r)] == r
  {
  }

  /** A register the lexer produces is always in REGISTER_INDEX, at the index
      its digit names: the UnknownRegister error cannot follow lexing. */
  lemma LexedRegisterKnown(w: string)
    requires WordToken(w).Register?
    ensures WordToken(w).name in REGISTER_INDEX
    ensures REGISTER_INDEX[WordToken(w).name] as int == w[1] as int - '0' as int
  {
    var name := WordToken(w).name;
    assert name == ['R', w[1]];
  }

  /** The tokens of one instruction as written in a source file: the mnemonic,
      then the operands with a comma after each register that is not last. */
  function InstrTokens(ins: Instr): seq<Token>
    requires WellFormed(ins)
  {
    [Keyword(MNEMONICS[ins.opcode])] +
    match ins.args
    case NoOperands => []
    case OneRegister(r) => [Register(RegisterName(r))]
    case TwoRegisters(r1, r2) => [Register(RegisterName(r1)), Comma, Register(RegisterName(r2))]
    case RegisterValue(r, v) => [Register(RegisterName(r)), Comma, Number(v as nat)]
    case OneValue(v) => [Number(v as nat)]
  }

  /** One instruction per line. */
  function ProgramTokens(p: seq<Instr>): seq<Token>
    requires AllWellFormed(p)
  {
    if p == [] then [] else InstrTokens(p[0]) + [Newline] + ProgramTokens(p[1..])
  }

  /** The tokens of an instruction, followed by a line break, parse as that instruction. */
  lemma StatementOfTokens(ts: seq<Token>, i: nat, ins: Instr)
    requires WellFormed(ins)
    requires i + |InstrTokens(ins)| < |ts| && ts[i + |InstrTokens(ins)|] == Newline
    requires forall k :: 0 <= k < |InstrTokens(ins)| ==> ts[i + k] == InstrTokens(ins)[k]
    ensures ts[i].Keyword?
    ensures ParseStatement(ts, i) == Ok((ins, i + |InstrTokens(ins)|))
  {
    var its := InstrTokens(ins);
    assert ts[i] == its[0];
    MnemonicOpcode(ins.opcode as nat);
    ShapeOfMnemonic(MNEMONICS[ins.opcode]);
    OperandsOfTokens(ts, i, ins);
  }

  /** The operand tokens after the mnemonic parse as the instruction's operands. */
  lemma OperandsOfTokens(ts: seq<Token>, i: nat, ins: Instr)
    requires WellFormed(ins)
    requires i + |InstrTokens(ins)| < |ts| && ts[i + |InstrTokens(ins)|] == Newline
    requires forall k :: 0 <= k < |InstrTokens(ins)| ==> ts[i + k] == InstrTokens(ins)[k]
    ensures ParseOperands(ts, i + 1, ShapeOfOperands(ins.args)) == Ok((ins.args, i + |InstrTokens(ins)|))
  {
    var its := InstrTokens(ins);
    match ins.args
    case NoOperands =>
    case OneRegister(r) =>
      assert ts[i + 1] == its[1];
      RegisterNameIndex(r);
    case TwoRegisters(r1, r2) =>
      assert ts[i + 1] == its[1] && ts[i + 2] == its[2] && ts[i + 3] == its[3];
      RegisterNameIndex(r1);
      RegisterNameIndex(r2);
    case RegisterValue(r, v) =>
      assert ts[i + 1] == its[1] && ts[i + 2] == its[2] && ts[i + 3] == its[3];
      RegisterNameIndex(r);
    case OneValue(v) =>
      assert ts[i + 1] == its[1];
  }

  /** Print-parse round trip: the tokens of a program parse back to the program. */
  lemma {:induction false} ParseProgramTokens(ts: seq<Token>, i: nat, p: seq<Instr>)
    requires AllWellFormed(p)
    requires i <= |ts| && ts[i..] == ProgramTokens(p)
    ensures ParseProgram(ts, i) == Ok(p)
    decreases |p|
  {
    if p == [] {
      assert |ts[i..]| == 0;
    } else {
      var ins, rest := p[0], p[1..];
      assert AllWellFormed(rest);
      var its, tail := InstrTokens(ins), ProgramTokens(rest);
      assert ts[i..] == its + ([Newline] + tail);
      var j := i + |its| + 1;
      NextLine(ts, i, its, tail);
      ParseProgramTokens(ts, j, rest);
      assert p == [ins] + rest;
      ParseStatementLine(ts, i, j, ins, its, tail, rest, p);
    }
  }

  /** The line after a statement's tokens and its line break. */
  lemma NextLine(ts: seq<Token>, i: nat, its: seq<Token>, tail: seq<Token>)
    requires i <= |ts| && ts[i..] == its + ([Newline] + tail)
    ensures i + |its| + 1 <= |ts| && ts[i + |its| + 1..] == tail
  {
    SliceSplit(ts, i, its, [Newline] + tail);
    SliceSplit(ts, i + |its|, [Newline], tail);
  }

  /** A statement's tokens ended by a line break, followed by the rest of the program. */
  lemma ParseStatementLine(ts: seq<Token>, i: nat, j: nat, ins: Instr, its: seq<Token>,
                           tail: seq<Token>, rest: seq<Instr>, p: seq<Instr>)
    requires WellFormed(ins) && its == InstrTokens(ins) && p == [ins] + rest
    requires i <= |ts| && ts[i..] == its + ([Newline] + tail)
    requires j == i + |its| + 1 <= |ts| && ParseProgram(ts, j) == Ok(rest)
    ensures ParseProgram(ts, i) == Ok(p)
  {
    SliceSplit(ts, i, its, [Newline] + tail);
    SliceSplit(ts, i + |its|, [Newline], tail);
    StatementOfTokens(ts, i, ins);
    assert ParseProgram(ts, i + |its|) == Ok(rest);
  }

  /** The assembler's output for a printed program is its encoding. */
  lemma AssembleProgramTokens(p: seq<Instr>)
    requires AllWellFormed(p)
    ensures Assemble(ProgramTokens(p)) == Ok(EncodeProgram(p))
  {
    var ts := ProgramTokens(p);
    assert ts[0..] == ts;
    ParseProgramTokens(ts, 0, p);
  }
}

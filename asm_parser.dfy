/** The Assembler of tools/asm.py: a cursor `index` over the token list that
    appends to the output bytes as it reads each statement. Every method is
    proved against the parsing functions of module AsmEncoding. */
module AsmParser {
  import opened Results
  import opened Words
  import opened AsmTokens
  import opened AsmEncoding

  /** The instructions already read, in front of what the rest of the tokens parse to. */
  function PrependInstrs(done: seq<Instr>, r: Result<seq<Instr>, AsmError>): Result<seq<Instr>, AsmError>
  {
    if r.Ok? then Ok(done + r.value) else r
  }

  /** The bytes for the result of a parse, or its error. */
  function EncodeResult(r: Result<seq<Instr>, AsmError>): Result<seq<u8>, AsmError>
    requires r.Ok? ==> AllWellFormed(r.value)
  {
    if r.Ok? then Ok(EncodeProgram(r.value)) else Err(r.error)
  }

  /** The output bytes extended by parsed operands, or the parse error. */
  function AppendOperands(output: seq<u8>, r: Result<(Operands, nat), AsmError>): Result<seq<u8>, AsmError>
  {
    if r.Ok? then Ok(output + OperandBytes(r.value.0)) else Err(r.error)
  }

  lemma {:induction false} EncodeProgramAppend(p: seq<Instr>, ins: Instr)
    requires AllWellFormed(p) && WellFormed(ins)
    ensures AllWellFormed(p + [ins])
    ensures EncodeProgram(p + [ins]) == EncodeProgram(p) + Encode(ins)
  {
    var q := p + [ins];
    WellFormedAppend(p, ins);
    if p != [] {
      var rest := p[1..];
      WellFormedTail(p);
      assert q[0] == p[0] && q[1..] == rest + [ins];
      EncodeProgramAppend(rest, ins);
      calc {
        EncodeProgram(q);
        Encode(p[0]) + EncodeProgram(rest + [ins]);
        Encode(p[0]) + (EncodeProgram(rest) + Encode(ins));
        (Encode(p[0]) + EncodeProgram(rest)) + Encode(ins);
      }
    } else {
      assert q == [ins];
    }
  }

  lemma WellFormedAppend(p: seq<Instr>, ins: Instr)
    requires AllWellFormed(p) && WellFormed(ins)
    ensures AllWellFormed(p + [ins])
  {
    forall k | 0 <= k < |p| + 1
      ensures WellFormed((p + [ins])[k])
    {
      if k < |p| {
        assert (p + [ins])[k] == p[k];
      }
    }
  }

  lemma WellFormedTail(p: seq<Instr>)
    requires AllWellFormed(p) && p != []
    ensures AllWellFormed(p[1..])
  {
    forall k | 0 <= k < |p| - 1
      ensures WellFormed(p[1..][k])
    {
      assert p[1..][k] == p[k + 1];
    }
  }

  class Assembler {
    const tokens: seq<Token>
    var index: nat
    var address: nat

    ghost predicate Valid()
      reads this
    {
      index <= |tokens|
    }

    constructor (tokens: seq<Token>)
      ensures Valid() && this.tokens == tokens && index == 0 && address == 0
    {
      this.tokens := tokens;
      index := 0;
      address := 0;
    }

    /** The token at `index`, or None past the end. */
    function CurrentToken(): (t: Option<Token>)
      requires Valid()
      reads this
      ensures t.Some? <==> index < |tokens|
      ensures t.Some? ==> t.value == tokens[index]
    {
      if index < |tokens| then Some(tokens[index]) else None
    }

    /** Consume the current token if it has the given type. */
    method Eat(tokenType: TokenType) returns (r: Result<Token, AsmError>)
      requires Valid()
      modifies this`index
      ensures Valid()
      ensures old(index) < |tokens| && TypeOf(tokens[old(index)]) == tokenType ==>
                r == Ok(tokens[old(index)]) && index == old(index) + 1
      ensures !(old(index) < |tokens| && TypeOf(tokens[old(index)]) == tokenType) ==>
                index == old(index)
                && r == Err(ExpectedToken(tokenType, if old(index) < |tokens| then Some(TypeOf(tokens[old(index)])) else None))
    {
      var token := CurrentToken();
      if token.Some? && TypeOf(token.value) == tokenType {
        index := index + 1;
        return Ok(token.value);
      }
      if token.None? {
        return Err(ExpectedToken(tokenType, None));
      }
      return Err(ExpectedToken(tokenType, Some(TypeOf(token.value))));
    }

    /** Turn the tokens from `index` on into bytes, or report the first error.
        Where the source loops for ever on a token that is neither a KEYWORD
        nor a NEWLINE, this returns NoProgress. */
    method Parse() returns (r: Result<seq<u8>, AsmError>)
      requires Valid()
      modifies this`index
      ensures r == EncodeResult(ParseProgram(tokens, old(index)))
    {
      var output: seq<u8> := [];
      ghost var done: seq<Instr> := [];
      assert PrependInstrs([], ParseProgram(tokens, index)) == ParseProgram(tokens, index) by {
        if ParseProgram(tokens, index).Ok? {
          assert [] + ParseProgram(tokens, index).value == ParseProgram(tokens, index).value;
        }
      }
      while index < |tokens|
        invariant Valid() && AllWellFormed(done) && output == EncodeProgram(done)
        invariant ParseProgram(tokens, old(index)) == PrependInstrs(done, ParseProgram(tokens, index))
        decreases |tokens| - index
      {
        var token := CurrentToken().value;
        if token.Keyword? {
          ghost var start := index;
          ghost var st := ParseStatement(tokens, start);
          output :- ParseInstruction(output);
          ghost var ins := st.value.0;
          EncodeProgramAppend(done, ins);
          StatementThen(start, done);
          done := done + [ins];
        } else if token.Newline? {
          var newline := Eat(NEWLINE);
        } else {
          return Err(NoProgress(index, TypeOf(token)));
        }
      }
      assert done + [] == done;
      return Ok(output);
    }

    /** How the loop invariant of Parse survives one statement. */
    lemma StatementThen(start: nat, done: seq<Instr>)
      requires start < |tokens| && tokens[start].Keyword? && ParseStatement(tokens, start).Ok?
      ensures PrependInstrs(done, ParseProgram(tokens, start))
              == PrependInstrs(done + [ParseStatement(tokens, start).value.0],
                               ParseProgram(tokens, ParseStatement(tokens, start).value.1))
    {
      var (ins, j) := ParseStatement(tokens, start).value;
      var rest := ParseProgram(tokens, j);
      if rest.Ok? {
        assert done + ([ins] + rest.value) == (done + [ins]) + rest.value;
      }
    }

    /** The KEYWORD branch of parse: the opcode byte, then the operands its
        mnemonic takes. */
    method ParseInstruction(output: seq<u8>) returns (r: Result<seq<u8>, AsmError>)
      requires Valid() && index < |tokens| && tokens[index].Keyword?
      modifies this`index
      ensures Valid()
      ensures match ParseStatement(tokens, old(index))
              case Ok((ins, j)) => r == Ok(output + Encode(ins)) && index == j
              case Err(e) => r == Err(e)
    {
      var keyword := Eat(KEYWORD);
      var op := keyword.value.name;
      if op !in OPCODES {
        return Err(UnknownInstruction(op));
      }
      var code := OPCODES[op];
      ShapeOfMnemonic(op);
      ghost var first := index;
      r := HandleOperands(op, output + [code]);
      if ParseOperands(tokens, first, ShapeOf(op)).Ok? {
        var args := ParseOperands(tokens, first, ShapeOf(op)).value.0;
        assert output + [code] + OperandBytes(args) == output + ([code] + OperandBytes(args));
      }
    }

    /** The operands the mnemonic takes, by the source's table of mnemonics. */
    method HandleOperands(op: string, output: seq<u8>) returns (r: Result<seq<u8>, AsmError>)
      requires Valid() && op in OPCODES
      modifies this`index
      ensures Valid()
      ensures r == AppendOperands(output, ParseOperands(tokens, old(index), ShapeOf(op)))
      ensures r.Ok? ==> index == ParseOperands(tokens, old(index), ShapeOf(op)).value.1
    {
      if op == "WRITE" || op == "READ" {
        assert ShapeOf(op) == RegValue;
        r := HandleRegisterAddress(output);
      } else if op == "LDI" {
        assert ShapeOf(op) == RegValue;
        r := HandleRegisterImmediate(output);
      } else if op == "NOP" || op == "HLT" {
        assert ShapeOf(op) == Bare;
        assert output + [] == output;
        r := Ok(output);
      } else if op == "ADD" || op == "SUB" || op == "MUL" || op == "DIV" {
        assert ShapeOf(op) == RegReg;
        r := HandleRegisterPair(output);
      } else if op == "PUSH" || op == "POP" {
        assert ShapeOf(op) == Reg;
        r := HandleRegisterOperand(output);
      } else {
        assert ShapeOf(op) == Value;
        r := HandleAddressOperand(output);
      }
    }

    /** The operands of WRITE and READ: a register, then an address. */
    method HandleRegisterAddress(output: seq<u8>) returns (r: Result<seq<u8>, AsmError>)
      requires Valid()
      modifies this`index
      ensures Valid()
      ensures r == AppendOperands(output, ParseOperands(tokens, old(index), RegValue))
      ensures r.Ok? ==> index == ParseOperands(tokens, old(index), RegValue).value.1
    {
      var out := output;
      ghost var first := index;
      out :- HandleRegisterOperand(out);
      ghost var a := RegisterOperand(tokens, first).value.0;
      out :- HandleAddressOperand(out);
      ghost var tail := out[|output| + 1..];
      assert out == output + ([a] + tail);
      return Ok(out);
    }

    /** The operands of LDI: a register, then an immediate value. */
    method HandleRegisterImmediate(output: seq<u8>) returns (r: Result<seq<u8>, AsmError>)
      requires Valid()
      modifies this`index
      ensures Valid()
      ensures r == AppendOperands(output, ParseOperands(tokens, old(index), RegValue))
      ensures r.Ok? ==> index == ParseOperands(tokens, old(index), RegValue).value.1
    {
      var out := output;
      ghost var first := index;
      out :- HandleRegisterOperand(out);
      ghost var a := RegisterOperand(tokens, first).value.0;
      out :- HandleImmediateOperand(out);
      ghost var tail := out[|output| + 1..];
      assert out == output + ([a] + tail);
      return Ok(out);
    }

    /** The operands of ADD, SUB, MUL and DIV: two registers. */
    method HandleRegisterPair(output: seq<u8>) returns (r: Result<seq<u8>, AsmError>)
      requires Valid()
      modifies this`index
      ensures Valid()
      ensures r == AppendOperands(output, ParseOperands(tokens, old(index), RegReg))
      ensures r.Ok? ==> index == ParseOperands(tokens, old(index), RegReg).value.1
    {
      var out := output;
      out :- HandleRegisterOperand(out);
      out :- HandleRegisterOperand(out);
      assert out == output + [out[|output|], out[|output| + 1]];
      return Ok(out);
    }

    /** A register: its index byte is appended, and a comma after it is skipped. */
    method HandleRegisterOperand(output: seq<u8>) returns (r: Result<seq<u8>, AsmError>)
      requires Valid()
      modifies this`index
      ensures Valid()
      ensures match RegisterOperand(tokens, old(index))
              case Ok((b, j)) => r == Ok(output + [b]) && index == j
              case Err(e) => r == Err(e)
    {
      var token := CurrentToken();
      if token.None? {
        return Err(MissingToken);
      }
      if !token.value.Register? {
        return Err(ExpectedRegister(TypeOf(token.value)));
      }
      var register := Eat(REGISTER);
      var name := register.value.name;
      if name !in REGISTER_INDEX {
        return Err(UnknownRegister(name));
      }
      var out := output + [REGISTER_INDEX[name]];
      var next := CurrentToken();
      if next.None? {
        return Err(MissingToken);
      }
      if TypeOf(next.value) == COMMA {
        var comma := Eat(COMMA);
      }
      return Ok(out);
    }

    /** A number or character code, written as an 8-byte address. */
    method HandleAddressOperand(output: seq<u8>) returns (r: Result<seq<u8>, AsmError>)
      requires Valid()
      modifies this`index
      ensures Valid()
      ensures match ValueOperand(tokens, old(index))
              case Ok((v, j)) => r == Ok(output + LeBytes(v as nat, 8)) && index == j
              case Err(e) => r == Err(e)
    {
      var addressToken := CurrentToken();
      if addressToken.None? {
        return Err(MissingToken);
      }
      var token := addressToken.value;
      if !(token.Number? || token.Char?) {
        return Err(ExpectedValue(TypeOf(token)));
      }
      var eaten := Eat(TypeOf(token));
      var address := if token.Number? then token.value else token.code;
      r := WriteAddress(output, address);
    }

    /** A number or character code, written as an 8-byte immediate. */
    method HandleImmediateOperand(output: seq<u8>) returns (r: Result<seq<u8>, AsmError>)
      requires Valid()
      modifies this`index
      ensures Valid()
      ensures match ValueOperand(tokens, old(index))
              case Ok((v, j)) => r == Ok(output + LeBytes(v as nat, 8)) && index == j
              case Err(e) => r == Err(e)
    {
      var immToken := CurrentToken();
      if immToken.None? {
        return Err(MissingToken);
      }
      var token := immToken.value;
      if !(token.Number? || token.Char?) {
        return Err(ExpectedValue(TypeOf(token)));
      }
      var eaten := Eat(TypeOf(token));
      var immValue := if token.Number? then token.value else token.code;
      r := WriteAddress(output, immValue);
    }

    /** struct.pack('<Q', value): exactly eight little-endian bytes that read back
        as the value, or an error for a value that does not fit in 64 bits. */
    method WriteAddress(output: seq<u8>, value: nat) returns (r: Result<seq<u8>, AsmError>)
      ensures r.Ok? <==> value < WORD_LIMIT
      ensures r.Ok? ==> |r.value| == |output| + 8 && r.value[..|output|] == output
      ensures r.Ok? ==> LeValue(r.value[|output|..]) == value
      ensures r.Ok? ==> r.value == output + LeBytes(value, 8)
      ensures r.Err? ==> r.error == ValueOutOfRange(value)
    {
      if value >= WORD_LIMIT {
        return Err(ValueOutOfRange(value));
      }
      var packed := LeBytes(value, 8);
      WordIsEightBytes();
      LeValueOfBytes(value, 8);
      r := Ok(output + packed);
      assert r.value[|output|..] == packed;
    }
  }
}

# sx64 assembler and emulator core, in Dafny

This project models the two working parts of this revision of sx64.

**The assembler (`tools/asm.py`).**
- The `Lexer` turns a source text into REGISTER, KEYWORD, NUMBER, CHAR, COMMA, COLON and NEWLINE tokens.
- The `Assembler` turns the tokens into a flat byte string. Each instruction is written as:
  - its `OPCODES` byte;
  - one byte per register operand;
  - eight little-endian bytes per address or immediate operand.

**The emulator core.**
- `Device`: a named unit with an enabled flag.
- `MemoryDevice`: a bounded byte array that may be read-only and that keeps the low byte of each write.
- `Bus`: an ordered device list.
  - A read is answered by the first enabled device.
  - A write goes to every enabled device.
- `CPU`: the register file, `sb`, `sp`, `ip`, `fr` and a `running` flag, with a fetch-decode-execute loop.
- `Instruction`, with its HLT and NOP subclasses.

Both halves are imperative in the source and are modelled as Dafny classes:
- `Lexer`, `Assembler`, `Device`, `Bus`, `CPU`, `Instruction`.
- Their methods change the same fields as the source: `position`/`current`, `index`, `enabled`, the memory array, the device list, `running`/`ip`.

Each method is proved against a pure specification, and that specification has its own lemmas:
- `Lexer.Tokenize` returns `LexFrom`, the tokens of the rest of the text.
- `Assembler.Parse` returns the encoding of `ParseProgram`.
- `CPU.FetchBytes` returns the little-endian value of `FetchedBytes`, the bytes the bus gives.

Partners that the specifications are proved against:
- **Printer** (`AsmText.Render`). Lexing printed tokens gives the tokens back.
- **Disassembler** (`AsmEncoding.Disassemble`). The encoding of every well-formed program disassembles to that program, and bytes that disassemble re-encode to themselves.
- **Source printer** (`AsmEncoding.ProgramTokens`). The tokens of a printed program parse back to the program, so they assemble to its encoding.

`Toolchain` joins the two halves: the text `HLT` assembles to the byte 0x01, and a CPU with that byte at the bootstrap address halts after one step with `ip == 1`.

Files:
- `words.dfy`: fixed-width integers and the little-endian layout.
- `results.dfy`: Option and Result.
- `slices.dfy`: sequence facts.
- `asm_tokens.dfy`: tokens and the lexing specification.
- `asm_lexer.dfy`: the Lexer class.
- `asm_text.dfy`: the printer, literal facts and the lexing round trip.
- `asm_encoding.dfy`: the opcode tables, the parsing specification, the encoder, the disassembler and the round trips.
- `asm_parser.dfy`: the Assembler class.
- `devices.dfy`: Device and MemoryDevice.
- `bus.dfy`: Bus.
- `sx64.dfy`: CPU and Instruction.
- `toolchain.dfy`: assembling then running.

Behaviour of the code worth noting:
- `attachDevice` only appends. It neither initializes nor enables the device.
- `Bus::read` and `Bus::write` pass the absolute address to the device. They subtract no base address, and an unmapped address halts nothing: a read gives 0.
- `CPU::run` does not call `bus.enable()`.
- `reset` only disables a device. It does not clear a memory device's bytes.
- `CMP` is assembled with one address operand, not two registers.
- Where a header and its `.cpp` disagree (the `uint8_t` declarations of `bus.hpp`), the model follows the `.cpp` bodies.

## Model

| member | source | states |
|---|---|---|
| `AsmLexer.Lexer.constructor` | tools/asm.py:45-48 | A Lexer exists only for a non-empty text. It starts at position 0 with `source[0]` as its current character. |
| `AsmLexer.Lexer.Advance` | tools/asm.py:50-55 | The position moves by exactly one. The current character is the one at the new position, or None past the end. |
| `AsmLexer.Lexer.SkipWhitespace` | tools/asm.py:57-59 | Stops at the first non-white-space character at or after the start, or at the end. |
| `AsmLexer.Lexer.ReadWhile` | tools/asm.py:91-93 | The value read is exactly the characters passed over. The Lexer stops at the first character that does not satisfy the test. |
| `AsmLexer.Lexer.ParseKeyword` | tools/asm.py:89-96 | Reads the maximal run of letters and digits. `R0`..`R7` in either case give an upper-cased REGISTER; every other word gives an upper-cased KEYWORD. |
| `AsmLexer.Lexer.ParseNumber` | tools/asm.py:98-134 | Gives the token, end position or error of `ScanNumber`: a leading 0 selects base 16, a leading 1-9 base 10. |
| `AsmLexer.Lexer.ParseZeroLed` | tools/asm.py:100-109 | After a 0: fails at the end of the text, and otherwise follows the x/X prefix or reads more hex digits, as `ScanNumber` does. |
| `AsmLexer.Lexer.ParseHexDigits` | tools/asm.py:103-109 | After `0x`: the hex digits that follow, in base 16. With no digit it fails where `int(value, 16)` raises. |
| `AsmLexer.Lexer.ParseChar` | tools/asm.py:136-145 | `'c'` gives CHAR `ord(c)` three characters on. An empty or unclosed literal gives its error at the position where the source raises. |
| `AsmLexer.Lexer.Tokenize` | tools/asm.py:61-87 | Returns exactly `LexFrom(source, start)`, the tokens of the rest of the text or the first error. |
| `AsmTokens.ScanWhile` | tools/asm.py:57-59 | Gives the first position at or after i whose character fails the test. Every character before it passes. |
| `AsmTokens.WordToken` | tools/asm.py:89-96 | A word becomes a REGISTER or KEYWORD token carrying its upper-case spelling; a register is always named `R0` to `R7`. |
| `AsmTokens.ScanNumber` | tools/asm.py:98-134 | A literal read from a digit is a NUMBER and consumes at least one character; its only failures are stated by `ScanNumberFails`. |
| `AsmText.ScanNumberFails` | tools/asm.py:98-109 | Reading a number fails exactly when a 0 ends the text (`NumberAtEnd` just after it) or 0x/0X has no hex digit after it (`MissingHexDigits` where the digits should start). |
| `AsmTokens.ScanChar` | tools/asm.py:136-145 | Fails exactly when the literal is empty or unclosed. Otherwise gives `Char(ord(c))` and moves past the closing quote. |
| `AsmTokens.NextToken` | tools/asm.py:63-86 | One pass of the tokenize loop appends at most one token and always moves forward. |
| `AsmTokens.StepTokens` | tools/asm.py:61-87 | The loop invariant of tokenize survives a pass that appends tokens. |
| `AsmTokens.StepFails` | tools/asm.py:81-86 | An error raised in any pass is the error of the whole text. |
| `AsmTokens.LexFromBounds` | tools/asm.py:61-87 | Tokenizing the rest of the text from a position gives at most one token per remaining character, or an error positioned within that rest, never the empty-source error. |
| `AsmTokens.Lex` | tools/asm.py:45-87 | The empty-source error happens exactly for the empty text; otherwise the token list is no longer than the text. |
| `AsmText.DecimalLiteral` | tools/asm.py:130-134 | The digits of n > 0, followed by a non-digit or the end, read back as NUMBER n. |
| `AsmText.PrefixedHexLiteral` | tools/asm.py:100-109 | `0x` or `0X` followed by hex digits reads those digits in base 16 (`0x1F` is 31). |
| `AsmText.ZeroLedLiteral` | tools/asm.py:100-109 | A 0 followed by hex digits and no x is also read in base 16 (`010` is 16). |
| `AsmText.LeadingZero` | tools/asm.py:106-109 | A leading 0 does not change the value `int(value, 16)` gives. |
| `AsmText.DecimalValue` | tools/asm.py:130-134 | The digits printed for n read back in base 10 as n. |
| `AsmText.WordStep` | tools/asm.py:77-79 | A printed register or keyword lexes as itself in one pass. |
| `AsmText.NumberStep` | tools/asm.py:80-82 | A printed number lexes as itself in one pass. |
| `AsmText.CharStep` | tools/asm.py:83-85 | A printed character literal lexes as itself in one pass. |
| `AsmText.PunctuationStep` | tools/asm.py:69-76 | `,` and `:` each give their token in one pass. |
| `AsmText.TokenStep` | tools/asm.py:69-85 | Any printed token other than a line break lexes as itself in one pass. |
| `AsmText.SkipBlank` | tools/asm.py:64-68 | A single blank before a non-space character yields no token. |
| `AsmText.NewlineThen` | tools/asm.py:64-68 | A line break before a non-space character yields exactly one NEWLINE. |
| `AsmText.LexRender` | tools/asm.py:61-87 | Round trip: lexing printed tokens gives the same tokens back, provided no two line breaks are adjacent. |
| `AsmText.LexRenderText` | tools/asm.py:45-48 | The same round trip for a whole text through the Lexer's constructor. |
| `AsmEncoding.RegisterOperand` | tools/asm.py:203-212 | Succeeds only on a known register followed by another token. The byte is that register's `REGISTER_INDEX`, and a comma after it is skipped. |
| `AsmEncoding.ValueOperand` | tools/asm.py:214-228 | Succeeds only on a NUMBER or CHAR whose value fits in 64 bits, and consumes exactly that token. |
| `AsmEncoding.ParseOperands` | tools/asm.py:177-196 | Reads operands of the requested shape, with every register index below 8. |
| `AsmEncoding.ParseStatement` | tools/asm.py:171-196 | A statement that parses is well formed: a valid opcode whose operands match its mnemonic. |
| `AsmEncoding.ParseProgram` | tools/asm.py:167-201 | Every instruction parsed from a token list is well formed. |
| `AsmEncoding.StatementOpcode` | tools/asm.py:171-175 | A statement emits the `OPCODES` byte of its mnemonic. It fails with UnknownInstruction exactly when the mnemonic is not in `OPCODES`. |
| `AsmEncoding.UnknownInstructionStops` | tools/asm.py:173-174 | An unknown mnemonic stops the whole parse with its error. |
| `AsmEncoding.EncodedLength` | tools/asm.py:175-196 | Encoded sizes: NOP/HLT 1 byte; PUSH/POP 2; ADD/SUB/MUL/DIV 3; JMP/CMP/JE/JNE 9; WRITE/READ/LDI 10. |
| `AsmEncoding.Encode` | tools/asm.py:175-196 | An encoded instruction starts with its opcode byte and takes between 1 and 10 bytes. |
| `AsmEncoding.EncodeProgram` | tools/asm.py:167-201 | A program of n instructions encodes to between n and 10n bytes, starting with the first instruction's opcode. |
| `AsmEncoding.ShapeOfMnemonic` | tools/asm.py:177-196 | The operand table by mnemonic agrees with the operand table by opcode byte. |
| `AsmEncoding.MnemonicOpcode` | tools/asm.py:6-22 | Every opcode 0x00-0x0E has a mnemonic that `OPCODES` maps back to it. |
| `AsmEncoding.OpcodeMnemonic` | tools/asm.py:6-22 | Every mnemonic's opcode indexes that mnemonic: `OPCODES` is one-to-one. |
| `AsmEncoding.RegisterIndexBound` | tools/asm.py:25-34 | Every register index is below 8. |
| `AsmEncoding.RegisterNameIndex` | tools/asm.py:25-34 | `R0`..`R7` map to 0..7. |
| `AsmEncoding.LexedRegisterKnown` | tools/asm.py:94-95 | Every REGISTER the lexer produces is in `REGISTER_INDEX`, at the index its digit names. |
| `AsmEncoding.WordAt` | tools/asm.py:231 | Reads the first eight bytes as a little-endian word. That this is the value `struct.pack('<Q', ...)` wrote is proved by `DecodeOperandBytes` with `Words.LeValueOfBytes`. |
| `AsmEncoding.DecodeOperandBytes` | tools/asm.py:209 | Encoded operands read back as themselves, whatever bytes follow. |
| `AsmEncoding.OperandBytesDecoded` | tools/asm.py:209 | Operands read from bytes encode back to exactly those bytes. |
| `AsmEncoding.DecodeEncode` | tools/asm.py:175 | An encoded instruction reads back as itself, with its length, whatever follows. |
| `AsmEncoding.EncodeDecode` | tools/asm.py:175 | An instruction read from bytes encodes back to exactly the bytes read. |
| `AsmEncoding.DisassembleEncode` | tools/asm.py:167-201 | The bytes of any well-formed program disassemble to that program. |
| `AsmEncoding.EncodeDisassemble` | tools/asm.py:167-201 | Bytes that disassemble are the encoding of what they disassemble to. |
| `AsmEncoding.AssembledDisassembles` | tools/asm.py:167-201 | Assembled bytes always disassemble, to the instructions parsed in source order. |
| `AsmEncoding.Assemble` | tools/asm.py:167-201 | Assembling succeeds exactly when parsing does, and then gives at least one byte per instruction. |
| `AsmEncoding.StatementOfTokens` | tools/asm.py:171-196 | A mnemonic, its operands and a line break parse as that instruction. Commas between operands are skipped. |
| `AsmEncoding.OperandsOfTokens` | tools/asm.py:177-196 | The operand tokens after a mnemonic parse as the instruction's operands. |
| `AsmEncoding.ParseProgramTokens` | tools/asm.py:169-201 | One instruction per line parses back to the program: NEWLINE tokens between statements are skipped. |
| `AsmEncoding.AssembleProgramTokens` | tools/asm.py:167-201 | The assembler's output for a program written one instruction per line is its encoding, in source order. |
| `AsmParser.Assembler.constructor` | tools/asm.py:148-151 | Starts at token 0 with address 0. |
| `AsmParser.Assembler.CurrentToken` | tools/asm.py:153-156 | The token at `index`, and None exactly past the end. |
| `AsmParser.Assembler.Eat` | tools/asm.py:158-165 | A token of the expected type is returned and consumed. Otherwise the index is unchanged and the error names the expected type and what was found, or EOF. |
| `AsmParser.Assembler.Parse` | tools/asm.py:167-201 | The output is the encoding of `ParseProgram`: the instructions' bytes in source order, or the first error. |
| `AsmParser.Assembler.ParseInstruction` | tools/asm.py:171-196 | A KEYWORD statement appends the opcode byte and then its operand bytes, and moves past the statement. |
| `AsmParser.Assembler.HandleOperands` | tools/asm.py:177-196 | The operands each mnemonic takes, appended to the output. |
| `AsmParser.Assembler.HandleRegisterAddress` | tools/asm.py:177-179 | WRITE and READ: a register byte, then eight address bytes. |
| `AsmParser.Assembler.HandleRegisterImmediate` | tools/asm.py:181-183 | LDI: a register byte, then eight immediate bytes. |
| `AsmParser.Assembler.HandleRegisterPair` | tools/asm.py:188-190 | ADD, SUB, MUL and DIV: two register bytes. |
| `AsmParser.Assembler.HandleRegisterOperand` | tools/asm.py:203-212 | Appends the register's index byte and skips an optional comma, or fails as `RegisterOperand` says. |
| `AsmParser.Assembler.HandleAddressOperand` | tools/asm.py:214-220 | Appends the eight little-endian bytes of a NUMBER or CHAR, or fails as `ValueOperand` says. |
| `AsmParser.Assembler.HandleImmediateOperand` | tools/asm.py:222-228 | The same for an immediate operand. |
| `AsmParser.Assembler.WriteAddress` | tools/asm.py:230-231 | Succeeds exactly when the value is below 2^64, appending eight bytes that read back little-endian as the value. Larger values give ValueOutOfRange. |
| `Words.LeValueOfBytes` | tools/asm.py:231 | Decoding the n little-endian bytes of a value below 256^n gives the value. |
| `Words.LeBytesOfValue` | tools/asm.py:231 | Encoding the value of a byte string gives the same bytes. |
| `Words.LeValueAppend` | emulator/src/core/sx64.cpp:42-45 | One more byte adds that byte times 256^i, which is OR-ing it in at bit 8i. |
| `Words.LeValueFitsWord` | emulator/src/core/sx64.cpp:41-45 | Eight bytes or fewer always fit in a 64-bit word. |
| `Devices.Load` | emulator/src/devices/memory.cpp:14-21 | `memory[a]` for `a < size`, else 0. Always below 256. |
| `Devices.StoreThenLoad` | emulator/src/devices/memory.cpp:23-29 | On writable memory, for `a < size`, a write then a read gives `data mod 256`. |
| `Devices.StoreElsewhere` | emulator/src/devices/memory.cpp:23-29 | A write changes no other address, and read-only memory not at all. |
| `Devices.StoreTwice` | emulator/src/devices/memory.cpp:23-29 | Writing the same data twice is writing it once. |
| `Devices.Device.Base` | emulator/src/core/device.cpp:3 | A device starts enabled with the given name ("Unnamed Device" by default). |
| `Devices.Device.MemoryDevice` | emulator/src/devices/memory.cpp:3-4 | Exactly `size` zero bytes, with the given read-only flag, enabled. |
| `Devices.Device.Initialize` | emulator/src/devices/memory.cpp:8-12 | A memory device zero-fills every byte. Every device is enabled afterwards. |
| `Devices.Device.Reset` | emulator/src/core/device.cpp:10-13 | Only disables the device. |
| `Devices.Device.Update` | emulator/src/core/device.cpp:15-17 | Changes nothing. |
| `Devices.Device.Read` | emulator/src/devices/memory.cpp:14-21 | A memory device gives its byte below `size` and 0 beyond. A device with the base behaviour always gives 0. |
| `Devices.Device.Write` | emulator/src/devices/memory.cpp:23-29 | A writable memory device stores `data & 0xFF` below `size`, then reads back `data mod 256`. Read-only memory, addresses beyond `size` and base devices change nothing. |
| `Devices.Device.GetName` | emulator/src/core/device.cpp:28-31 | The name given at construction. |
| `Devices.Device.IsEnabled` | emulator/src/core/device.cpp:33-36 | The enabled flag, unchanged. |
| `Devices.Device.Enable` | emulator/src/core/device.cpp:38-41 | Sets the flag. |
| `Devices.Device.Disable` | emulator/src/core/device.cpp:43-46 | Clears the flag. |
| `SystemBus.Bus.constructor` | emulator/src/core/bus.cpp:3 | No devices. |
| `SystemBus.Bus.FirstEnabled` | emulator/src/core/bus.cpp:14-20 | The first enabled device in attachment order: every device before it is disabled. |
| `SystemBus.Bus.AttachDevice` | emulator/src/core/bus.cpp:7-10 | Appends the device at the end, keeping attachment order. |
| `SystemBus.Bus.Read` | emulator/src/core/bus.cpp:12-22 | The first enabled device's read at the unchanged address. 0 when no device is enabled. Nothing changes. |
| `SystemBus.Bus.Peek` | emulator/src/core/bus.cpp:12-22 | The value a bus read gives, as a function of the state: always a single byte, below 256. |
| `SystemBus.Bus.Write` | emulator/src/core/bus.cpp:24-33 | Every enabled device takes the write, and disabled ones keep their bytes. When the first enabled device is writable memory covering the address, a read there then gives `data mod 256`. |
| `SystemBus.Bus.WriteTo` | emulator/src/core/bus.cpp:28-31 | One device takes the write. Every other attached device keeps its bytes. |
| `Sx64.FetchWidth` | emulator/src/core/sx64.cpp:28-39 | The fetch is 1 byte exactly when the opcode is 0x01, and 8 otherwise. |
| `Sx64.FetchedWord` | emulator/src/core/sx64.cpp:41-45 | The fetched word always fits in 64 bits. |
| `Sx64.FetchedByte` | emulator/src/core/sx64.cpp:44 | Byte i of a fetch is the bus byte at `ip + i`, wrapping at 2^64. |
| `Sx64.FetchedPrefixStep` | emulator/src/core/sx64.cpp:42-45 | Each pass of the fetch loop adds the next byte at the next power of 256. |
| `Sx64.HaltWordIffOpcode` | emulator/src/core/sx64.cpp:28-39 | A fetched word is 1 exactly when its first byte is 0x01. |
| `Sx64.FetchedWordIsHalt` | emulator/src/core/sx64.cpp:56-61 | The word at an address decodes to HLT exactly when the byte there is 0x01. |
| `Sx64.Instruction.Hlt` | emulator/src/instructions/hlt.cpp:6-10 | Keeps the data as raw data and decodes to type HLT with text "HLT". |
| `Sx64.Instruction.Nop` | emulator/src/instructions/nop.cpp:7-11 | Keeps the data as raw data and decodes to type NOP with text "NOP". |
| `Sx64.Instruction.Decode` | emulator/src/instructions/hlt.cpp:12-16 | HLT sets type HLT and text "HLT". NOP sets type NOP and text "NOP". |
| `Sx64.Instruction.GetSize` | emulator/src/instructions/hlt.cpp:18-21 | HLT and NOP are one byte long. |
| `Sx64.Instruction.GetType` | emulator/src/core/instr.cpp:10-13 | The stored type, without side effects. |
| `Sx64.Instruction.GetDecodedString` | emulator/src/core/instr.cpp:15-18 | The stored text, without side effects. |
| `Sx64.Instruction.GetRawData` | emulator/src/core/instr.cpp:20-23 | The constructor's data, without side effects. |
| `Sx64.Instruction.Action` | emulator/src/instructions/hlt.cpp:23-26 | HLT clears `running`; NOP leaves it. Nothing else in the CPU changes. |
| `Sx64.CPU.constructor` | emulator/src/core/sx64.cpp:6-9 | Eight zero registers, `sb = sp = fr = 0`, `ip` at the bootstrap address 0, a new empty bus, not running. |
| `Sx64.CPU.Halt` | emulator/src/core/sx64.cpp:73-76 | Clears `running` and changes nothing else. Applying it twice is applying it once. |
| `Sx64.CPU.DecodeInstruction` | emulator/src/core/sx64.cpp:56-66 | A new HLT instruction holding the word exactly when the word is 1, and none otherwise. |
| `Sx64.CPU.FetchWord` | emulator/src/core/sx64.cpp:28-45 | The little-endian value of 1 byte at `ip` when that byte is 0x01, else of 8 bytes. |
| `Sx64.CPU.FetchBytes` | emulator/src/core/sx64.cpp:41-45 | The OR loop gives the little-endian value of the bytes the bus holds at `at`, `at+1`, and so on. |
| `Sx64.CPU.FetchInstructions` | emulator/src/core/sx64.cpp:24-54 | With 0x01 at `ip`: HLT runs, `running` is cleared and `ip` moves by 1. Otherwise the word is undecodable and nothing changes. |
| `Sx64.CPU.Step` | emulator/src/core/sx64.cpp:68-71 | One fetch-decode-execute step, as `FetchInstructions`. |
| `Sx64.CPU.Run` | emulator/src/core/sx64.cpp:11-22 | Sets `running` and steps. With 0x01 at `ip` it stops after one step with `ip + 1`; otherwise it ends at an undecodable word with `running` still set. |
| `Toolchain.LexHalt` | tools/asm.py:89-96 | The text `HLT` lexes to the one keyword HLT. |
| `Toolchain.AssembleHalt` | tools/asm.py:185-186 | The keyword HLT assembles to the byte 0x01 alone. |
| `Toolchain.Boot` | emulator/src/devices/memory.cpp:3-4 | A new CPU with a writable memory device holding the given byte at the bootstrap address. |
| `Toolchain.BootAndRun` | emulator/src/core/sx64.cpp:11-19 | Run on that CPU halts with `ip == 1` when the byte is 0x01, and stops at an undecodable word otherwise. Registers and pointers stay zero. |
| `Toolchain.RunAssembledHalt` | emulator/src/core/sx64.cpp:73-76 | Assembling `HLT`, loading it and running halts after one instruction with `ip == 1`. |

## Left out

- The character classes are ASCII only. Python's `isspace`, `isalpha` and `isdigit` also accept other Unicode characters.
- The `__main__` block of `tools/asm.py` (argument checks, file reading and writing, stdout) is input/output.
- Where the source raises or loops, the model returns an error value instead:
  - the empty-text `IndexError`;
  - `None in 'xX'` after a final `0`;
  - `int("0x", 16)`;
  - `None.type` at the end of the tokens;
  - `struct.error` for values of 2^64 or more;
  - the endless loop of `parse` on a token that is neither KEYWORD nor NEWLINE, as `NoProgress`.
- The null dereference after a failed decode is the `Undecodable` outcome. `CPU.Run` returns at that point instead of crashing, with `running` still set.
- The octal and binary branches of `parse_number` are not modelled. Only a digit reaches `parse_number`, and a leading 0 always takes the hexadecimal branch, so those branches cannot run.
- `Assembler.address` is kept as a field, but the source never updates it.
- `output_bytes` is modelled as a sequence value passed into and out of each handler. The source appends to one bytearray in place.
- Some source functions are split into several methods, each proved against the same specification:
  - `parse_number` into `ParseNumber`, `ParseZeroLed` and `ParseHexDigits`;
  - the operand dispatch of `parse` into `HandleOperands` and its helpers;
  - `fetchInstructions` into `FetchWord`, `FetchBytes` and `FetchInstructions`.
- Sx64.CPU.FetchBytes: models `|=` as `+`. Each byte read is below 256 and is shifted to its own eight bits, so the two agree. The model does not prove OR and addition equal bit by bit.
- Sx64.FetchedWord: its own contract states only that the word fits in 64 bits. The exact value is stated through `FetchWord`, `FetchBytes` and the lemmas.
- AsmEncoding.ParseProgram: its own contract states only that the result is well formed. The exact result is stated by `Assembler.Parse` and the round-trip lemmas.
- AsmEncoding.ParseStatement: its own contract states only well-formedness and progress. The opcode is stated by `StatementOpcode` and the result by `StatementOfTokens`.
- AsmEncoding.ParseOperands: its own contract states only the shape and the register bound. The result is stated by `OperandsOfTokens`.
- SystemBus.Bus.Write: its precondition `Bus.Valid` requires that two different devices never share their memory. In the source each `MemoryDevice` owns its vector.
- The printer used for the lexing round trip writes numbers in decimal, and 0 as `0x0`. A bare `0` at the end of a text does not lex.
- The base `Instruction::getSize` (0) is not modelled. It is pure virtual in `instr.hpp`, so no instruction object uses it. The base `Instruction` constructor appears as the first stage of `Hlt` and `Nop`.
- `Device::getSize` is not modelled: it is pure virtual with no body. A device with the base behaviour is modelled with no bytes.
- These are declared in the headers but have no body, so they are not modelled:
  - `Bus::enable` and `Bus::getDevices`;
  - the buffer constructor, `initializeWithBuffer` and `getSize` of `MemoryDevice`;
  - `CPU::setRegister` and `CPU::getRegister`.
- Left out because they are logging or process entry:
  - `CPU::dumpState` and `CPU::getBus`;
  - every logging call;
  - `emulator/src/main.cpp`.
- The serial console device is a window, font rendering and event polling, and is not modelled.
- Opcodes other than 0x00 and 0x01 have no emulator behaviour in this revision. Only their assembler encoding is modelled.
- A NOP can be built and run by the model, but `decodeInstruction` never produces one: the byte 0x00 gives an eight-byte undecodable word.

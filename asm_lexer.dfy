/** The Lexer of tools/asm.py: a cursor over the source text that advances
    `position` and `current` (Python's current_char, None past the end). Every
    method is proved against the lexing functions of module AsmTokens. */
module AsmLexer {
  import opened Results
  import opened AsmTokens

  /** source[p], or None once p has run off the end. */
  function At(s: string, p: nat): Option<char>
  {
    if p < |s| then Some(s[p]) else None
  }

  class Lexer {
    const source: string
    var position: nat
    var current: Option<char>

    ghost predicate Valid()
      reads this
    {
      position <= |source| && current == At(source, position)
    }

    /** Reading source[0] raises IndexError on an empty text, so the source
        must not be empty. */
    constructor (source: string)
      requires source != []
      ensures Valid() && this.source == source && position == 0
      ensures current == Some(source[0])
    {
      this.source := source;
      position := 0;
      current := Some(source[0]);
    }

    /** Move to the next character. The Lexer only advances over a current character. */
    method Advance()
      requires Valid() && current.Some?
      modifies this`position, this`current
      ensures Valid() && position == old(position) + 1
    {
      position := position + 1;
      if position > |source| - 1 {
        current := None;
      } else {
        current := Some(source[position]);
      }
    }

    /** Stop at the first character that is not white space. */
    method SkipWhitespace()
      requires Valid()
      modifies this`position, this`current
      ensures Valid() && position == ScanWhile(source, old(position), IsSpace)
    {
      while current.Some? && IsSpace(current.value)
        invariant Valid()
        invariant ScanWhile(source, position, IsSpace) == ScanWhile(source, old(position), IsSpace)
        decreases |source| - position
      {
        Advance();
      }
    }

    /** Append characters to a literal while they satisfy p (the
        `value += self.current_char; self.advance()` loops of the source). */
    method ReadWhile(p: char -> bool) returns (value: string)
      requires Valid()
      modifies this`position, this`current
      ensures Valid() && position == ScanWhile(source, old(position), p)
      ensures value == source[old(position)..position]
    {
      value := "";
      while current.Some? && p(current.value)
        invariant Valid() && old(position) <= position
        invariant value == source[old(position)..position]
        invariant ScanWhile(source, position, p) == ScanWhile(source, old(position), p)
        decreases |source| - position
      {
        value := value + [current.value];
        Advance();
      }
    }

    /** Read a maximal run of letters and digits: R0..R7 (either case) is a
        register, anything else an upper-cased keyword. */
    method ParseKeyword() returns (t: Token)
      requires Valid()
      modifies this`position, this`current
      ensures Valid() && position == ScanWhile(source, old(position), IsAlnum)
      ensures t == WordToken(source[old(position)..position])
    {
      var value := ReadWhile(IsAlnum);
      if |value| == 2 && (value[0] == 'R' || value[0] == 'r') && '0' <= value[1] <= '7' {
        t := Register(Upper(value));
      } else {
        t := Keyword(Upper(value));
      }
    }

    /** Read a numeric literal. Only a digit reaches this method, so the octal
        and binary branches of the source (entered on 0, o, O, b or B) are
        never taken: a leading 0 always selects base 16. */
    method ParseNumber() returns (r: Result<Token, LexError>)
      requires Valid() && current.Some? && IsDigit(current.value)
      modifies this`position, this`current
      ensures Valid()
      ensures r.Ok? ==> ScanNumber(source, old(position)) == Ok((r.value, position))
      ensures r.Err? ==> ScanNumber(source, old(position)) == Err(r.error)
    {
      if current.value in "0xX" {
        r := ParseZeroLed();
      } else {
        var digits := ReadWhile(IsDigit);
        r := Ok(Number(ValueOf(digits, 10)));
      }
    }

    /** parse_number after a leading 0: a prefix x or X, or more hex digits. */
    method ParseZeroLed() returns (r: Result<Token, LexError>)
      requires Valid() && current == Some('0')
      modifies this`position, this`current
      ensures Valid()
      ensures r.Ok? ==> ScanNumber(source, old(position)) == Ok((r.value, position))
      ensures r.Err? ==> ScanNumber(source, old(position)) == Err(r.error)
    {
      var start := position;
      Advance();
      if current.None? {
        return Err(NumberAtEnd(position));
      }
      if current.value in "xX" {
        r := ParseHexDigits();
      } else {
        var digits := ReadWhile(IsHexChar);
        assert ScanWhile(source, start, IsHexChar) == ScanWhile(source, start + 1, IsHexChar);
        assert source[start..position] == ['0'] + digits;
        r := Ok(Number(ValueOf(['0'] + digits, 16)));
      }
    }

    /** parse_number on the x or X of a 0x prefix: at least one hex digit must follow. */
    method ParseHexDigits() returns (r: Result<Token, LexError>)
      requires Valid() && current.Some? && current.value in "xX"
      requires 1 <= position && source[position - 1] == '0'
      modifies this`position, this`current
      ensures Valid()
      ensures r.Ok? ==> ScanNumber(source, old(position) - 1) == Ok((r.value, position))
      ensures r.Err? ==> ScanNumber(source, old(position) - 1) == Err(r.error)
    {
      Advance();
      var digits := ReadWhile(IsHexChar);
      if digits == [] {
        return Err(MissingHexDigits(position));
      }
      r := Ok(Number(ValueOf(digits, 16)));
    }

    /** Read a character literal 'c' from its opening quote. */
    method ParseChar() returns (r: Result<Token, LexError>)
      requires Valid() && current == Some('\'')
      modifies this`position, this`current
      ensures Valid()
      ensures match ScanChar(source, old(position))
              case Ok((t, end)) => r == Ok(t) && position == end
              case Err(e) => r == Err(e)
    {
      Advance();
      if current.None? || current.value == '\'' {
        return Err(EmptyCharLiteral(position));
      }
      var value := current.value;
      Advance();
      if current != Some('\'') {
        return Err(UnclosedCharLiteral(position));
      }
      Advance();
      r := Ok(Char(value as nat));
    }

    /** Turn the rest of the source into tokens, or report the first error. */
    method Tokenize() returns (r: Result<seq<Token>, LexError>)
      requires Valid()
      modifies this`position, this`current
      ensures r == LexFrom(source, old(position))
    {
      var tokens: seq<Token> := [];
      PrependNothing(LexFrom(source, position));
      while current.Some?
        invariant Valid()
        invariant LexFrom(source, old(position)) == Prepend(tokens, LexFrom(source, position))
        decreases |source| - position
      {
        var c := current.value;
        ghost var before, here := tokens, position;
        if IsSpace(c) {
          if c == '\n' {
            tokens := tokens + [Newline];
          }
          ghost var added := if c == '\n' then [Newline] else [];
          assert tokens == before + added;
          SkipWhitespace();
          StepTokens(source, old(position), before, here, added, position);
          continue;
        }
        if c == ',' {
          tokens := tokens + [Comma];
          Advance();
          StepTokens(source, old(position), before, here, [Comma], position);
          continue;
        }
        if c == ':' {
          tokens := tokens + [Colon];
          Advance();
          StepTokens(source, old(position), before, here, [Colon], position);
          continue;
        }
        if IsAlpha(c) {
          var t := ParseKeyword();
          tokens := tokens + [t];
          StepTokens(source, old(position), before, here, [t], position);
          continue;
        }
        if c in "0xX0oO0bB" || IsDigit(c) {
          var t := ParseNumber();
          if t.Err? {
            StepFails(source, old(position), before, here, t.error);
            return Err(t.error);
          }
          tokens := tokens + [t.value];
          StepTokens(source, old(position), before, here, [t.value], position);
          continue;
        }
        if c == '\'' {
          var t := ParseChar();
          if t.Err? {
            StepFails(source, old(position), before, here, t.error);
            return Err(t.error);
          }
          tokens := tokens + [t.value];
          StepTokens(source, old(position), before, here, [t.value], position);
          continue;
        }
        StepFails(source, old(position), before, here, UnexpectedCharacter(c, position));
        return Err(UnexpectedCharacter(c, position));
      }
      assert tokens + [] == tokens;
      r := Ok(tokens);
    }
  }
}

/** The assembler's tokens and what lexing a source text means (tools/asm.py,
    class Lexer): a pure function over the text and a position, against which
    the imperative Lexer of module AsmLexer is proved. */
module AsmTokens {
  import opened Results

  datatype Token =
    | Register(name: string)
    | Keyword(name: string)
    | Number(value: nat)
    | Char(code: nat)
    | Comma
    | Colon
    | Newline

  datatype TokenType = REGISTER | KEYWORD | NUMBER | CHAR | COMMA | COLON | NEWLINE

  function TypeOf(t: Token): TokenType
  {
    match t
    case Register(_) => REGISTER
    case Keyword(_) => KEYWORD
    case Number(_) => NUMBER
    case Char(_) => CHAR
    case Comma => COMMA
    case Colon => COLON
    case Newline => NEWLINE
  }

  /** Why lexing stops. The positions are those the Lexer holds when it raises. */
  datatype LexError =
    | EmptySource                              // source[0] on "" raises IndexError
    | UnexpectedCharacter(c: char, position: nat)
    | EmptyCharLiteral(position: nat)
    | UnclosedCharLiteral(position: nat)
    | NumberAtEnd(position: nat)               // `None in 'xX'` raises TypeError
    | MissingHexDigits(position: nat)          // int("0x", 16) raises ValueError

  // Character classes, restricted to ASCII.

  predicate IsSpace(c: char)
  {
    var n := c as int;
    n == 0x20 || 0x09 <= n <= 0x0D || 0x1C <= n <= 0x1F
  }

  predicate IsAlpha(c: char)
  {
    'A' <= c <= 'Z' || 'a' <= c <= 'z'
  }

  predicate IsDigit(c: char)
  {
    '0' <= c <= '9'
  }

  predicate IsAlnum(c: char)
  {
    IsAlpha(c) || IsDigit(c)
  }

  /** The characters the hexadecimal branch of parse_number keeps consuming. */
  predicate IsHexChar(c: char)
  {
    IsDigit(c) || c in "ABCDEFabcdef"
  }

  function UpperChar(c: char): char
  {
    if 'a' <= c <= 'z' then (c as int - 32) as char else c
  }

  function Upper(s: string): string
  {
    seq(|s|, i requires 0 <= i < |s| => UpperChar(s[i]))
  }

  /** The first position at or after i whose character does not satisfy p. */
  function ScanWhile(s: seq<char>, i: nat, p: char -> bool): (j: nat)
    requires i <= |s|
    ensures i <= j <= |s|
    ensures forall k :: i <= k < j ==> p(s[k])
    ensures j == |s| || !p(s[j])
    decreases |s| - i
  {
    if i < |s| && p(s[i]) then ScanWhile(s, i + 1, p) else i
  }

  function DigitValue(c: char): nat
  {
    if '0' <= c <= '9' then c as nat - '0' as nat
    else if 'a' <= c <= 'f' then c as nat - 'a' as nat + 10
    else if 'A' <= c <= 'F' then c as nat - 'A' as nat + 10
    else 0
  }

  /** int(ds, base) for a string of digits, most significant first. */
  function ValueOf(ds: seq<char>, base: nat): nat
  {
    if ds == [] then 0
    else ValueOf(ds[..|ds| - 1], base) * base + DigitValue(ds[|ds| - 1])
  }

  /** The token for a maximal run of letters and digits: a register name R0..R7
      in either case, or else an upper-cased keyword. */
  function WordToken(w: string): (t: Token)
    ensures (t.Register? || t.Keyword?) && t.name == Upper(w)
    ensures t.Register? ==> |t.name| == 2 && t.name[0] == 'R' && '0' <= t.name[1] <= '7'
  {
    if |w| == 2 && (w[0] == 'R' || w[0] == 'r') && '0' <= w[1] <= '7'
    then Register(Upper(w))
    else Keyword(Upper(w))
  }

  /** parse_number from position i: a literal starting with 0 is always read in
      base 16 (after an optional x or X); one starting with 1..9 in base 10. */
  function ScanNumber(s: seq<char>, i: nat): (r: Result<(Token, nat), LexError>)
    requires i < |s| && IsDigit(s[i])
    ensures r.Ok? ==> i < r.value.1 <= |s| && r.value.0.Number?
  {
    if s[i] == '0' then
      if i + 1 == |s| then Err(NumberAtEnd(i + 1))
      else if s[i + 1] == 'x' || s[i + 1] == 'X' then
        var end := ScanWhile(s, i + 2, IsHexChar);
        if end == i + 2 then Err(MissingHexDigits(end))
        else Ok((Number(ValueOf(s[i + 2..end], 16)), end))
      else
        var end := ScanWhile(s, i, IsHexChar);
        Ok((Number(ValueOf(s[i..end], 16)), end))
    else
      var end := ScanWhile(s, i, IsDigit);
      Ok((Number(ValueOf(s[i..end], 10)), end))
  }

  /** parse_char from the opening quote at position i. */
  function ScanChar(s: seq<char>, i: nat): (r: Result<(Token, nat), LexError>)
    requires i < |s| && s[i] == '\''
    ensures r.Ok? ==> r.value.1 == i + 3 <= |s| && r.value.0 == Char(s[i + 1] as nat)
    ensures r.Err? <==> (i + 1 == |s| || s[i + 1] == '\'' || i + 2 == |s| || s[i + 2] != '\'')
  {
    if i + 1 == |s| || s[i + 1] == '\'' then Err(EmptyCharLiteral(i + 1))
    else if i + 2 == |s| || s[i + 2] != '\'' then Err(UnclosedCharLiteral(i + 2))
    else Ok((Char(s[i + 1] as nat), i + 3))
  }

  function Prepend(ts: seq<Token>, r: Result<seq<Token>, LexError>): Result<seq<Token>, LexError>
  {
    if r.Ok? then Ok(ts + r.value) else r
  }

  lemma PrependNothing(r: Result<seq<Token>, LexError>)
    ensures Prepend([], r) == r
  {
    if r.Ok? {
      assert [] + r.value == r.value;
    }
  }

  lemma PrependAppend(ts: seq<Token>, us: seq<Token>, r: Result<seq<Token>, LexError>)
    ensures Prepend(ts, Prepend(us, r)) == Prepend(ts + us, r)
  {
    if r.Ok? {
      assert ts + (us + r.value) == (ts + us) + r.value;
    }
  }

  /** One pass of tokenize's loop from position i: the tokens it appends
      (none for white space without a line break) and where it leaves the
      Lexer, or the error it raises. */
  function NextToken(s: seq<char>, i: nat): (r: Result<(seq<Token>, nat), LexError>)
    requires i < |s|
    ensures r.Ok? ==> i < r.value.1 <= |s| && |r.value.0| <= 1
  {
    var c := s[i];
    if IsSpace(c) then
      Ok((if c == '\n' then [Newline] else [], ScanWhile(s, i, IsSpace)))
    else if c == ',' then Ok(([Comma], i + 1))
    else if c == ':' then Ok(([Colon], i + 1))
    else if IsAlpha(c) then
      var end := ScanWhile(s, i, IsAlnum);
      Ok(([WordToken(s[i..end])], end))
    else if IsDigit(c) then
      match ScanNumber(s, i)
      case Err(e) => Err(e)
      case Ok((t, end)) => Ok(([t], end))
    else if c == '\'' then
      match ScanChar(s, i)
      case Err(e) => Err(e)
      case Ok((t, end)) => Ok(([t], end))
    else Err(UnexpectedCharacter(c, i))
  }

  /** The tokens of s[i..]: what tokenize returns when the Lexer stands at i,
      or the first error it raises. */
  function LexFrom(s: seq<char>, i: nat): Result<seq<Token>, LexError>
    requires i <= |s|
    decreases |s| - i
  {
    if i == |s| then Ok([])
    else
      match NextToken(s, i)
      case Err(e) => Err(e)
      case Ok((ts, end)) => Prepend(ts, LexFrom(s, end))
  }

  /** Tokenizing the rest of the text gives at most one token per character
      left, or an error placed inside that rest; never the empty-source error. */
  lemma {:induction false} LexFromBounds(s: seq<char>, i: nat)
    requires i <= |s|
    ensures LexFrom(s, i).Ok? ==> |LexFrom(s, i).value| <= |s| - i
    ensures LexFrom(s, i).Err? ==>
              !LexFrom(s, i).error.EmptySource? && i <= LexFrom(s, i).error.position <= |s|
    decreases |s| - i
  {
    if i < |s| && NextToken(s, i).Ok? {
      LexFromBounds(s, NextToken(s, i).value.1);
    }
  }

  /** Unfolding LexFrom once, at a position where the loop makes progress. */
  lemma LexStep(s: seq<char>, i: nat, ts: seq<Token>, j: nat)
    requires i < |s| && NextToken(s, i) == Ok((ts, j))
    ensures j <= |s| && LexFrom(s, i) == Prepend(ts, LexFrom(s, j))
  {
  }

  /** The loop's invariant carried over one pass that appends `added`. */
  lemma StepTokens(s: seq<char>, start: nat, before: seq<Token>, i: nat, added: seq<Token>, j: nat)
    requires start <= i < |s| && NextToken(s, i) == Ok((added, j))
    requires LexFrom(s, start) == Prepend(before, LexFrom(s, i))
    ensures j <= |s| && LexFrom(s, start) == Prepend(before + added, LexFrom(s, j))
  {
    LexStep(s, i, added, j);
    PrependAppend(before, added, LexFrom(s, j));
  }

  /** An error in one pass is the error of the whole text. */
  lemma StepFails(s: seq<char>, start: nat, before: seq<Token>, i: nat, e: LexError)
    requires start <= i < |s| && NextToken(s, i) == Err(e)
    requires LexFrom(s, start) == Prepend(before, LexFrom(s, i))
    ensures LexFrom(s, start) == Err(e)
  {
  }

  /** What `Lexer(source).tokenize()` returns or raises. */
  function Lex(source: string): (r: Result<seq<Token>, LexError>)
    ensures r == Err(EmptySource) <==> source == []
    ensures r.Ok? ==> |r.value| <= |source|
  {
    if source == [] then Err(EmptySource)
    else
      LexFromBounds(source, 0);
      LexFrom(source, 0)
  }
}

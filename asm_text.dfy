/** The lexer's partner: a printer from tokens back to assembler text, and the
    round trip `LexFrom(Render(ts)) == Ok(ts)`, together with the facts about
    literals, registers and white space that the round trip rests on. */
module AsmText {
  import opened Results
  import opened AsmTokens
  import opened Slices

  const DIGITS: string := "0123456789"

  function DigitChar(d: nat): char
    requires d < 10
  {
    DIGITS[d]
  }

  /** The decimal digits of n, most significant first, no leading zero: str(n). */
  function Decimal(n: nat): (ds: string)
    ensures ds != []
    decreases n
  {
    if n < 10 then [DigitChar(n)] else Decimal(n / 10) + [DigitChar(n % 10)]
  }

  lemma DigitCharValue(d: nat)
    requires d < 10
    ensures DigitValue(DigitChar(d)) == d && IsDigit(DigitChar(d))
  {
  }

  /** Reading back the printed digits gives the number. */
  lemma {:induction false} DecimalValue(n: nat)
    ensures ValueOf(Decimal(n), 10) == n
    decreases n
  {
    var ds := Decimal(n);
    if n < 10 {
      DigitCharValue(n);
      assert ds[..0] == [];
    } else {
      DecimalValue(n / 10);
      AppendDigit(Decimal(n / 10), n % 10, 10);
    }
  }

  /** Appending one digit multiplies by the base and adds the digit. */
  lemma AppendDigit(ds: string, d: nat, base: nat)
    requires d < 10
    ensures ValueOf(ds + [DigitChar(d)], base) == ValueOf(ds, base) * base + d
  {
    var es := ds + [DigitChar(d)];
    assert es[..|es| - 1] == ds;
    DigitCharValue(d);
  }

  /** The printed digits are decimal digits, and only 0 starts with '0'. */
  lemma {:induction false} DecimalChars(n: nat)
    ensures forall k :: 0 <= k < |Decimal(n)| ==> IsDigit(Decimal(n)[k])
    ensures n > 0 ==> Decimal(n)[0] != '0'
    decreases n
  {
    if n < 10 {
      DigitCharValue(n);
    } else {
      DecimalChars(n / 10);
      DigitCharValue(n % 10);
    }
  }

  /** A leading zero does not change a literal's value. */
  lemma {:induction false} LeadingZero(ds: string, base: nat)
    ensures ValueOf(['0'] + ds, base) == ValueOf(ds, base)
    decreases |ds|
  {
    if ds != [] {
      var zs := ['0'] + ds;
      assert zs[..|zs| - 1] == ['0'] + ds[..|ds| - 1];
      LeadingZero(ds[..|ds| - 1], base);
    } else {
      assert (['0'] + ds)[..0] == [];
    }
  }

  /** ScanWhile stops exactly at j when every character before j satisfies p and s[j] does not. */
  lemma {:induction false} ScanWhileAt(s: seq<char>, i: nat, j: nat, p: char -> bool)
    requires i <= j <= |s|
    requires forall k :: i <= k < j ==> p(s[k])
    requires j == |s| || !p(s[j])
    ensures ScanWhile(s, i, p) == j
    decreases j - i
  {
    if i < j {
      ScanWhileAt(s, i + 1, j, p);
    }
  }

  predicate HexDigitsAt(s: seq<char>, j: nat, ds: string)
  {
    j + |ds| <= |s| && (forall k :: 0 <= k < |ds| ==> IsHexChar(ds[k]) && s[j + k] == ds[k])
    && (j + |ds| == |s| || !IsHexChar(s[j + |ds|]))
  }

  /** 0x or 0X followed by hex digits is read in base 16. */
  lemma PrefixedHexLiteral(s: seq<char>, i: nat, ds: string)
    requires i + 2 <= |s| && s[i] == '0' && (s[i + 1] == 'x' || s[i + 1] == 'X')
    requires ds != [] && HexDigitsAt(s, i + 2, ds)
    ensures ScanNumber(s, i) == Ok((Number(ValueOf(ds, 16)), i + 2 + |ds|))
  {
    HexExtent(s, i + 2, ds);
    PrefixedHexScan(s, i, ds);
  }

  /** The hex-digit run at j ends where the digits end. */
  lemma HexExtent(s: seq<char>, j: nat, ds: string)
    requires HexDigitsAt(s, j, ds)
    ensures ScanWhile(s, j, IsHexChar) == j + |ds| && s[j..j + |ds|] == ds
  {
    forall k | j <= k < j + |ds|
      ensures IsHexChar(s[k])
    {
      assert s[k] == ds[k - j];
    }
    ScanWhileAt(s, j, j + |ds|, IsHexChar);
    SliceMatches(s, j, ds);
  }

  /** The branch of parse_number taken by 0x or 0X. */
  lemma PrefixedHexScan(s: seq<char>, i: nat, ds: string)
    requires i + 2 <= |s| && s[i] == '0' && (s[i + 1] == 'x' || s[i + 1] == 'X') && ds != []
    requires i + 2 + |ds| <= |s| && ScanWhile(s, i + 2, IsHexChar) == i + 2 + |ds|
    requires s[i + 2..i + 2 + |ds|] == ds
    ensures ScanNumber(s, i) == Ok((Number(ValueOf(ds, 16)), i + 2 + |ds|))
  {
  }

  /** A literal with a leading 0 and no x is also read in base 16: 010 is 16. */
  lemma ZeroLedLiteral(s: seq<char>, i: nat, ds: string)
    requires i < |s| && s[i] == '0' && ds != [] && HexDigitsAt(s, i + 1, ds)
    ensures ScanNumber(s, i) == Ok((Number(ValueOf(ds, 16)), i + 1 + |ds|))
  {
    ZeroLedExtent(s, i, ds);
    ZeroLedScan(s, i, ds);
    LeadingZero(ds, 16);
  }

  /** The hex-digit run after a leading 0 ends where the digits end. */
  lemma ZeroLedExtent(s: seq<char>, i: nat, ds: string)
    requires i < |s| && s[i] == '0' && ds != [] && HexDigitsAt(s, i + 1, ds)
    ensures i + 1 < |s| && s[i + 1] != 'x' && s[i + 1] != 'X'
    ensures ScanWhile(s, i, IsHexChar) == i + 1 + |ds|
    ensures s[i..i + 1 + |ds|] == ['0'] + ds
  {
    var end := i + 1 + |ds|;
    assert s[i + 1] == ds[0];
    forall k | i <= k < end
      ensures IsHexChar(s[k])
    {
      if k > i {
        assert s[k] == ds[k - (i + 1)];
      }
    }
    ScanWhileAt(s, i, end, IsHexChar);
    SliceMatches(s, i + 1, ds);
    SliceCons(s, i, end);
  }

  /** The branch of parse_number taken by a 0 not followed by x or X. */
  lemma ZeroLedScan(s: seq<char>, i: nat, ds: string)
    requires i < |s| && s[i] == '0'
    requires i + 1 < |s| && s[i + 1] != 'x' && s[i + 1] != 'X'
    requires ScanWhile(s, i, IsHexChar) == i + 1 + |ds|
    requires s[i..i + 1 + |ds|] == ['0'] + ds
    ensures ScanNumber(s, i) == Ok((Number(ValueOf(['0'] + ds, 16)), i + 1 + |ds|))
  {
  }

  /** A literal starting with 1..9 is read in base 10. */
  lemma DecimalLiteral(s: seq<char>, i: nat, n: nat)
    requires n > 0
    requires i + |Decimal(n)| <= |s|
    requires s[i..i + |Decimal(n)|] == Decimal(n)
    requires i + |Decimal(n)| == |s| || !IsDigit(s[i + |Decimal(n)|])
    ensures IsDigit(s[i]) && ScanNumber(s, i) == Ok((Number(n), i + |Decimal(n)|))
  {
    var ds := Decimal(n);
    var end := i + |ds|;
    DecimalChars(n);
    assert s[i] == ds[0];
    DecimalValue(n);
    assert forall k :: i <= k < end ==> s[k] == ds[k - i];
    ScanWhileAt(s, i, end, IsDigit);
  }

  /** parse_number fails in exactly two ways: a 0 that ends the text (the
      lookahead for x or X finds None), and 0x or 0X with no hex digit after
      it (int("0x", 16) raises). */
  lemma ScanNumberFails(s: seq<char>, i: nat)
    requires i < |s| && IsDigit(s[i])
    ensures ScanNumber(s, i).Err? <==>
              s[i] == '0' && (i + 1 == |s| || ((s[i + 1] == 'x' || s[i + 1] == 'X')
                                               && (i + 2 == |s| || !IsHexChar(s[i + 2]))))
    ensures ScanNumber(s, i) == Err(NumberAtEnd(i + 1)) <==> s[i] == '0' && i + 1 == |s|
    ensures ScanNumber(s, i) == Err(MissingHexDigits(i + 2)) <==>
              s[i] == '0' && i + 1 < |s| && (s[i + 1] == 'x' || s[i + 1] == 'X')
              && (i + 2 == |s| || !IsHexChar(s[i + 2]))
  {
    if s[i] == '0' && i + 1 < |s| && (s[i + 1] == 'x' || s[i + 1] == 'X') {
      var end := ScanWhile(s, i + 2, IsHexChar);
      assert end == i + 2 <==> (i + 2 == |s| || !IsHexChar(s[i + 2]));
    }
  }

  // Printing tokens.

  predicate IsCharCode(n: nat)
  {
    n < 0xD800 || 0xE000 <= n < 0x11_0000
  }

  predicate IsUpperWordChar(c: char)
  {
    'A' <= c <= 'Z' || IsDigit(c)
  }

  /** Tokens the lexer can produce and the printer can print. */
  predicate Printable(t: Token)
  {
    match t
    case Register(name) => |name| == 2 && name[0] == 'R' && '0' <= name[1] <= '7'
    case Keyword(name) =>
      name != [] && 'A' <= name[0] <= 'Z'
      && (forall k :: 0 <= k < |name| ==> IsUpperWordChar(name[k]))
      && !(|name| == 2 && name[0] == 'R' && '0' <= name[1] <= '7')
    case Char(code) => IsCharCode(code) && code != '\'' as nat
    case _ => true
  }

  /** 0 prints as 0x0 (a bare 0 at the end of the text would not lex). */
  function NumberText(n: nat): string
  {
    if n == 0 then "0x0" else Decimal(n)
  }

  function Text(t: Token): (s: string)
    requires Printable(t)
  {
    match t
    case Register(name) => name
    case Keyword(name) => name
    case Number(n) => NumberText(n)
    case Char(code) => "'" + [code as char] + "'"
    case Comma => ","
    case Colon => ":"
    case Newline => "\n"
  }

  function Separator(t: Token, u: Token): string
  {
    if t == Newline || u == Newline then "" else " "
  }

  predicate AllPrintable(ts: seq<Token>)
  {
    forall k :: 0 <= k < |ts| ==> Printable(ts[k])
  }

  /** Token texts separated by one space, none next to a line break. */
  function Render(ts: seq<Token>): string
    requires AllPrintable(ts)
  {
    if ts == [] then ""
    else if |ts| == 1 then Text(ts[0])
    else Text(ts[0]) + Separator(ts[0], ts[1]) + Render(ts[1..])
  }

  /** Two line breaks in a row are one white-space run, hence one NEWLINE. */
  predicate NoDoubleNewline(ts: seq<Token>)
  {
    |ts| < 2 || (!(ts[0] == Newline && ts[1] == Newline) && NoDoubleNewline(ts[1..]))
  }

  lemma TextStartsSolid(t: Token)
    requires Printable(t) && t != Newline
    ensures Text(t) != [] && !IsSpace(Text(t)[0])
  {
    if t.Number? {
      DecimalChars(t.value);
    }
  }

  lemma UpperOfUpper(w: string)
    requires forall k :: 0 <= k < |w| ==> IsUpperWordChar(w[k])
    ensures Upper(w) == w
  {
  }

  /** The characters that may follow a printed token. */
  predicate Boundary(s: seq<char>, j: nat)
  {
    j == |s| || (j < |s| && (s[j] == ' ' || s[j] == '\n'))
  }

  /** Token t printed at i and followed by a space, a line break or the end. */
  predicate PrintedAt(s: seq<char>, i: nat, t: Token)
  {
    Printable(t) && i + |Text(t)| <= |s| && s[i..i + |Text(t)|] == Text(t)
    && Boundary(s, i + |Text(t)|)
  }

  lemma WordStep(s: seq<char>, i: nat, t: Token)
    requires PrintedAt(s, i, t) && (t.Register? || t.Keyword?)
    ensures NextToken(s, i) == Ok(([t], i + |Text(t)|))
  {
    var end := i + |t.name|;
    assert Text(t) == t.name;
    assert forall k :: i <= k < end ==> s[k] == t.name[k - i];
    assert IsAlpha(s[i]);
    ScanWhileAt(s, i, end, IsAlnum);
    UpperOfUpper(t.name);
  }

  lemma NumberStep(s: seq<char>, i: nat, t: Token)
    requires PrintedAt(s, i, t) && t.Number?
    ensures NextToken(s, i) == Ok(([t], i + |Text(t)|))
  {
    var n := t.value;
    assert Text(t) == NumberText(n);
    if n == 0 {
      assert s[i] == '0' && s[i + 1] == 'x' && s[i + 2] == '0';
      ZeroStep(s, i);
    } else {
      DecimalStep(s, i, n);
    }
  }

  lemma ZeroStep(s: seq<char>, i: nat)
    requires i + 3 <= |s| && s[i] == '0' && s[i + 1] == 'x' && s[i + 2] == '0'
    requires Boundary(s, i + 3)
    ensures NextToken(s, i) == Ok(([Number(0)], i + 3))
  {
    PrefixedHexLiteral(s, i, "0");
  }

  lemma DecimalStep(s: seq<char>, i: nat, n: nat)
    requires n > 0 && i + |Decimal(n)| <= |s| && s[i..i + |Decimal(n)|] == Decimal(n)
    requires Boundary(s, i + |Decimal(n)|)
    ensures NextToken(s, i) == Ok(([Number(n)], i + |Decimal(n)|))
  {
    DecimalLiteral(s, i, n);
  }

  lemma CharStep(s: seq<char>, i: nat, t: Token)
    requires PrintedAt(s, i, t) && t.Char?
    ensures NextToken(s, i) == Ok(([t], i + |Text(t)|))
  {
    assert s[i] == '\'' && s[i + 1] == t.code as char && s[i + 2] == '\'';
  }

  lemma PunctuationStep(s: seq<char>, i: nat, t: Token)
    requires PrintedAt(s, i, t) && (t == Comma || t == Colon)
    ensures NextToken(s, i) == Ok(([t], i + |Text(t)|))
  {
    assert s[i] == Text(t)[0];
  }

  /** One token other than a line break, printed at i and followed by a space,
      a line break or the end, is lexed as itself. */
  lemma TokenStep(s: seq<char>, i: nat, t: Token)
    requires PrintedAt(s, i, t) && t != Newline
    ensures NextToken(s, i) == Ok(([t], i + |Text(t)|))
  {
    if t.Register? || t.Keyword? {
      WordStep(s, i, t);
    } else if t.Number? {
      NumberStep(s, i, t);
    } else if t.Char? {
      CharStep(s, i, t);
    } else {
      PunctuationStep(s, i, t);
    }
  }

  /** A token followed by text that lexes to rest lexes to the token and rest. */
  lemma SolidThen(s: seq<char>, i: nat, j: nat, t: Token, rest: seq<Token>, ts: seq<Token>)
    requires PrintedAt(s, i, t) && t != Newline && j == i + |Text(t)|
    requires j <= |s| && LexFrom(s, j) == Ok(rest) && ts == [t] + rest
    ensures LexFrom(s, i) == Ok(ts)
  {
    TokenThen(s, i, t, j);
    PrependOk([t], rest, LexFrom(s, j));
  }

  lemma TokenThen(s: seq<char>, i: nat, t: Token, j: nat)
    requires PrintedAt(s, i, t) && t != Newline && j == i + |Text(t)|
    ensures j <= |s| && LexFrom(s, i) == Prepend([t], LexFrom(s, j))
  {
    TokenStep(s, i, t);
    LexStep(s, i, [t], j);
  }

  lemma PrependOk(ts: seq<Token>, us: seq<Token>, r: Result<seq<Token>, LexError>)
    requires r == Ok(us)
    ensures Prepend(ts, r) == Ok(ts + us)
  {
  }

  /** A single blank before a solid character is skipped without a token. */
  lemma SkipBlank(s: seq<char>, i: nat)
    requires i < |s| && s[i] == ' '
    requires i + 1 == |s| || !IsSpace(s[i + 1])
    ensures LexFrom(s, i) == LexFrom(s, i + 1)
  {
    ScanWhileAt(s, i, i + 1, IsSpace);
    LexStep(s, i, [], i + 1);
    PrependNothing(LexFrom(s, i + 1));
  }

  lemma RenderSplit(ts: seq<Token>)
    requires AllPrintable(ts) && |ts| >= 2
    ensures Render(ts) == Text(ts[0]) + (Separator(ts[0], ts[1]) + Render(ts[1..]))
  {
  }

  lemma SplitAt(s: seq<char>, i: nat, a: seq<char>, b: seq<char>)
    requires i <= |s| && s[i..] == a + b
    ensures i + |a| <= |s| && s[i..i + |a|] == a && s[i + |a|..] == b
  {
    assert s[i..i + |a|] == (a + b)[..|a|];
    assert s[i + |a|..] == (a + b)[|a|..];
  }

  /** Where the first token's text ends and what follows it. */
  lemma RenderHead(s: seq<char>, i: nat, ts: seq<Token>)
    requires AllPrintable(ts) && ts != []
    requires i <= |s| && s[i..] == Render(ts)
    ensures i + |Text(ts[0])| <= |s| && s[i..i + |Text(ts[0])|] == Text(ts[0])
    ensures |ts| == 1 ==> i + |Text(ts[0])| == |s|
    ensures |ts| > 1 ==> s[i + |Text(ts[0])|..] == Separator(ts[0], ts[1]) + Render(ts[1..])
  {
    var w := Text(ts[0]);
    if |ts| > 1 {
      RenderSplit(ts);
      SplitAt(s, i, w, Separator(ts[0], ts[1]) + Render(ts[1..]));
    } else {
      SplitAt(s, i, w, []);
    }
  }

  /** Round trip: lexing printed tokens gives the tokens back. */
  lemma {:induction false} LexRender(s: seq<char>, i: nat, ts: seq<Token>)
    requires AllPrintable(ts) && NoDoubleNewline(ts)
    requires i <= |s| && s[i..] == Render(ts)
    ensures LexFrom(s, i) == Ok(ts)
    decreases |ts|, 1
  {
    if ts == [] {
      assert |s[i..]| == 0;
    } else if ts[0] == Newline {
      LexRenderNewline(s, i, ts);
    } else {
      LexRenderSolid(s, i, ts);
    }
  }

  lemma {:induction false} LexRenderNewline(s: seq<char>, i: nat, ts: seq<Token>)
    requires AllPrintable(ts) && NoDoubleNewline(ts) && ts != [] && ts[0] == Newline
    requires i <= |s| && s[i..] == Render(ts)
    ensures LexFrom(s, i) == Ok(ts)
    decreases |ts|, 0
  {
    var rest := ts[1..];
    assert AllPrintable(rest) && NoDoubleNewline(rest);
    RenderHead(s, i, ts);
    assert s[i] == '\n';
    if rest != [] {
      assert rest[0] != Newline by { assert !(ts[0] == Newline && ts[1] == Newline); }
      TextStartsSolid(rest[0]);
      RenderHead(s, i + 1, rest);
      assert s[i + 1] == Text(rest[0])[0];
    }
    LexRender(s, i + 1, rest);
    NewlineThen(s, i, ts);
  }

  /** A line break followed by text that lexes to the remaining tokens. */
  lemma NewlineThen(s: seq<char>, i: nat, ts: seq<Token>)
    requires ts != [] && ts[0] == Newline
    requires i < |s| && s[i] == '\n' && (i + 1 == |s| || !IsSpace(s[i + 1]))
    requires LexFrom(s, i + 1) == Ok(ts[1..])
    ensures LexFrom(s, i) == Ok(ts)
  {
    ScanWhileAt(s, i, i + 1, IsSpace);
    LexStep(s, i, [Newline], i + 1);
    PrependOk([Newline], ts[1..], LexFrom(s, i + 1));
    assert [Newline] + ts[1..] == ts;
  }

  lemma {:induction false} LexRenderSolid(s: seq<char>, i: nat, ts: seq<Token>)
    requires AllPrintable(ts) && NoDoubleNewline(ts) && ts != [] && ts[0] != Newline
    requires i <= |s| && s[i..] == Render(ts)
    ensures LexFrom(s, i) == Ok(ts)
    decreases |ts|, 0
  {
    var t, rest := ts[0], ts[1..];
    assert AllPrintable(rest) && NoDoubleNewline(rest);
    RenderHead(s, i, ts);
    var j := i + |Text(t)|;
    LexAfterSolid(s, j, t, rest);
    assert ts == [t] + rest;
    SolidThen(s, i, j, t, rest, ts);
  }

  /** What follows a printed token other than a line break: the end, a line
      break, or one blank and the next token. */
  lemma {:induction false} LexAfterSolid(s: seq<char>, j: nat, t: Token, rest: seq<Token>)
    requires Printable(t) && t != Newline && AllPrintable(rest) && NoDoubleNewline(rest)
    requires j <= |s|
    requires rest == [] ==> j == |s|
    requires rest != [] ==> s[j..] == Separator(t, rest[0]) + Render(rest)
    ensures Boundary(s, j) && LexFrom(s, j) == Ok(rest)
    decreases |rest|, 3
  {
    if rest == [] {
    } else if rest[0] == Newline {
      assert s[j..] == Render(rest);
      RenderHead(s, j, rest);
      assert s[j] == s[j..j + 1][0] == '\n';
      LexRender(s, j, rest);
    } else {
      assert s[j..] == " " + Render(rest);
      assert s[j] == s[j..][0] == ' ';
      assert s[j + 1..] == s[j..][1..];
      LexAfterBlank(s, j, rest);
    }
  }

  lemma {:induction false} LexAfterBlank(s: seq<char>, j: nat, rest: seq<Token>)
    requires AllPrintable(rest) && NoDoubleNewline(rest) && rest != [] && rest[0] != Newline
    requires j < |s| && s[j] == ' ' && s[j + 1..] == Render(rest)
    ensures LexFrom(s, j) == Ok(rest)
    decreases |rest|, 2
  {
    TextStartsSolid(rest[0]);
    RenderHead(s, j + 1, rest);
    LexRender(s, j + 1, rest);
    SkipBlank(s, j);
  }

  /** Whole-text form: the printed tokens lex back when they are not empty. */
  lemma LexRenderText(ts: seq<Token>)
    requires AllPrintable(ts) && NoDoubleNewline(ts) && ts != []
    ensures Lex(Render(ts)) == Ok(ts)
  {
    LexRender(Render(ts), 0, ts);
    if ts[0] != Newline {
      TextStartsSolid(ts[0]);
    }
  }
}

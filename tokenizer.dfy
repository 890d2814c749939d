/**
 * `tokenize` (src/tokenize.cpp:390-599): splits a C string into tokens,
 * skipping white space and comments, and reports the first error with the
 * line and column the cursor had when it was thrown.
 *
 * Each construct is scanned by a specification function from a `Cursor`
 * (the position, the line number and where the line starts); `LexFrom`
 * chains them, and the methods run the source's loops against them.
 */
module Tokenizer {
  import opened Wrappers
  import opened Tokens
  import opened Scanner
  import opened Literals

  /** `str`, `line` and `line_start`. */
  datatype Cursor = Cursor(pos: nat, line: int, lineStart: nat)

  predicate ValidCursor(s: string, c: Cursor) {
    c.pos <= |s| && c.lineStart <= c.pos && c.line >= 1
  }

  /** An exception in flight: what was thrown, and where `str` was at the time. */
  datatype Thrown = Thrown(kind: LexErrorKind, pos: nat)

  /** The `error` object `tokenize` throws. */
  datatype LexError = LexError(line: int, column: int, kind: LexErrorKind)

  /** What one scanning step yields: a token or nothing (a comment), and the new cursor. */
  type Item = Result<(Option<Token>, Cursor), Thrown>

  /** `str++`, counting a newline it steps over (lines 402-406 and 425-429). */
  function Advance(s: string, c: Cursor): (d: Cursor)
    requires ValidCursor(s, c) && c.pos < |s|
    ensures ValidCursor(s, d) && d.pos == c.pos + 1 && d.line >= c.line
  {
    if s[c.pos] == '\n' then Cursor(c.pos + 1, c.line + 1, c.pos + 1)
    else Cursor(c.pos + 1, c.line, c.lineStart)
  }

  /** Lines 400-407: the white space before a token. */
  function SkipSpace(s: string, c: Cursor): (d: Cursor)
    requires ValidCursor(s, c)
    ensures ValidCursor(s, d) && c.pos <= d.pos && d.line >= c.line
    ensures d.pos < |s| ==> !IsSpace(s[d.pos])
    ensures forall q :: c.pos <= q < d.pos ==> IsSpace(s[q])
    decreases |s| - c.pos
  {
    if c.pos < |s| && IsSpace(s[c.pos]) then SkipSpace(s, Advance(s, c)) else c
  }

  // Lines 420-431: a block comment ends once the two characters before the cursor are a star and a slash.
  function BlockCommentEnd(s: string, c: Cursor): (d: Cursor)
    requires ValidCursor(s, c) && c.pos >= 2
    ensures ValidCursor(s, d) && c.pos <= d.pos && d.line >= c.line
    decreases |s| - c.pos
  {
    if c.pos < |s| && !(s[c.pos - 2] == '*' && s[c.pos - 1] == '/') then BlockCommentEnd(s, Advance(s, c)) else c
  }

  /** The token that starts at the cursor `c`, with its line and column. */
  function MakeToken(kind: TokenKind, content: string, value: TokenValue, c: Cursor): Token
    requires c.lineStart <= c.pos
  {
    Token(kind, content, value, c.line, c.pos - c.lineStart + 1)
  }

  // ---------------------------------------------------------------------------
  // Numbers (lines 459-527)

  /** The position of the first exponent digit after the `e` or `p` at `q`. */
  function ExponentDigits(s: string, q: nat): nat {
    if At(s, q + 1) == '-' || At(s, q + 1) == '+' then q + 2 else q + 1
  }

  /** Lines 503-516: an optional `u`, then `l` or `ll`, then a `u` if there was none before. */
  function IntegerSuffixEnd(s: string, q: nat): (r: nat)
    ensures q <= |s| ==> q <= r <= |s|
  {
    var hadUnsigned := ToLower(At(s, q)) == 'u';
    var q1 := if hadUnsigned then q + 1 else q;
    var q2 := if ToLower(At(s, q1)) != 'l' then q1 else if ToLower(At(s, q1 + 1)) == 'l' then q1 + 2 else q1 + 1;
    if ToLower(At(s, q2)) == 'u' && !hadUnsigned then q2 + 1 else q2
  }

  /** Lines 496-500: a floating literal takes one `f` or `l`. */
  function FloatSuffixEnd(s: string, q: nat): (r: nat)
    ensures q <= |s| ==> q <= r <= |s|
  {
    if ToLower(At(s, q)) == 'f' || ToLower(At(s, q)) == 'l' then q + 1 else q
  }

  /** Lines 461-473: the digits before any `.`, and whether the literal is hexadecimal. */
  function Mantissa(s: string, p: nat): (r: (nat, bool))
    requires p < |s|
    ensures p < r.0 <= |s|
  {
    var isFloat := s[p] == '.';
    if s[p] != '0' then (RunEnd(s, p + 1, DecimalDigits), false)
    else if !isFloat && ToLower(At(s, p + 1)) != 'x' then (RunEnd(s, p + 1, OctalDigits), false)
    else (RunEnd(s, p + 2, HexDigits), true)
  }

  /** Lines 475-479: an optional fraction, in the digits of the literal's base. */
  function FractionEnd(s: string, q: nat, isHex: bool): (r: (nat, bool))
    requires q <= |s|
    ensures q <= r.0 <= |s| && (r.1 <==> At(s, q) == '.')
  {
    if At(s, q) == '.' then (RunEnd(s, q + 1, if isHex then HexDigits else DecimalDigits), true) else (q, false)
  }

  /** Lines 481-483: a floating literal has an exponent when `p` (hexadecimal) or `e` follows. */
  predicate HasExponent(s: string, q: nat, isFloat: bool, isHex: bool) {
    isFloat && ((isHex && ToLower(At(s, q)) == 'p') || (!isHex && ToLower(At(s, q)) == 'e'))
  }

  /** Lines 485-493 from the `e` or `p` at `q`: the end of the exponent, which needs a digit. */
  function ExponentEnd(s: string, q: nat): (r: Result<nat, Thrown>)
    requires q < |s|
    ensures r.Success? ==> q < r.value <= |s|
    ensures r.Failure? ==> r.error.pos > q
  {
    var d := ExponentDigits(s, q);
    if !IsDigit(At(s, d)) then Failure(Thrown(ExpectedExponentDigit, d)) else Success(RunEnd(s, d, DecimalDigits))
  }

  function SuffixEnd(s: string, q: nat, isFloat: bool): (r: nat)
    ensures q <= |s| ==> q <= r <= |s|
  {
    if isFloat then FloatSuffixEnd(s, q) else IntegerSuffixEnd(s, q)
  }

  /** The end of the number at `p` and whether it is floating, or the error of line 490. */
  function NumberEnd(s: string, p: nat): (r: Result<(nat, bool), Thrown>)
    requires p < |s|
    ensures r.Success? ==> p < r.value.0 <= |s|
    ensures r.Failure? ==> r.error.pos > p
  {
    var m := Mantissa(s, p);
    var f := FractionEnd(s, m.0, m.1);
    var isFloat := s[p] == '.' || f.1;
    if HasExponent(s, f.0, isFloat, m.1) then
      match ExponentEnd(s, f.0)
      case Failure(t) => Failure(t)
      case Success(q) => Success((SuffixEnd(s, q, isFloat), isFloat))
    else Success((SuffixEnd(s, f.0, isFloat), isFloat))
  }

  /** A number token: its text and, for an integer, its type and value (lines 519-526). */
  function NumberItem(s: string, c: Cursor): (r: Item)
    requires ValidCursor(s, c) && c.pos < |s|
    ensures r.Success? ==> ValidCursor(s, r.value.1) && r.value.1.pos > c.pos && r.value.1.line == c.line
    ensures r.Success? ==>
              r.value.0.Some? && (r.value.0.value.kind == LitInteger || r.value.0.value.kind == LitFloat)
              && r.value.0.value.content == s[c.pos..r.value.1.pos]
              && r.value.0.value.line == c.line && r.value.0.value.column == c.pos - c.lineStart + 1
    ensures r.Failure? ==> r.error.pos >= c.pos
  {
    match NumberEnd(s, c.pos)
    case Failure(t) => Failure(t)
    case Success((q, isFloat)) =>
      var content := s[c.pos..q];
      if isFloat then Success((Some(MakeToken(LitFloat, content, FloatLiteral, c)), c.(pos := q)))
      else match IntegerLiteral(content)
        case Failure(e) => Failure(Thrown(e, q))
        case Success((t, bits)) => Success((Some(MakeToken(LitInteger, content, Integer(t, bits), c)), c.(pos := q)))
  }

  // ---------------------------------------------------------------------------
  // String and character literals (lines 528-580)

  /**
   * Lines 528-547 from the position `p` just after the opening quote: the
   * position just past the closing quote. Reaching the terminator is an
   * error here; the source instead steps past it (see `StringEndAsWritten`).
   */
  function StringEnd(s: string, p: nat): (r: Result<nat, Thrown>)
    ensures r.Success? ==> p < r.value <= |s| && s[r.value - 1] == '"'
    ensures r.Failure? ==> r.error.pos >= p
    decreases |s| - p
  {
    if p >= |s| then Failure(Thrown(UnterminatedString, p))
    else if s[p] == '"' then Success(p + 1)
    else if s[p] != '\\' then StringEnd(s, p + 1)
    else match Escape(s, p + 1)
      case Failure(e) => Failure(Thrown(e, EscapeErrorPos(e, p + 1)))
      case Success((_, j)) => StringEnd(s, j)
  }

  /**
   * The loop of lines 528-547 as written: at the terminator it stops and
   * the `str++` of line 547 steps past it, to one beyond the end of the input.
   */
  function StringEndAsWritten(s: string, p: nat): (r: Result<nat, Thrown>)
    decreases |s| - p
  {
    if p >= |s| then Success(p + 1)
    else if s[p] == '"' then Success(p + 1)
    else if s[p] != '\\' then StringEndAsWritten(s, p + 1)
    else match Escape(s, p + 1)
      case Failure(e) => Failure(Thrown(e, EscapeErrorPos(e, p + 1)))
      case Success((_, j)) => StringEndAsWritten(s, j)
  }

  /** A string token (lines 549-553). */
  function StringItem(s: string, c: Cursor): (r: Item)
    requires ValidCursor(s, c) && c.pos < |s|
    ensures r.Success? ==> ValidCursor(s, r.value.1) && r.value.1.pos > c.pos && r.value.1.line == c.line
    ensures r.Success? ==>
              r.value.0.Some? && r.value.0.value.kind == LitString
              && r.value.0.value.content == s[c.pos..r.value.1.pos]
              && r.value.0.value.line == c.line && r.value.0.value.column == c.pos - c.lineStart + 1
    ensures r.Failure? ==> r.error.pos >= c.pos
  {
    match StringEnd(s, c.pos + 1)
    case Failure(t) => Failure(t)
    case Success(q) =>
      var content := s[c.pos..q];
      match StringLiteral(content)
      case Failure(e) => Failure(Thrown(e, q))
      case Success((value, length)) => Success((Some(MakeToken(LitString, content, Str(value, length), c)), c.(pos := q)))
  }

  /** The position where line 570 looks for the closing quote, from `p` just after the opening one. */
  function CharCloseAsWritten(s: string, p: nat): Result<nat, Thrown> {
    if At(s, p) != '\\' then Success(p + 1)
    else match Escape(s, p + 1)
      case Failure(e) => Failure(Thrown(e, EscapeErrorPos(e, p + 1)))
      case Success((_, j)) => Success(j)
  }

  /**
   * Lines 555-573: the position just past the closing quote. The input
   * ending right after the opening quote is the error of line 571 here;
   * the source instead reads past the terminator.
   */
  function CharEnd(s: string, p: nat): (r: Result<nat, Thrown>)
    ensures r.Success? ==> p < r.value <= |s| && s[r.value - 1] == '\''
    ensures r.Failure? ==> r.error.pos >= p
  {
    if At(s, p) == NUL then Failure(Thrown(UnterminatedChar, p))
    else match CharCloseAsWritten(s, p)
      case Failure(t) => Failure(t)
      case Success(q) =>
        if At(s, q) != '\'' then Failure(Thrown(UnterminatedChar, q)) else Success(q + 1)
  }

  /** A character token (lines 575-579). */
  function CharItem(s: string, c: Cursor): (r: Item)
    requires IsCString(s) && ValidCursor(s, c) && c.pos < |s|
    ensures r.Success? ==> ValidCursor(s, r.value.1) && r.value.1.pos > c.pos && r.value.1.line == c.line
    ensures r.Success? ==>
              r.value.0.Some? && r.value.0.value.kind == LitChar
              && r.value.0.value.content == s[c.pos..r.value.1.pos]
              && r.value.0.value.line == c.line && r.value.0.value.column == c.pos - c.lineStart + 1
    ensures r.Failure? ==> r.error.pos >= c.pos
  {
    match CharEnd(s, c.pos + 1)
    case Failure(t) => Failure(t)
    case Success(q) =>
      var content := s[c.pos..q];
      CStringSlice(s, c.pos, q);
      match CharLiteral(content)
      case Failure(e) => Failure(Thrown(e, q))
      case Success(code) => Success((Some(MakeToken(LitChar, content, Char(code), c)), c.(pos := q)))
  }

  lemma CStringSlice(s: string, i: nat, j: nat)
    requires IsCString(s) && i <= j <= |s|
    ensures IsCString(s[i..j])
  {
  }

  // ---------------------------------------------------------------------------
  // Operators and identifiers (lines 432-458)

  /** An operator token: the first matching table entry (lines 432-441). */
  function OperatorItem(s: string, c: Cursor, q: nat): (r: Item)
    requires ValidCursor(s, c) && c.pos < q <= |s|
    ensures r.Success? ==> ValidCursor(s, r.value.1) && r.value.1.pos > c.pos && r.value.1.line == c.line
    ensures r.Failure? ==> r.error.pos >= c.pos
  {
    var content := s[c.pos..q];
    Success((Some(MakeToken(Operator, content, Text(content), c)), c.(pos := q)))
  }

  /** Lines 442-458: an identifier, or the literal `true`, `false` or `nullptr`. */
  function IdentifierItem(s: string, c: Cursor): (r: Item)
    requires ValidCursor(s, c) && c.pos < |s|
    ensures r.Success? ==> ValidCursor(s, r.value.1) && r.value.1.pos > c.pos && r.value.1.line == c.line
    ensures r.Failure? ==> r.error.pos >= c.pos
  {
    var q := RunEnd(s, c.pos + 1, IdentifierChars);
    var content := s[c.pos..q];
    var t :=
      if content == "false" || content == "true" then MakeToken(LitBool, content, Bool(BoolLiteral(content)), c)
      else if content == "nullptr" then MakeToken(LitPointer, content, NullPointer, c)
      else MakeToken(Identifier, content, Text(content), c);
    Success((Some(t), c.(pos := q)))
  }

  // ---------------------------------------------------------------------------
  // The main loop (lines 398-590)

  /** One pass of the loop body from a cursor on a non-space character. */
  function Next(s: string, c: Cursor): (r: Item)
    requires IsCString(s) && ValidCursor(s, c) && c.pos < |s|
    ensures r.Success? ==> ValidCursor(s, r.value.1) && r.value.1.pos > c.pos && r.value.1.line >= c.line
    ensures r.Failure? ==> r.error.pos >= c.pos
  {
    var p := c.pos;
    if s[p] == '/' && At(s, p + 1) == '/' then
      Success((None, c.(pos := RunEnd(s, p, NotNewline))))
    else if s[p] == '/' && At(s, p + 1) == '*' then
      Success((None, BlockCommentEnd(s, c.(pos := p + 2))))
    else match PoopMatch(s, p, PoopTable())
      case Some(q) =>
        PoopTableNonEmpty(s, p);
        OperatorItem(s, c, q)
      case None => WordItem(s, c)
  }

  /** The constructs tried after the operators (lines 442-582). */
  function WordItem(s: string, c: Cursor): (r: Item)
    requires IsCString(s) && ValidCursor(s, c) && c.pos < |s|
    ensures r.Success? ==> ValidCursor(s, r.value.1) && r.value.1.pos > c.pos && r.value.1.line == c.line
    ensures r.Failure? ==> r.error.pos >= c.pos
  {
    var p := c.pos;
    if IsNondigit(s[p]) then IdentifierItem(s, c)
    else if IsDigit(s[p]) || (s[p] == '.' && IsDigit(At(s, p + 1))) then NumberItem(s, c)
    else if s[p] == '"' then StringItem(s, c)
    else if s[p] == '\'' then CharItem(s, c)
    else Failure(Thrown(UnknownCharacter, p))
  }

  /** Every table entry is non-empty, so an operator always moves the cursor. */
  lemma PoopTableNonEmpty(s: string, p: nat)
    requires PoopMatch(s, p, PoopTable()).Some?
    ensures PoopMatch(s, p, PoopTable()).value > p
  {
    PoopTableLongestFirst();
    FirstEntryFirst(s, p, PoopTable(), 0);
  }

  /** The tokens from the cursor `c` on, after those already in `acc`. */
  function LexFrom(s: string, c: Cursor, acc: seq<Token>): (r: Result<seq<Token>, LexError>)
    requires IsCString(s) && ValidCursor(s, c)
    ensures r.Failure? ==> r.error.line >= c.line && r.error.column >= 1
    decreases |s| - c.pos, 1
  {
    var d := SkipSpace(s, c);
    if d.pos == |s| then Success(acc) else LexAt(s, d, acc)
  }

  /** The tokens from `d`, the first character of a pass that is not white space. */
  function LexAt(s: string, d: Cursor, acc: seq<Token>): (r: Result<seq<Token>, LexError>)
    requires IsCString(s) && ValidCursor(s, d) && d.pos < |s|
    ensures r.Failure? ==> r.error.line >= d.line && r.error.column >= 1
    decreases |s| - d.pos, 0
  {
    match Next(s, d)
    case Failure(t) => Failure(LexError(d.line, t.pos - d.lineStart + 1, t.kind))
    case Success((tok, e)) => LexFrom(s, e, if tok.Some? then acc + [tok.value] else acc)
  }

  /** `tokenize`: the tokens of `s`, or the first error. */
  function Lex(s: string): Result<seq<Token>, LexError>
    requires IsCString(s)
  {
    LexFrom(s, Cursor(0, 1, 0), [])
  }

  // ---------------------------------------------------------------------------
  // The loops of `tokenize`

  /** Lines 400-407. */
  method SkipSpaces(s: string, c: Cursor) returns (d: Cursor)
    requires ValidCursor(s, c)
    ensures d == SkipSpace(s, c)
  {
    d := c;
    while d.pos < |s| && IsSpace(s[d.pos])
      invariant ValidCursor(s, d) && SkipSpace(s, d) == SkipSpace(s, c)
      decreases |s| - d.pos
    {
      if s[d.pos] == '\n' {
        d := Cursor(d.pos + 1, d.line + 1, d.pos + 1);
      } else {
        d := d.(pos := d.pos + 1);
      }
    }
  }

  /** Lines 420-431, with the cursor just after the opening slash and star. */
  method SkipBlockComment(s: string, c: Cursor) returns (d: Cursor)
    requires ValidCursor(s, c) && c.pos >= 2
    ensures d == BlockCommentEnd(s, c)
  {
    d := c;
    while d.pos < |s| && !(s[d.pos - 2] == '*' && s[d.pos - 1] == '/')
      invariant ValidCursor(s, d) && d.pos >= 2 && BlockCommentEnd(s, d) == BlockCommentEnd(s, c)
      decreases |s| - d.pos
    {
      if s[d.pos] == '\n' {
        d := Cursor(d.pos + 1, d.line + 1, d.pos + 1);
      } else {
        d := d.(pos := d.pos + 1);
      }
    }
  }

  /** Lines 461-473. */
  method ScanMantissa(s: string, p: nat) returns (q: nat, isHex: bool)
    requires p < |s|
    ensures (q, isHex) == Mantissa(s, p)
  {
    isHex := false;
    if s[p] != '0' {
      q := ScanRun(s, p + 1, DecimalDigits);
    } else if s[p] != '.' && ToLower(At(s, p + 1)) != 'x' {
      q := ScanRun(s, p + 1, OctalDigits);
    } else {
      isHex := true;
      q := ScanRun(s, p + 2, HexDigits);
    }
  }

  /** Lines 481-494. */
  method ScanExponent(s: string, q: nat) returns (r: Result<nat, Thrown>)
    requires q < |s|
    ensures r == ExponentEnd(s, q)
  {
    var d := q + 1;
    if At(s, d) == '-' || At(s, d) == '+' {
      d := d + 1;
    }
    if !IsDigit(At(s, d)) {
      return Failure(Thrown(ExpectedExponentDigit, d));
    }
    var e := ScanRun(s, d, DecimalDigits);
    return Success(e);
  }

  /** Lines 496-517. */
  method ScanSuffix(s: string, q: nat, isFloat: bool) returns (e: nat)
    ensures e == SuffixEnd(s, q, isFloat)
  {
    e := q;
    if isFloat {
      if ToLower(At(s, e)) == 'f' || ToLower(At(s, e)) == 'l' {
        e := e + 1;
      }
    } else {
      var hadUnsigned := false;
      if ToLower(At(s, e)) == 'u' {
        hadUnsigned := true;
        e := e + 1;
      }
      if ToLower(At(s, e)) == 'l' {
        e := e + 1;
        if ToLower(At(s, e)) == 'l' {
          e := e + 1;
        }
      }
      if ToLower(At(s, e)) == 'u' && !hadUnsigned {
        e := e + 1;
      }
    }
  }

  /** Lines 459-517: the extent of a number. */
  method ScanNumber(s: string, p: nat) returns (r: Result<(nat, bool), Thrown>)
    requires p < |s|
    ensures r == NumberEnd(s, p)
  {
    var q, isHex := ScanMantissa(s, p);
    var isFloat := s[p] == '.';
    if At(s, q) == '.' {
      isFloat := true;
      q := ScanRun(s, q + 1, if isHex then HexDigits else DecimalDigits);
    }
    if isFloat && ((isHex && ToLower(At(s, q)) == 'p') || (!isHex && ToLower(At(s, q)) == 'e')) {
      var e := ScanExponent(s, q);
      if e.Failure? {
        return Failure(e.error);
      }
      q := e.value;
    }
    q := ScanSuffix(s, q, isFloat);
    return Success((q, isFloat));
  }

  /** Lines 528-547, from just after the opening quote, with the terminator as an error. */
  method ScanString(s: string, p: nat) returns (r: Result<nat, Thrown>)
    ensures r == StringEnd(s, p)
  {
    var q := p;
    while q < |s| && s[q] != '"'
      invariant p <= q && StringEnd(s, q) == StringEnd(s, p)
      decreases |s| - q
    {
      if s[q] == '\\' {
        var e := EscapeSequence(s, q + 1);
        if e.Failure? {
          return Failure(Thrown(e.error, EscapeErrorPos(e.error, q + 1)));
        }
        q := e.value.1;
      } else {
        q := q + 1;
      }
    }
    if q >= |s| {
      return Failure(Thrown(UnterminatedString, q));
    }
    return Success(q + 1);
  }

  /** Lines 555-573, from just after the opening quote, with the terminator as an error. */
  method ScanChar(s: string, p: nat) returns (r: Result<nat, Thrown>)
    ensures r == CharEnd(s, p)
  {
    if At(s, p) == NUL {
      return Failure(Thrown(UnterminatedChar, p));
    }
    var q := p + 1;
    if s[p] == '\\' {
      var e := EscapeSequence(s, p + 1);
      if e.Failure? {
        return Failure(Thrown(e.error, EscapeErrorPos(e.error, p + 1)));
      }
      q := e.value.1;
    }
    if At(s, q) != '\'' {
      return Failure(Thrown(UnterminatedChar, q));
    }
    return Success(q + 1);
  }

  /** One pass of the loop body (lines 412-589) from a cursor on a non-space character. */
  method NextToken(s: string, c: Cursor) returns (r: Item)
    requires IsCString(s) && ValidCursor(s, c) && c.pos < |s|
    ensures r == Next(s, c)
  {
    var p := c.pos;
    if s[p] == '/' && At(s, p + 1) == '/' {
      var q := ScanRun(s, p, NotNewline);
      return Success((None, c.(pos := q)));
    }
    if s[p] == '/' && At(s, p + 1) == '*' {
      var d := SkipBlockComment(s, c.(pos := p + 2));
      return Success((None, d));
    }
    var op := IsPoop(s, p, PoopTable());
    if op.Some? {
      PoopTableNonEmpty(s, p);
      return OperatorItem(s, c, op.value);
    }
    r := WordToken(s, c);
  }

  /** Lines 442-582. */
  method WordToken(s: string, c: Cursor) returns (r: Item)
    requires IsCString(s) && ValidCursor(s, c) && c.pos < |s|
    ensures r == WordItem(s, c)
  {
    var p := c.pos;
    if IsNondigit(s[p]) {
      r := IdentifierToken(s, c);
    } else if IsDigit(s[p]) || (s[p] == '.' && IsDigit(At(s, p + 1))) {
      r := NumberToken(s, c);
    } else if s[p] == '"' {
      r := StringToken(s, c);
    } else if s[p] == '\'' {
      r := CharToken(s, c);
    } else {
      r := Failure(Thrown(UnknownCharacter, p));
    }
  }

  method IdentifierToken(s: string, c: Cursor) returns (r: Item)
    requires ValidCursor(s, c) && c.pos < |s|
    ensures r == IdentifierItem(s, c)
  {
    var q := ScanRun(s, c.pos + 1, IdentifierChars);
    var content := s[c.pos..q];
    var t;
    if content == "false" || content == "true" {
      t := MakeToken(LitBool, content, Bool(BoolLiteral(content)), c);
    } else if content == "nullptr" {
      t := MakeToken(LitPointer, content, NullPointer, c);
    } else {
      t := MakeToken(Identifier, content, Text(content), c);
    }
    return Success((Some(t), c.(pos := q)));
  }

  method CharToken(s: string, c: Cursor) returns (r: Item)
    requires IsCString(s) && ValidCursor(s, c) && c.pos < |s|
    ensures r == CharItem(s, c)
  {
    var e := ScanChar(s, c.pos + 1);
    if e.Failure? {
      return Failure(e.error);
    }
    var content := s[c.pos..e.value];
    CStringSlice(s, c.pos, e.value);
    var v := CharLiteral(content);
    if v.Failure? {
      return Failure(Thrown(v.error, e.value));
    }
    return Success((Some(MakeToken(LitChar, content, Char(v.value), c)), c.(pos := e.value)));
  }

  method NumberToken(s: string, c: Cursor) returns (r: Item)
    requires ValidCursor(s, c) && c.pos < |s|
    ensures r == NumberItem(s, c)
  {
    var n := ScanNumber(s, c.pos);
    if n.Failure? {
      return Failure(n.error);
    }
    var q := n.value.0;
    var content := s[c.pos..q];
    if n.value.1 {
      return Success((Some(MakeToken(LitFloat, content, FloatLiteral, c)), c.(pos := q)));
    }
    var v := IntegerLiteralValue(content);
    if v.Failure? {
      return Failure(Thrown(v.error, q));
    }
    return Success((Some(MakeToken(LitInteger, content, Integer(v.value.0, v.value.1), c)), c.(pos := q)));
  }

  method StringToken(s: string, c: Cursor) returns (r: Item)
    requires ValidCursor(s, c) && c.pos < |s|
    ensures r == StringItem(s, c)
  {
    var e := ScanString(s, c.pos + 1);
    if e.Failure? {
      return Failure(e.error);
    }
    var q := e.value;
    var content := s[c.pos..q];
    var v := StringLiteralValue(content);
    if v.Failure? {
      return Failure(Thrown(v.error, q));
    }
    return Success((Some(MakeToken(LitString, content, Str(v.value.0, v.value.1), c)), c.(pos := q)));
  }

  /** `LexFrom` past the white space: the end of the input, an error, or a construct and the rest. */
  lemma LexFromEnd(s: string, c: Cursor, acc: seq<Token>)
    requires IsCString(s) && ValidCursor(s, c) && SkipSpace(s, c).pos == |s|
    ensures LexFrom(s, c, acc) == Success(acc)
  {
  }

  lemma LexFromError(s: string, c: Cursor, acc: seq<Token>, d: Cursor, t: Thrown)
    requires IsCString(s) && ValidCursor(s, c) && d == SkipSpace(s, c) && d.pos < |s| && Next(s, d) == Failure(t)
    ensures LexFrom(s, c, acc) == Failure(LexError(d.line, t.pos - d.lineStart + 1, t.kind))
  {
    assert LexFrom(s, c, acc) == LexAt(s, d, acc);
  }

  lemma LexFromToken(s: string, c: Cursor, acc: seq<Token>, d: Cursor, tok: Option<Token>, e: Cursor)
    requires IsCString(s) && ValidCursor(s, c) && d == SkipSpace(s, c) && d.pos < |s| && Next(s, d) == Success((tok, e))
    ensures ValidCursor(s, e) && e.pos > c.pos
    ensures LexFrom(s, c, acc) == LexFrom(s, e, if tok.Some? then acc + [tok.value] else acc)
  {
    assert LexFrom(s, c, acc) == LexAt(s, d, acc);
  }

  /**
   * One pass of the main loop from the cursor `c`: either the lexing ends,
   * with `r` its outcome, or it goes on from a later cursor with the same outcome.
   */
  method LexPass(s: string, c: Cursor, tokens: seq<Token>) returns (done: bool, r: Result<seq<Token>, LexError>, e: Cursor, grown: seq<Token>)
    requires IsCString(s) && ValidCursor(s, c)
    ensures done ==> r == LexFrom(s, c, tokens)
    ensures !done ==> ValidCursor(s, e) && e.pos > c.pos && LexFrom(s, e, grown) == LexFrom(s, c, tokens)
  {
    var d := SkipSpaces(s, c);
    if d.pos == |s| {
      return true, Success(tokens), c, tokens;
    }
    done, r, e, grown := LexPassAt(s, d, tokens);
  }

  /** The rest of a pass, from the first character `d` that is not white space. */
  method LexPassAt(s: string, d: Cursor, tokens: seq<Token>) returns (done: bool, r: Result<seq<Token>, LexError>, e: Cursor, grown: seq<Token>)
    requires IsCString(s) && ValidCursor(s, d) && d.pos < |s|
    ensures done ==> r == LexAt(s, d, tokens)
    ensures !done ==> ValidCursor(s, e) && e.pos > d.pos && LexFrom(s, e, grown) == LexAt(s, d, tokens)
  {
    var item := NextToken(s, d);
    match item
    case Failure(t) =>
      return true, Failure(LexError(d.line, t.pos - d.lineStart + 1, t.kind)), d, tokens;
    case Success((tok, next)) =>
      LexAtToken(s, d, tokens, tok, next);
      return false, Success(tokens), next, if tok.Some? then tokens + [tok.value] else tokens;
  }

  lemma LexAtToken(s: string, d: Cursor, acc: seq<Token>, tok: Option<Token>, e: Cursor)
    requires IsCString(s) && ValidCursor(s, d) && d.pos < |s| && Next(s, d) == Success((tok, e))
    ensures ValidCursor(s, e) && e.pos > d.pos
    ensures LexAt(s, d, acc) == LexFrom(s, e, if tok.Some? then acc + [tok.value] else acc)
  {
  }

  /** `tokenize`: the main loop, collecting tokens until the terminator or the first error. */
  method Tokenize(s: string) returns (r: Result<seq<Token>, LexError>)
    requires IsCString(s)
    ensures r == Lex(s)
  {
    var tokens: seq<Token> := [];
    var c := Cursor(0, 1, 0);
    while true
      invariant ValidCursor(s, c) && LexFrom(s, c, tokens) == Lex(s)
      decreases |s| - c.pos
    {
      var done, outcome, e, grown := LexPass(s, c, tokens);
      if done {
        return outcome;
      }
      tokens, c := grown, e;
    }
  }

  // ---------------------------------------------------------------------------
  // Properties of the tokens

  /** An identifier's text: a nondigit, then nondigits and digits. */
  predicate IsIdentifierText(w: string) {
    |w| > 0 && IsNondigit(w[0]) && forall k :: 0 <= k < |w| ==> IsNondigit(w[k]) || IsDigit(w[k])
  }

  /**
   * What every token `tokenize` returns satisfies: it has text and a
   * position; operators are table entries; identifiers are neither table
   * entries (so `and`, `new` and `delete` are operators) nor the literal words.
   */
  predicate WellFormed(t: Token) {
    |t.content| > 0 && t.line >= 1 && t.column >= 1
    && (t.kind == Operator ==> t.content in PoopTable() && t.value == Text(t.content))
    && (t.kind == Identifier ==>
          IsIdentifierText(t.content) && t.content !in PoopTable()
          && t.content != "true" && t.content != "false" && t.content != "nullptr"
          && t.value == Text(t.content))
    && (t.kind == LitBool ==> (t.content == "true" || t.content == "false") && t.value == Bool(t.content == "true"))
    && (t.kind == LitPointer ==> t.content == "nullptr" && t.value == NullPointer)
  }

  /** An identifier-shaped word that no table entry matched is not a table entry. */
  lemma IdentifierNotOperator(s: string, p: nat)
    requires p < |s| && IsNondigit(s[p]) && PoopMatch(s, p, PoopTable()).None?
    ensures s[p..RunEnd(s, p + 1, IdentifierChars)] !in PoopTable()
  {
    IdentifierMatchesItself(s, p);
    EntryFound(s, p, PoopTable(), s[p..RunEnd(s, p + 1, IdentifierChars)]);
  }

  /** The word ends where no identifier character follows, so it would pass the check of line 63. */
  lemma IdentifierMatchesItself(s: string, p: nat)
    requires p < |s| && IsNondigit(s[p])
    ensures EntryAt(s, p, s[p..RunEnd(s, p + 1, IdentifierChars)])
  {
    var j := RunEnd(s, p + 1, IdentifierChars);
    var w := s[p..j];
    assert StartsAt(s, p, w) by {
      assert p + |w| == j;
    }
    assert !(IsNondigit(At(s, p + |w|)) || IsDigit(At(s, p + |w|))) by {
      assert p + |w| == j;
      if j < |s| {
        assert !InClass(s[j], IdentifierChars);
      }
    }
  }

  lemma IdentifierShape(s: string, p: nat)
    requires p < |s| && IsNondigit(s[p])
    ensures IsIdentifierText(s[p..RunEnd(s, p + 1, IdentifierChars)])
  {
  }

  lemma OperatorFromTable(s: string, p: nat)
    requires PoopMatch(s, p, PoopTable()).Some?
    ensures s[p..PoopMatch(s, p, PoopTable()).value] in PoopTable()
  {
    FirstEntryFirst(s, p, PoopTable(), 0);
    var k := FirstEntry(s, p, PoopTable()).value;
    assert s[p..PoopMatch(s, p, PoopTable()).value] == PoopTable()[k];
  }

  lemma IdentifierItemWellFormed(s: string, c: Cursor)
    requires ValidCursor(s, c) && c.pos < |s| && IsNondigit(s[c.pos]) && PoopMatch(s, c.pos, PoopTable()).None?
    ensures WellFormed(IdentifierItem(s, c).value.0.value) && IdentifierItem(s, c).value.0.value.line == c.line
  {
    IdentifierNotOperator(s, c.pos);
    IdentifierShape(s, c.pos);
  }

  lemma WordItemWellFormed(s: string, c: Cursor)
    requires IsCString(s) && ValidCursor(s, c) && c.pos < |s| && PoopMatch(s, c.pos, PoopTable()).None?
    ensures WordItem(s, c).Success? && WordItem(s, c).value.0.Some? ==>
            WellFormed(WordItem(s, c).value.0.value) && WordItem(s, c).value.0.value.line == c.line
  {
    var p := c.pos;
    if IsNondigit(s[p]) {
      IdentifierItemWellFormed(s, c);
    }
  }

  /** Every token one step yields is well formed, and is on the cursor's line. */
  lemma NextWellFormed(s: string, c: Cursor)
    requires IsCString(s) && ValidCursor(s, c) && c.pos < |s|
    ensures Next(s, c).Success? && Next(s, c).value.0.Some? ==>
            WellFormed(Next(s, c).value.0.value) && Next(s, c).value.0.value.line == c.line
  {
    var p := c.pos;
    if PoopMatch(s, p, PoopTable()).Some? {
      OperatorFromTable(s, p);
    } else {
      WordItemWellFormed(s, c);
    }
  }

  predicate LinesOrdered(ts: seq<Token>) {
    forall i, j :: 0 <= i < j < |ts| ==> ts[i].line <= ts[j].line
  }

  /**
   * `tokenize` returns well-formed tokens in line order, after those
   * gathered before the cursor.
   */
  lemma {:induction false} LexFromWellFormed(s: string, c: Cursor, acc: seq<Token>)
    requires IsCString(s) && ValidCursor(s, c)
    requires forall t <- acc :: WellFormed(t) && t.line <= c.line
    requires LinesOrdered(acc)
    ensures LexFrom(s, c, acc).Success? ==>
      var ts := LexFrom(s, c, acc).value;
      acc <= ts && LinesOrdered(ts) && forall t <- ts :: WellFormed(t)
    decreases |s| - c.pos
  {
    var d := SkipSpace(s, c);
    if d.pos < |s| && Next(s, d).Success? {
      var (tok, e) := Next(s, d).value;
      LexFromToken(s, c, acc, d, tok, e);
      NextWellFormed(s, d);
      var acc' := if tok.Some? then acc + [tok.value] else acc;
      assert LinesOrdered(acc');
      LexFromWellFormed(s, e, acc');
    }
  }

  /** `tokenize` returns well-formed tokens, in line order; every error has a position. */
  lemma LexWellFormed(s: string)
    requires IsCString(s)
    ensures Lex(s).Success? ==> LinesOrdered(Lex(s).value) && forall t <- Lex(s).value :: WellFormed(t)
    ensures Lex(s).Failure? ==> Lex(s).error.line >= 1 && Lex(s).error.column >= 1
  {
    LexFromWellFormed(s, Cursor(0, 1, 0), []);
  }

  /**
   * Line 459 also admits a number starting with `.`, but `.` is a table
   * entry and the operators are tried first: that case never arises, and
   * `.5` lexes as an operator and then `5`.
   */
  lemma LeadingDotIsOperator(s: string, p: nat)
    requires p < |s| && s[p] == '.'
    ensures PoopMatch(s, p, PoopTable()).Some?
  {
    assert PoopTable()[53] == ".";
    EntryFound(s, p, PoopTable(), ".");
  }

  /** So every number token starts with a digit. */
  lemma NumbersStartWithDigit(s: string, c: Cursor)
    requires IsCString(s) && ValidCursor(s, c) && c.pos < |s|
    requires Next(s, c).Success? && Next(s, c).value.0.Some?
    requires Next(s, c).value.0.value.kind in {LitInteger, LitFloat}
    ensures IsDigit(s[c.pos])
  {
    if s[c.pos] == '.' {
      LeadingDotIsOperator(s, c.pos);
    }
  }

  // Lines 422-423 test the two characters before the cursor from the start, so a slash, a star
  // and a slash already make a whole comment.
  lemma SlashStarSlashIsComment()
    ensures BlockCommentEnd("/*/x", Cursor(2, 1, 0)) == Cursor(3, 1, 0)
  {
  }

  // ---------------------------------------------------------------------------
  // Reading past the terminator

  /** Without a closing quote the loop as written ends one past the terminator. */
  lemma UnterminatedStringOverruns()
    ensures StringEndAsWritten("\"abc", 1) == Success(5)
    ensures StringEnd("\"abc", 1) == Failure(Thrown(UnterminatedString, 4))
  {
  }

  /** The loop as written and the corrected one agree on every string that has its closing quote. */
  lemma {:induction false} StringEndAgrees(s: string, p: nat)
    ensures StringEnd(s, p).Success? ==> StringEndAsWritten(s, p) == StringEnd(s, p)
    ensures StringEndAsWritten(s, p).Success? && StringEndAsWritten(s, p).value <= |s| ==> StringEnd(s, p) == StringEndAsWritten(s, p)
    ensures StringEndAsWritten(s, p).Failure? ==> StringEnd(s, p) == StringEndAsWritten(s, p)
    decreases |s| - p
  {
    if p < |s| && s[p] != '"' {
      if s[p] != '\\' {
        StringEndAgrees(s, p + 1);
      } else if Escape(s, p + 1).Success? {
        StringEndAgrees(s, Escape(s, p + 1).value.1);
      }
    }
  }

  /** A lone quote at the end: the source looks for the closing quote one past the terminator. */
  lemma CharAtEndOverruns()
    ensures CharCloseAsWritten("'", 1) == Success(2)
    ensures CharEnd("'", 1) == Failure(Thrown(UnterminatedChar, 1))
  {
  }

  /** Otherwise the corrected scan closes where the source looks. */
  lemma CharEndAgrees(s: string, p: nat)
    requires At(s, p) != NUL
    ensures CharEnd(s, p).Success? <==> CharCloseAsWritten(s, p).Success? && At(s, CharCloseAsWritten(s, p).value) == '\''
    ensures CharEnd(s, p).Success? ==> CharEnd(s, p).value == CharCloseAsWritten(s, p).value + 1
  {
  }
}

/**
 * The line and column `tokenize` gives each token (src/tokenize.cpp:393-430):
 * `line` counts the newlines the cursor has passed, `line_start` is just
 * after the last of them, and a token's column is its offset from
 * `line_start` plus one.
 *
 * The lexer counts the newlines it steps over in white space and in block
 * comments only; the ones inside a string or character literal are not
 * counted (lines 531-546 and 559-561), so the positions are exact where no literal
 * spans a line.
 */
module Positions {
  import opened Wrappers
  import opened Tokens
  import opened Scanner
  import opened Tokenizer

  /** The number of newlines before position `p`. */
  function NewlinesBefore(s: string, p: nat): nat
    requires p <= |s|
  {
    if p == 0 then 0 else NewlinesBefore(s, p - 1) + (if s[p - 1] == '\n' then 1 else 0)
  }

  /** The start of the line holding position `p`: just after the last newline before it, or 0. */
  function LineStartOf(s: string, p: nat): (r: nat)
    requires p <= |s|
    ensures r <= p && (r > 0 ==> s[r - 1] == '\n')
    ensures forall k :: r <= k < p ==> s[k] != '\n'
  {
    if p == 0 then 0 else if s[p - 1] == '\n' then p else LineStartOf(s, p - 1)
  }

  /** The cursor's `line` and `line_start` are those of its position in the text. */
  predicate Tracks(s: string, c: Cursor) {
    c.pos <= |s| && c.line == 1 + NewlinesBefore(s, c.pos) && c.lineStart == LineStartOf(s, c.pos)
  }

  /** A token whose text starts at `p` and carries the line and column of `p`. */
  predicate Placed(s: string, t: Token, p: nat) {
    p + |t.content| <= |s| && t.content == s[p..p + |t.content|]
    && t.line == 1 + NewlinesBefore(s, p) && t.column == p - LineStartOf(s, p) + 1
  }

  /** No newline between `a` and `b`. */
  predicate NoNewline(s: string, a: nat, b: nat) {
    forall k :: a <= k < b && k < |s| ==> s[k] != '\n'
  }

  /** A string or character literal that holds no newline, or a token of another kind. */
  predicate SingleLine(t: Token) {
    (t.kind == LitString || t.kind == LitChar) ==> '\n' !in t.content
  }

  /** The string and character literals hold no newline. */
  predicate SingleLineLiterals(ts: seq<Token>) {
    forall t <- ts :: SingleLine(t)
  }

  // ---------------------------------------------------------------------------
  // The cursor steps

  /** `str++`: a newline starts a new line just after it. */
  lemma AdvanceTracks(s: string, c: Cursor)
    requires ValidCursor(s, c) && c.pos < |s| && Tracks(s, c)
    ensures Tracks(s, Advance(s, c))
  {
  }

  /** Steps that pass no newline stay on the line. */
  lemma {:induction false} SameLineTracks(s: string, c: Cursor, q: nat)
    requires Tracks(s, c) && c.pos <= q <= |s| && NoNewline(s, c.pos, q)
    ensures Tracks(s, c.(pos := q))
    decreases q
  {
    if q > c.pos {
      SameLineTracks(s, c, q - 1);
    }
  }

  /** Lines 400-407: the white-space loop counts every newline it skips. */
  lemma {:induction false} SkipSpaceTracks(s: string, c: Cursor)
    requires ValidCursor(s, c) && Tracks(s, c)
    ensures Tracks(s, SkipSpace(s, c))
    decreases |s| - c.pos
  {
    if c.pos < |s| && IsSpace(s[c.pos]) {
      AdvanceTracks(s, c);
      SkipSpaceTracks(s, Advance(s, c));
    }
  }

  /** Lines 422-430: a block comment counts its newlines. */
  lemma {:induction false} BlockCommentEndTracks(s: string, c: Cursor)
    requires ValidCursor(s, c) && c.pos >= 2 && Tracks(s, c)
    ensures Tracks(s, BlockCommentEnd(s, c))
    decreases |s| - c.pos
  {
    if c.pos < |s| && !(s[c.pos - 2] == '*' && s[c.pos - 1] == '/') {
      AdvanceTracks(s, c);
      BlockCommentEndTracks(s, Advance(s, c));
    }
  }

  // ---------------------------------------------------------------------------
  // The constructs that are no literals never span a line

  lemma PoopNoNewline(k: nat)
    requires k < PoopCount
    ensures '\n' !in Poop(k)
  {
  }

  /** An operator's text is a table entry, and no entry holds a newline. */
  lemma OperatorNoNewline(s: string, p: nat)
    requires PoopMatch(s, p, PoopTable()).Some?
    ensures NoNewline(s, p, PoopMatch(s, p, PoopTable()).value)
  {
    var q := PoopMatch(s, p, PoopTable()).value;
    OperatorFromTable(s, p);
    var k :| 0 <= k < |PoopTable()| && PoopTable()[k] == s[p..q];
    PoopNoNewline(k);
    forall j | p <= j < q && j < |s|
      ensures s[j] != '\n'
    {
      assert s[j] == s[p..q][j - p];
    }
  }

  /** A letter the suffix and exponent tests look for is no newline. */
  lemma LetterNoNewline(s: string, q: nat, x: char)
    requires ToLower(At(s, q)) == x && x != NUL && x != '\n'
    ensures q < |s| && s[q] != '\n'
  {
  }

  lemma IntegerSuffixNoNewline(s: string, q: nat)
    requires q <= |s|
    ensures NoNewline(s, q, IntegerSuffixEnd(s, q))
  {
  }

  lemma FloatSuffixNoNewline(s: string, q: nat)
    requires q <= |s|
    ensures NoNewline(s, q, FloatSuffixEnd(s, q))
  {
  }

  lemma MantissaNoNewline(s: string, p: nat)
    requires p < |s| && s[p] != '\n'
    ensures NoNewline(s, p, Mantissa(s, p).0)
  {
    if s[p] == '0' && ToLower(At(s, p + 1)) == 'x' {
      LetterNoNewline(s, p + 1, 'x');
    }
  }

  lemma FractionNoNewline(s: string, q: nat, isHex: bool)
    requires q <= |s|
    ensures NoNewline(s, q, FractionEnd(s, q, isHex).0)
  {
  }

  lemma ExponentNoNewline(s: string, q: nat, isFloat: bool, isHex: bool)
    requires q < |s| && HasExponent(s, q, isFloat, isHex) && ExponentEnd(s, q).Success?
    ensures NoNewline(s, q, ExponentEnd(s, q).value)
  {
    if isHex {
      LetterNoNewline(s, q, 'p');
    } else {
      LetterNoNewline(s, q, 'e');
    }
  }

  /** Lines 459-517: a number is digits, `.`, `x`, an exponent letter and sign, and suffix letters. */
  lemma NumberNoNewline(s: string, p: nat)
    requires p < |s| && s[p] != '\n' && NumberEnd(s, p).Success?
    ensures NoNewline(s, p, NumberEnd(s, p).value.0)
  {
    var m := Mantissa(s, p);
    MantissaNoNewline(s, p);
    var f := FractionEnd(s, m.0, m.1);
    FractionNoNewline(s, m.0, m.1);
    var isFloat := s[p] == '.' || f.1;
    var q := f.0;
    if HasExponent(s, f.0, isFloat, m.1) {
      ExponentNoNewline(s, f.0, isFloat, m.1);
      q := ExponentEnd(s, f.0).value;
    }
    if isFloat {
      FloatSuffixNoNewline(s, q);
    } else {
      IntegerSuffixNoNewline(s, q);
    }
  }

  // ---------------------------------------------------------------------------
  // One pass of the main loop

  /** A token that stays on its line leaves the cursor tracking, and is placed where it starts. */
  lemma TokenTracks(s: string, d: Cursor, tok: Token, e: Cursor)
    requires Tracks(s, d) && d.pos <= e.pos <= |s| && e == d.(pos := e.pos)
    requires tok.content == s[d.pos..e.pos] && tok.line == d.line && tok.column == d.pos - d.lineStart + 1
    requires '\n' !in tok.content
    ensures Tracks(s, e) && Placed(s, tok, d.pos)
  {
    forall k | d.pos <= k < e.pos
      ensures s[k] != '\n'
    {
      assert s[k] == tok.content[k - d.pos];
    }
    SameLineTracks(s, d, e.pos);
  }

  lemma NoNewlineContent(s: string, p: nat, q: nat)
    requires p <= q <= |s| && NoNewline(s, p, q)
    ensures '\n' !in s[p..q]
  {
  }

  lemma IdentifierTracks(s: string, d: Cursor)
    requires ValidCursor(s, d) && d.pos < |s| && Tracks(s, d) && IsNondigit(s[d.pos])
    ensures Tracks(s, IdentifierItem(s, d).value.1) && Placed(s, IdentifierItem(s, d).value.0.value, d.pos)
  {
    var q := RunEnd(s, d.pos + 1, IdentifierChars);
    assert NoNewline(s, d.pos, q);
    NoNewlineContent(s, d.pos, q);
    TokenTracks(s, d, IdentifierItem(s, d).value.0.value, d.(pos := q));
  }

  lemma NumberTracks(s: string, d: Cursor)
    requires ValidCursor(s, d) && d.pos < |s| && Tracks(s, d) && s[d.pos] != '\n' && NumberItem(s, d).Success?
    ensures Tracks(s, NumberItem(s, d).value.1) && Placed(s, NumberItem(s, d).value.0.value, d.pos)
  {
    NumberNoNewline(s, d.pos);
    var e := NumberItem(s, d).value.1;
    NoNewlineContent(s, d.pos, e.pos);
    TokenTracks(s, d, NumberItem(s, d).value.0.value, e);
  }

  lemma StringTracks(s: string, d: Cursor)
    requires ValidCursor(s, d) && d.pos < |s| && Tracks(s, d) && StringItem(s, d).Success?
    requires '\n' !in StringItem(s, d).value.0.value.content
    ensures Tracks(s, StringItem(s, d).value.1) && Placed(s, StringItem(s, d).value.0.value, d.pos)
  {
    TokenTracks(s, d, StringItem(s, d).value.0.value, StringItem(s, d).value.1);
  }

  lemma CharTracks(s: string, d: Cursor)
    requires IsCString(s) && ValidCursor(s, d) && d.pos < |s| && Tracks(s, d) && CharItem(s, d).Success?
    requires '\n' !in CharItem(s, d).value.0.value.content
    ensures Tracks(s, CharItem(s, d).value.1) && Placed(s, CharItem(s, d).value.0.value, d.pos)
  {
    TokenTracks(s, d, CharItem(s, d).value.0.value, CharItem(s, d).value.1);
  }

  /** The constructs after the operators: identifiers, numbers, strings and characters. */
  lemma WordItemTracks(s: string, d: Cursor)
    requires IsCString(s) && ValidCursor(s, d) && d.pos < |s| && Tracks(s, d) && WordItem(s, d).Success?
    requires WordItem(s, d).value.0.Some? ==> SingleLine(WordItem(s, d).value.0.value)
    ensures WordItem(s, d).value.0.Some?
    ensures Tracks(s, WordItem(s, d).value.1) && Placed(s, WordItem(s, d).value.0.value, d.pos)
  {
    var p := d.pos;
    if IsNondigit(s[p]) {
      assert WordItem(s, d) == IdentifierItem(s, d);
      IdentifierTracks(s, d);
    } else if IsDigit(s[p]) || (s[p] == '.' && IsDigit(At(s, p + 1))) {
      assert WordItem(s, d) == NumberItem(s, d);
      NumberTracks(s, d);
    } else if s[p] == '"' {
      assert WordItem(s, d) == StringItem(s, d);
      StringTracks(s, d);
    } else {
      assert WordItem(s, d) == CharItem(s, d);
      CharTracks(s, d);
    }
  }

  /**
   * One pass from a cursor that tracks the text leaves a cursor that does,
   * and its token carries the line and column where it starts.
   */
  lemma NextTracks(s: string, d: Cursor)
    requires IsCString(s) && ValidCursor(s, d) && d.pos < |s| && Tracks(s, d) && Next(s, d).Success?
    requires Next(s, d).value.0.Some? ==> SingleLine(Next(s, d).value.0.value)
    ensures Tracks(s, Next(s, d).value.1)
    ensures Next(s, d).value.0.Some? ==> Placed(s, Next(s, d).value.0.value, d.pos)
  {
    var p := d.pos;
    if s[p] == '/' && At(s, p + 1) == '/' {
      SameLineTracks(s, d, RunEnd(s, p, NotNewline));
    } else if s[p] == '/' && At(s, p + 1) == '*' {
      SameLineTracks(s, d, p + 2);
      BlockCommentEndTracks(s, d.(pos := p + 2));
    } else if PoopMatch(s, p, PoopTable()).Some? {
      var q := PoopMatch(s, p, PoopTable()).value;
      PoopTableNonEmpty(s, p);
      OperatorNoNewline(s, p);
      NoNewlineContent(s, p, q);
      TokenTracks(s, d, Next(s, d).value.0.value, d.(pos := q));
    } else {
      WordItemTracks(s, d);
    }
  }

  // ---------------------------------------------------------------------------
  // The whole token list

  /** Every token carries the line and column of some position where its text starts. */
  ghost predicate AllPlaced(s: string, ts: seq<Token>) {
    forall i :: 0 <= i < |ts| ==> PlacedSomewhere(s, ts[i])
  }

  ghost predicate PlacedSomewhere(s: string, t: Token) {
    exists p: nat :: Placed(s, t, p)
  }

  /** The tokens gathered so far stay at the front of the list. */
  lemma {:induction false} LexFromExtends(s: string, c: Cursor, acc: seq<Token>)
    requires IsCString(s) && ValidCursor(s, c) && LexFrom(s, c, acc).Success?
    ensures acc <= LexFrom(s, c, acc).value
    decreases |s| - c.pos
  {
    var d := SkipSpace(s, c);
    if d.pos < |s| {
      var (tok, e) := Next(s, d).value;
      LexFromToken(s, c, acc, d, tok, e);
      var acc' := if tok.Some? then acc + [tok.value] else acc;
      LexFromExtends(s, e, acc');
    }
  }

  /** The tokens after one more pass. */
  function Grown(acc: seq<Token>, tok: Option<Token>): seq<Token> {
    if tok.Some? then acc + [tok.value] else acc
  }

  /** One pass keeps the cursor tracking and places the token it adds. */
  lemma PlacedStep(s: string, d: Cursor, acc: seq<Token>, tok: Option<Token>, e: Cursor, ts: seq<Token>)
    requires IsCString(s) && ValidCursor(s, d) && d.pos < |s| && Tracks(s, d) && Next(s, d) == Success((tok, e))
    requires AllPlaced(s, acc) && Grown(acc, tok) <= ts && SingleLineLiterals(ts)
    ensures Tracks(s, e) && AllPlaced(s, Grown(acc, tok))
  {
    if tok.Some? {
      GrownLast(acc, tok.value, ts);
    }
    NextTracks(s, d);
    GrownPlaced(s, acc, tok, d.pos);
  }

  lemma GrownLast(acc: seq<Token>, t: Token, ts: seq<Token>)
    requires acc + [t] <= ts && SingleLineLiterals(ts)
    ensures SingleLine(t)
  {
    assert ts[|acc|] == t;
  }

  lemma GrownPlaced(s: string, acc: seq<Token>, tok: Option<Token>, p: nat)
    requires AllPlaced(s, acc) && (tok.Some? ==> Placed(s, tok.value, p))
    ensures AllPlaced(s, Grown(acc, tok))
  {
    var g := Grown(acc, tok);
    forall i | 0 <= i < |g|
      ensures PlacedSomewhere(s, g[i])
    {
      if i < |acc| {
        assert g[i] == acc[i];
      } else {
        assert Placed(s, g[i], p);
      }
    }
  }

  lemma {:induction false} LexFromPlaced(s: string, c: Cursor, acc: seq<Token>)
    requires IsCString(s) && ValidCursor(s, c) && Tracks(s, c) && AllPlaced(s, acc)
    requires LexFrom(s, c, acc).Success? && SingleLineLiterals(LexFrom(s, c, acc).value)
    ensures AllPlaced(s, LexFrom(s, c, acc).value)
    decreases |s| - c.pos
  {
    var d := SkipSpace(s, c);
    SkipSpaceTracks(s, c);
    if d.pos < |s| {
      var (tok, e) := Next(s, d).value;
      LexFromToken(s, c, acc, d, tok, e);
      assert LexFrom(s, c, acc) == LexFrom(s, e, Grown(acc, tok));
      LexFromExtends(s, e, Grown(acc, tok));
      PlacedStep(s, d, acc, tok, e, LexFrom(s, e, Grown(acc, tok)).value);
      LexFromPlaced(s, e, Grown(acc, tok));
    }
  }

  /**
   * Where no string or character literal spans a line, every token of
   * `tokenize` carries the line (one plus the newlines before it) and the
   * column (one plus its offset from the line's start) of the place its
   * text starts.
   */
  lemma LexPositions(s: string)
    requires IsCString(s) && Lex(s).Success? && SingleLineLiterals(Lex(s).value)
    ensures AllPlaced(s, Lex(s).value)
  {
    assert Lex(s) == LexFrom(s, Cursor(0, 1, 0), []);
    LexFromPlaced(s, Cursor(0, 1, 0), []);
  }

  // ---------------------------------------------------------------------------
  // Examples

  // In the text of the test at spec/tokenizerspec.cpp:147-148, the comment after `b` ends
  // just before the `*`, which so gets the column five after the column of `b`.
  lemma CommentBetweenTokens()
    ensures BlockCommentEnd("b/**/*j", Cursor(3, 1, 0)) == Cursor(5, 1, 0)
    ensures Tracks("b/**/*j", Cursor(5, 1, 0)) && 5 - LineStartOf("b/**/*j", 5) + 1 == 6
  {
  }

  /** A newline inside a block comment is counted: `y` is on line 2, column 3. */
  lemma CommentNewlineCounted()
    ensures BlockCommentEnd("/*\n*/y", Cursor(2, 1, 0)) == Cursor(5, 2, 3)
    ensures Tracks("/*\n*/y", Cursor(5, 2, 3))
  {
  }
}

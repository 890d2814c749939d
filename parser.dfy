/**
 * The hand-written part of the parser (src/parser.cpp): the keyword
 * tables, the token matchers the generated grammar calls, the stack of
 * namespace scopes for qualified names, the `maximum_extent` watermark and
 * the acceptance test of `build_syntax_tree`.
 *
 * A token range is the index pair `b, e` into the token list; a matcher's
 * new child nodes are returned rather than pushed onto the parent.
 */
module Parser {
  import opened Wrappers
  import opened Tokens
  import opened Syntax

  /** `keyword_entry`: a name, the node declaring it (null for built-in keywords), and the complete declaration. */
  datatype KeywordEntry = KeywordEntry(identifier: string, declaration: Option<Path>, complete: Option<Path>)

  /** The 68 reserved words `build_syntax_tree` seeds (lines 938-951). */
  function KeywordNames(): seq<string> {
    ["alignas", "alignof", "asm", "auto", "bool", "break",
     "case", "catch", "char", "char16_t", "char32_t", "class",
     "const", "constexpr", "const_cast", "continue", "decltype",
     "default", "do", "double", "dynamic_cast", "else", "enum",
     "explicit", "export", "extern", "float", "for", "friend",
     "goto", "if", "inline", "int", "long", "mutable",
     "namespace", "noexcept", "operator", "private", "protected",
     "public", "register", "reinterpret_cast", "return", "short",
     "signed", "sizeof", "static", "static_assert",
     "static_cast", "struct", "switch", "template", "this",
     "thread_local", "throw", "try", "typedef", "typeid",
     "typename", "union", "unsigned", "using", "virtual", "void",
     "volatile", "wchar_t", "while"]
  }

  /** The seeded keyword list: every reserved word, with no declaring node. */
  function SeededKeywords(): (r: seq<KeywordEntry>)
    ensures |r| == |KeywordNames()| == 68
    ensures forall k :: 0 <= k < |r| ==> r[k] == KeywordEntry(KeywordNames()[k], None, None)
  {
    seq(|KeywordNames()|, (k: int) requires 0 <= k < |KeywordNames()| => KeywordEntry(KeywordNames()[k], None, None))
  }

  // ---------------------------------------------------------------------------
  // is_keyword and is_identifier (lines 271-300)

  /** Entry `kw` is a keyword for `text` visible from `parent`. */
  predicate SeenEntry(t: Tree, parent: Path, text: string, kw: KeywordEntry) {
    kw.identifier == text && Sees(t, parent, kw.declaration) == Success(true)
  }

  /**
   * The loop of lines 279-281 from entry `i` on: whether some entry spells
   * `text` and is visible; a scope that cannot be resolved aborts it.
   */
  function KeywordSeen(t: Tree, parent: Path, text: string, kws: seq<KeywordEntry>, i: nat): (r: Result<bool, ScopeError>)
    requires i <= |kws|
    ensures r == Success(true) ==> exists k :: i <= k < |kws| && SeenEntry(t, parent, text, kws[k])
    ensures r == Success(false) ==> forall k :: i <= k < |kws| && kws[k].identifier == text ==> Sees(t, parent, kws[k].declaration) == Success(false)
    ensures r.Failure? ==> exists k :: i <= k < |kws| && kws[k].identifier == text && Sees(t, parent, kws[k].declaration).Failure?
    decreases |kws| - i
  {
    if i == |kws| then Success(false)
    else if text == kws[i].identifier then
      var seen :- Sees(t, parent, kws[i].declaration);
      if seen then Success(true) else KeywordSeen(t, parent, text, kws, i + 1)
    else KeywordSeen(t, parent, text, kws, i + 1)
  }

  /** An entry that does not spell `text`, or that is not visible, leaves the search to the entries after it. */
  lemma KeywordSeenSkip(t: Tree, parent: Path, text: string, kws: seq<KeywordEntry>, i: nat)
    requires i < |kws|
    requires text != kws[i].identifier || Sees(t, parent, kws[i].declaration) == Success(false)
    ensures KeywordSeen(t, parent, text, kws, i) == KeywordSeen(t, parent, text, kws, i + 1)
  {
  }

  /** `is_keyword`: the token is the wanted word (any, when `name` is null) and a visible keyword. */
  function IsKeyword(t: Tree, parent: Path, tok: Token, name: Option<string>, kws: seq<KeywordEntry>): Result<bool, ScopeError>
    requires tok.value.Text?
  {
    if name.Some? && tok.value.text != name.value then Success(false)
    else KeywordSeen(t, parent, tok.value.text, kws, 0)
  }

  /** `is_identifier`: the token is the wanted word and no visible keyword. */
  function IsIdentifier(t: Tree, parent: Path, tok: Token, name: Option<string>, kws: seq<KeywordEntry>): Result<bool, ScopeError>
    requires tok.value.Text?
  {
    if name.Some? && tok.value.text != name.value then Success(false)
    else
      var seen :- KeywordSeen(t, parent, tok.value.text, kws, 0);
      Success(!seen)
  }

  /** Where the name test passes, a token is an identifier exactly when it is no keyword. */
  lemma IdentifierIsNoKeyword(t: Tree, parent: Path, tok: Token, name: Option<string>, kws: seq<KeywordEntry>)
    requires tok.value.Text? && (name.None? || name.value == tok.value.text)
    ensures IsKeyword(t, parent, tok, name, kws).Success? <==> IsIdentifier(t, parent, tok, name, kws).Success?
    ensures IsKeyword(t, parent, tok, name, kws).Success? ==>
      IsIdentifier(t, parent, tok, name, kws).value == !IsKeyword(t, parent, tok, name, kws).value
  {
  }

  /** A token that is not the wanted word is neither. */
  lemma OtherNameNeither(t: Tree, parent: Path, tok: Token, name: string, kws: seq<KeywordEntry>)
    requires tok.value.Text? && tok.value.text != name
    ensures IsKeyword(t, parent, tok, Some(name), kws) == Success(false)
    ensures IsIdentifier(t, parent, tok, Some(name), kws) == Success(false)
  {
  }

  /** Before any declaration is recorded, the keywords are exactly the reserved words, wherever the token is. */
  lemma {:induction false} SeededKeywordsSeen(t: Tree, parent: Path, tok: Token)
    requires tok.value.Text?
    ensures IsKeyword(t, parent, tok, None, SeededKeywords()) == Success(tok.value.text in KeywordNames())
  {
    var kws := SeededKeywords();
    var text := tok.value.text;
    var r := KeywordSeen(t, parent, text, kws, 0);
    assert IsKeyword(t, parent, tok, None, kws) == r;
    forall k | 0 <= k < |kws|
      ensures Sees(t, parent, kws[k].declaration) == Success(true)
    {
      assert kws[k].declaration == None;
    }
    forall k | 0 <= k < |kws| && SeenEntry(t, parent, text, kws[k])
      ensures text in KeywordNames()
    {
      assert KeywordNames()[k] == text;
    }
    assert r.Success?;
    if text in KeywordNames() {
      var k :| 0 <= k < |KeywordNames()| && KeywordNames()[k] == text;
      assert kws[k].identifier == text && Sees(t, parent, kws[k].declaration) == Success(true);
      assert r.value;
    } else {
      assert !r.value by {
        if r.value {
          assert false;
        }
      }
    }
  }

  /** Lines 279-281. */
  method IsKeywordOf(t: Tree, parent: Path, tok: Token, name: Option<string>, kws: seq<KeywordEntry>) returns (r: Result<bool, ScopeError>)
    requires tok.value.Text?
    ensures r == IsKeyword(t, parent, tok, name, kws)
  {
    var text := tok.value.text;
    if name.Some? && text != name.value {
      return Success(false);
    }
    var i := 0;
    while i < |kws|
      invariant 0 <= i <= |kws|
      invariant KeywordSeen(t, parent, text, kws, 0) == KeywordSeen(t, parent, text, kws, i)
    {
      if text == kws[i].identifier {
        var seen := SeesOf(t, parent, kws[i].declaration);
        if seen.Failure? {
          return Failure(seen.error);
        }
        if seen.value {
          return Success(true);
        }
      }
      KeywordSeenSkip(t, parent, text, kws, i);
      i := i + 1;
    }
    return Success(false);
  }

  /** Lines 295-299. */
  method IsIdentifierOf(t: Tree, parent: Path, tok: Token, name: Option<string>, kws: seq<KeywordEntry>) returns (r: Result<bool, ScopeError>)
    requires tok.value.Text?
    ensures r == IsIdentifier(t, parent, tok, name, kws)
  {
    var text := tok.value.text;
    if name.Some? && text != name.value {
      return Success(false);
    }
    var i := 0;
    while i < |kws|
      invariant 0 <= i <= |kws|
      invariant KeywordSeen(t, parent, text, kws, 0) == KeywordSeen(t, parent, text, kws, i)
    {
      if text == kws[i].identifier {
        var seen := SeesOf(t, parent, kws[i].declaration);
        if seen.Failure? {
          return Failure(seen.error);
        }
        if seen.value {
          return Success(false);
        }
      }
      KeywordSeenSkip(t, parent, text, kws, i);
      i := i + 1;
    }
    return Success(true);
  }

  // ---------------------------------------------------------------------------
  // The hand-written matchers

  /** A matcher's answer: where it stopped, whether it matched, and the nodes it appended to the parent. */
  datatype Reply = Reply(next: nat, success: bool, added: seq<Tree>)

  /** The failed answer every matcher gives: back at `b`, nothing appended. */
  function NoMatch(b: nat): Reply {
    Reply(b, false, [])
  }

  /** A node of type `k` holding the single TOKEN `tok`. */
  function OneToken(k: NodeType, tok: Token, declaration: Option<Path>): Tree {
    Node(k, false, [Leaf(tok)], declaration)
  }

  /** An operator token spelling `s`. */
  predicate IsOperator(tok: Token, s: string) {
    tok.kind == Operator && TextOf(tok) == Some(s)
  }

  predicate IsBracket(tok: Token) {
    tok.kind == Operator && TextOf(tok) in {Some("("), Some("["), Some("{"), Some(")"), Some("]"), Some("}")}
  }

  /** `sv_trivially_balanced_token`: any one token but a bracket. */
  function TriviallyBalanced(toks: seq<Token>, b: nat, e: nat): (r: Reply)
    requires b <= e <= |toks|
    ensures r.success <==> b < e && !IsBracket(toks[b])
    ensures r.success ==> r.next == b + 1 && r.added == [OneToken(TriviallyBalancedToken, toks[b], None)]
    ensures !r.success ==> r == NoMatch(b)
  {
    if b == e || IsBracket(toks[b]) then NoMatch(b)
    else Reply(b + 1, true, [OneToken(TriviallyBalancedToken, toks[b], None)])
  }

  /** `overloadable_operators` (lines 327-331), 36 entries. */
  function OverloadableOperators(): seq<string> {
    ["+", "-", "*", "/", "%", "^", "&", "|", "~", "!", "=", "<", ">", "+=", "-=",
     "*=", "/=", "%=", "^=", "&=", "|=", "<<", ">>", ">>=", "<<=", "==", "!=",
     "<=", ">=", "&&", "||", "++", "--", ",", "->*", "->"]
  }

  /** The `for` loop of lines 377-384: whether `op` is in the table. */
  method InOperatorTable(op: string) returns (found: bool)
    ensures found <==> op in OverloadableOperators()
  {
    var table := OverloadableOperators();
    found := false;
    var k := 0;
    while k < |table|
      invariant 0 <= k <= |table|
      invariant op !in table[..k]
    {
      if op == table[k] {
        assert op in table;
        return true;
      }
      assert table[..k + 1] == table[..k] + [table[k]];
      k := k + 1;
    }
    assert table[..k] == table;
  }

  /** `new` or `delete`, which match alone or as `new[]`, `delete[]`. */
  predicate NewOrDelete(tok: Token) {
    IsOperator(tok, "new") || IsOperator(tok, "delete")
  }

  /** `new[]` or `delete[]` at `b`, all three tokens inside the range. */
  predicate ArrayForm(toks: seq<Token>, b: nat, e: nat)
    requires b <= e <= |toks|
  {
    b + 2 < e && NewOrDelete(toks[b]) && IsOperator(toks[b + 1], "[") && IsOperator(toks[b + 2], "]")
  }

  /** `(` or `[` at `b` with its closing bracket inside the range. */
  predicate EmptyBrackets(toks: seq<Token>, b: nat, e: nat)
    requires b <= e <= |toks|
  {
    b + 1 < e
    && ((IsOperator(toks[b], "(") && IsOperator(toks[b + 1], ")"))
        || (IsOperator(toks[b], "[") && IsOperator(toks[b + 1], "]")))
  }

  /** The table leaves out `(` and `[`, which are matched with their closer. */
  lemma BracketsNotInTable()
    ensures "(" !in OverloadableOperators() && "[" !in OverloadableOperators()
  {
    var table := OverloadableOperators();
    forall k | 0 <= k < |table|
      ensures table[k] != "(" && table[k] != "["
    {
      assert table[k][0] != '(' && table[k][0] != '[';
    }
  }

  /** An operator token whose spelling is in `overloadable_operators`. */
  predicate TableOperator(tok: Token) {
    tok.kind == Operator && TextOf(tok).Some? && TextOf(tok).value in OverloadableOperators()
  }

  /**
   * `sv_overloadable_operator` with a range check before each look-ahead:
   * `new[]` and `delete[]` take three tokens; `(` and `[` need their closing
   * bracket next but take only themselves; other operators must be in the
   * table.
   */
  function OverloadableOperatorMatch(toks: seq<Token>, b: nat, e: nat): (r: Reply)
    requires b <= e <= |toks|
    ensures r.success <==> b < e && (NewOrDelete(toks[b]) || EmptyBrackets(toks, b, e) || TableOperator(toks[b]))
    ensures r.success && r.next == b + 3 <==> ArrayForm(toks, b, e)
    ensures r.success && r.next == b + 3 ==> r.added == [Node(OverloadableOperator, false, [Leaf(toks[b]), Leaf(toks[b + 1]), Leaf(toks[b + 2])], None)]
    ensures r.success && r.next != b + 3 ==> r.next == b + 1 && r.added == [OneToken(OverloadableOperator, toks[b], None)]
    ensures r.success ==> r.next <= e
    ensures !r.success ==> r == NoMatch(b)
  {
    if b == e || toks[b].kind != Operator then NoMatch(b)
    else if NewOrDelete(toks[b]) then
      if ArrayForm(toks, b, e) then
        Reply(b + 3, true, [Node(OverloadableOperator, false, [Leaf(toks[b]), Leaf(toks[b + 1]), Leaf(toks[b + 2])], None)])
      else Reply(b + 1, true, [OneToken(OverloadableOperator, toks[b], None)])
    else if IsOperator(toks[b], "(") || IsOperator(toks[b], "[") then
      BracketsNotInTable();
      if EmptyBrackets(toks, b, e) then
        Reply(b + 1, true, [OneToken(OverloadableOperator, toks[b], None)])
      else NoMatch(b)
    else if TableOperator(toks[b]) then
      Reply(b + 1, true, [OneToken(OverloadableOperator, toks[b], None)])
    else NoMatch(b)
  }

  /**
   * A read at the range's end (undefined behaviour when, as in every emitted
   * call, the range ends at the list's end), or a null tree.
   */
  datatype Fault = ReadsPastRange(index: nat) | NullRoot

  /** `*m` as lines 350, 353 and 370 do it: without comparing `m` with `e`. */
  function ReadToken(toks: seq<Token>, m: nat, e: nat): Result<Token, Fault>
    requires e <= |toks|
  {
    if m < e then Success(toks[m]) else Failure(ReadsPastRange(m))
  }

  /** `sv_overloadable_operator` as written: the look-ahead tokens are read whether or not they are in range. */
  function OverloadableOperatorAsWritten(toks: seq<Token>, b: nat, e: nat): Result<Reply, Fault>
    requires b <= e <= |toks|
  {
    if b == e || toks[b].kind != Operator then Success(NoMatch(b))
    else
      var op := TextOf(toks[b]);
      if op == Some("new") || op == Some("delete") then
        var m1 :- ReadToken(toks, b + 1, e);
        if IsOperator(m1, "[") then
          var m2 :- ReadToken(toks, b + 2, e);
          if IsOperator(m2, "]") then
            Success(Reply(b + 3, true, [Node(OverloadableOperator, false, [Leaf(toks[b]), Leaf(m1), Leaf(m2)], None)]))
          else Success(Reply(b + 1, true, [OneToken(OverloadableOperator, toks[b], None)]))
        else Success(Reply(b + 1, true, [OneToken(OverloadableOperator, toks[b], None)]))
      else if op == Some("(") || op == Some("[") then
        var m1 :- ReadToken(toks, b + 1, e);
        if IsOperator(m1, if op == Some("(") then ")" else "]") then
          Success(Reply(b + 1, true, [OneToken(OverloadableOperator, toks[b], None)]))
        else Success(NoMatch(b))
      else if op.Some? && op.value in OverloadableOperators() then
        Success(Reply(b + 1, true, [OneToken(OverloadableOperator, toks[b], None)]))
      else Success(NoMatch(b))
  }

  /** `operator new` as the last token: the source reads the token at the end of the range. */
  lemma NewAtEndReadsPastRange(tok: Token)
    requires IsOperator(tok, "new")
    ensures OverloadableOperatorAsWritten([tok], 0, 1) == Failure(ReadsPastRange(1))
  {
  }

  /** `(` as the last token: the same read past the range. */
  lemma ParenAtEndReadsPastRange(tok: Token)
    requires IsOperator(tok, "(")
    ensures OverloadableOperatorAsWritten([tok], 0, 1) == Failure(ReadsPastRange(1))
  {
  }

  /** Wherever the source stays in range, the guarded matcher answers as it does. */
  lemma OverloadableOperatorAgrees(toks: seq<Token>, b: nat, e: nat)
    requires b <= e <= |toks|
    ensures OverloadableOperatorAsWritten(toks, b, e).Success? ==>
      OverloadableOperatorAsWritten(toks, b, e).value == OverloadableOperatorMatch(toks, b, e)
  {
  }

  /** `operator ()` as the source has it: `)` must follow, but only `(` is taken. */
  lemma CallOperatorTakesOpenOnly(open: Token, close: Token)
    requires IsOperator(open, "(") && IsOperator(close, ")")
    ensures OverloadableOperatorMatch([open, close], 0, 2) == Reply(1, true, [OneToken(OverloadableOperator, open, None)])
    ensures !OverloadableOperatorMatch([open], 0, 1).success
  {
  }

  /**
   * The search of lines 591-604 (and 617-630, 739-752) from entry `i` on:
   * the first entry spelling `text` whose declaration is visible from
   * `parent` under the namespace scope `ns`.
   */
  function FirstVisible(t: Tree, parent: Path, text: string, names: seq<KeywordEntry>, ns: Option<Path>, i: nat): (r: Result<Option<nat>, ScopeError>)
    requires i <= |names|
    ensures r.Success? && r.value.Some? ==>
      (i <= r.value.value < |names| && names[r.value.value].identifier == text
       && SeesInNs(t, parent, names[r.value.value].declaration, ns) == Success(true))
    ensures r.Success? ==> forall k :: i <= k < |names| && names[k].identifier == text && (r.value.None? || k < r.value.value) ==>
      SeesInNs(t, parent, names[k].declaration, ns) == Success(false)
    ensures r.Failure? ==> exists k :: i <= k < |names| && names[k].identifier == text && SeesInNs(t, parent, names[k].declaration, ns).Failure?
    decreases |names| - i
  {
    if i == |names| then Success(None)
    else if text == names[i].identifier then
      var seen :- SeesInNs(t, parent, names[i].declaration, ns);
      if seen then Success(Some(i)) else FirstVisible(t, parent, text, names, ns, i + 1)
    else FirstVisible(t, parent, text, names, ns, i + 1)
  }

  /** An entry that does not spell `text`, or that is not visible, leaves the search to the entries after it. */
  lemma FirstVisibleSkip(t: Tree, parent: Path, text: string, names: seq<KeywordEntry>, ns: Option<Path>, i: nat)
    requires i < |names|
    requires text != names[i].identifier || SeesInNs(t, parent, names[i].declaration, ns) == Success(false)
    ensures FirstVisible(t, parent, text, names, ns, i) == FirstVisible(t, parent, text, names, ns, i + 1)
  {
  }

  /** The loop of lines 591-604. */
  method FirstVisibleOf(t: Tree, parent: Path, text: string, names: seq<KeywordEntry>, ns: Option<Path>) returns (r: Result<Option<nat>, ScopeError>)
    ensures r == FirstVisible(t, parent, text, names, ns, 0)
  {
    var i := 0;
    while i < |names|
      invariant 0 <= i <= |names|
      invariant FirstVisible(t, parent, text, names, ns, 0) == FirstVisible(t, parent, text, names, ns, i)
    {
      if text == names[i].identifier {
        var seen := SeesInNsOf(t, parent, names[i].declaration, ns);
        if seen.Failure? {
          return Failure(seen.error);
        }
        if seen.value {
          return Success(Some(i));
        }
      }
      FirstVisibleSkip(t, parent, text, names, ns, i);
      i := i + 1;
    }
    return Success(None);
  }

  /**
   * `sv_typedef_name`, `sv_original_namespace_name` and `sv_template_name`:
   * an identifier naming a visible entry of `names` becomes a node of type
   * `k` referring to the entry's complete declaration.
   */
  function NameMatch(t: Tree, parent: Path, toks: seq<Token>, b: nat, e: nat, names: seq<KeywordEntry>, ns: Option<Path>, k: NodeType): (r: Result<Reply, ScopeError>)
    requires b <= e <= |toks|
    ensures r.Success? && r.value.success ==>
      (b < e && toks[b].kind == Identifier && toks[b].value.Text? && r.value.next == b + 1 && |r.value.added| == 1
       && exists j ::
            0 <= j < |names| && names[j].identifier == toks[b].value.text
            && SeesInNs(t, parent, names[j].declaration, ns) == Success(true)
            && r.value.added[0] == OneToken(k, toks[b], names[j].complete))
    ensures r.Success? && !r.value.success ==> r.value == NoMatch(b)
    ensures r.Success? && !r.value.success && b < e && toks[b].kind == Identifier && toks[b].value.Text? ==>
      forall j :: 0 <= j < |names| && names[j].identifier == toks[b].value.text ==> SeesInNs(t, parent, names[j].declaration, ns) == Success(false)
  {
    if b == e || toks[b].kind != Identifier || !toks[b].value.Text? then Success(NoMatch(b))
    else
      var found :- FirstVisible(t, parent, toks[b].value.text, names, ns, 0);
      match found
      case None => Success(NoMatch(b))
      case Some(j) => Success(Reply(b + 1, true, [OneToken(k, toks[b], names[j].complete)]))
  }

  /**
   * `sv_right_shift` (`second` = `>`) and `sv_right_shift_assignment`
   * (`second` = `>=`): `>` and `second` right next to each other on one line
   * become two TOKEN children of the parent itself.
   */
  function RightShift(toks: seq<Token>, b: nat, e: nat, second: string): (r: Reply)
    requires b <= e <= |toks|
    ensures r.success <==>
      (b + 1 < e && IsOperator(toks[b], ">") && IsOperator(toks[b + 1], second)
       && toks[b + 1].line == toks[b].line && toks[b + 1].column == toks[b].column + 1)
    ensures r.success ==> r.next == b + 2 && r.added == [Leaf(toks[b]), Leaf(toks[b + 1])]
    ensures !r.success ==> r == NoMatch(b)
  {
    if b < e && IsOperator(toks[b], ">") && b + 1 < e && IsOperator(toks[b + 1], second)
      && toks[b + 1].line == toks[b].line && toks[b + 1].column == toks[b].column + 1
    then Reply(b + 2, true, [Leaf(toks[b]), Leaf(toks[b + 1])])
    else NoMatch(b)
  }

  /** The two tokens `sv_right_shift_assignment` leaves in an assignment operator become one `>>=`. */
  lemma RightShiftAssignmentFixed(toks: seq<Token>, b: nat, e: nat, intermediate: bool, d: Option<Path>)
    requires b <= e <= |toks| && RightShift(toks, b, e, ">=").success
    ensures var op := Node(Sv("ASSIGNMENT_OPERATOR"), intermediate, RightShift(toks, b, e, ">=").added, d);
            FixRightShifts(op) == op.(children := [Leaf(toks[b].(content := ">>=", value := Text(">>=")))])
  {
  }

  /** The two tokens `sv_right_shift` leaves in a shift operator become one `>>`. */
  lemma RightShiftFixed(toks: seq<Token>, b: nat, e: nat, intermediate: bool, d: Option<Path>)
    requires b <= e <= |toks| && RightShift(toks, b, e, ">").success
    ensures var op := Node(Sv("SHIFT_OPERATOR"), intermediate, RightShift(toks, b, e, ">").added, d);
            FixRightShifts(op) == op.(children := [Leaf(toks[b].(content := ">>", value := Text(">>")))])
  {
  }

  /** The hand-written matchers, by the name the grammar calls them by. */
  datatype HandWritten =
    | TriviallyBalancedTokenSv
    | OverloadableOperatorSv
    | TypedefNameSv
    | OriginalNamespaceNameSv
    | TemplateNameSv
    | RightShiftSv
    | RightShiftAssignmentSv

  /** A reply holds exactly the tokens from `b` up to its cursor, in order. */
  predicate ReplyAccounts(toks: seq<Token>, b: nat, r: Reply) {
    b <= r.next <= |toks| && LeavesOf(r.added) == toks[b..r.next]
  }

  lemma OneTokenAccounts(toks: seq<Token>, b: nat, k: NodeType, d: Option<Path>)
    requires b < |toks|
    ensures ReplyAccounts(toks, b, Reply(b + 1, true, [OneToken(k, toks[b], d)]))
  {
    var n := OneToken(k, toks[b], d);
    LeavesFromOf(n, 0);
    assert n.children[0..][1..] == [];
    assert [n][1..] == [];
    assert toks[b..b + 1] == [toks[b]];
  }

  lemma TwoLeavesAccounts(toks: seq<Token>, b: nat)
    requires b + 2 <= |toks|
    ensures ReplyAccounts(toks, b, Reply(b + 2, true, [Leaf(toks[b]), Leaf(toks[b + 1])]))
  {
    var ls := [Leaf(toks[b]), Leaf(toks[b + 1])];
    assert ls[1..] == [Leaf(toks[b + 1])];
    assert ls[1..][1..] == [];
    assert LeavesOf(ls[1..]) == [toks[b + 1]];
    assert LeavesOf(ls) == [toks[b], toks[b + 1]];
    assert toks[b..b + 2] == [toks[b], toks[b + 1]];
  }

  lemma ArrayFormAccounts(toks: seq<Token>, b: nat)
    requires b + 3 <= |toks|
    ensures ReplyAccounts(toks, b, Reply(b + 3, true, [Node(OverloadableOperator, false, [Leaf(toks[b]), Leaf(toks[b + 1]), Leaf(toks[b + 2])], None)]))
  {
    var ls := [Leaf(toks[b]), Leaf(toks[b + 1]), Leaf(toks[b + 2])];
    var n := Node(OverloadableOperator, false, ls, None);
    LeavesFromOf(n, 0);
    assert ls[0..] == ls;
    assert ls[1..] == [Leaf(toks[b + 1]), Leaf(toks[b + 2])];
    assert ls[1..][1..] == [Leaf(toks[b + 2])];
    assert ls[1..][1..][1..] == [];
    assert LeavesOf(ls[1..][1..]) == [toks[b + 2]];
    assert LeavesOf(ls[1..]) == [toks[b + 1], toks[b + 2]];
    assert LeavesOf(ls) == [toks[b], toks[b + 1], toks[b + 2]];
    assert [n][1..] == [];
    assert toks[b..b + 3] == [toks[b], toks[b + 1], toks[b + 2]];
  }

  lemma OverloadableOperatorAccounts(toks: seq<Token>, b: nat, e: nat)
    requires b <= e <= |toks|
    ensures ReplyAccounts(toks, b, OverloadableOperatorMatch(toks, b, e))
  {
    var r := OverloadableOperatorMatch(toks, b, e);
    if r.success && r.next == b + 3 {
      ArrayFormAccounts(toks, b);
    } else if r.success {
      OneTokenAccounts(toks, b, OverloadableOperator, None);
    }
  }

  lemma NameMatchAccounts(t: Tree, parent: Path, toks: seq<Token>, b: nat, e: nat, names: seq<KeywordEntry>, ns: Option<Path>, k: NodeType)
    requires b <= e <= |toks|
    requires NameMatch(t, parent, toks, b, e, names, ns, k).Success?
    ensures ReplyAccounts(toks, b, NameMatch(t, parent, toks, b, e, names, ns, k).value)
  {
    var r := NameMatch(t, parent, toks, b, e, names, ns, k).value;
    if r.success {
      var j :| 0 <= j < |names| && r.added[0] == OneToken(k, toks[b], names[j].complete);
      assert r.added == [OneToken(k, toks[b], names[j].complete)];
      OneTokenAccounts(toks, b, k, names[j].complete);
    }
  }

  /**
   * Every hand-written matcher leaves attached exactly the tokens it
   * consumed, in order, and nothing when it fails.
   */
  lemma AnswerAccounts(m: HandWritten, t: Tree, parent: Path, toks: seq<Token>, b: nat, e: nat,
                       typedefs: seq<KeywordEntry>, namespaces: seq<KeywordEntry>, templates: seq<KeywordEntry>,
                       ns: Option<Path>)
    requires b <= e <= |toks|
    requires Answer(m, t, parent, toks, b, e, typedefs, namespaces, templates, ns).Success?
    ensures ReplyAccounts(toks, b, Answer(m, t, parent, toks, b, e, typedefs, namespaces, templates, ns).value)
    ensures !Answer(m, t, parent, toks, b, e, typedefs, namespaces, templates, ns).value.success ==>
              Answer(m, t, parent, toks, b, e, typedefs, namespaces, templates, ns).value.added == []
  {
    match m
    case TriviallyBalancedTokenSv =>
      if TriviallyBalanced(toks, b, e).success {
        OneTokenAccounts(toks, b, TriviallyBalancedToken, None);
      }
    case OverloadableOperatorSv => OverloadableOperatorAccounts(toks, b, e);
    case TypedefNameSv => NameMatchAccounts(t, parent, toks, b, e, typedefs, ns, TypedefName);
    case OriginalNamespaceNameSv => NameMatchAccounts(t, parent, toks, b, e, namespaces, ns, OriginalNamespaceName);
    case TemplateNameSv => NameMatchAccounts(t, parent, toks, b, e, templates, ns, TemplateName);
    case RightShiftSv =>
      if RightShift(toks, b, e, ">").success {
        TwoLeavesAccounts(toks, b);
      }
    case RightShiftAssignmentSv =>
      if RightShift(toks, b, e, ">=").success {
        TwoLeavesAccounts(toks, b);
      }
  }

  /** The watermark after a reply: a match that got further than any before raises it. */
  function Bump(extent: nat, r: Reply): (x: nat)
    ensures x >= extent && (r.success ==> x >= r.next)
    ensures x == extent || (r.success && x == r.next)
  {
    if r.success && r.next > extent then r.next else extent
  }

  // ---------------------------------------------------------------------------
  // The namespace scope stack (lines 404-412, 853-917)

  /** `namespace_scope_entry`: the scope a qualified name points into, and the node that ends it. */
  datatype NamespaceEntry = NamespaceEntry(scope: Option<Path>, related: Path)

  /** The scope of the top entry, or none on an empty stack. */
  function Top(stack: seq<NamespaceEntry>): Option<Path> {
    if stack == [] then None else stack[|stack| - 1].scope
  }

  /** Why a nested name specifier cannot be read: the `throw` of line 861, or a tree the grammar does not build. */
  datatype ShapeError = DecltypeUnsupported | Malformed

  /** The scope below a declaration (`supplemental.declaration->scope_below()`), as a path. */
  function ScopeBelowAt(t: Tree, d: Path): Result<Option<Path>, ShapeError> {
    match Subtree(t, d)
    case None => Failure(Malformed)
    case Some(n) =>
      match ScopeBelow(n)
      case None => Success(None)
      case Some(q) => Success(Some(d + q))
  }

  /** The declaration of the name node: the first child of child `ci`, through a template-id to its template-name. */
  function NameDeclaration(node: Tree, ci: nat): Result<Option<Path>, ShapeError>
    requires node.Node?
  {
    if ci >= |node.children| || node.children[ci].Leaf? || node.children[ci].children == [] then Failure(Malformed)
    else
      var n := node.children[ci].children[0];
      var n' := if n.Node? && n.kind == Sv("SIMPLE_TEMPLATE_ID") && n.children != [] then n.children[0] else n;
      if n'.Leaf? || (n.Node? && n.kind == Sv("SIMPLE_TEMPLATE_ID") && n.children == []) then Failure(Malformed)
      else Success(n'.declaration)
  }

  /** Lines 855-867: the scope a leading nested name specifier opens. */
  function StartScope(t: Tree, p: Path): (r: Result<Option<Path>, ShapeError>)
    ensures r.Success? ==> IsNodeAt(t, p) && Subtree(t, p).value.Node?
  {
    match Subtree(t, p)
    case None => Failure(Malformed)
    case Some(node) =>
      if node.Leaf? || node.children == [] then Failure(Malformed)
      else
        var ci := if node.children[0].Leaf? then 1 else 0;
        if ci < |node.children| && node.children[ci].Node? && node.children[ci].kind == Sv("DECLTYPE_SPECIFIER") then
          Failure(DecltypeUnsupported)
        else
          var d :- NameDeclaration(node, ci);
          if d.None? then Success(None) else ScopeBelowAt(t, d.value)
  }

  /** Lines 875-887: the scope a further nested name specifier opens; a class is its own scope. */
  function RepeatableScope(t: Tree, p: Path): (r: Result<Option<Path>, ShapeError>)
    ensures r.Success? ==> IsNodeAt(t, p) && Subtree(t, p).value.Node?
  {
    match Subtree(t, p)
    case None => Failure(Malformed)
    case Some(node) =>
      if node.Leaf? || node.children == [] then Failure(Malformed)
      else
        var ci := if node.children[0].Leaf? && node.children[0].token.content == "template" then 1 else 0;
        var d :- NameDeclaration(node, ci);
        if d.None? || KindAt(t, d.value, {Sv("CLASS_SPECIFIER")}) then Success(d)
        else ScopeBelowAt(t, d.value)
  }

  // ---------------------------------------------------------------------------
  // Acceptance (lines 958-975)

  /** What the root matcher produced: its tree (null for an empty token list) and its success flag; or an error it threw. */
  datatype Outcome = Parsed(root: Option<Tree>, success: bool) | Threw(reason: ScopeError)

  datatype Reason = UnmatchedToken(content: string) | UnmatchedEnd | UnresolvedScope(error: ScopeError)

  /** The error `build_syntax_tree` raises: at the watermark token's position, or without one at the end. */
  datatype ParseError = ParseError(position: Option<(int, int)>, reason: Reason)

  /** The `catch` of lines 969-975: the position of the token at the watermark, if there is one. */
  function ErrorAt(toks: seq<Token>, extent: nat, reason: Reason): (r: ParseError)
    ensures r.reason == reason
    ensures r.position.None? <==> extent >= |toks|
    ensures extent < |toks| ==> r.position == Some((toks[extent].line, toks[extent].column))
  {
    if extent < |toks| then ParseError(Some((toks[extent].line, toks[extent].column)), reason)
    else ParseError(None, reason)
  }

  /**
   * Lines 958-975 with the end of the token list handled: the tree is
   * contracted and its shifts fixed, and accepted only when the root
   * matched and the watermark reached the end.
   */
  function Accept(toks: seq<Token>, outcome: Outcome, extent: nat): (r: Result<Tree, ParseError>)
    ensures r.Success? <==> outcome.Parsed? && outcome.root.Some? && outcome.success && extent == |toks|
    ensures r.Success? ==> r.value == FixRightShifts(Contract(outcome.root.value))
    ensures r.Failure? && outcome.Parsed? && extent < |toks| ==> r.error == ErrorAt(toks, extent, UnmatchedToken(toks[extent].content))
    ensures r.Failure? && outcome.Parsed? && extent >= |toks| ==> r.error == ParseError(None, UnmatchedEnd)
  {
    match outcome
    case Threw(reason) => Failure(ErrorAt(toks, extent, UnresolvedScope(reason)))
    case Parsed(root, success) =>
      if root.Some? && success && extent == |toks| then Success(FixRightShifts(Contract(root.value)))
      else if extent < |toks| then Failure(ErrorAt(toks, extent, UnmatchedToken(toks[extent].content)))
      else Failure(ParseError(None, UnmatchedEnd))
  }

  /** Lines 962-967 as written: the root is used before its null check, and the message reads the watermark token even at the end. */
  function AcceptAsWritten(toks: seq<Token>, outcome: Outcome, extent: nat): Result<Result<Tree, ParseError>, Fault>
    requires extent <= |toks|
  {
    match outcome
    case Threw(reason) => Success(Failure(ErrorAt(toks, extent, UnresolvedScope(reason))))
    case Parsed(root, success) =>
      if root.None? then Failure(NullRoot)
      else
        var tree := FixRightShifts(Contract(root.value));
        if success && extent == |toks| then Success(Success(tree))
        else
          var tok :- ReadToken(toks, extent, |toks|);
          Success(Failure(ErrorAt(toks, extent, UnmatchedToken(tok.content))))
  }

  /** A root that fails after the watermark reached the end makes the source read past the token list. */
  lemma FailureAtEndReadsPastRange(toks: seq<Token>, root: Tree)
    ensures AcceptAsWritten(toks, Parsed(Some(root), false), |toks|) == Failure(ReadsPastRange(|toks|))
  {
  }

  /** An empty token list gives a null root, which the source contracts. */
  lemma EmptyInputNullRoot()
    ensures AcceptAsWritten([], Parsed(None, false), 0) == Failure(NullRoot)
    ensures Accept([], Parsed(None, false), 0) == Failure(ParseError(None, UnmatchedEnd))
  {
  }

  /** Wherever the source is defined, the guarded acceptance agrees with it. */
  lemma AcceptAgrees(toks: seq<Token>, outcome: Outcome, extent: nat)
    requires extent <= |toks|
    ensures AcceptAsWritten(toks, outcome, extent).Success? ==> AcceptAsWritten(toks, outcome, extent).value == Accept(toks, outcome, extent)
  {
  }

  // ---------------------------------------------------------------------------
  // The parser's global state

  /**
   * The static state of src/parser.cpp: the keyword and name lists, the
   * namespace scope stack with the current namespace scope, and the
   * watermark `maximum_extent` as an index into the token list.
   */
  class ParserState {
    var keywords: seq<KeywordEntry>
    var typedefNames: seq<KeywordEntry>
    var classNames: seq<KeywordEntry>
    var templateNames: seq<KeywordEntry>
    var originalNamespaceNames: seq<KeywordEntry>
    var stack: seq<NamespaceEntry>
    var namespaceScope: Option<Path>
    var maximumExtent: nat

    /** `namespace_scope` is always the scope of the top of the stack. */
    ghost predicate Valid()
      reads this
    {
      namespaceScope == Top(stack)
    }

    /** The state `build_syntax_tree` starts from (lines 925-956). */
    constructor ()
      ensures Valid() && Fresh()
    {
      keywords := SeededKeywords();
      typedefNames, classNames, templateNames, originalNamespaceNames := [], [], [], [];
      stack := [];
      namespaceScope := None;
      maximumExtent := 0;
    }

    ghost predicate Fresh()
      reads this
    {
      keywords == SeededKeywords() && typedefNames == [] && classNames == [] && templateNames == []
      && originalNamespaceNames == [] && stack == [] && namespaceScope == None && maximumExtent == 0
    }

    /** Lines 925-956: the watermark back at the first token, the lists cleared and the keywords seeded, the stack emptied. */
    method Reset()
      modifies this
      ensures Valid() && Fresh()
    {
      maximumExtent := 0;
      keywords := SeededKeywords();
      typedefNames, classNames, templateNames, originalNamespaceNames := [], [], [], [];
      var s := stack;
      while s != []
        decreases |s|
      {
        s := s[..|s| - 1];
      }
      stack := s;
      namespaceScope := None;
    }

    /**
     * A call to a hand-written matcher: its answer, with the watermark
     * raised when it matched further than any match before.
     */
    method Call(m: HandWritten, t: Tree, parent: Path, toks: seq<Token>, b: nat, e: nat) returns (r: Result<Reply, ScopeError>)
      requires b <= e <= |toks|
      modifies this
      ensures r == Answer(m, t, parent, toks, b, e, old(typedefNames), old(originalNamespaceNames), old(templateNames), old(namespaceScope))
      ensures maximumExtent == if r.Success? then Bump(old(maximumExtent), r.value) else old(maximumExtent)
      ensures maximumExtent >= old(maximumExtent)
      ensures keywords == old(keywords) && typedefNames == old(typedefNames) && classNames == old(classNames)
      ensures templateNames == old(templateNames) && originalNamespaceNames == old(originalNamespaceNames)
      ensures stack == old(stack) && namespaceScope == old(namespaceScope)
    {
      r := Answer(m, t, parent, toks, b, e, typedefNames, originalNamespaceNames, templateNames, namespaceScope);
      if r.Success? && r.value.success && r.value.next > maximumExtent {
        maximumExtent := r.value.next;
      }
    }

    /** Lines 853-870 and 873-890: push the scope the specifier names, ended by `node->parent->parent`. */
    method NestedNameSpecifierDone(t: Tree, node: Path, leading: bool) returns (r: Result<(), ShapeError>)
      requires Valid()
      modifies this
      ensures Valid()
      ensures var scope := if leading then StartScope(t, node) else RepeatableScope(t, node);
        if scope.Success? && |node| >= 2 then
          r.Success? && stack == old(stack) + [NamespaceEntry(scope.value, node[..|node| - 2])] && namespaceScope == scope.value
        else
          r.Failure? && stack == old(stack) && namespaceScope == old(namespaceScope)
      ensures keywords == old(keywords) && maximumExtent == old(maximumExtent)
      ensures typedefNames == old(typedefNames) && classNames == old(classNames)
      ensures templateNames == old(templateNames) && originalNamespaceNames == old(originalNamespaceNames)
    {
      var scope := if leading then StartScope(t, node) else RepeatableScope(t, node);
      if scope.Failure? {
        return Failure(scope.error);
      }
      if |node| < 2 {
        return Failure(Malformed);
      }
      stack := stack + [NamespaceEntry(scope.value, node[..|node| - 2])];
      namespaceScope := scope.value;
      return Success(());
    }

    /** Lines 893-907: the entry `node` ends is popped, and the scope falls back to the one below. */
    method ClearNestedNameSpecifier(node: Path)
      requires Valid()
      modifies this
      ensures Valid()
      ensures if old(stack) != [] && old(stack)[|old(stack)| - 1].related == node
        then stack == old(stack)[..|old(stack)| - 1]
        else stack == old(stack) && namespaceScope == old(namespaceScope)
      ensures keywords == old(keywords) && maximumExtent == old(maximumExtent)
      ensures typedefNames == old(typedefNames) && classNames == old(classNames)
      ensures templateNames == old(templateNames) && originalNamespaceNames == old(originalNamespaceNames)
    {
      if stack == [] {
        return;
      }
      if node == stack[|stack| - 1].related {
        stack := stack[..|stack| - 1];
        namespaceScope := if stack != [] then stack[|stack| - 1].scope else None;
      }
    }

    /** Lines 910-917: outside a qualified id, an active namespace scope is suspended until `node` ends. */
    method PushNullNamespace(t: Tree, node: Path)
      requires Valid() && node != []
      modifies this
      ensures Valid()
      ensures if KindAt(t, node[..|node| - 1], {Sv("QUALIFIED_ID")}) || old(namespaceScope).None?
        then stack == old(stack) && namespaceScope == old(namespaceScope)
        else stack == old(stack) + [NamespaceEntry(None, node)] && namespaceScope == None
      ensures keywords == old(keywords) && maximumExtent == old(maximumExtent)
      ensures typedefNames == old(typedefNames) && classNames == old(classNames)
      ensures templateNames == old(templateNames) && originalNamespaceNames == old(originalNamespaceNames)
    {
      if KindAt(t, node[..|node| - 1], {Sv("QUALIFIED_ID")}) || namespaceScope.None? {
        return;
      }
      stack := stack + [NamespaceEntry(None, node)];
      namespaceScope := None;
    }

    /** Lines 962-975: the outcome of the root matcher judged against the watermark. */
    method Finish(toks: seq<Token>, outcome: Outcome) returns (r: Result<Tree, ParseError>)
      requires maximumExtent <= |toks|
      ensures r == Accept(toks, outcome, maximumExtent)
    {
      if outcome.Threw? {
        return Failure(ErrorAt(toks, maximumExtent, UnresolvedScope(outcome.reason)));
      }
      if outcome.root.Some? {
        var contracted := ContractNode(outcome.root.value);
        var fixed := FixRightShiftsOf(contracted);
        if outcome.success && maximumExtent == |toks| {
          return Success(fixed);
        }
      }
      if maximumExtent < |toks| {
        return Failure(ErrorAt(toks, maximumExtent, UnmatchedToken(toks[maximumExtent].content)));
      }
      return Failure(ParseError(None, UnmatchedEnd));
    }
  }

  /** The answer of a hand-written matcher given the lists and the namespace scope it reads. */
  function Answer(m: HandWritten, t: Tree, parent: Path, toks: seq<Token>, b: nat, e: nat,
                  typedefs: seq<KeywordEntry>, namespaces: seq<KeywordEntry>, templates: seq<KeywordEntry>,
                  ns: Option<Path>): (r: Result<Reply, ScopeError>)
    requires b <= e <= |toks|
    ensures r.Success? ==> b <= r.value.next <= e
    ensures r.Success? && !r.value.success ==> r.value == NoMatch(b)
    ensures r.Success? && r.value.success ==> r.value.next > b
  {
    match m
    case TriviallyBalancedTokenSv => Success(TriviallyBalanced(toks, b, e))
    case OverloadableOperatorSv => Success(OverloadableOperatorMatch(toks, b, e))
    case TypedefNameSv => NameMatch(t, parent, toks, b, e, typedefs, ns, TypedefName)
    case OriginalNamespaceNameSv => NameMatch(t, parent, toks, b, e, namespaces, ns, OriginalNamespaceName)
    case TemplateNameSv => NameMatch(t, parent, toks, b, e, templates, ns, TemplateName)
    case RightShiftSv => Success(RightShift(toks, b, e, ">"))
    case RightShiftAssignmentSv => Success(RightShift(toks, b, e, ">="))
  }
}

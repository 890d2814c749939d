/**
 * What the emitter of src/create-parser.rb (lines 98-191) decides about each
 * part of an alternative before it writes any code: whether the part opens or
 * closes a repetition group, whether it is optional, and whether it is a
 * terminal with a value condition or a call of another matcher.
 *
 * The result is a small intermediate form: an alternative is a sequence of
 * items, each a single step or a loop over a flat sequence of steps.  Its
 * meaning is given in matcher.dfy.
 */
module Rules {
  import opened Wrappers
  import opened Tokens
  import Grammar
  import Literals

  /** The condition of a terminal part `kind(condition)`. */
  datatype Condition =
    | AnyValue                 // `kind()`: the kind alone decides
    | TextIs(text: string)     // `kind("text")`: the token's text value equals `text`
    | IntegerIs(digits: string) // `lit-integer(n)`: the signed value equals decimal `n`
    | BoolIs(b: bool)          // `lit-bool(true)` or `lit-bool(false)`

  /** What a part does: match one token, or call the matcher of another name. */
  datatype Matcher = Terminal(kind: TokenKind, cond: Condition) | Call(name: string)

  datatype Step = Step(matcher: Matcher, optional: bool)

  /** A step, or a repetition group `{ ... }` holding steps. */
  datatype Item = Single(step: Step) | Loop(body: seq<Step>)

  type Alternative = seq<Item>

  datatype CompileError =
    | CannotParse(part: string)          // line 142: the part is not `kind(condition)`
    | UnknownKind(kind: string)          // `token::KIND` names no token kind
    | UnsupportedCondition(part: string) // a condition that is no literal the model reads
    | UnbalancedLoop                     // a `{` or `}` that does not pair with one at the same level

  // ---------------------------------------------------------------------------
  // Token kinds as a grammar names them

  /** The token kind whose enumerator is `c`. */
  function KindNamed(c: string): (r: Option<TokenKind>)
    ensures r.Some? ==> KindConstName(r.value) == c
    ensures r.None? ==> forall k: TokenKind :: KindConstName(k) != c
  {
    if c == "IDENTIFIER" then Some(Identifier)
    else if c == "LIT_INTEGER" then Some(LitInteger)
    else if c == "LIT_FLOAT" then Some(LitFloat)
    else if c == "LIT_BOOL" then Some(LitBool)
    else if c == "LIT_POINTER" then Some(LitPointer)
    else if c == "LIT_STRING" then Some(LitString)
    else if c == "LIT_CHAR" then Some(LitChar)
    else if c == "OPERATOR" then Some(Operator)
    else None
  }

  /** The kind named by the text before `(`: `token::#{const kind}` must be an enumerator (line 150). */
  function KindOf(text: string): Option<TokenKind> {
    KindNamed(Grammar.Const(text))
  }

  // ---------------------------------------------------------------------------
  // Terminal parts (lines 139-156)

  /** `\w` or `-`, the characters of `[\w-]`. */
  predicate IsKindChar(c: char) {
    ('a' <= c <= 'z') || ('A' <= c <= 'Z') || ('0' <= c <= '9') || c == '_' || c == '-'
  }

  /** The index of the first `(` of a part that holds one. */
  function FirstParen(s: string): (i: nat)
    requires '(' in s
    ensures i < |s| && s[i] == '(' && '(' !in s[..i]
  {
    if s[0] == '(' then 0
    else
      assert s == [s[0]] + s[1..];
      var i := FirstParen(s[1..]) + 1;
      assert s[..i] == [s[0]] + s[1..][..i - 1];
      i
  }

  predicate IsDecimal(s: string) {
    s != [] && (forall i :: 0 <= i < |s| ==> '0' <= s[i] <= '9') && (s[0] == '0' ==> |s| == 1)
  }

  /** A double-quoted C string literal without escapes. */
  predicate IsPlainQuoted(s: string) {
    |s| >= 2 && s[0] == '"' && s[|s| - 1] == '"' && forall i :: 0 < i < |s| - 1 ==> s[i] != '"' && s[i] != '\\'
  }

  /** Lines 149-156: an empty condition, a string literal compared with `strcmp`, or a literal compared with `==`. */
  function ConditionOf(kind: TokenKind, cond: string, part: string): (r: Result<Condition, CompileError>)
    ensures r.Success? && r.value.TextIs? ==> (kind == Identifier || kind == Operator) && cond == "\"" + r.value.text + "\""
    ensures r.Success? && r.value.IntegerIs? ==> kind == LitInteger && IsDecimal(r.value.digits)
    ensures r.Success? && r.value.BoolIs? ==> kind == LitBool
    ensures cond == [] ==> r == Success(AnyValue)
  {
    if cond == [] then Success(AnyValue)
    else if cond[0] == '"' then
      if IsPlainQuoted(cond) && (kind == Identifier || kind == Operator) then
        assert cond == "\"" + cond[1..|cond| - 1] + "\"";
        Success(TextIs(cond[1..|cond| - 1]))
      else Failure(UnsupportedCondition(part))
    else if kind == LitInteger && IsDecimal(cond) then Success(IntegerIs(cond))
    else if kind == LitBool && cond == "true" then Success(BoolIs(true))
    else if kind == LitBool && cond == "false" then Success(BoolIs(false))
    else Failure(UnsupportedCondition(part))
  }

  /** `/^([\w-]+)\((.*)\)$/` applied to a part holding `(`; the kind then must name a token kind. */
  function TerminalOf(part: string): (r: Result<Matcher, CompileError>)
    requires '(' in part
    ensures r.Success? ==> r.value.Terminal?
    ensures r.Success? ==> part[|part| - 1] == ')' && FirstParen(part) > 0
    ensures r.Success? ==> KindConstName(r.value.kind) == Grammar.Const(part[..FirstParen(part)])
  {
    var i := FirstParen(part);
    var kind := part[..i];
    if kind == [] || (exists j :: 0 <= j < i && !IsKindChar(part[j])) || part[|part| - 1] != ')' || |part| < i + 2 then
      Failure(CannotParse(part))
    else
      match KindOf(kind)
      case None => Failure(UnknownKind(kind))
      case Some(k) =>
        var c :- ConditionOf(k, part[i + 1..|part| - 1], part);
        Success(Terminal(k, c))
  }

  // ---------------------------------------------------------------------------
  // Parts (lines 131-166)

  /** Line 131: `[x]` is the optional form of `x`. */
  predicate IsBracketed(part: string) {
    part != [] && part[0] == '[' && part[|part| - 1] == ']'
  }

  function Unbracket(part: string): string {
    if IsBracketed(part) && |part| >= 2 then part[1..|part| - 1] else []
  }

  /** The step of a part that is no loop marker. */
  function StepOf(part: string): (r: Result<Step, CompileError>)
    ensures r.Success? ==> (r.value.optional <==> IsBracketed(part))
    ensures r.Success? && r.value.matcher.Call? ==> r.value.matcher.name == if IsBracketed(part) then Unbracket(part) else part
    ensures r.Success? && r.value.matcher.Call? ==> '(' !in r.value.matcher.name
  {
    var optional := IsBracketed(part);
    var inner := if optional then Unbracket(part) else part;
    if '(' in inner then
      var m :- TerminalOf(inner);
      Success(Step(m, optional))
    else Success(Step(Call(inner), optional))
  }

  // ---------------------------------------------------------------------------
  // Alternatives (lines 110-128)

  /** What a part is to the loop over parts: a loop marker or a step (or the error reading it). */
  datatype PartClass = OpenLoop | CloseLoop | Part(step: Result<Step, CompileError>)

  function Classify(part: string): (r: PartClass)
    ensures r.OpenLoop? <==> part == "{"
    ensures r.CloseLoop? <==> part == "}"
  {
    if part == "{" then OpenLoop else if part == "}" then CloseLoop else Part(StepOf(part))
  }

  function Classes(parts: seq<string>): (r: seq<PartClass>)
    ensures |r| == |parts| && forall j :: 0 <= j < |parts| ==> r[j] == Classify(parts[j])
  {
    MapSeq(Classify, parts)
  }

  /** `f` applied to each element of `s`. */
  function MapSeq<A, B>(f: A -> B, s: seq<A>): (r: seq<B>)
    ensures |r| == |s| && forall j :: 0 <= j < |s| ==> r[j] == f(s[j])
  {
    seq(|s|, (j: int) requires 0 <= j < |s| => f(s[j]))
  }

  lemma MapSeqAppend<A, B>(f: A -> B, a: seq<A>, b: seq<A>)
    ensures MapSeq(f, a + b) == MapSeq(f, a) + MapSeq(f, b)
  {
    forall j | 0 <= j < |a + b|
      ensures MapSeq(f, a + b)[j] == (MapSeq(f, a) + MapSeq(f, b))[j]
    {
      if j < |a| {
        assert (a + b)[j] == a[j];
      } else {
        assert (a + b)[j] == b[j - |a|];
      }
    }
  }

  /**
   * The items compiled from the remaining parts `cs`, given the items `acc`
   * already compiled and, inside a loop, the steps of the open loop.  A `{`
   * inside a loop, a `}` outside one, and a loop still open at the end are
   * refused; so is the first part that is no step.
   */
  function CompileFrom(cs: seq<PartClass>, open: Option<seq<Step>>, acc: Alternative): Result<Alternative, CompileError>
  {
    if cs == [] then
      if open.Some? then Failure(UnbalancedLoop) else Success(acc)
    else
      match cs[0]
      case OpenLoop =>
        if open.Some? then Failure(UnbalancedLoop) else CompileFrom(cs[1..], Some([]), acc)
      case CloseLoop =>
        if open.None? then Failure(UnbalancedLoop) else CompileFrom(cs[1..], None, acc + [Loop(open.value)])
      case Part(Failure(err)) => Failure(err)
      case Part(Success(st)) =>
        if open.Some? then CompileFrom(cs[1..], Some(open.value + [st]), acc)
        else CompileFrom(cs[1..], None, acc + [Single(st)])
  }

  /** The alternative a grammar line's parts compile to. */
  function Compile(parts: seq<string>): Result<Alternative, CompileError> {
    CompileFrom(Classes(parts), None, [])
  }

  /** The emitter's loop over the parts of one alternative (lines 113-180). */
  method CompileAlternative(parts: seq<string>) returns (r: Result<Alternative, CompileError>)
    ensures r == Compile(parts)
  {
    var items: Alternative := [];
    var open: Option<seq<Step>> := None;  // the steps of the loop being read, while `in_loop`
    var i := 0;
    while i < |parts|
      invariant 0 <= i <= |parts|
      invariant Compile(parts) == CompileFrom(Classes(parts)[i..], open, items)
    {
      var part := parts[i];
      assert Classes(parts)[i..][0] == Classify(part) && Classes(parts)[i..][1..] == Classes(parts)[i + 1..];
      if part == "{" {
        if open.Some? {
          return Failure(UnbalancedLoop);
        }
        open := Some([]);
      } else if part == "}" {
        if open.None? {
          return Failure(UnbalancedLoop);
        }
        open, items := None, items + [Loop(open.value)];
      } else {
        var st := StepOf(part);
        if st.Failure? {
          return Failure(st.error);
        }
        if open.Some? {
          open := Some(open.value + [st.value]);
        } else {
          items := items + [Single(st.value)];
        }
      }
      i := i + 1;
    }
    if open.Some? {
      return Failure(UnbalancedLoop);
    }
    return Success(items);
  }

  /** A step of the item is mandatory. */
  predicate ItemMandatory(it: Item) {
    match it
    case Single(st) => !st.optional
    case Loop(body) => exists j :: 0 <= j < |body| && !body[j].optional
  }

  /** `had_non_optional` at line 183: some step, inside a loop or not, is mandatory. */
  predicate HasMandatory(alt: Alternative) {
    exists k :: 0 <= k < |alt| && ItemMandatory(alt[k])
  }

  // ---------------------------------------------------------------------------
  // Writing an alternative back as parts

  /** A grammar's spelling of an enumerator character: lower case, `-` for `_`. */
  function Lowered(c: char): char {
    if 'A' <= c <= 'Z' then (c as int + 32) as char else if c == '_' then '-' else c
  }

  /** How a grammar names a kind: `lit-integer` for `LIT_INTEGER`. */
  function KindSpelling(k: TokenKind): (r: string)
    ensures |r| == |KindConstName(k)| && forall j :: 0 <= j < |r| ==> r[j] == Lowered(KindConstName(k)[j])
  {
    var n := KindConstName(k);
    seq(|n|, (j: int) requires 0 <= j < |n| => Lowered(n[j]))
  }

  function ConditionSpelling(c: Condition): string {
    match c
    case AnyValue => ""
    case TextIs(t) => "\"" + t + "\""
    case IntegerIs(d) => d
    case BoolIs(b) => if b then "true" else "false"
  }

  function MatcherSpelling(m: Matcher): string {
    match m
    case Terminal(k, c) => KindSpelling(k) + "(" + ConditionSpelling(c) + ")"
    case Call(n) => n
  }

  function StepSpelling(st: Step): string {
    var inner := MatcherSpelling(st.matcher);
    if st.optional then "[" + inner + "]" else inner
  }

  function StepsSpelling(steps: seq<Step>): (r: seq<string>)
    ensures |r| == |steps| && forall j :: 0 <= j < |steps| ==> r[j] == StepSpelling(steps[j])
  {
    seq(|steps|, (j: int) requires 0 <= j < |steps| => StepSpelling(steps[j]))
  }

  function ItemSpelling(it: Item): seq<string> {
    match it
    case Single(st) => [StepSpelling(st)]
    case Loop(body) => ["{"] + StepsSpelling(body) + ["}"]
  }

  /** The parts of a grammar line that compiles to `alt`. */
  function Unparse(alt: Alternative): seq<string> {
    if alt == [] then [] else ItemSpelling(alt[0]) + Unparse(alt[1..])
  }

  /** A condition the compiler reads back as itself. */
  predicate CanonicalCondition(k: TokenKind, c: Condition) {
    match c
    case AnyValue => true
    case TextIs(t) => (k == Identifier || k == Operator) && forall i :: 0 <= i < |t| ==> t[i] != '"' && t[i] != '\\'
    case IntegerIs(d) => k == LitInteger && IsDecimal(d)
    case BoolIs(_) => k == LitBool
  }

  /** A step the compiler reads back as itself: names are no loop markers and hold no `(`. */
  predicate CanonicalStep(st: Step) {
    match st.matcher
    case Terminal(k, c) => CanonicalCondition(k, c)
    case Call(n) => '(' !in n && (!st.optional ==> n != "{" && n != "}" && !IsBracketed(n))
  }

  predicate CanonicalItem(it: Item) {
    match it
    case Single(st) => CanonicalStep(st)
    case Loop(body) => forall j :: 0 <= j < |body| ==> CanonicalStep(body[j])
  }

  predicate Canonical(alt: Alternative) {
    forall k :: 0 <= k < |alt| ==> CanonicalItem(alt[k])
  }

  // ---------------------------------------------------------------------------
  // Compiling what Unparse writes gives the alternative back

  /** The characters of enumerator names. */
  predicate IsEnumeratorName(n: string) {
    forall j :: 0 <= j < |n| ==> ('A' <= n[j] <= 'Z') || n[j] == '_'
  }

  lemma EnumeratorNames(k: TokenKind)
    ensures IsEnumeratorName(KindConstName(k))
  {
  }

  lemma {:induction false} NoBangKept(s: string)
    requires '!' !in s
    ensures Grammar.DropFirstBang(s) == s
  {
    if s != [] {
      assert s[0] in s;
      assert forall c :: c in s[1..] ==> c in s;
      NoBangKept(s[1..]);
    }
  }

  /** `const` undoes the lowering of an enumerator name. */
  lemma ConstOfLowered(n: string, s: string)
    requires IsEnumeratorName(n) && |s| == |n| && forall j :: 0 <= j < |s| ==> s[j] == Lowered(n[j])
    ensures Grammar.Const(s) == n
  {
    var u := Grammar.Underscores(Grammar.Upcase(s));
    assert u == n;
    NoBangKept(u);
  }

  /** The spelling of a kind reads back as that kind. */
  lemma KindSpellingRoundTrip(k: TokenKind)
    ensures KindOf(KindSpelling(k)) == Some(k)
  {
    EnumeratorNames(k);
    ConstOfLowered(KindConstName(k), KindSpelling(k));
    var r := KindNamed(KindConstName(k));
    KindNamesInjective(r.value, k);
  }

  lemma KindSpellingChars(k: TokenKind)
    ensures KindSpelling(k) != [] && forall j :: 0 <= j < |KindSpelling(k)| ==> IsKindChar(KindSpelling(k)[j])
  {
    EnumeratorNames(k);
  }

  lemma FirstParenAt(s: string, i: nat)
    requires i < |s| && s[i] == '(' && '(' !in s[..i]
    ensures '(' in s && FirstParen(s) == i
  {
  }

  lemma ConditionRoundTrip(k: TokenKind, c: Condition, part: string)
    requires CanonicalCondition(k, c)
    ensures ConditionOf(k, ConditionSpelling(c), part) == Success(c)
  {
    match c
    case AnyValue =>
    case TextIs(t) =>
      var q := ConditionSpelling(c);
      assert q[1..|q| - 1] == t;
      assert forall i :: 0 < i < |q| - 1 ==> q[i] == t[i - 1];
    case IntegerIs(d) =>
    case BoolIs(b) =>
  }

  lemma TerminalRoundTrip(k: TokenKind, c: Condition)
    requires CanonicalCondition(k, c)
    ensures var s := KindSpelling(k) + "(" + ConditionSpelling(c) + ")";
            '(' in s && TerminalOf(s) == Success(Terminal(k, c))
  {
    KindSpellingRoundTrip(k);
    KindSpellingChars(k);
    ConditionRoundTrip(k, c, KindSpelling(k) + "(" + ConditionSpelling(c) + ")");
    TerminalOfSpelled(KindSpelling(k), ConditionSpelling(c), k, c);
  }

  /** A kind text and a condition text put together as `kind(condition)` read back as their parts. */
  lemma TerminalOfSpelled(ks: string, cs: string, k: TokenKind, c: Condition)
    requires ks != [] && forall j :: 0 <= j < |ks| ==> IsKindChar(ks[j])
    requires KindOf(ks) == Some(k) && ConditionOf(k, cs, ks + "(" + cs + ")") == Success(c)
    ensures '(' in ks + "(" + cs + ")" && TerminalOf(ks + "(" + cs + ")") == Success(Terminal(k, c))
  {
    var s := ks + "(" + cs + ")";
    assert s[..|ks|] == ks;
    FirstParenAt(s, |ks|);
    assert s[|ks| + 1..|s| - 1] == cs;
    assert forall j :: 0 <= j < |ks| ==> s[j] == ks[j];
    assert !exists j :: 0 <= j < |ks| && !IsKindChar(s[j]);
  }

  /** Each canonical step is written as a part the compiler reads back as that step. */
  lemma StepRoundTrip(st: Step)
    requires CanonicalStep(st)
    ensures Classify(StepSpelling(st)) == Part(Success(st))
  {
    var inner := MatcherSpelling(st.matcher);
    MatcherRoundTrip(st.matcher, st.optional);
    if st.optional {
      var s := "[" + inner + "]";
      assert s[0] == '[' && s[|s| - 1] == ']';
      assert s[1..|s| - 1] == inner;
      StepOfInner(s, inner, st);
    } else {
      assert !IsBracketed(inner) && inner != "{" && inner != "}";
      StepOfInner(inner, inner, st);
    }
  }

  /** A part whose inner text reads as the step's matcher reads as the step. */
  lemma StepOfInner(part: string, inner: string, st: Step)
    requires inner == (if IsBracketed(part) then Unbracket(part) else part)
    requires st.optional == IsBracketed(part)
    requires '(' in inner <==> st.matcher.Terminal?
    requires st.matcher.Terminal? ==> TerminalOf(inner) == Success(st.matcher)
    requires st.matcher.Call? ==> inner == st.matcher.name
    ensures StepOf(part) == Success(st)
  {
  }

  /** The spelling of a canonical matcher is read back as that matcher, as a terminal exactly when it holds `(`. */
  lemma MatcherRoundTrip(m: Matcher, optional: bool)
    requires CanonicalStep(Step(m, optional))
    ensures var inner := MatcherSpelling(m);
            ('(' in inner <==> m.Terminal?)
            && (m.Terminal? ==> TerminalOf(inner) == Success(m) && inner[|inner| - 1] == ')')
            && (m.Call? ==> inner == m.name)
  {
    if m.Terminal? {
      TerminalRoundTrip(m.kind, m.cond);
    }
  }


  /** The classes the parts of an alternative fall into. */
  function StepsLayout(steps: seq<Step>): (r: seq<PartClass>)
    ensures |r| == |steps| && forall j :: 0 <= j < |steps| ==> r[j] == Part(Success(steps[j]))
  {
    seq(|steps|, (j: int) requires 0 <= j < |steps| => Part(Success(steps[j])))
  }

  function ItemLayout(it: Item): seq<PartClass> {
    match it
    case Single(st) => [Part(Success(st))]
    case Loop(body) => [OpenLoop] + StepsLayout(body) + [CloseLoop]
  }

  function Layout(alt: Alternative): seq<PartClass> {
    if alt == [] then [] else ItemLayout(alt[0]) + Layout(alt[1..])
  }

  lemma ClassesAppend(a: seq<string>, b: seq<string>)
    ensures Classes(a + b) == Classes(a) + Classes(b)
  {
    MapSeqAppend(Classify, a, b);
  }

  lemma ItemClasses(it: Item)
    requires CanonicalItem(it)
    ensures Classes(ItemSpelling(it)) == ItemLayout(it)
  {
    match it
    case Single(st) =>
      StepRoundTrip(st);
    case Loop(body) =>
      LoopClasses(body);
  }

  lemma LoopClasses(body: seq<Step>)
    requires forall j :: 0 <= j < |body| ==> CanonicalStep(body[j])
    ensures Classes(["{"] + StepsSpelling(body) + ["}"]) == [OpenLoop] + StepsLayout(body) + [CloseLoop]
  {
    StepsClasses(body);
    ClassesAppend(["{"] + StepsSpelling(body), ["}"]);
    ClassesAppend(["{"], StepsSpelling(body));
    assert Classes(["{"]) == [OpenLoop];
    assert Classes(["}"]) == [CloseLoop];
  }

  /** The spellings of canonical steps are read back one by one as those steps. */
  lemma StepsClasses(body: seq<Step>)
    requires forall j :: 0 <= j < |body| ==> CanonicalStep(body[j])
    ensures Classes(StepsSpelling(body)) == StepsLayout(body)
  {
    forall j | 0 <= j < |body|
      ensures Classify(StepSpelling(body[j])) == Part(Success(body[j]))
    {
      StepRoundTrip(body[j]);
    }
  }

  /** The parts Unparse writes fall into the layout of the alternative. */
  lemma {:induction false} UnparseClasses(alt: Alternative)
    requires Canonical(alt)
    ensures Classes(Unparse(alt)) == Layout(alt)
    decreases |alt|
  {
    if alt != [] {
      assert CanonicalItem(alt[0]);
      assert Canonical(alt[1..]) by {
        forall k | 0 <= k < |alt[1..]| ensures alt[1..][k] == alt[k + 1] { }
      }
      ItemClasses(alt[0]);
      UnparseClasses(alt[1..]);
      ClassesAppend(ItemSpelling(alt[0]), Unparse(alt[1..]));
    }
  }

  /** Reading the steps of a loop body appends them to the open loop. */
  lemma {:induction false} StepsCompile(steps: seq<Step>, rest: seq<PartClass>, body: seq<Step>, acc: Alternative)
    ensures CompileFrom(StepsLayout(steps) + rest, Some(body), acc) == CompileFrom(rest, Some(body + steps), acc)
    decreases |steps|
  {
    if steps != [] {
      var cs := StepsLayout(steps) + rest;
      assert cs[0] == Part(Success(steps[0]));
      assert cs[1..] == StepsLayout(steps[1..]) + rest;
      StepsCompile(steps[1..], rest, body + [steps[0]], acc);
      assert body + [steps[0]] + steps[1..] == body + steps;
    } else {
      assert StepsLayout(steps) + rest == rest;
      assert body + steps == body;
    }
  }

  lemma ItemCompile(it: Item, rest: seq<PartClass>, acc: Alternative)
    ensures CompileFrom(ItemLayout(it) + rest, None, acc) == CompileFrom(rest, None, acc + [it])
  {
    match it
    case Single(st) => SingleCompile(st, rest, acc);
    case Loop(body) => LoopCompile(body, rest, acc);
  }

  lemma SingleCompile(st: Step, rest: seq<PartClass>, acc: Alternative)
    ensures CompileFrom([Part(Success(st))] + rest, None, acc) == CompileFrom(rest, None, acc + [Single(st)])
  {
    var cs := [Part(Success(st))] + rest;
    assert cs[0] == Part(Success(st)) && cs[1..] == rest;
  }

  lemma LoopCompile(body: seq<Step>, rest: seq<PartClass>, acc: Alternative)
    ensures CompileFrom([OpenLoop] + StepsLayout(body) + [CloseLoop] + rest, None, acc) == CompileFrom(rest, None, acc + [Loop(body)])
  {
    var tail := [CloseLoop] + rest;
    var cs := [OpenLoop] + StepsLayout(body) + [CloseLoop] + rest;
    assert cs[0] == OpenLoop && cs[1..] == StepsLayout(body) + tail;
    assert CompileFrom(cs, None, acc) == CompileFrom(StepsLayout(body) + tail, Some([]), acc);
    StepsCompile(body, tail, [], acc);
    assert [] + body == body;
    assert tail[0] == CloseLoop && tail[1..] == rest;
  }

  lemma {:induction false} LayoutCompiles(alt: Alternative, acc: Alternative)
    ensures CompileFrom(Layout(alt), None, acc) == Success(acc + alt)
    decreases |alt|
  {
    if alt == [] {
      assert acc + alt == acc;
    } else {
      var rest := Layout(alt[1..]);
      assert Layout(alt) == ItemLayout(alt[0]) + rest;
      ItemCompile(alt[0], rest, acc);
      LayoutCompiles(alt[1..], acc + [alt[0]]);
      assert acc + [alt[0]] + alt[1..] == acc + alt;
    }
  }

  /** Writing a canonical alternative as parts and compiling them gives it back. */
  lemma CompileUnparse(alt: Alternative)
    requires Canonical(alt)
    ensures Compile(Unparse(alt)) == Success(alt)
  {
    UnparseClasses(alt);
    LayoutCompiles(alt, []);
    assert [] + alt == alt;
  }
}

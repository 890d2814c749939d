/**
 * What the matcher that src/create-parser.rb emits for each syntactic
 * variable (lines 74-204) does when it runs, written as an interpreter of
 * the compiled alternatives of Rules.
 *
 * A matcher gets the token range `b, e`, makes its node, and tries the
 * alternatives in order; it hands back the cursor where it stopped and the
 * nodes it left attached to its caller's node. Names without rules are the
 * hand-written matchers, given as a function `ext`. Each call of another
 * matcher costs one unit of `fuel`: the emitted code recurses on the C++
 * stack, which a head-recursive grammar exhausts.
 */
module Matcher {
  import opened Wrappers
  import opened Tokens
  import opened Syntax
  import opened Rules
  import Grammar
  import Literals

  /** A matcher's answer: the cursor it returns and the nodes it leaves attached to its parent. */
  datatype Reply = Reply(next: nat, nodes: seq<Tree>)

  /** The hand-written matchers: by name and start, their answer. */
  type External = (string, nat) -> Reply

  /** The emitter as written, or with a broken loop iteration's children taken back (see `RunLoop`). */
  datatype Emitter = AsWritten | Trimmed

  /** The compiled grammar, the hand-written matchers, the token list and the end of the range. */
  datatype Context = Context(rules: map<string, seq<Alternative>>, ext: External, toks: seq<Token>, e: nat, emitter: Emitter)

  /** The hand-written matchers stay inside the range and never go back. */
  ghost predicate ValidContext(c: Context) {
    c.e <= |c.toks| && forall name: string, m: nat :: m <= c.e ==> m <= c.ext(name, m).next <= c.e
  }

  /** The call stack ran out: the emitted code would overflow it. */
  datatype Exhausted = Exhausted

  /** Lines 149-156: the token has the kind, and the value the condition names. */
  predicate TokenMatches(tok: Token, kind: TokenKind, cond: Condition) {
    tok.kind == kind
    && match cond
       case AnyValue => true
       case TextIs(text) => TextOf(tok) == Some(text)
       case IntegerIs(digits) => tok.value.Integer? && Signed64(tok.value.bits) == Literals.DigitsValue(digits, 0, |digits|, 10)
       case BoolIs(v) => tok.value.Bool? && tok.value.b == v
  }

  /** The enumerator of a syntactic variable's node type (line 85). */
  function NodeTypeOf(name: string): NodeType {
    Sv(Grammar.Const(name))
  }

  /**
   * The emitted `sv_<name>(node, m, e)` for a name with rules (a call of a
   * hand-written matcher for one without): an empty range returns at once; a
   * node made for `name` carries the children of the first alternative that
   * gets through, and is dropped when none does.
   */
  function Call(c: Context, name: string, m: nat, fuel: nat): (r: Result<Reply, Exhausted>)
    requires ValidContext(c) && m <= c.e
    ensures r.Success? ==> m <= r.value.next <= c.e
    ensures r.Success? && name in c.rules ==> |r.value.nodes| <= 1
    ensures r.Success? && name in c.rules && r.value.nodes == [] ==> r.value.next == m
    ensures r.Success? && name in c.rules && r.value.nodes != [] ==>
      r.value.nodes[0].Node? && r.value.nodes[0].kind == NodeTypeOf(name) && !r.value.nodes[0].intermediate
    decreases fuel, 4
  {
    if name !in c.rules then Success(c.ext(name, m))
    else if m == c.e then Success(Reply(m, []))
    else
      var found :- TryAlternatives(c, c.rules[name], 0, m, fuel);
      match found
      case None => Success(Reply(m, []))
      case Some(got) => Success(Reply(got.0, [Node(NodeTypeOf(name), false, got.1, None)]))
  }

  /**
   * Lines 101-107 and 183-188: alternative `i` on, each from `b` with no
   * children; the first to reach its end wins, except that one without a
   * mandatory part must also have got past `b`.
   */
  function TryAlternatives(c: Context, alts: seq<Alternative>, i: nat, b: nat, fuel: nat): (r: Result<Option<(nat, seq<Tree>)>, Exhausted>)
    requires ValidContext(c) && b <= c.e && i <= |alts|
    ensures r.Success? && r.value.Some? ==> b <= r.value.value.0 <= c.e
    decreases fuel, 3, |alts| - i
  {
    if i == |alts| then Success(None)
    else
      var o :- RunItems(c, alts[i], 0, b, [], fuel);
      match o
      case Reached(m, children) =>
        if HasMandatory(alts[i]) || m != b then Success(Some((m, children)))
        else TryAlternatives(c, alts, i + 1, b, fuel)
      case Fell => TryAlternatives(c, alts, i + 1, b, fuel)
  }

  /** An alternative either reaches its end, at a cursor with children, or a mandatory part fails outside a loop. */
  datatype ItemsOutcome = Reached(next: nat, children: seq<Tree>) | Fell

  /** The parts of an alternative from item `j` on, at cursor `m` with the node's children so far. */
  function RunItems(c: Context, items: Alternative, j: nat, m: nat, children: seq<Tree>, fuel: nat): (r: Result<ItemsOutcome, Exhausted>)
    requires ValidContext(c) && m <= c.e && j <= |items|
    ensures r.Success? && r.value.Reached? ==> m <= r.value.next <= c.e
    decreases fuel, 2, |items| - j
  {
    if j == |items| then Success(Reached(m, children))
    else match items[j]
      case Single(step) =>
        var s :- RunStep(c, step.matcher, m, fuel);
        if s.next != m then RunItems(c, items, j + 1, s.next, children + s.nodes, fuel)
        else if step.optional then RunItems(c, items, j + 1, m, children + s.nodes, fuel)
        else Success(Fell)
      case Loop(body) =>
        var l :- RunLoop(c, body, m, children, fuel);
        RunItems(c, items, j + 1, l.0, l.1, fuel)
  }

  /**
   * Lines 114-126 and 168-172: `do { l = m; body } while (l != m)`, where a mandatory
   * part that fails sets `m = l` and leaves the loop. As written, the
   * children the broken iteration attached stay; `Trimmed` takes them back.
   */
  function RunLoop(c: Context, body: seq<Step>, m: nat, children: seq<Tree>, fuel: nat): (r: Result<(nat, seq<Tree>), Exhausted>)
    requires ValidContext(c) && m <= c.e
    ensures r.Success? ==> m <= r.value.0 <= c.e
    decreases fuel, 1, c.e - m
  {
    var it :- RunBody(c, body, 0, m, children, fuel);
    match it
    case Completed(next, grown) =>
      if next == m then Success((m, grown)) else RunLoop(c, body, next, grown, fuel)
    case Broken(grown) => Success((m, if c.emitter == Trimmed then children else grown))
  }

  /** One pass of a loop body: it completes at a cursor, or breaks, with the children then attached. */
  datatype BodyOutcome = Completed(next: nat, children: seq<Tree>) | Broken(children: seq<Tree>)

  function RunBody(c: Context, body: seq<Step>, k: nat, m: nat, children: seq<Tree>, fuel: nat): (r: Result<BodyOutcome, Exhausted>)
    requires ValidContext(c) && m <= c.e && k <= |body|
    ensures r.Success? && r.value.Completed? ==> m <= r.value.next <= c.e
    decreases fuel, 0, |body| - k + 1
  {
    if k == |body| then Success(Completed(m, children))
    else
      var s :- RunStep(c, body[k].matcher, m, fuel);
      if s.next != m then RunBody(c, body, k + 1, s.next, children + s.nodes, fuel)
      else if body[k].optional then RunBody(c, body, k + 1, m, children + s.nodes, fuel)
      else Success(Broken(children + s.nodes))
  }

  /**
   * One part (lines 139-180): a terminal takes the token at `m` if it is in
   * range and fits, as one TOKEN child; a call counts as failed when it
   * returns its start.
   */
  function RunStep(c: Context, matcher: Rules.Matcher, m: nat, fuel: nat): (r: Result<Reply, Exhausted>)
    requires ValidContext(c) && m <= c.e
    ensures r.Success? ==> m <= r.value.next <= c.e
    ensures matcher.Terminal? ==> r.Success?
    ensures matcher.Terminal? && r.value.next != m ==>
      m < c.e && TokenMatches(c.toks[m], matcher.kind, matcher.cond) && r.value == Reply(m + 1, [Leaf(c.toks[m])])
    ensures matcher.Terminal? && r.value.next == m ==>
      r.value.nodes == [] && !(m < c.e && TokenMatches(c.toks[m], matcher.kind, matcher.cond))
    decreases fuel, 0, 0
  {
    match matcher
    case Terminal(kind, cond) =>
      if m != c.e && TokenMatches(c.toks[m], kind, cond) then Success(Reply(m + 1, [Leaf(c.toks[m])]))
      else Success(Reply(m, []))
    case Call(name) =>
      if fuel == 0 then Failure(Exhausted) else Call(c, name, m, fuel - 1)
  }

  /**
   * The emitted root matcher `sv_<!name>(b, e)`: the node without a parent;
   * none for an empty range or when no alternative gets through (where the
   * source returns the node it has just deleted).
   */
  function Root(c: Context, name: string, fuel: nat): (r: Result<Option<Tree>, Exhausted>)
    requires ValidContext(c) && name in c.rules
    ensures r.Success? && r.value.Some? ==> r.value.value.Node? && r.value.value.kind == NodeTypeOf(name)
  {
    if c.e == 0 then Success(None)
    else
      var found :- TryAlternatives(c, c.rules[name], 0, 0, fuel);
      match found
      case None => Success(None)
      case Some(got) => Success(Some(Node(NodeTypeOf(name), false, got.1, None)))
  }

  // ---------------------------------------------------------------------------
  // The emitted procedure, step by step

  /** The emitted `sv_<name>`: the checks of lines 82-85, then the alternatives. */
  method CallOf(c: Context, name: string, m: nat, fuel: nat) returns (r: Result<Reply, Exhausted>)
    requires ValidContext(c) && m <= c.e
    ensures r == Call(c, name, m, fuel)
    decreases fuel, 4
  {
    if name !in c.rules {
      return Success(c.ext(name, m));
    }
    if m == c.e {
      return Success(Reply(m, []));
    }
    var found := TryAlternativesOf(c, c.rules[name], m, fuel);
    if found.Failure? {
      return Failure(found.error);
    }
    if found.value.None? {
      return Success(Reply(m, []));
    }
    return Success(Reply(found.value.value.0, [Node(NodeTypeOf(name), false, found.value.value.1, None)]));
  }

  /** The labels `part_0`, `part_1`, ... of lines 101-107: each alternative from `b` with the children cleared. */
  method TryAlternativesOf(c: Context, alts: seq<Alternative>, b: nat, fuel: nat) returns (r: Result<Option<(nat, seq<Tree>)>, Exhausted>)
    requires ValidContext(c) && b <= c.e
    ensures r == TryAlternatives(c, alts, 0, b, fuel)
    decreases fuel, 3
  {
    var i := 0;
    while i < |alts|
      invariant i <= |alts|
      invariant TryAlternatives(c, alts, i, b, fuel) == TryAlternatives(c, alts, 0, b, fuel)
      decreases |alts| - i
    {
      var o := RunItemsOf(c, alts[i], b, fuel);
      if o.Failure? {
        return Failure(o.error);
      }
      if o.value.Reached? && (HasMandatory(alts[i]) || o.value.next != b) {
        return Success(Some((o.value.next, o.value.children)));
      }
      i := i + 1;
    }
    return Success(None);
  }

  /** The code emitted for the parts of one alternative (lines 113-180), advancing `m`. */
  method RunItemsOf(c: Context, items: Alternative, b: nat, fuel: nat) returns (r: Result<ItemsOutcome, Exhausted>)
    requires ValidContext(c) && b <= c.e
    ensures r == RunItems(c, items, 0, b, [], fuel)
    decreases fuel, 2
  {
    var j: nat, m: nat, children: seq<Tree> := 0, b, [];
    while j < |items|
      invariant j <= |items| && m <= c.e
      invariant RunItems(c, items, j, m, children, fuel) == RunItems(c, items, 0, b, [], fuel)
      decreases |items| - j
    {
      match items[j] {
        case Single(step) =>
          var s := RunStepOf(c, step.matcher, m, fuel);
          if s.Failure? {
            return Failure(s.error);
          }
          if s.value.next != m {
            m, children := s.value.next, children + s.value.nodes;
          } else if step.optional {
            children := children + s.value.nodes;
          } else {
            return Success(Fell);
          }
        case Loop(body) =>
          var l := RunLoopOf(c, body, m, children, fuel);
          if l.Failure? {
            return Failure(l.error);
          }
          m, children := l.value.0, l.value.1;
      }
      j := j + 1;
    }
    return Success(Reached(m, children));
  }

  /** `do { l = m; ... } while (l != m);` (lines 114-126). */
  method RunLoopOf(c: Context, body: seq<Step>, m: nat, children: seq<Tree>, fuel: nat) returns (r: Result<(nat, seq<Tree>), Exhausted>)
    requires ValidContext(c) && m <= c.e
    ensures r == RunLoop(c, body, m, children, fuel)
    decreases fuel, 1
  {
    var cur: nat, cs := m, children;
    while true
      invariant cur <= c.e
      invariant RunLoop(c, body, cur, cs, fuel) == RunLoop(c, body, m, children, fuel)
      decreases c.e - cur
    {
      var l := cur;
      var it := RunBodyOf(c, body, l, cs, fuel);
      if it.Failure? {
        return Failure(it.error);
      }
      match it.value
      case Broken(grown) =>
        return Success((l, if c.emitter == Trimmed then cs else grown));
      case Completed(next, grown) =>
        if next == l {
          return Success((l, grown));
        }
        cur, cs := next, grown;
    }
  }

  /** One pass of a loop body; a mandatory part that fails breaks out (lines 168-172). */
  method RunBodyOf(c: Context, body: seq<Step>, m: nat, children: seq<Tree>, fuel: nat) returns (r: Result<BodyOutcome, Exhausted>)
    requires ValidContext(c) && m <= c.e
    ensures r == RunBody(c, body, 0, m, children, fuel)
    decreases fuel, 0, 1
  {
    var k: nat, cur: nat, cs := 0, m, children;
    while k < |body|
      invariant k <= |body| && cur <= c.e
      invariant RunBody(c, body, k, cur, cs, fuel) == RunBody(c, body, 0, m, children, fuel)
      decreases |body| - k
    {
      var s := RunStepOf(c, body[k].matcher, cur, fuel);
      if s.Failure? {
        return Failure(s.error);
      }
      if s.value.next != cur {
        cur, cs := s.value.next, cs + s.value.nodes;
      } else if body[k].optional {
        cs := cs + s.value.nodes;
      } else {
        return Success(Broken(cs + s.value.nodes));
      }
      k := k + 1;
    }
    return Success(Completed(cur, cs));
  }

  /** The code emitted for one part: the guarded test of a terminal (lines 149-162) or the call of line 164. */
  method RunStepOf(c: Context, matcher: Rules.Matcher, m: nat, fuel: nat) returns (r: Result<Reply, Exhausted>)
    requires ValidContext(c) && m <= c.e
    ensures r == RunStep(c, matcher, m, fuel)
    decreases fuel, 0, 0
  {
    match matcher
    case Terminal(kind, cond) =>
      if m != c.e && TokenMatches(c.toks[m], kind, cond) {
        return Success(Reply(m + 1, [Leaf(c.toks[m])]));
      }
      return Success(Reply(m, []));
    case Call(name) =>
      if fuel == 0 {
        return Failure(Exhausted);
      }
      r := CallOf(c, name, m, fuel - 1);
  }

  // ---------------------------------------------------------------------------
  // Properties of the emitted matcher

  /** Line 82: on an empty range the matcher returns `b` and makes nothing. */
  lemma EmptyRangeFails(c: Context, name: string, fuel: nat)
    requires ValidContext(c) && name in c.rules
    ensures Call(c, name, c.e, fuel) == Success(Reply(c.e, []))
  {
  }

  /** Alternatives in declared order: the first one that gets through decides the node. */
  lemma FirstAlternativeWins(c: Context, alts: seq<Alternative>, i: nat, b: nat, fuel: nat, m: nat, children: seq<Tree>)
    requires ValidContext(c) && b <= c.e && i < |alts|
    requires RunItems(c, alts[i], 0, b, [], fuel) == Success(Reached(m, children))
    requires HasMandatory(alts[i]) || m != b
    ensures TryAlternatives(c, alts, i, b, fuel) == Success(Some((m, children)))
  {
  }

  /** A later alternative starts over from `b` with no children, whatever the earlier one attached (lines 103-107). */
  lemma FailedAlternativeForgotten(c: Context, alts: seq<Alternative>, i: nat, b: nat, fuel: nat)
    requires ValidContext(c) && b <= c.e && i < |alts|
    requires RunItems(c, alts[i], 0, b, [], fuel).Success?
    requires RunItems(c, alts[i], 0, b, [], fuel).value.Fell?
      || (RunItems(c, alts[i], 0, b, [], fuel).value.next == b && !HasMandatory(alts[i]))
    ensures TryAlternatives(c, alts, i, b, fuel) == TryAlternatives(c, alts, i + 1, b, fuel)
  {
  }

  /** Lines 195-198: when no alternative gets through, the node is gone and the call returns its start. */
  lemma NoAlternativeNoNode(c: Context, name: string, m: nat, fuel: nat)
    requires ValidContext(c) && name in c.rules && m < c.e
    requires TryAlternatives(c, c.rules[name], 0, m, fuel) == Success(None)
    ensures Call(c, name, m, fuel) == Success(Reply(m, []))
  {
  }

  /** An alternative whose parts are all optional that takes nothing is no match (lines 183-185). */
  lemma AllOptionalNeedsProgress(c: Context, children: seq<Tree>, b: nat, fuel: nat, alt: Alternative)
    requires ValidContext(c) && b <= c.e && !HasMandatory(alt)
    requires RunItems(c, alt, 0, b, [], fuel) == Success(Reached(b, children))
    ensures TryAlternatives(c, [alt], 0, b, fuel) == Success(None)
  {
  }

  /**
   * The loop stops where the next pass of its body would break or make no
   * progress (`l == m` at the `while`, or the `break` that sets `m = l`).
   */
  lemma {:induction false} RunLoopStops(c: Context, body: seq<Step>, m: nat, children: seq<Tree>, fuel: nat, ch: seq<Tree>)
    requires ValidContext(c) && m <= c.e && RunLoop(c, body, m, children, fuel).Success?
    ensures var l := RunLoop(c, body, m, children, fuel).value.0;
            RunBody(c, body, 0, l, ch, fuel).Success?
            && (RunBody(c, body, 0, l, ch, fuel).value.Broken? || RunBody(c, body, 0, l, ch, fuel).value.next == l)
    decreases c.e - m
  {
    var it := RunBody(c, body, 0, m, children, fuel).value;
    RunBodyCursor(c, body, 0, m, children, ch, fuel);
    if it.Completed? && it.next != m {
      RunLoopStops(c, body, it.next, it.children, fuel, ch);
    }
  }

  /** How far a pass of a loop body gets does not depend on the children already attached. */
  lemma {:induction false} RunBodyCursor(c: Context, body: seq<Step>, k: nat, m: nat, ch1: seq<Tree>, ch2: seq<Tree>, fuel: nat)
    requires ValidContext(c) && m <= c.e && k <= |body|
    ensures RunBody(c, body, k, m, ch1, fuel).Success? == RunBody(c, body, k, m, ch2, fuel).Success?
    ensures RunBody(c, body, k, m, ch1, fuel).Success? ==>
              RunBody(c, body, k, m, ch1, fuel).value.Completed? == RunBody(c, body, k, m, ch2, fuel).value.Completed?
    ensures RunBody(c, body, k, m, ch1, fuel).Success? && RunBody(c, body, k, m, ch1, fuel).value.Completed? ==>
              RunBody(c, body, k, m, ch1, fuel).value.next == RunBody(c, body, k, m, ch2, fuel).value.next
    decreases |body| - k
  {
    if k < |body| {
      var s := RunStep(c, body[k].matcher, m, fuel);
      if s.Success? {
        if s.value.next != m {
          RunBodyCursor(c, body, k + 1, s.value.next, ch1 + s.value.nodes, ch2 + s.value.nodes, fuel);
        } else if body[k].optional {
          RunBodyCursor(c, body, k + 1, m, ch1 + s.value.nodes, ch2 + s.value.nodes, fuel);
        }
      }
    }
  }

  /** A rule whose first part calls the rule itself at the same cursor never returns: any stack runs out. */
  lemma {:induction false} HeadRecursionExhausts(c: Context, name: string, m: nat, fuel: nat, rest: Alternative, optional: bool)
    requires ValidContext(c) && m < c.e && name in c.rules && c.rules[name] != []
    requires c.rules[name][0] == [Single(Step(Rules.Call(name), optional))] + rest
    ensures Call(c, name, m, fuel) == Failure(Exhausted)
    decreases fuel
  {
    var alt := c.rules[name][0];
    assert alt[0] == Single(Step(Rules.Call(name), optional));
    if fuel > 0 {
      HeadRecursionExhausts(c, name, m, fuel - 1, rest, optional);
    }
    assert RunStep(c, Rules.Call(name), m, fuel) == Failure(Exhausted);
    assert RunItems(c, alt, 0, m, [], fuel) == Failure(Exhausted);
  }

  // ---------------------------------------------------------------------------
  // The tokens a node holds are the tokens it consumed

  /** The nodes hold, left to right, exactly the tokens `toks[m..next]`. */
  predicate Accounts(c: Context, m: nat, next: nat, nodes: seq<Tree>) {
    m <= next <= |c.toks| && LeavesOf(nodes) == c.toks[m..next]
  }

  /**
   * The hand-written matchers hold exactly what they consume. Parser.AnswerAccounts
   * proves this of each matcher of src/parser.cpp that the model covers.
   */
  ghost predicate ExtAccounts(c: Context) {
    forall name: string, m: nat :: m <= c.e ==> Accounts(c, m, c.ext(name, m).next, c.ext(name, m).nodes)
  }

  /** A node's leaves are its children's. */
  lemma NodeLeaves(k: NodeType, children: seq<Tree>)
    ensures LeavesOf([Node(k, false, children, None)]) == LeavesOf(children)
  {
    var n := Node(k, false, children, None);
    LeavesFromOf(n, 0);
    assert children[0..] == children;
    assert [n][1..] == [];
  }

  /** Appending what a step consumed to what came before. */
  lemma AccountsJoin(c: Context, m0: nat, m: nat, next: nat, a: seq<Tree>, b: seq<Tree>)
    requires Accounts(c, m0, m, a) && Accounts(c, m, next, b)
    ensures Accounts(c, m0, next, a + b)
  {
    LeavesOfAppend(a, b);
    TokensJoin(c.toks, m0, m, next);
  }

  /** Adjacent slices of the token list join up. */
  lemma TokensJoin(toks: seq<Token>, m0: nat, m: nat, next: nat)
    requires m0 <= m <= next <= |toks|
    ensures toks[m0..m] + toks[m..next] == toks[m0..next]
  {
    assert forall k :: 0 <= k < next - m0 ==> (toks[m0..m] + toks[m..next])[k] == toks[m0..next][k];
  }

  /**
   * With a broken iteration's children taken back, every matcher leaves
   * attached exactly the tokens it consumed, in order: no token is in the
   * tree that the cursor has not passed.
   */
  lemma {:induction false} CallAccounts(c: Context, name: string, m: nat, fuel: nat)
    requires ValidContext(c) && ExtAccounts(c) && c.emitter == Trimmed && m <= c.e
    requires Call(c, name, m, fuel).Success?
    ensures Accounts(c, m, Call(c, name, m, fuel).value.next, Call(c, name, m, fuel).value.nodes)
    decreases fuel, 4
  {
    if name in c.rules && m != c.e {
      var found := TryAlternatives(c, c.rules[name], 0, m, fuel).value;
      if found.Some? {
        TryAlternativesAccount(c, c.rules[name], 0, m, fuel);
        NodeLeaves(NodeTypeOf(name), found.value.1);
      }
    }
  }

  lemma {:induction false} TryAlternativesAccount(c: Context, alts: seq<Alternative>, i: nat, b: nat, fuel: nat)
    requires ValidContext(c) && ExtAccounts(c) && c.emitter == Trimmed && b <= c.e && i <= |alts|
    requires TryAlternatives(c, alts, i, b, fuel).Success? && TryAlternatives(c, alts, i, b, fuel).value.Some?
    ensures Accounts(c, b, TryAlternatives(c, alts, i, b, fuel).value.value.0, TryAlternatives(c, alts, i, b, fuel).value.value.1)
    decreases fuel, 3, |alts| - i
  {
    var o := RunItems(c, alts[i], 0, b, [], fuel).value;
    assert Accounts(c, b, b, []);
    if o.Reached? {
      RunItemsAccount(c, alts[i], 0, b, b, [], fuel);
    }
    if !(o.Reached? && (HasMandatory(alts[i]) || o.next != b)) {
      TryAlternativesAccount(c, alts, i + 1, b, fuel);
    }
  }

  lemma {:induction false} RunItemsAccount(c: Context, items: Alternative, j: nat, m0: nat, m: nat, children: seq<Tree>, fuel: nat)
    requires ValidContext(c) && ExtAccounts(c) && c.emitter == Trimmed && m <= c.e && j <= |items|
    requires Accounts(c, m0, m, children)
    requires RunItems(c, items, j, m, children, fuel).Success? && RunItems(c, items, j, m, children, fuel).value.Reached?
    ensures Accounts(c, m0, RunItems(c, items, j, m, children, fuel).value.next, RunItems(c, items, j, m, children, fuel).value.children)
    decreases fuel, 2, |items| - j
  {
    if j < |items| {
      match items[j]
      case Single(step) =>
        var s := RunStep(c, step.matcher, m, fuel).value;
        RunStepAccounts(c, step.matcher, m, fuel);
        AccountsJoin(c, m0, m, s.next, children, s.nodes);
        RunItemsAccount(c, items, j + 1, m0, s.next, children + s.nodes, fuel);
        case Loop(body) =>
        var l := RunLoop(c, body, m, children, fuel).value;
        RunLoopAccounts(c, body, m0, m, children, fuel);
        RunItemsAccount(c, items, j + 1, m0, l.0, l.1, fuel);
    }
  }

  lemma {:induction false} RunLoopAccounts(c: Context, body: seq<Step>, m0: nat, m: nat, children: seq<Tree>, fuel: nat)
    requires ValidContext(c) && ExtAccounts(c) && c.emitter == Trimmed && m <= c.e
    requires Accounts(c, m0, m, children)
    requires RunLoop(c, body, m, children, fuel).Success?
    ensures Accounts(c, m0, RunLoop(c, body, m, children, fuel).value.0, RunLoop(c, body, m, children, fuel).value.1)
    decreases fuel, 1, c.e - m
  {
    var it := RunBody(c, body, 0, m, children, fuel).value;
    if it.Completed? {
      RunBodyAccounts(c, body, 0, m0, m, children, fuel);
      if it.next != m {
        RunLoopAccounts(c, body, m0, it.next, it.children, fuel);
      }
    }
  }

  lemma {:induction false} RunBodyAccounts(c: Context, body: seq<Step>, k: nat, m0: nat, m: nat, children: seq<Tree>, fuel: nat)
    requires ValidContext(c) && ExtAccounts(c) && c.emitter == Trimmed && m <= c.e && k <= |body|
    requires Accounts(c, m0, m, children)
    requires RunBody(c, body, k, m, children, fuel).Success? && RunBody(c, body, k, m, children, fuel).value.Completed?
    ensures Accounts(c, m0, RunBody(c, body, k, m, children, fuel).value.next, RunBody(c, body, k, m, children, fuel).value.children)
    decreases fuel, 0, |body| - k + 1
  {
    if k < |body| {
      var s := RunStep(c, body[k].matcher, m, fuel).value;
      RunStepAccounts(c, body[k].matcher, m, fuel);
      AccountsJoin(c, m0, m, s.next, children, s.nodes);
      RunBodyAccounts(c, body, k + 1, m0, s.next, children + s.nodes, fuel);
    }
  }

  lemma {:induction false} RunStepAccounts(c: Context, matcher: Rules.Matcher, m: nat, fuel: nat)
    requires ValidContext(c) && ExtAccounts(c) && c.emitter == Trimmed && m <= c.e
    requires RunStep(c, matcher, m, fuel).Success?
    ensures Accounts(c, m, RunStep(c, matcher, m, fuel).value.next, RunStep(c, matcher, m, fuel).value.nodes)
    decreases fuel, 0, 0
  {
    match matcher
    case Terminal(kind, cond) =>
      var s := RunStep(c, matcher, m, fuel).value;
      if s.next != m {
        assert LeavesOf([Leaf(c.toks[m])]) == [c.toks[m]] by {
          assert [Leaf(c.toks[m])][1..] == [];
        }
        assert c.toks[m..m + 1] == [c.toks[m]];
      }
    case Call(name) =>
      CallAccounts(c, name, m, fuel - 1);
  }

  /** So, trimmed, a root node holds exactly the tokens the parse consumed. */
  lemma RootAccounts(c: Context, name: string, fuel: nat)
    requires ValidContext(c) && ExtAccounts(c) && c.emitter == Trimmed && name in c.rules
    requires Root(c, name, fuel).Success? && Root(c, name, fuel).value.Some?
    ensures exists next :: 0 <= next <= c.e && Leaves(Root(c, name, fuel).value.value) == c.toks[..next]
  {
    var got := TryAlternatives(c, c.rules[name], 0, 0, fuel).value.value;
    TryAlternativesAccount(c, c.rules[name], 0, 0, fuel);
    var n := Node(NodeTypeOf(name), false, got.1, None);
    NodeLeaves(NodeTypeOf(name), got.1);
    assert LeavesOf([n]) == Leaves(n) by {
      assert [n][1..] == [];
    }
    assert c.toks[0..got.0] == c.toks[..got.0];
  }

  // ---------------------------------------------------------------------------
  // The loop that breaks half way

  /** `{ identifier() operator(";") }`: a loop whose second part must follow its first. */
  function PairBody(): seq<Step> {
    [Step(Terminal(Identifier, AnyValue), false), Step(Terminal(Operator, TextIs(";")), false)]
  }

  function PairLoopRules(): map<string, seq<Alternative>> {
    map["pair-list" := [[Loop(PairBody())]]]
  }

  /** The rule above alone, on the single token `x`. */
  function PairContext(x: Token, emitter: Emitter): (c: Context)
    ensures ValidContext(c)
  {
    Context(PairLoopRules(), (name: string, m: nat) => Reply(m, []), [x], 1, emitter)
  }

  /** The identifier is taken, then the semicolon is missing: the pass breaks with the identifier attached. */
  lemma PairBodyBreaks(x: Token, emitter: Emitter)
    requires x.kind == Identifier
    ensures RunBody(PairContext(x, emitter), PairBody(), 0, 0, [], 1) == Success(Broken([Leaf(x)]))
  {
    var c, body := PairContext(x, emitter), PairBody();
    assert RunStep(c, body[0].matcher, 0, 1) == Success(Reply(1, [Leaf(x)]));
    assert RunStep(c, body[1].matcher, 1, 1) == Success(Reply(1, []));
    assert [Leaf(x)] + [] == [Leaf(x)] && [] + [Leaf(x)] == [Leaf(x)];
    assert RunBody(c, body, 1, 1, [Leaf(x)], 1) == Success(Broken([Leaf(x)]));
  }

  /** The rule's only alternative has a mandatory part, so it gets through at the start. */
  lemma PairCall(x: Token, emitter: Emitter, children: seq<Tree>)
    requires RunLoop(PairContext(x, emitter), PairBody(), 0, [], 1) == Success((0, children))
    ensures Call(PairContext(x, emitter), "pair-list", 0, 1) == Success(Reply(0, [Node(NodeTypeOf("pair-list"), false, children, None)]))
  {
    var c := PairContext(x, emitter);
    var alts := c.rules["pair-list"];
    assert alts == [[Loop(PairBody())]];
    assert RunItems(c, alts[0], 1, 0, children, 1) == Success(Reached(0, children));
    assert RunItems(c, alts[0], 0, 0, [], 1) == Success(Reached(0, children));
    assert ItemMandatory(Loop(PairBody())) by {
      assert !PairBody()[0].optional;
    }
    assert HasMandatory(alts[0]);
    assert TryAlternatives(c, alts, 0, 0, 1) == Success(Some((0, children)));
  }

  /**
   * As written, a loop iteration that breaks after its first part keeps that
   * part's token: the node returns its start, as if it had consumed nothing,
   * yet holds the token, which a caller going on from there takes again.
   */
  lemma BrokenIterationKeepsToken(x: Token)
    requires x.kind == Identifier
    ensures Call(PairContext(x, AsWritten), "pair-list", 0, 1)
            == Success(Reply(0, [Node(NodeTypeOf("pair-list"), false, [Leaf(x)], None)]))
    ensures !Accounts(PairContext(x, AsWritten), 0, 0, [Node(NodeTypeOf("pair-list"), false, [Leaf(x)], None)])
  {
    PairBodyBreaks(x, AsWritten);
    PairCall(x, AsWritten, [Leaf(x)]);
    NodeLeaves(NodeTypeOf("pair-list"), [Leaf(x)]);
    assert LeavesOf([Leaf(x)]) == [x] by {
      assert [Leaf(x)][1..] == [];
    }
  }

  /** Trimmed, the same loop leaves its node empty. */
  lemma BrokenIterationTrimmed(x: Token)
    requires x.kind == Identifier
    ensures Call(PairContext(x, Trimmed), "pair-list", 0, 1)
            == Success(Reply(0, [Node(NodeTypeOf("pair-list"), false, [], None)]))
  {
    PairBodyBreaks(x, Trimmed);
    PairCall(x, Trimmed, []);
  }

  /**
   * A loop that runs no iteration still gets its alternative through: the
   * node stays attached although the call returns its start, which its
   * caller reads as a failure (line 165).
   */
  lemma EmptyLoopNodeStays(x: Token, emitter: Emitter)
    requires x.kind != Identifier
    ensures Call(PairContext(x, emitter), "pair-list", 0, 1)
            == Success(Reply(0, [Node(NodeTypeOf("pair-list"), false, [], None)]))
  {
    var c, body := PairContext(x, emitter), PairBody();
    assert RunStep(c, body[0].matcher, 0, 1) == Success(Reply(0, []));
    var none: seq<Tree> := [];
    assert none + none == none;
    assert RunBody(c, body, 0, 0, [], 1) == Success(Broken([]));
    PairCall(x, emitter, []);
  }
}

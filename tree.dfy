/**
 * The syntax tree of src/parser.cpp (include/parser.hpp): nodes with an
 * ordered list of children, TOKEN leaves holding their token, and the
 * read-only queries and in-place rewrites the parser runs over it.
 *
 * The tree is a value; a node is named by its path from the root, so its
 * parent is the path without its last index.
 */
module Syntax {
  import opened Wrappers
  import opened Tokens

  /**
   * `syntax_tree_node::sv_type` for nodes that are no TOKEN: a generated
   * syntactic variable by its enumerator name (`COMPOUND_STATEMENT`), or one
   * of the hand-written ones.
   */
  datatype NodeType =
    | Sv(name: string)
    | OverloadableOperator
    | TriviallyBalancedToken
    | TypedefName
    | ClassName
    | TemplateName
    | OriginalNamespaceName

  /** A node, by the indices of the children leading to it from the root. */
  type Path = seq<nat>

  /** A TOKEN node with its `ass_token`, or an inner node (`supplemental.declaration` as a path). */
  datatype Tree =
    | Leaf(token: Token)
    | Node(kind: NodeType, intermediate: bool, children: seq<Tree>, declaration: Option<Path>)

  /** The node at path `p` of `t`. */
  function Subtree(t: Tree, p: Path): Option<Tree>
    decreases |p|
  {
    if p == [] then Some(t)
    else if t.Node? && p[0] < |t.children| then Subtree(t.children[p[0]], p[1..])
    else None
  }

  predicate IsNodeAt(t: Tree, p: Path) {
    Subtree(t, p).Some?
  }

  /** The node at `p` is an inner node whose type is in `kinds`. */
  predicate KindAt(t: Tree, p: Path, kinds: set<NodeType>) {
    Subtree(t, p).Some? && Subtree(t, p).value.Node? && Subtree(t, p).value.kind in kinds
  }

  /** The scope blocks: compound statements, class specifiers and declaration sequences. */
  function ScopeKinds(): set<NodeType> {
    {Sv("COMPOUND_STATEMENT"), Sv("CLASS_SPECIFIER"), Sv("DECLARATION_SEQ")}
  }

  lemma SubtreeOfPrefix(t: Tree, p: Path, k: nat)
    requires IsNodeAt(t, p) && k <= |p|
    ensures IsNodeAt(t, p[..k])
    decreases |p|
  {
    if k > 0 {
      SubtreeOfPrefix(t.children[p[0]], p[1..], k - 1);
      assert p[..k][1..] == p[1..][..k - 1];
    }
  }

  // ---------------------------------------------------------------------------
  // Walking up: scope_above and scope (lines 121-154)

  /** The longest prefix `p[..j]` with `j < k` whose node's type is in `kinds`. */
  function Nearest(t: Tree, p: Path, k: nat, kinds: set<NodeType>): (r: Option<Path>)
    requires k <= |p|
    ensures r.Some? ==> |r.value| < k && r.value == p[..|r.value|] && KindAt(t, r.value, kinds)
    ensures r.Some? ==> forall j :: |r.value| < j < k ==> !KindAt(t, p[..j], kinds)
    ensures r.None? ==> forall j :: 0 <= j < k ==> !KindAt(t, p[..j], kinds)
    decreases k
  {
    if k == 0 then None
    else if KindAt(t, p[..k - 1], kinds) then Some(p[..k - 1])
    else Nearest(t, p, k - 1, kinds)
  }

  /** `scope_above`: the nearest proper ancestor that is a scope block. */
  function ScopeAbove(t: Tree, p: Path): Option<Path> {
    Nearest(t, p, |p|, ScopeKinds())
  }

  /** The loop of lines 149-153. */
  method ScopeAboveOf(t: Tree, p: Path) returns (r: Option<Path>)
    ensures r == ScopeAbove(t, p)
  {
    var k := |p|;
    while k > 0
      invariant 0 <= k <= |p|
      invariant Nearest(t, p, |p|, ScopeKinds()) == Nearest(t, p, k, ScopeKinds())
    {
      var n := p[..k - 1];  // n = n->parent
      if KindAt(t, n, ScopeKinds()) {
        return Some(n);
      }
      k := k - 1;
    }
    return None;
  }

  /** The `throw` of lines 136-140: no scope block and no template declaration above the node. */
  datatype ScopeError = Unresolved(node: Path)

  /**
   * `scope`: the nearest ancestor that is a scope block or a template
   * declaration; for a template declaration, the first scope block below it
   * (which may be none).
   */
  function Scope(t: Tree, p: Path): Result<Option<Path>, ScopeError> {
    match Nearest(t, p, |p|, ScopeKinds() + {Sv("TEMPLATE_DECLARATION")})
    case None => Failure(Unresolved(p))
    case Some(n) =>
      if KindAt(t, n, ScopeKinds()) then Success(Some(n))
      else match ScopeBelow(Subtree(t, n).value)
        case None => Success(None)
        case Some(q) => Success(Some(n + q))
  }

  /** The loop of lines 123-134. */
  method ScopeOf(t: Tree, p: Path) returns (r: Result<Option<Path>, ScopeError>)
    ensures r == Scope(t, p)
  {
    var kinds := ScopeKinds() + {Sv("TEMPLATE_DECLARATION")};
    var k := |p|;
    while k > 0
      invariant 0 <= k <= |p|
      invariant Nearest(t, p, |p|, kinds) == Nearest(t, p, k, kinds)
    {
      var n := p[..k - 1];
      if KindAt(t, n, ScopeKinds()) {
        return Success(Some(n));
      } else if KindAt(t, n, {Sv("TEMPLATE_DECLARATION")}) {
        var below := ScopeBelowOf(Subtree(t, n).value);
        return if below.None? then Success(None) else Success(Some(n + below.value));
      }
      k := k - 1;
    }
    return Failure(Unresolved(p));
  }

  // ---------------------------------------------------------------------------
  // Walking down: scope_below and first_token (lines 160-223)

  /** `scope_below`: the path, relative to `t`, of its first scope block in pre-order. */
  function ScopeBelow(t: Tree): (r: Option<Path>)
    ensures r.Some? ==> r.value != [] && KindAt(t, r.value, ScopeKinds())
    decreases t, 1
  {
    if t.Leaf? then None else ScopeBelowFrom(t, 0)
  }

  /** The first scope block in pre-order among the children `i` on (and their descendants). */
  function ScopeBelowFrom(t: Tree, i: nat): (r: Option<Path>)
    requires t.Node? && i <= |t.children|
    ensures r.Some? ==> r.value != [] && i <= r.value[0] < |t.children| && KindAt(t, r.value, ScopeKinds())
    decreases t, 0, |t.children| - i
  {
    if i == |t.children| then None
    else
      var c := t.children[i];
      if c.Node? && c.kind in ScopeKinds() then
        assert Subtree(t, [i]) == Some(c);
        Some([i])
      else match ScopeBelow(c)
        case Some(q) =>
          assert ([i] + q)[1..] == q;
          Some([i] + q)
        case None => ScopeBelowFrom(t, i + 1)
  }

  /** Lines 162-172, the loop over the children with its recursive call. */
  method ScopeBelowOf(t: Tree) returns (r: Option<Path>)
    ensures r == ScopeBelow(t)
    decreases t
  {
    if t.Leaf? {
      return None;
    }
    var i := 0;
    while i < |t.children|
      invariant 0 <= i <= |t.children|
      invariant ScopeBelowFrom(t, 0) == ScopeBelowFrom(t, i)
    {
      var c := t.children[i];
      if c.Node? && c.kind in ScopeKinds() {
        return Some([i]);
      }
      var sb := ScopeBelowOf(c);
      if sb.Some? {
        return Some([i] + sb.value);
      }
      i := i + 1;
    }
    return None;
  }

  /** `p` comes strictly before `q` in pre-order: `p` is a proper ancestor of `q`, or lies in an earlier sibling's subtree. */
  predicate PreBefore(p: Path, q: Path)
    decreases |p|
  {
    if p == [] then q != []
    else q != [] && (p[0] < q[0] || (p[0] == q[0] && PreBefore(p[1..], q[1..])))
  }

  /**
   * `scope_below` finds the first strict descendant in pre-order that is a
   * scope block, and none exactly when there is no such descendant.
   */
  lemma ScopeBelowFirst(t: Tree)
    ensures ScopeBelow(t).None? ==> forall p :: p != [] ==> !KindAt(t, p, ScopeKinds())
    ensures ScopeBelow(t).Some? ==> forall p :: p != [] && PreBefore(p, ScopeBelow(t).value) ==> !KindAt(t, p, ScopeKinds())
  {
    forall p | p != [] && (ScopeBelow(t).None? || PreBefore(p, ScopeBelow(t).value))
      ensures !KindAt(t, p, ScopeKinds())
    {
      if ScopeBelow(t).None? {
        BelowAbsent(t, p);
      } else {
        BelowFirst(t, p);
      }
    }
  }

  lemma {:induction false} BelowAbsent(t: Tree, p: Path)
    requires ScopeBelow(t).None? && p != []
    ensures !KindAt(t, p, ScopeKinds())
    decreases t, 1
  {
    if t.Node? && p[0] < |t.children| {
      BelowFromAbsent(t, 0, p);
    }
  }

  lemma {:induction false} BelowFromAbsent(t: Tree, i: nat, p: Path)
    requires t.Node? && i <= |t.children| && ScopeBelowFrom(t, i).None?
    requires p != [] && i <= p[0] < |t.children|
    ensures !KindAt(t, p, ScopeKinds())
    decreases t, 0, |t.children| - i
  {
    var c := t.children[i];
    if p[0] == i {
      assert Subtree(t, p) == Subtree(c, p[1..]);
      if p[1..] != [] {
        BelowAbsent(c, p[1..]);
      }
    } else {
      BelowFromAbsent(t, i + 1, p);
    }
  }

  lemma {:induction false} BelowFirst(t: Tree, p: Path)
    requires ScopeBelow(t).Some? && p != [] && PreBefore(p, ScopeBelow(t).value)
    ensures !KindAt(t, p, ScopeKinds())
    decreases t, 1
  {
    BelowFromFirst(t, 0, p);
  }

  lemma {:induction false} BelowFromFirst(t: Tree, i: nat, p: Path)
    requires t.Node? && i <= |t.children| && ScopeBelowFrom(t, i).Some?
    requires p != [] && i <= p[0] && PreBefore(p, ScopeBelowFrom(t, i).value)
    ensures !KindAt(t, p, ScopeKinds())
    decreases t, 0, |t.children| - i
  {
    var c := t.children[i];
    if p[0] >= |t.children| {
    } else if p[0] == i {
      assert Subtree(t, p) == Subtree(c, p[1..]);
      if c.Node? && c.kind in ScopeKinds() {
      } else if p[1..] != [] {
        match ScopeBelow(c)
        case Some(q) =>
          assert ([i] + q)[1..] == q;
          BelowFirst(c, p[1..]);
        case None =>
          BelowAbsent(c, p[1..]);
      }
    } else {
      BelowFromFirst(t, i + 1, p);
    }
  }

  /** The tokens of the TOKEN leaves, left to right. */
  function Leaves(t: Tree): seq<Token>
    decreases t, 1
  {
    if t.Leaf? then [t.token] else LeavesFrom(t, 0)
  }

  function LeavesFrom(t: Tree, i: nat): seq<Token>
    requires t.Node? && i <= |t.children|
    decreases t, 0, |t.children| - i
  {
    if i == |t.children| then [] else Leaves(t.children[i]) + LeavesFrom(t, i + 1)
  }

  /** The leaves of a list of trees, left to right. */
  function LeavesOf(cs: seq<Tree>): seq<Token> {
    if cs == [] then [] else Leaves(cs[0]) + LeavesOf(cs[1..])
  }

  lemma {:induction false} LeavesFromOf(t: Tree, i: nat)
    requires t.Node? && i <= |t.children|
    ensures LeavesFrom(t, i) == LeavesOf(t.children[i..])
    decreases |t.children| - i
  {
    if i < |t.children| {
      LeavesFromOf(t, i + 1);
      assert t.children[i..][1..] == t.children[i + 1..];
    }
  }

  lemma {:induction false} LeavesOfAppend(a: seq<Tree>, b: seq<Tree>)
    ensures LeavesOf(a + b) == LeavesOf(a) + LeavesOf(b)
    decreases |a|
  {
    if a != [] {
      assert (a + b)[1..] == a[1..] + b;
      LeavesOfAppend(a[1..], b);
    } else {
      assert a + b == b;
    }
  }

  /** `first_token`: the token of the first TOKEN node in pre-order. */
  function FirstToken(t: Tree): Option<Token>
    decreases t, 1
  {
    if t.Leaf? then Some(t.token) else FirstTokenFrom(t, 0)
  }

  function FirstTokenFrom(t: Tree, i: nat): Option<Token>
    requires t.Node? && i <= |t.children|
    decreases t, 0, |t.children| - i
  {
    if i == |t.children| then None
    else match FirstToken(t.children[i])
      case Some(tok) => Some(tok)
      case None => FirstTokenFrom(t, i + 1)
  }

  /** The first token is the first leaf, and there is none only in a tree without leaves. */
  lemma {:induction false} FirstTokenIsFirstLeaf(t: Tree)
    ensures FirstToken(t) == if Leaves(t) == [] then None else Some(Leaves(t)[0])
    decreases t, 1
  {
    if t.Node? {
      FirstTokenFromIsFirstLeaf(t, 0);
    }
  }

  lemma {:induction false} FirstTokenFromIsFirstLeaf(t: Tree, i: nat)
    requires t.Node? && i <= |t.children|
    ensures FirstTokenFrom(t, i) == if LeavesFrom(t, i) == [] then None else Some(LeavesFrom(t, i)[0])
    decreases t, 0, |t.children| - i
  {
    if i < |t.children| {
      FirstTokenIsFirstLeaf(t.children[i]);
      FirstTokenFromIsFirstLeaf(t, i + 1);
    }
  }

  /** Lines 210-223: the TOKEN test, then the loop over the children with its recursive call. */
  method FirstTokenOf(t: Tree) returns (r: Option<Token>)
    ensures r == FirstToken(t)
    decreases t
  {
    if t.Leaf? {
      return Some(t.token);
    }
    var i := 0;
    while i < |t.children|
      invariant 0 <= i <= |t.children|
      invariant FirstTokenFrom(t, 0) == FirstTokenFrom(t, i)
    {
      var tok := FirstTokenOf(t.children[i]);
      if tok.Some? {
        return tok;
      }
      i := i + 1;
    }
    return None;
  }

  // ---------------------------------------------------------------------------
  // Visibility: sees and sees_in_ns (lines 91-112)

  /**
   * `sees`: a node sees no declaration (a null one) always; otherwise it sees a
   * declaration whose scope block is its own scope block or encloses it.
   */
  function Sees(t: Tree, p: Path, other: Option<Path>): Result<bool, ScopeError> {
    if other.None? then Success(true)
    else
      var os :- Scope(t, other.value);
      if os.None? then Success(false)
      else
        var s :- Scope(t, p);
        Success(s.Some? && os.value <= s.value && (os.value == s.value || KindAt(t, os.value, ScopeKinds())))
  }

  /** The chain of line 100: from `s` on, `target` is `s` or one of the scope blocks above it. */
  function RisesTo(t: Tree, s: Path, target: Path): bool
    decreases |s|
  {
    s == target || match ScopeAbove(t, s) case None => false case Some(a) => RisesTo(t, a, target)
  }

  /** The chain from a node up through its enclosing scope blocks meets exactly the scope blocks among its prefixes. */
  lemma {:induction false} RisesToPrefix(t: Tree, s: Path, target: Path)
    ensures RisesTo(t, s, target) <==> target <= s && (target == s || KindAt(t, target, ScopeKinds()))
    decreases |s|
  {
    var a := ScopeAbove(t, s);
    if a.Some? {
      RisesToPrefix(t, a.value, target);
      if target < s && target != a.value && KindAt(t, target, ScopeKinds()) {
        assert target == s[..|target|];
        assert a.value == s[..|a.value|];
        assert |target| < |a.value|;
        assert target == a.value[..|target|];
      }
      if target <= a.value {
        assert a.value <= s;
      }
    } else {
      if target < s {
        assert target == s[..|target|];
      }
    }
  }

  /** Lines 96-104: the loop that rises from the node's scope block. */
  method SeesOf(t: Tree, p: Path, other: Option<Path>) returns (r: Result<bool, ScopeError>)
    ensures r == Sees(t, p, other)
  {
    if other.None? {
      return Success(true);
    }
    var os := ScopeOf(t, other.value);
    if os.Failure? {
      return Failure(os.error);
    }
    if os.value.None? {
      return Success(false);
    }
    var target := os.value.value;
    var sc := ScopeOf(t, p);
    if sc.Failure? {
      return Failure(sc.error);
    }
    var s := sc.value;
    ghost var s0 := s;
    while s.Some?
      invariant s0.Some? ==> (RisesTo(t, s0.value, target) <==> s.Some? && RisesTo(t, s.value, target))
      invariant s0.None? ==> s.None?
      decreases if s.Some? then |s.value| + 1 else 0
    {
      if s.value == target {
        RisesToPrefix(t, s0.value, target);
        return Success(true);
      }
      s := ScopeAbove(t, s.value);
    }
    if s0.Some? {
      RisesToPrefix(t, s0.value, target);
    }
    return Success(false);
  }

  /**
   * `sees_in_ns`: inside a named namespace the declaration must sit right in
   * it; otherwise ordinary visibility. A null declaration inside a namespace
   * (a null dereference in the source) is not seen.
   */
  function SeesInNs(t: Tree, p: Path, other: Option<Path>, ns: Option<Path>): (r: Result<bool, ScopeError>)
    ensures ns.Some? ==> r == Success(other.Some? && ScopeAbove(t, other.value) == ns)
    ensures ns.None? ==> r == Sees(t, p, other)
  {
    if ns.Some? then Success(other.Some? && ScopeAbove(t, other.value) == ns) else Sees(t, p, other)
  }

  /** Lines 108-112: `sees_in_ns` as a call to `scope_above` or to `sees`. */
  method SeesInNsOf(t: Tree, p: Path, other: Option<Path>, ns: Option<Path>) returns (r: Result<bool, ScopeError>)
    ensures r == SeesInNs(t, p, other, ns)
  {
    if ns.Some? {
      if other.None? {
        return Success(false);
      }
      var above := ScopeAboveOf(t, other.value);
      return Success(above == ns);
    }
    r := SeesOf(t, p, other);
  }

  // ---------------------------------------------------------------------------
  // Construction and detach (lines 26-81)

  /** The constructor with a parent: the new node, childless, goes to the end of the parent's children. */
  function Attach(parent: Tree, child: Tree): (r: Tree)
    requires parent.Node?
    ensures r.Node? && r.children == parent.children + [child]
    ensures r.(children := parent.children) == parent
  {
    parent.(children := parent.children + [child])
  }

  /** `detach`: the node leaves its parent's children; the others keep their order. */
  function Detach(parent: Tree, i: nat): (r: Tree)
    requires parent.Node? && i < |parent.children|
    ensures r.Node? && |r.children| == |parent.children| - 1
    ensures forall j :: 0 <= j < i ==> r.children[j] == parent.children[j]
    ensures forall j :: i <= j < |r.children| ==> r.children[j] == parent.children[j + 1]
    ensures r.(children := parent.children) == parent
  {
    parent.(children := parent.children[..i] + parent.children[i + 1..])
  }

  /** Detaching the node just constructed gives the parent back. */
  lemma DetachAttached(parent: Tree, child: Tree)
    requires parent.Node?
    ensures Detach(Attach(parent, child), |parent.children|) == parent
  {
    assert (parent.children + [child])[..|parent.children|] == parent.children;
  }

  // ---------------------------------------------------------------------------
  // contract (lines 181-204)

  /** A child that `contract` keeps: a TOKEN, or a node neither intermediate nor of its parent's type. */
  predicate Kept(k: NodeType, c: Tree) {
    c.Leaf? || (!c.intermediate && c.kind != k)
  }

  /** The children of an inner node after `contract`: dropped children replaced by their own, already contracted, children. */
  function Contract(t: Tree): Tree
    decreases t, 1
  {
    if t.Leaf? then t else t.(children := SplicedFrom(t, 0))
  }

  function SplicedFrom(t: Tree, i: nat): seq<Tree>
    requires t.Node? && i <= |t.children|
    decreases t, 0, |t.children| - i
  {
    if i == |t.children| then [] else Piece(t, i) + SplicedFrom(t, i + 1)
  }

  /** What child `i` leaves in its parent's list: itself, contracted, or its contracted children. */
  function Piece(t: Tree, i: nat): seq<Tree>
    requires t.Node? && i < |t.children|
    decreases t, 0, 0
  {
    var c := Contract(t.children[i]);
    if Kept(t.kind, c) then [c] else c.children
  }

  /** Lines 183-203: the erase-and-splice loop over the children list, in place. */
  method ContractNode(t: Tree) returns (r: Tree)
    ensures r == Contract(t)
    decreases t
  {
    if t.Leaf? {
      return t;
    }
    var cs := t.children;
    var i, j := 0, 0;  // i into the edited list, j into the original one
    while i < |cs|
      invariant 0 <= i <= |cs| && 0 <= j <= |t.children|
      invariant cs[i..] == t.children[j..]
      invariant cs[..i] + SplicedFrom(t, j) == SplicedFrom(t, 0)
      decreases |t.children| - j
    {
      var child := ContractNode(cs[i]);
      assert t.children[j] == cs[i];
      var piece := if Kept(t.kind, child) then [child] else child.children;
      assert piece == Piece(t, j);
      SpliceStep(t, cs, i, j);
      cs := cs[..i] + piece + cs[i + 1..];
      i, j := i + |piece|, j + 1;
    }
    assert cs[..i] == cs;
    return t.(children := cs);
  }

  /** One turn of the loop of `ContractNode`: child `j`, at `i` in the edited list, is replaced by what it leaves. */
  lemma SpliceStep(t: Tree, cs: seq<Tree>, i: nat, j: nat)
    requires t.Node? && j < |t.children| && i < |cs|
    requires cs[i..] == t.children[j..]
    requires cs[..i] + SplicedFrom(t, j) == SplicedFrom(t, 0)
    ensures (cs[..i] + Piece(t, j) + cs[i + 1..])[i + |Piece(t, j)|..] == t.children[j + 1..]
    ensures (cs[..i] + Piece(t, j) + cs[i + 1..])[..i + |Piece(t, j)|] + SplicedFrom(t, j + 1) == SplicedFrom(t, 0)
  {
    var piece, rest := Piece(t, j), SplicedFrom(t, j + 1);
    assert SplicedFrom(t, j) == piece + rest;
    Spliced(cs[..i], piece, cs[i + 1..]);
    assert cs[i + 1..] == cs[i..][1..];
    assert cs[..i] + piece + rest == cs[..i] + (piece + rest);
  }

  /** Cutting a concatenation where its middle part ends. */
  lemma Spliced(before: seq<Tree>, piece: seq<Tree>, after: seq<Tree>)
    ensures (before + piece + after)[..|before| + |piece|] == before + piece
    ensures (before + piece + after)[|before| + |piece|..] == after
  {
  }

  /** No inner node below `t` is intermediate. */
  predicate Flat(t: Tree)
    decreases t
  {
    t.Node? ==> forall c :: c in t.children ==> (c.Leaf? || !c.intermediate) && Flat(c)
  }

  /** Every child below `t` is one `contract` keeps: nothing left to contract. */
  predicate Contracted(t: Tree)
    decreases t
  {
    t.Node? ==> forall c :: c in t.children ==> Kept(t.kind, c) && Contracted(c)
  }

  /** After `contract` no intermediate node is left below (the comment at lines 195-197). */
  lemma {:induction false} ContractFlat(t: Tree)
    ensures Flat(Contract(t))
    decreases t, 1
  {
    if t.Node? {
      SplicedFlat(t, 0);
    }
  }

  lemma {:induction false} SplicedFlat(t: Tree, i: nat)
    requires t.Node? && i <= |t.children|
    ensures forall c :: c in SplicedFrom(t, i) ==> (c.Leaf? || !c.intermediate) && Flat(c)
    decreases t, 0, |t.children| - i
  {
    if i < |t.children| {
      ContractFlat(t.children[i]);
      SplicedFlat(t, i + 1);
    }
  }

  /**
   * Where there was no intermediate node, `contract` also leaves no child of
   * its parent's type: a run of nested nodes of one type (a loop written as
   * recursion) becomes one node.
   */
  lemma {:induction false} ContractMergesSameType(t: Tree)
    requires Flat(t)
    ensures Contracted(Contract(t))
    decreases t, 1
  {
    if t.Node? {
      SplicedContracted(t, 0);
    }
  }

  lemma {:induction false} SplicedContracted(t: Tree, i: nat)
    requires t.Node? && Flat(t) && i <= |t.children|
    ensures forall c :: c in SplicedFrom(t, i) ==> Kept(t.kind, c) && Contracted(c)
    decreases t, 0, |t.children| - i
  {
    if i < |t.children| {
      var child := t.children[i];
      assert child in t.children;
      ContractMergesSameType(child);
      SplicedContracted(t, i + 1);
    }
  }

  /** A contracted tree is left alone. */
  lemma {:induction false} ContractIdle(t: Tree)
    requires Contracted(t)
    ensures Contract(t) == t
    decreases t, 1
  {
    if t.Node? {
      SplicedIdle(t, 0);
      assert t.children[0..] == t.children;
    }
  }

  lemma {:induction false} SplicedIdle(t: Tree, i: nat)
    requires t.Node? && Contracted(t) && i <= |t.children|
    ensures SplicedFrom(t, i) == t.children[i..]
    decreases t, 0, |t.children| - i
  {
    if i < |t.children| {
      var child := t.children[i];
      assert child in t.children;
      ContractIdle(child);
      SplicedIdle(t, i + 1);
      assert t.children[i..] == [child] + t.children[i + 1..];
    }
  }

  /** So on a tree without intermediate nodes, contracting twice is contracting once. */
  lemma ContractIdempotent(t: Tree)
    requires Flat(t)
    ensures Contract(Contract(t)) == Contract(t)
  {
    ContractMergesSameType(t);
    ContractIdle(Contract(t));
  }

  /** `contract` moves nodes but keeps every token, in order. */
  lemma {:induction false} ContractKeepsLeaves(t: Tree)
    ensures Leaves(Contract(t)) == Leaves(t)
    decreases t, 1
  {
    if t.Node? {
      SplicedKeepsLeaves(t, 0);
      LeavesFromOf(Contract(t), 0);
      LeavesFromOf(t, 0);
      assert Contract(t).children[0..] == SplicedFrom(t, 0);
    }
  }

  lemma {:induction false} SplicedKeepsLeaves(t: Tree, i: nat)
    requires t.Node? && i <= |t.children|
    ensures LeavesOf(SplicedFrom(t, i)) == LeavesOf(t.children[i..])
    decreases t, 0, |t.children| - i
  {
    if i < |t.children| {
      var c := Contract(t.children[i]);
      var piece := if Kept(t.kind, c) then [c] else c.children;
      ContractKeepsLeaves(t.children[i]);
      SplicedKeepsLeaves(t, i + 1);
      LeavesOfAppend(piece, SplicedFrom(t, i + 1));
      if Kept(t.kind, c) {
        assert LeavesOf(piece) == Leaves(c) by {
          assert piece[1..] == [];
        }
      } else {
        LeavesFromOf(c, 0);
        assert c.children[0..] == c.children;
      }
      assert t.children[i..][1..] == t.children[i + 1..];
    }
  }

  /**
   * The comment at lines 195-197 holds only for intermediate nodes: a child
   * of the parent's type that sits below an intermediate node survives.
   */
  lemma IntermediateShieldsSameType(k: NodeType, other: NodeType, tok: Token)
    requires k != other
    ensures var inner := Node(k, false, [Leaf(tok)], None);
            var t := Node(k, false, [Node(other, true, [inner], None)], None);
            Contract(t).children == [inner] && !Kept(k, inner)
  {
    var inner := Node(k, false, [Leaf(tok)], None);
    var mid := Node(other, true, [inner], None);
    var t := Node(k, false, [mid], None);
    assert Piece(inner, 0) == [Leaf(tok)] && SplicedFrom(inner, 1) == [];
    assert Contract(inner) == inner;
    assert Piece(mid, 0) == [inner] && SplicedFrom(mid, 1) == [];
    assert Contract(mid) == mid;
    assert Piece(t, 0) == [inner] && SplicedFrom(t, 1) == [];
  }

  // ---------------------------------------------------------------------------
  // fix_right_shifts (lines 229-258)

  /** The text of a TOKEN child, or `None` for an inner node or a token without text. */
  function LeafText(c: Tree): Option<string> {
    if c.Leaf? then TextOf(c.token) else None
  }

  /** The first child is the token `>` and the last one the token `second`. */
  predicate SplitShift(cs: seq<Tree>, second: string) {
    |cs| >= 2 && LeafText(cs[0]) == Some(">") && LeafText(cs[|cs| - 1]) == Some(second)
  }

  /** Lines 236-240: the last child goes, and the first token now reads `merged`. */
  function Merge(t: Tree, merged: string): (r: Tree)
    requires t.Node? && |t.children| >= 2 && t.children[0].Leaf?
    ensures r.Node? && r.kind == t.kind && |r.children| == |t.children| - 1
    ensures r.children[0].Leaf? && r.children[0].token.content == merged && TextOf(r.children[0].token) == Some(merged)
    ensures r.children[1..] == t.children[1..|t.children| - 1]
  {
    var tok := t.children[0].token.(content := merged, value := Text(merged));
    t.(children := [Leaf(tok)] + t.children[1..|t.children| - 1])
  }

  /** `fix_right_shifts`: `>` `>=` becomes `>>=`, `>` `>` becomes `>>`, below every other node. */
  function FixRightShifts(t: Tree): Tree
    decreases t, 1
  {
    if t.Leaf? then t
    else if t.kind == Sv("ASSIGNMENT_OPERATOR") then
      if SplitShift(t.children, ">=") then Merge(t, ">>=") else t
    else if t.kind == Sv("SHIFT_OPERATOR") then
      if SplitShift(t.children, ">") then Merge(t, ">>") else t
    else t.(children := FixedFrom(t, 0))
  }

  function FixedFrom(t: Tree, i: nat): (r: seq<Tree>)
    requires t.Node? && i <= |t.children|
    ensures |r| == |t.children| - i
    ensures forall j :: 0 <= j < |r| ==> r[j] == FixRightShifts(t.children[i + j])
    decreases t, 0, |t.children| - i
  {
    if i == |t.children| then [] else [FixRightShifts(t.children[i])] + FixedFrom(t, i + 1)
  }

  /** Lines 229-258, with the loop over the children fixing each one in place. */
  method FixRightShiftsOf(t: Tree) returns (r: Tree)
    ensures r == FixRightShifts(t)
    decreases t
  {
    if t.Leaf? {
      return t;
    }
    if t.kind == Sv("ASSIGNMENT_OPERATOR") {
      return if SplitShift(t.children, ">=") then Merge(t, ">>=") else t;
    }
    if t.kind == Sv("SHIFT_OPERATOR") {
      return if SplitShift(t.children, ">") then Merge(t, ">>") else t;
    }
    var cs := t.children;
    var i := 0;
    while i < |cs|
      invariant 0 <= i <= |cs| == |t.children|
      invariant forall j :: 0 <= j < i ==> cs[j] == FixRightShifts(t.children[j])
      invariant forall j :: i <= j < |cs| ==> cs[j] == t.children[j]
    {
      var c := FixRightShiftsOf(cs[i]);
      cs := cs[i := c];
      i := i + 1;
    }
    assert cs == FixedFrom(t, 0);
    return t.(children := cs);
  }

  /** No node of `t` is an assignment or shift operator. */
  predicate NoShiftNodes(t: Tree)
    decreases t
  {
    t.Node? ==>
      t.kind !in {Sv("ASSIGNMENT_OPERATOR"), Sv("SHIFT_OPERATOR")}
      && forall c :: c in t.children ==> NoShiftNodes(c)
  }

  /** A tree without operator nodes comes back unchanged. */
  lemma {:induction false} FixWithoutShiftNodes(t: Tree)
    requires NoShiftNodes(t)
    ensures FixRightShifts(t) == t
    decreases t
  {
    if t.Node? {
      forall j | 0 <= j < |t.children|
        ensures FixRightShifts(t.children[j]) == t.children[j]
      {
        assert t.children[j] in t.children;
        FixWithoutShiftNodes(t.children[j]);
      }
      assert FixedFrom(t, 0) == t.children;
    }
  }

  /** Fixing twice is fixing once: a merged first token no longer reads `>`. */
  lemma {:induction false} FixIdempotent(t: Tree)
    ensures FixRightShifts(FixRightShifts(t)) == FixRightShifts(t)
    decreases t
  {
    if t.Node? && t.kind != Sv("ASSIGNMENT_OPERATOR") && t.kind != Sv("SHIFT_OPERATOR") {
      var f := FixRightShifts(t);
      forall j | 0 <= j < |f.children|
        ensures FixRightShifts(f.children[j]) == f.children[j]
      {
        FixIdempotent(t.children[j]);
      }
      assert FixedFrom(f, 0) == f.children;
    }
  }

  /** The `x >>= 1` of the parser's tests: the two tokens become one `>>=` token. */
  lemma AssignmentShiftMerged(gt: Token, ge: Token)
    requires gt.value == Text(">") && ge.value == Text(">=")
    ensures var t := Node(Sv("ASSIGNMENT_OPERATOR"), false, [Leaf(gt), Leaf(ge)], None);
            FixRightShifts(t) == t.(children := [Leaf(gt.(content := ">>=", value := Text(">>=")))])
  {
  }
}

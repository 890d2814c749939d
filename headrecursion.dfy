/**
 * The potential-call-chain analysis of src/create-parser.rb (lines 207-255):
 * for every syntactic variable, the names a matcher may call before it has
 * consumed a token, and the warning printed when a variable can reach itself
 * through such calls (a head recursion, which the generated recursive-descent
 * code would not survive).
 */
module HeadRecursion {
  import Grammar

  /** `pcc`: each key's potential leading calls. */
  type Chains = map<string, seq<string>>

  // ---------------------------------------------------------------------------
  // Sequence operations the source takes from Ruby's Array

  /** `uniq`: the first occurrence of every element, in order. */
  function Uniq(s: seq<string>): (r: seq<string>)
    ensures forall x :: x in r <==> x in s
    ensures Grammar.Distinct(r) && |r| <= |s|
  {
    if s == [] then []
    else
      var u := Uniq(s[..|s| - 1]);
      assert forall x :: x in s <==> x in s[..|s| - 1] || x == s[|s| - 1];
      if s[|s| - 1] in u then u else u + [s[|s| - 1]]
  }

  /** `a - b`: the elements of `a` that are not in `b`, in order. */
  function Minus(a: seq<string>, b: seq<string>): (r: seq<string>)
    ensures forall x :: x in r <==> x in a && x !in b
  {
    if a == [] then []
    else
      assert forall x :: x in a <==> x == a[0] || x in a[1..];
      (if a[0] in b then [] else [a[0]]) + Minus(a[1..], b)
  }

  /** `part[1..-2]`: the part without its first and last character. */
  function Inner(part: string): string {
    if |part| >= 2 then part[1..|part| - 1] else []
  }

  // ---------------------------------------------------------------------------
  // The scan of one rule (lines 211-233)

  /**
   * The names the scan of `rule` records from part `i` on, where `leave` is
   * `leave_loop_nao`: a terminal stops the scan, `[ref]` records `ref` and
   * goes on, a mandatory `ref` records itself and stops, a stopped scan
   * resumes after the next `}`, and a part holding `{` is passed over.
   */
  function LeadingFrom(rule: seq<string>, i: nat, leave: bool): seq<string>
    requires i <= |rule|
    decreases |rule| - i
  {
    if i == |rule| then []
    else
      var part := rule[i];
      if leave then LeadingFrom(rule, i + 1, part != "}")
      else if '(' in part then LeadingFrom(rule, i + 1, true)
      else if '{' in part then LeadingFrom(rule, i + 1, false)
      else if part != [] && part[0] == '[' then [Inner(part)] + LeadingFrom(rule, i + 1, false)
      else [part] + LeadingFrom(rule, i + 1, true)
  }

  /** The names recorded for all alternatives of a variable, before `uniq!`. */
  function LeadingOf(rules: seq<seq<string>>): seq<string> {
    if rules == [] then [] else LeadingOf(rules[..|rules| - 1]) + LeadingFrom(rules[|rules| - 1], 0, false)
  }

  /** Lines 210-234 for one variable: the scan of every alternative, then `uniq!`. */
  method LeadingCalls(rules: seq<seq<string>>) returns (subs: seq<string>)
    ensures subs == Uniq(LeadingOf(rules))
  {
    var calls: seq<string> := [];
    var r := 0;
    while r < |rules|
      invariant 0 <= r <= |rules|
      invariant calls == LeadingOf(rules[..r])
    {
      calls := ScanRule(rules[r], calls);
      assert rules[..r + 1][..r] == rules[..r];
      r := r + 1;
    }
    assert rules[..r] == rules;
    return Uniq(calls);
  }

  /** Lines 212-232: the scan of one alternative, appending to `calls`. */
  method ScanRule(rule: seq<string>, calls0: seq<string>) returns (calls: seq<string>)
    ensures calls == calls0 + LeadingFrom(rule, 0, false)
  {
    calls := calls0;
    var leave := false;  // leave_loop_nao
    var i := 0;
    while i < |rule|
      invariant 0 <= i <= |rule|
      invariant calls + LeadingFrom(rule, i, leave) == calls0 + LeadingFrom(rule, 0, false)
    {
      var part := rule[i];
      if leave {
        if part == "}" {
          leave := false;
        }
      } else if '(' in part {
        leave := true;
      } else if '{' in part {
      } else if part != [] && part[0] == '[' {
        calls := calls + [Inner(part)];
      } else {
        calls := calls + [part];
        leave := true;
      }
      i := i + 1;
    }
    assert calls + [] == calls;
  }

  /** Every key of the grammar has its alternatives. */
  predicate Complete(g: Grammar.Grammar) {
    forall k :: 0 <= k < |g.names| ==> g.names[k] in g.rules
  }

  /** The `pcc` hash the source builds from the grammar. */
  function CallChains(g: Grammar.Grammar): Chains {
    map k | k in g.names && k in g.rules :: Uniq(LeadingOf(g.rules[k]))
  }

  /** Lines 208-235: one entry per key, in key order. */
  method BuildCallChains(g: Grammar.Grammar) returns (pcc: Chains)
    requires Complete(g)
    ensures pcc == CallChains(g)
  {
    pcc := map[];
    var k := 0;
    while k < |g.names|
      invariant 0 <= k <= |g.names|
      invariant forall x :: x in pcc <==> x in g.names[..k]
      invariant forall x :: x in pcc ==> x in g.rules && pcc[x] == Uniq(LeadingOf(g.rules[x]))
    {
      var sv := g.names[k];
      var subs := LeadingCalls(g.rules[sv]);
      pcc := pcc[sv := subs];
      assert forall x :: x in g.names[..k + 1] <==> x in g.names[..k] || x == sv;
      k := k + 1;
    }
    assert g.names[..k] == g.names;
  }

  // ---------------------------------------------------------------------------
  // What the scan records, stated without the flag

  /** The part stops a scan that has not stopped: a terminal or a mandatory reference. */
  predicate Stops(part: string) {
    '(' in part || part == [] || part[0] != '['
  }

  /** The first part from `i` on that stops the scan. */
  function FirstStop(rule: seq<string>, i: nat): (k: nat)
    requires i <= |rule|
    ensures i <= k <= |rule| && (k < |rule| ==> Stops(rule[k]))
    ensures forall j :: i <= j < k ==> !Stops(rule[j])
    decreases |rule| - i
  {
    if i == |rule| || Stops(rule[i]) then i else FirstStop(rule, i + 1)
  }

  /** No part opens or closes a loop. */
  predicate LoopFree(rule: seq<string>) {
    forall j :: 0 <= j < |rule| ==> '{' !in rule[j] && rule[j] != "}"
  }

  /** What the scan of a loop-free rule records: the optional references up to the first mandatory part, then that part if it is a reference. */
  function LeadingNoLoops(rule: seq<string>, i: nat): seq<string>
    requires i <= |rule|
  {
    var k := FirstStop(rule, i);
    seq(k - i, (m: int) requires 0 <= m < k - i => Inner(rule[i + m]))
      + (if k < |rule| && '(' !in rule[k] then [rule[k]] else [])
  }

  /** Once stopped, the scan of a loop-free rule records nothing more. */
  lemma {:induction false} StoppedRecordsNothing(rule: seq<string>, i: nat)
    requires i <= |rule| && LoopFree(rule)
    ensures LeadingFrom(rule, i, true) == []
    decreases |rule| - i
  {
    if i < |rule| {
      StoppedRecordsNothing(rule, i + 1);
    }
  }

  /** On a rule without loop markers the flag-driven scan is the reference definition. */
  lemma {:induction false} LeadingWithoutLoops(rule: seq<string>, i: nat)
    requires i <= |rule| && LoopFree(rule)
    ensures LeadingFrom(rule, i, false) == LeadingNoLoops(rule, i)
    decreases |rule| - i
  {
    if i < |rule| {
      var part := rule[i];
      if Stops(part) {
        StoppedRecordsNothing(rule, i + 1);
        assert FirstStop(rule, i) == i;
        assert LeadingFrom(rule, i, false) == (if '(' in part then [] else [part]);
      } else {
        LeadingWithoutLoops(rule, i + 1);
        var k := FirstStop(rule, i);
        assert k == FirstStop(rule, i + 1);
        var tail := if k < |rule| && '(' !in rule[k] then [rule[k]] else [];
        var run := seq(k - i, (m: int) requires 0 <= m < k - i => Inner(rule[i + m]));
        var run' := seq(k - i - 1, (m: int) requires 0 <= m < k - i - 1 => Inner(rule[i + 1 + m]));
        assert run == [Inner(part)] + run';
        assert LeadingNoLoops(rule, i) == run + tail;
        assert LeadingNoLoops(rule, i + 1) == run' + tail;
      }
    }
  }

  /** A loop holding only optional references ends the scan with its `}` recorded as a call. */
  lemma CloseBraceRecorded()
    ensures LeadingFrom(["{", "[a]", "}", "b"], 0, false) == ["a", "}"]
  {
    assert Inner("[a]") == "a";
  }

  // ---------------------------------------------------------------------------
  // The closure (lines 237-255)

  /** A sequence of names, each a potential leading call of the one before. */
  ghost predicate IsChain(pcc: Chains, p: seq<string>) {
    |p| >= 2 && forall j :: 0 <= j < |p| - 1 ==> p[j] in pcc && p[j + 1] in pcc[p[j]]
  }

  /** `b` can be called, before any token is consumed, from `a` in one or more steps. */
  ghost predicate Reaches(pcc: Chains, a: string, b: string) {
    exists p :: IsChain(pcc, p) && p[0] == a && p[|p| - 1] == b
  }

  ghost predicate HeadRecursive(pcc: Chains, sv: string) {
    Reaches(pcc, sv, sv)
  }

  lemma ReachesDirect(pcc: Chains, a: string, b: string)
    requires a in pcc && b in pcc[a]
    ensures Reaches(pcc, a, b)
  {
    assert IsChain(pcc, [a, b]);
  }

  lemma ReachesStep(pcc: Chains, a: string, b: string, c: string)
    requires Reaches(pcc, a, b) && b in pcc && c in pcc[b]
    ensures Reaches(pcc, a, c)
  {
    var p :| IsChain(pcc, p) && p[0] == a && p[|p| - 1] == b;
    var q := p + [c];
    assert forall j :: 0 <= j < |p| ==> q[j] == p[j];
    assert IsChain(pcc, q);
  }

  /** The names of all chains. */
  function Called(pcc: Chains): set<string> {
    set k, x | k in pcc && x in pcc[k] :: x
  }

  /** Every name reachable from `a` is in a set that holds `a`'s calls and is closed under calls. */
  lemma ClosedHoldsReach(pcc: Chains, a: string, S: set<string>, b: string)
    requires a in pcc && (forall x :: x in pcc[a] ==> x in S)
    requires forall x, y :: x in S && x in pcc && y in pcc[x] ==> y in S
    requires Reaches(pcc, a, b)
    ensures b in S
  {
    var p :| IsChain(pcc, p) && p[0] == a && p[|p| - 1] == b;
    ChainInside(pcc, p, S, |p| - 1);
  }

  lemma {:induction false} ChainInside(pcc: Chains, p: seq<string>, S: set<string>, j: nat)
    requires IsChain(pcc, p) && 1 <= j < |p|
    requires forall x :: x in pcc[p[0]] ==> x in S
    requires forall x, y :: x in S && x in pcc && y in pcc[x] ==> y in S
    ensures p[j] in S
  {
    if j > 1 {
      ChainInside(pcc, p, S, j - 1);
    }
  }

  /** `trans += pcc[sub] if pcc[sub]` for every `sub`, in order. */
  function Gathered(pcc: Chains, subs: seq<string>): (r: seq<string>)
    ensures forall y :: y in r <==> exists k :: 0 <= k < |subs| && subs[k] in pcc && y in pcc[subs[k]]
  {
    if subs == [] then []
    else
      var front := subs[..|subs| - 1];
      var last := subs[|subs| - 1];
      var r := Gathered(pcc, front) + (if last in pcc then pcc[last] else []);
      assert forall k :: 0 <= k < |front| ==> front[k] == subs[k];
      r
  }

  /** Lines 248-250. */
  method Expand(pcc: Chains, trans0: seq<string>, add: seq<string>) returns (trans: seq<string>)
    ensures trans == trans0 + Gathered(pcc, add)
  {
    trans := trans0;
    var j := 0;
    while j < |add|
      invariant 0 <= j <= |add|
      invariant trans == trans0 + Gathered(pcc, add[..j])
    {
      var sub := add[j];
      assert add[..j + 1][..j] == add[..j];
      if sub in pcc {
        trans := trans + pcc[sub];
      }
      j := j + 1;
    }
    assert add[..j] == add;
  }

  /** The state of the closure loop, as its invariant. */
  ghost predicate ClosureState(pcc: Chains, sv: string, trans: seq<string>, add: seq<string>) {
    sv in pcc
    && (forall x :: x in trans ==> x in Called(pcc) && Reaches(pcc, sv, x))
    && (forall x :: x in add ==> x in trans)
    && (forall x :: x in pcc[sv] ==> x in trans)
    && (forall x, y :: x in trans && x !in add && x in pcc && y in pcc[x] ==> y in trans)
    && (sv in trans ==> sv in add)
  }

  function Elems(s: seq<string>): set<string> {
    set x | x in s
  }

  /** One round keeps the invariant, and makes progress while it adds names. */
  lemma ClosureRound(pcc: Chains, sv: string, otrans: seq<string>, add: seq<string>, trans: seq<string>)
    requires ClosureState(pcc, sv, otrans, add) && sv !in otrans
    requires trans == Uniq(otrans + Gathered(pcc, add))
    ensures ClosureState(pcc, sv, trans, Minus(trans, otrans))
    ensures Elems(otrans) <= Elems(trans) <= Called(pcc)
    ensures Minus(trans, otrans) != [] ==> Minus(trans, otrans)[0] in Elems(trans) - Elems(otrans)
    ensures Minus(trans, otrans) == [] ==> Elems(otrans) == Elems(trans)
  {
    forall y | y in Gathered(pcc, add)
      ensures y in Called(pcc) && Reaches(pcc, sv, y)
    {
      var k :| 0 <= k < |add| && add[k] in pcc && y in pcc[add[k]];
      ReachesStep(pcc, sv, add[k], y);
    }
    var nw := Minus(trans, otrans);
    if nw != [] {
      assert nw[0] in Elems(trans) - Elems(otrans);
    }
  }

  /** The cardinality argument of the loop's termination. */
  lemma FewerLeft(U: set<string>, A: set<string>, B: set<string>, x: string)
    requires A <= B <= U && x in B - A
    ensures |U - B| < |U - A|
  {
    var L := (U - B) + {x};
    assert |L| == |U - B| + 1;
    assert (U - A) == L + ((U - A) - L);
  }

  /** Lines 238-254 for one key: `true` exactly when the warning is printed. */
  method Warns(pcc: Chains, sv: string) returns (warn: bool)
    requires sv in pcc
    ensures warn <==> HeadRecursive(pcc, sv)
  {
    var trans := pcc[sv];
    var add := pcc[sv];  // addishornal
    forall x | x in pcc[sv]
      ensures x in Called(pcc) && Reaches(pcc, sv, x)
    {
      ReachesDirect(pcc, sv, x);
    }
    while add != []
      invariant ClosureState(pcc, sv, trans, add) && Elems(trans) <= Called(pcc)
      decreases |Called(pcc) - Elems(trans)|, |add|
    {
      if sv in trans {
        return true;
      }
      var otrans, oadd := trans, add;
      trans := Expand(pcc, trans, add);
      trans := Uniq(trans);
      add := Minus(trans, otrans);
      ClosureRound(pcc, sv, otrans, oadd, trans);
      if add != [] {
        FewerLeft(Called(pcc), Elems(otrans), Elems(trans), add[0]);
      }
    }
    if HeadRecursive(pcc, sv) {
      ClosedHoldsReach(pcc, sv, Elems(trans), sv);
    }
    return false;
  }

  /** The keys, in order, whose warning is printed. */
  ghost function WarnedOf(pcc: Chains, keys: seq<string>): seq<string> {
    if keys == [] then []
    else
      var last := keys[|keys| - 1];
      WarnedOf(pcc, keys[..|keys| - 1]) + (if last in pcc && HeadRecursive(pcc, last) then [last] else [])
  }

  lemma {:induction false} WarnedOfMembers(pcc: Chains, keys: seq<string>)
    ensures forall x :: x in WarnedOf(pcc, keys) <==> x in keys && x in pcc && HeadRecursive(pcc, x)
  {
    if keys != [] {
      WarnedOfMembers(pcc, keys[..|keys| - 1]);
      assert forall x :: x in keys <==> x in keys[..|keys| - 1] || x == keys[|keys| - 1];
    }
  }

  /** Lines 237-255: the closure of every key, in the order of the hash. */
  method Warnings(pcc: Chains, keys: seq<string>) returns (warned: seq<string>)
    requires forall k :: k in keys ==> k in pcc
    ensures warned == WarnedOf(pcc, keys)
  {
    warned := [];
    var k := 0;
    while k < |keys|
      invariant 0 <= k <= |keys| && warned == WarnedOf(pcc, keys[..k])
    {
      var w := Warns(pcc, keys[k]);
      WarnedOfStep(pcc, keys, k);
      if w {
        warned := warned + [keys[k]];
      }
      k := k + 1;
    }
    assert keys[..k] == keys;
  }

  /** The names warned about among one more key. */
  lemma WarnedOfStep(pcc: Chains, keys: seq<string>, k: nat)
    requires k < |keys|
    ensures WarnedOf(pcc, keys[..k + 1])
            == WarnedOf(pcc, keys[..k]) + (if keys[k] in pcc && HeadRecursive(pcc, keys[k]) then [keys[k]] else [])
  {
    assert keys[..k + 1][..k] == keys[..k];
  }

  // ---------------------------------------------------------------------------
  // The root key

  /** A name no chain holds is never warned about: the root, stored as `!name` while references use `name`. */
  lemma UncalledNeverWarned(pcc: Chains, sv: string)
    requires forall k :: k in pcc ==> sv !in pcc[k]
    ensures !HeadRecursive(pcc, sv)
  {
    forall p | IsChain(pcc, p) && p[0] == sv
      ensures p[|p| - 1] != sv
    {
      assert p[|p| - 1] in pcc[p[|p| - 2]];
    }
  }

  /** The alternatives `expr operator("+") term` and `term` of a root `expr`. */
  function ExprRules(): seq<seq<string>> {
    [["expr", "operator(\"+\")", "term"], ["term"]]
  }

  lemma ExprLeading()
    ensures LeadingOf(ExprRules()) == ["expr", "term"]
  {
    assert '(' !in "expr" && '(' !in "term" && '(' in "operator(\"+\")";
    assert ExprRules()[..1] == [ExprRules()[0]];
    assert LeadingFrom(ExprRules()[0], 0, false) == ["expr"];
    assert LeadingFrom(ExprRules()[1], 0, false) == ["term"];
  }

  /** The root's chain is stored under its key `!expr`. */
  lemma ExprChains()
    ensures CallChains(Grammar.Grammar(["!expr"], map["!expr" := ExprRules()])) == map["!expr" := ["expr", "term"]]
  {
    ExprLeading();
    assert Uniq(["expr", "term"]) == ["expr", "term"] by {
      assert ["expr", "term"][..1] == ["expr"];
    }
  }

  /** A root that calls itself first draws no warning: `expr` is looked up in vain. */
  lemma LeftRecursiveRootNotWarned()
    ensures !HeadRecursive(map["!expr" := ["expr", "term"]], "!expr")
  {
    UncalledNeverWarned(map["!expr" := ["expr", "term"]], "!expr");
  }

  /** Two variables that call each other first are both warned about. */
  lemma MutualRecursionWarned()
    ensures HeadRecursive(map["!unit" := ["a"], "a" := ["b"], "b" := ["a"]], "a")
  {
    var pcc := map["!unit" := ["a"], "a" := ["b"], "b" := ["a"]];
    assert IsChain(pcc, ["a", "b", "a"]);
  }
}

/** Loading of the grammar file and normalisation of syntactic-variable names
    (src/create-parser.rb, lines 7-41).

    A grammar is a list of lines.  After stripping, blank lines and lines that
    start with `--` are ignored.  A line ending in `:` declares a syntactic
    variable; the first one declared is the root and is stored with a `!`
    prefix.  Every other line is one alternative of the variable declared last,
    split into parts at whitespace. */
module Grammar {
  import opened Wrappers

  // ---------------------------------------------------------------------------
  // Whitespace as Ruby's String#strip and String#split see it

  /** A character String#strip removes from either end. */
  predicate IsStripSpace(c: char) {
    c == '\0' || IsSplitSpace(c)
  }

  /** A character String#split (without argument) splits at. */
  predicate IsSplitSpace(c: char) {
    c == ' ' || c == '\t' || c == '\n' || c == '\U{B}' || c == '\U{C}' || c == '\r'
  }

  function StripLeft(s: string): (r: string)
    ensures |r| <= |s| && r == s[|s| - |r|..]
    ensures r == [] || !IsStripSpace(r[0])
  {
    if s != [] && IsStripSpace(s[0]) then StripLeft(s[1..]) else s
  }

  function StripRight(s: string): (r: string)
    ensures |r| <= |s| && r == s[..|r|]
    ensures r == [] || !IsStripSpace(r[|r| - 1])
  {
    if s != [] && IsStripSpace(s[|s| - 1]) then StripRight(s[..|s| - 1]) else s
  }

  /** String#strip. */
  function Strip(s: string): string {
    StripRight(StripLeft(s))
  }

  /** The leading run of non-space characters of `s`. */
  function Word(s: string): (w: string)
    ensures |w| <= |s| && w == s[..|w|]
    ensures forall i :: 0 <= i < |w| ==> !IsSplitSpace(w[i])
    ensures |w| == |s| || IsSplitSpace(s[|w|])
  {
    if s == [] || IsSplitSpace(s[0]) then [] else [s[0]] + Word(s[1..])
  }

  /** String#split: the maximal runs of non-space characters, in order. */
  function Words(s: string): (ws: seq<string>)
    ensures forall k :: 0 <= k < |ws| ==> ws[k] != [] && forall i :: 0 <= i < |ws[k]| ==> !IsSplitSpace(ws[k][i])
    decreases |s|
  {
    if s == [] then []
    else if IsSplitSpace(s[0]) then Words(s[1..])
    else
      var w := Word(s);
      [w] + Words(s[|w|..])
  }

  // ---------------------------------------------------------------------------
  // The significant lines and what they declare

  predicate IsComment(line: string) {
    |line| >= 2 && line[0] == '-' && line[1] == '-'
  }

  /** A raw line that survives stripping and is neither blank nor a comment. */
  predicate IsSignificant(raw: string) {
    var line := Strip(raw);
    line != [] && !IsComment(line)
  }

  /** The stripped significant lines, in file order. */
  function Significant(lines: seq<string>): seq<string> {
    if lines == [] then []
    else
      var last := lines[|lines| - 1];
      Significant(lines[..|lines| - 1]) + (if IsSignificant(last) then [Strip(last)] else [])
  }

  predicate IsDeclaration(line: string) {
    |line| > 0 && line[|line| - 1] == ':'
  }

  function DeclaredName(line: string): string
    requires IsDeclaration(line)
  {
    line[..|line| - 1]
  }

  /** The positions of the declaration lines among the significant lines. */
  function DeclPositions(S: seq<string>): seq<nat> {
    if S == [] then []
    else DeclPositions(S[..|S| - 1]) + (if IsDeclaration(S[|S| - 1]) then [|S| - 1] else [])
  }

  /** DeclPositions lists declaration lines only, in increasing order. */
  lemma {:induction false} DeclPositionsSpec(S: seq<string>)
    ensures forall k :: 0 <= k < |DeclPositions(S)| ==> DeclPositions(S)[k] < |S| && IsDeclaration(S[DeclPositions(S)[k]])
    ensures forall k, k' :: 0 <= k < k' < |DeclPositions(S)| ==> DeclPositions(S)[k] < DeclPositions(S)[k']
  {
    if S != [] {
      var S0 := S[..|S| - 1];
      DeclPositionsSpec(S0);
      var P0 := DeclPositions(S0);
      assert forall k :: 0 <= k < |P0| ==> S[P0[k]] == S0[P0[k]];
    }
  }

  /** Every declaration line is listed by DeclPositions. */
  lemma {:induction false} DeclPositionsComplete(S: seq<string>, p: nat)
    requires p < |S| && IsDeclaration(S[p])
    ensures p in DeclPositions(S)
  {
    if p < |S| - 1 {
      DeclPositionsComplete(S[..|S| - 1], p);
    }
  }

  /** The keys of all declarations, in order, repeated ones included: each declared
      name, with `!` in front of the first one. */
  function Keys(S: seq<string>): (K: seq<string>)
    ensures |K| == |DeclPositions(S)|
  {
    if S == [] then []
    else
      var front := S[..|S| - 1];
      var last := S[|S| - 1];
      Keys(front) + (if IsDeclaration(last) then [if DeclPositions(front) == [] then "!" + DeclaredName(last) else DeclaredName(last)] else [])
  }

  /** The split lines `S[lo..hi]` (nothing when that range does not exist). */
  function Between(S: seq<string>, lo: nat, hi: nat): seq<seq<string>>
    decreases hi
  {
    if hi <= lo || hi > |S| then [] else Between(S, lo, hi - 1) + [Words(S[hi - 1])]
  }

  lemma {:induction false} BetweenSpec(S: seq<string>, lo: nat, hi: nat)
    requires lo <= hi <= |S|
    ensures |Between(S, lo, hi)| == hi - lo
    ensures forall q :: 0 <= q < hi - lo ==> Between(S, lo, hi)[q] == Words(S[lo + q])
    decreases hi
  {
    if hi > lo {
      BetweenSpec(S, lo, hi - 1);
      var B := Between(S, lo, hi - 1);
      assert Between(S, lo, hi) == B + [Words(S[hi - 1])];
      assert forall q :: 0 <= q < hi - 1 - lo ==> (B + [Words(S[hi - 1])])[q] == B[q];
    }
  }

  /** The `k`-th key is the `k`-th declared name, with `!` in front of the first one only. */
  lemma {:induction false} KeysAreDeclaredNames(S: seq<string>)
    ensures forall k :: 0 <= k < |Keys(S)| ==>
              var p := DeclPositions(S)[k];
              p < |S| && IsDeclaration(S[p])
              && Keys(S)[k] == if k == 0 then "!" + DeclaredName(S[p]) else DeclaredName(S[p])
  {
    if S != [] {
      var S0, last := S[..|S| - 1], S[|S| - 1];
      assert S == S0 + [last];
      KeysAreDeclaredNames(S0);
      DeclPositionsAppend(S0, last);
      KeysAppend(S0, last);
      var P0, K0 := DeclPositions(S0), Keys(S0);
      assert |K0| == |P0|;
      forall k | 0 <= k < |Keys(S)|
        ensures var p := DeclPositions(S)[k];
          p < |S| && IsDeclaration(S[p])
          && Keys(S)[k] == if k == 0 then "!" + DeclaredName(S[p]) else DeclaredName(S[p])
      {
        if k < |P0| {
          assert DeclPositions(S)[k] == P0[k] && Keys(S)[k] == K0[k];
          assert S[P0[k]] == S0[P0[k]];
        } else {
          assert IsDeclaration(last) && DeclPositions(S)[k] == |S| - 1;
        }
      }
    }
  }

  /** The alternatives of the `k`-th declaration: the split significant lines strictly
      between it and the next declaration, or the end. */
  function RuleLines(S: seq<string>, k: nat): seq<seq<string>> {
    var P := DeclPositions(S);
    if k >= |P| then []
    else Between(S, P[k] + 1, if k + 1 < |P| then P[k + 1] else |S|)
  }

  /** The first significant line is a rule, not a declaration. */
  predicate StartsWithRule(S: seq<string>) {
    S != [] && !IsDeclaration(S[0])
  }

  predicate Distinct<T(==)>(s: seq<T>) {
    forall i, j :: 0 <= i < j < |s| ==> s[i] != s[j]
  }

  // ---------------------------------------------------------------------------
  // The loader

  datatype LoadError =
    | RuleOutsideVariable      // a rule before any declaration
    | Redefined(name: string)  // a key declared a second time

  /** The ordered map from keys to alternatives (a Ruby Hash keeps insertion order). */
  datatype Grammar = Grammar(names: seq<string>, rules: map<string, seq<seq<string>>>)

  ghost predicate Loaded(lines: seq<string>, g: Grammar) {
    var S := Significant(lines);
    var K := Keys(S);
    g.names == K
    && (forall key :: key in g.rules <==> key in K)
    && forall k :: 0 <= k < |K| ==> K[k] in g.rules && g.rules[K[k]] == RuleLines(S, k)
  }

  /** What the loader has built after reading the significant lines `S`. */
  ghost predicate LoadedSoFar(S: seq<string>, names: seq<string>, svs: map<string, seq<seq<string>>>) {
    !StartsWithRule(S)
    && names == Keys(S) && Distinct(names)
    && (forall key :: key in svs <==> key in names)
    && forall k {:trigger RuleLines(S, k)} :: 0 <= k < |names| ==> names[k] in svs && svs[names[k]] == RuleLines(S, k)
  }

  /** `name` is the first key that repeats an earlier one. */
  ghost predicate FirstRepeat(K: seq<string>, name: string) {
    exists k :: 0 <= k < |K| && K[k] == name && K[k] in K[..k] && Distinct(K[..k])
  }

  /** What loading the lines yields: the grammar when the first significant line is a
      declaration and no key repeats; otherwise the error for the first offending line. */
  ghost predicate LoadSpec(lines: seq<string>, r: Result<Grammar, LoadError>) {
    var S := Significant(lines);
    match r
    case Success(g) => !StartsWithRule(S) && Distinct(Keys(S)) && Loaded(lines, g)
    case Failure(RuleOutsideVariable) => StartsWithRule(S)
    case Failure(Redefined(name)) => !StartsWithRule(S) && FirstRepeat(Keys(S), name)
  }

  /** The map the loader builds, line by line, while no error occurs. */
  function RulesRead(S: seq<string>): map<string, seq<seq<string>>> {
    if S == [] then map[]
    else
      var front := S[..|S| - 1];
      var line := S[|S| - 1];
      var m := RulesRead(front);
      var K := Keys(front);
      if IsDeclaration(line) then
        m[if K == [] then "!" + DeclaredName(line) else DeclaredName(line) := []]
      else if K == [] then m
      else
        var current := K[|K| - 1];
        m[current := (if current in m then m[current] else []) + [Words(line)]]
  }

  /** The map built so far is the one the declarative reading describes. */
  lemma {:induction false} RulesReadMatches(S: seq<string>)
    requires !StartsWithRule(S) && Distinct(Keys(S))
    ensures LoadedSoFar(S, Keys(S), RulesRead(S))
  {
    if S != [] {
      var front := S[..|S| - 1];
      var line := S[|S| - 1];
      assert S == front + [line];
      KeysAppend(front, line);
      assert Keys(front) <= Keys(S);
      assert !StartsWithRule(front) by {
        if front != [] {
          assert front[0] == S[0];
        }
      }
      RulesReadMatches(front);
      RulesReadStep(front, line);
    }
  }

  lemma RulesReadStep(front: seq<string>, line: string)
    requires LoadedSoFar(front, Keys(front), RulesRead(front))
    requires !StartsWithRule(front + [line]) && Distinct(Keys(front + [line]))
    ensures LoadedSoFar(front + [line], Keys(front + [line]), RulesRead(front + [line]))
  {
    if IsDeclaration(line) {
      RulesReadDeclarationStep(front, line);
    } else {
      RulesReadRuleStep(front, line);
    }
  }

  lemma RulesReadDeclarationStep(front: seq<string>, line: string)
    requires LoadedSoFar(front, Keys(front), RulesRead(front))
    requires IsDeclaration(line) && Distinct(Keys(front + [line]))
    ensures LoadedSoFar(front + [line], Keys(front + [line]), RulesRead(front + [line]))
  {
    var K := Keys(front);
    var key := if K == [] then "!" + DeclaredName(line) else DeclaredName(line);
    assert RulesRead(front + [line]) == RulesRead(front)[key := []] by {
      assert (front + [line])[..|front|] == front;
    }
    assert Keys(front + [line]) == K + [key] by {
      KeysAppend(front, line);
    }
    assert key !in K by {
      forall j | 0 <= j < |K|
        ensures K[j] != key
      {
        assert (K + [key])[j] == K[j] && (K + [key])[|K|] == key;
      }
    }
    ReadDeclaration(front, K, RulesRead(front), line, key);
  }

  lemma RulesReadRuleStep(front: seq<string>, line: string)
    requires LoadedSoFar(front, Keys(front), RulesRead(front))
    requires !IsDeclaration(line) && !StartsWithRule(front + [line])
    ensures LoadedSoFar(front + [line], Keys(front + [line]), RulesRead(front + [line]))
  {
    var K := Keys(front);
    assert Keys(front + [line]) == K by {
      KeysAppend(front, line);
    }
    if K == [] {
      DeclPositionsComplete(front + [line], 0);
      assert false;
    }
    var key := K[|K| - 1];
    assert RulesRead(front + [line]) == RulesRead(front)[key := RulesRead(front)[key] + [Words(line)]] by {
      assert (front + [line])[..|front|] == front;
    }
    ReadRule(front, K, RulesRead(front), line, key);
  }

  lemma RulesReadDomain(S: seq<string>, key: string)
    requires !StartsWithRule(S) && Distinct(Keys(S))
    ensures key in RulesRead(S) <==> key in Keys(S)
  {
    RulesReadMatches(S);
  }

  /** The loader's state after reading the significant lines `S` without error. */
  ghost predicate ReadSoFar(S: seq<string>, names: seq<string>, svs: map<string, seq<seq<string>>>, current: Option<string>) {
    !StartsWithRule(S) && Distinct(Keys(S))
    && names == Keys(S) && svs == RulesRead(S)
    && current == if names == [] then None else Some(names[|names| - 1])
  }

  lemma DistinctAppend<T>(s: seq<T>, x: T)
    requires Distinct(s) && x !in s
    ensures Distinct(s + [x])
  {
  }

  /** The loader loop of lines 7-32. */
  method Load(lines: seq<string>) returns (r: Result<Grammar, LoadError>)
    ensures LoadSpec(lines, r)
  {
    var names: seq<string> := [];
    var svs: map<string, seq<seq<string>>> := map[];
    var current: Option<string> := None;
    var i := 0;
    while i < |lines|
      invariant 0 <= i <= |lines|
      invariant ReadSoFar(Significant(lines[..i]), names, svs, current)
    {
      var step := ReadLine(lines, i, names, svs, current);
      if step.Failure? {
        return Failure(step.error);
      }
      names, svs, current := step.value.0, step.value.1, step.value.2;
      i := i + 1;
    }
    AllRead(lines, i, Significant(lines[..i]), names, svs, current);
    return Success(Grammar(names, svs));
  }

  /** One iteration of the loop at lines 8-32: blank lines and comments are skipped. */
  method ReadLine(lines: seq<string>, i: nat, names: seq<string>,
                  svs: map<string, seq<seq<string>>>, current: Option<string>)
    returns (r: Result<(seq<string>, map<string, seq<seq<string>>>, Option<string>), LoadError>)
    requires i < |lines| && ReadSoFar(Significant(lines[..i]), names, svs, current)
    ensures r.Success? ==> ReadSoFar(Significant(lines[..i + 1]), r.value.0, r.value.1, r.value.2)
    ensures r.Failure? ==> LoadSpec(lines, Failure(r.error))
  {
    SignificantStep(lines, i);
    ghost var S := Significant(lines[..i]);
    var line := Strip(lines[i]);
    if line == [] || IsComment(line) {
      assert Significant(lines[..i + 1]) == S;
      return Success((names, svs, current));
    }
    if IsDeclaration(line) {
      r := ReadDeclarationLine(lines, i, S, names, svs, current, line);
    } else {
      r := ReadRuleLine(lines, i, S, names, svs, current, line);
    }
  }

  /** Lines 11-23: a declaration opens a new entry unless its key exists already. */
  method ReadDeclarationLine(lines: seq<string>, i: nat, ghost S: seq<string>, names: seq<string>,
                             svs: map<string, seq<seq<string>>>, current: Option<string>, line: string)
    returns (r: Result<(seq<string>, map<string, seq<seq<string>>>, Option<string>), LoadError>)
    requires i < |lines| && S == Significant(lines[..i]) && line == Strip(lines[i]) && IsSignificant(lines[i])
    requires ReadSoFar(S, names, svs, current) && IsDeclaration(line)
    ensures r.Success? ==> ReadSoFar(S + [line], r.value.0, r.value.1, r.value.2)
    ensures r.Failure? ==> LoadSpec(lines, Failure(r.error))
  {
    SignificantStep(lines, i);
    assert (S + [line])[..|S|] == S;
    KeysAppend(S, line);
    var key := if current.Some? then DeclaredName(line) else "!" + DeclaredName(line);
    RulesReadDomain(S, key);
    if key in svs {
      RedefinitionFound(lines, i + 1, S, names, line, key);
      return Failure(Redefined(key));
    }
    DistinctAppend(names, key);
    return Success((names + [key], svs[key := []], Some(key)));
  }

  /** Lines 26-31: a rule is appended to the current entry; there must be one. */
  method ReadRuleLine(lines: seq<string>, i: nat, ghost S: seq<string>, names: seq<string>,
                      svs: map<string, seq<seq<string>>>, current: Option<string>, line: string)
    returns (r: Result<(seq<string>, map<string, seq<seq<string>>>, Option<string>), LoadError>)
    requires i < |lines| && S == Significant(lines[..i]) && line == Strip(lines[i]) && IsSignificant(lines[i])
    requires ReadSoFar(S, names, svs, current) && !IsDeclaration(line)
    ensures r.Success? ==> ReadSoFar(S + [line], r.value.0, r.value.1, r.value.2)
    ensures r.Failure? ==> LoadSpec(lines, Failure(r.error))
  {
    SignificantStep(lines, i);
    assert (S + [line])[..|S|] == S;
    KeysAppend(S, line);
    if current == None {
      RuleOutsideFound(lines, i + 1, S, line);
      return Failure(RuleOutsideVariable);
    }
    RulesReadDomain(S, current.value);
    return Success((names, svs[current.value := svs[current.value] + [Words(line)]], current));
  }

  lemma AllRead(lines: seq<string>, i: nat, S: seq<string>, names: seq<string>, svs: map<string, seq<seq<string>>>, current: Option<string>)
    requires i == |lines| && S == Significant(lines[..i])
    requires ReadSoFar(S, names, svs, current)
    ensures LoadSpec(lines, Success(Grammar(names, svs)))
  {
    assert lines[..i] == lines;
    RulesReadMatches(S);
  }

  lemma SignificantStep(lines: seq<string>, i: nat)
    requires i < |lines|
    ensures Significant(lines[..i + 1]) == Significant(lines[..i]) + (if IsSignificant(lines[i]) then [Strip(lines[i])] else [])
  {
    assert lines[..i + 1][..i] == lines[..i];
  }

  lemma RuleOutsideFound(lines: seq<string>, j: nat, S: seq<string>, line: string)
    requires 0 < j <= |lines| && S == Significant(lines[..j - 1]) && !StartsWithRule(S) && Keys(S) == []
    requires Significant(lines[..j]) == S + [line] && !IsDeclaration(line)
    ensures LoadSpec(lines, Failure(RuleOutsideVariable))
  {
    if S != [] {
      DeclPositionsComplete(S, 0);
    }
    PrefixSignificant(lines, j);
  }

  lemma RedefinitionFound(lines: seq<string>, j: nat, S: seq<string>, names: seq<string>, line: string, key: string)
    requires 0 < j <= |lines| && Significant(lines[..j]) == S + [line] && IsDeclaration(line)
    requires !StartsWithRule(S) && Keys(S) == names && Distinct(names) && key in names
    requires key == if names == [] then "!" + DeclaredName(line) else DeclaredName(line)
    ensures LoadSpec(lines, Failure(Redefined(key)))
  {
    assert Keys(S + [line]) == names + [key] by {
      KeysAppend(S, line);
    }
    assert !StartsWithRule(S + [line]) by {
      if S != [] {
        assert (S + [line])[0] == S[0];
      }
    }
    PrefixSignificant(lines, j);
    RepeatInPrefix(Significant(lines), S + [line], names, key);
  }

  /** A repeated key met in a prefix of the significant lines is the first repeat of all of them. */
  lemma RepeatInPrefix(T: seq<string>, U: seq<string>, names: seq<string>, key: string)
    requires U <= T && U != [] && !StartsWithRule(U)
    requires Keys(U) == names + [key] && Distinct(names) && key in names
    ensures !StartsWithRule(T) && FirstRepeat(Keys(T), key)
  {
    assert T[0] == U[0];
    PrefixDecls(U, T);
    var K := Keys(T);
    assert K[..|names| + 1] == names + [key];
    assert K[|names|] == key && K[..|names|] == names;
  }

  lemma {:induction false} DeclPositionsAppend(S: seq<string>, line: string)
    ensures DeclPositions(S + [line]) == DeclPositions(S) + (if IsDeclaration(line) then [|S|] else [])
  {
    assert (S + [line])[..|S|] == S;
  }

  lemma KeysAppend(S: seq<string>, line: string)
    ensures Keys(S + [line]) == Keys(S) + (if IsDeclaration(line) then [if DeclPositions(S) == [] then "!" + DeclaredName(line) else DeclaredName(line)] else [])
  {
    assert (S + [line])[..|S|] == S;
  }

  /** Reading a line changes the alternatives of the last declaration only, and only when it is a rule. */
  lemma {:induction false} RuleLinesAppend(S: seq<string>, line: string, k: nat)
    requires k < |DeclPositions(S)|
    ensures RuleLines(S + [line], k) ==
              if k == |DeclPositions(S)| - 1 && !IsDeclaration(line) then RuleLines(S, k) + [Words(line)] else RuleLines(S, k)
  {
    DeclPositionsAppend(S, line);
    DeclPositionsSpec(S);
    var S' := S + [line];
    var P := DeclPositions(S);
    var P' := DeclPositions(S');
    assert P'[..|P|] == P && P'[k] == P[k];
    if k + 1 < |P| {
      assert P'[k + 1] == P[k + 1] < |S|;
      BetweenAppend(S, line, P[k] + 1, P[k + 1]);
    } else if IsDeclaration(line) {
      assert P'[k + 1] == |S|;
      BetweenAppend(S, line, P[k] + 1, |S|);
    } else {
      assert |P'| == |P|;
      BetweenAppend(S, line, P[k] + 1, |S|);
      assert RuleLines(S', k) == Between(S', P[k] + 1, |S| + 1);
      assert S'[|S|] == line;
    }
  }

  lemma {:induction false} BetweenAppend(S: seq<string>, line: string, lo: nat, hi: nat)
    requires lo <= hi <= |S|
    ensures Between(S + [line], lo, hi) == Between(S, lo, hi)
    decreases hi
  {
    if hi > lo {
      BetweenAppend(S, line, lo, hi - 1);
    }
  }

  lemma RuleLinesOfNewDeclaration(S: seq<string>, line: string)
    requires IsDeclaration(line)
    ensures |DeclPositions(S + [line])| == |DeclPositions(S)| + 1
    ensures RuleLines(S + [line], |DeclPositions(S)|) == []
  {
    DeclPositionsAppend(S, line);
  }

  lemma {:induction false} ReadDeclaration(S: seq<string>, names: seq<string>, svs: map<string, seq<seq<string>>>, line: string, key: string)
    requires LoadedSoFar(S, names, svs) && IsDeclaration(line) && key !in svs
    requires key == if names == [] then "!" + DeclaredName(line) else DeclaredName(line)
    ensures LoadedSoFar(S + [line], names + [key], svs[key := []])
  {
    var S' := S + [line];
    var names' := names + [key];
    var svs' := svs[key := []];
    KeysAppend(S, line);
    RuleLinesOfNewDeclaration(S, line);
    assert |Keys(S)| == |DeclPositions(S)|;
    assert Keys(S') == names';
    assert !StartsWithRule(S') by {
      if S != [] {
        assert S'[0] == S[0];
      }
    }
    assert Distinct(names') by {
      DistinctAppend(names, key);
    }
    assert forall x :: x in svs' <==> x in names';
    ReadDeclarationRules(S, names, svs, line, key);
  }

  lemma ReadDeclarationRules(S: seq<string>, names: seq<string>, svs: map<string, seq<seq<string>>>, line: string, key: string)
    requires LoadedSoFar(S, names, svs) && IsDeclaration(line) && key !in svs
    ensures forall k {:trigger RuleLines(S + [line], k)} :: 0 <= k < |names| + 1 ==>
              (names + [key])[k] in svs[key := []] && svs[key := []][(names + [key])[k]] == RuleLines(S + [line], k)
  {
    forall k | 0 <= k < |names| + 1
      ensures (names + [key])[k] in svs[key := []] && svs[key := []][(names + [key])[k]] == RuleLines(S + [line], k)
    {
      ReadDeclarationAt(S, names, svs, line, key, k);
    }
  }

  lemma ReadDeclarationAt(S: seq<string>, names: seq<string>, svs: map<string, seq<seq<string>>>, line: string, key: string, k: nat)
    requires LoadedSoFar(S, names, svs) && IsDeclaration(line) && key !in svs
    requires k <= |names|
    ensures (names + [key])[k] in svs[key := []] && svs[key := []][(names + [key])[k]] == RuleLines(S + [line], k)
  {
    RuleLinesOfNewDeclaration(S, line);
    if k < |names| {
      RuleLinesAppend(S, line, k);
      assert (names + [key])[k] == names[k] != key;
    } else {
      assert |names| == |DeclPositions(S)|;
    }
  }

  lemma {:induction false} ReadRule(S: seq<string>, names: seq<string>, svs: map<string, seq<seq<string>>>, line: string, key: string)
    requires LoadedSoFar(S, names, svs) && !IsDeclaration(line)
    requires names != [] && key == names[|names| - 1] && key in svs
    ensures LoadedSoFar(S + [line], names, svs[key := svs[key] + [Words(line)]])
  {
    var S' := S + [line];
    var svs' := svs[key := svs[key] + [Words(line)]];
    assert Keys(S') == names by {
      KeysAppend(S, line);
    }
    assert !StartsWithRule(S') by {
      assert S != [] && S'[0] == S[0];
    }
    assert forall k :: 0 <= k < |names| ==> names[k] in svs' && svs'[names[k]] == RuleLines(S', k) by {
      forall k | 0 <= k < |names|
        ensures names[k] in svs' && svs'[names[k]] == RuleLines(S', k)
      {
        ReadRuleAt(S, names, svs, line, key, k);
      }
    }
  }

  lemma {:induction false} ReadRuleAt(S: seq<string>, names: seq<string>, svs: map<string, seq<seq<string>>>, line: string, key: string, k: nat)
    requires LoadedSoFar(S, names, svs) && !IsDeclaration(line)
    requires names != [] && key == names[|names| - 1] && key in svs
    requires k < |names|
    ensures var svs' := svs[key := svs[key] + [Words(line)]];
            names[k] in svs' && svs'[names[k]] == RuleLines(S + [line], k)
  {
    RuleLinesAppend(S, line, k);
    if k < |names| - 1 {
      assert names[k] != key;
    }
  }

  /** The significant lines of a prefix of the file are a prefix of its significant lines. */
  lemma {:induction false} PrefixSignificant(lines: seq<string>, j: nat)
    requires j <= |lines|
    ensures Significant(lines[..j]) <= Significant(lines)
    decreases |lines| - j
  {
    if j < |lines| {
      PrefixSignificant(lines[..|lines| - 1], j);
      assert lines[..|lines| - 1][..j] == lines[..j];
    } else {
      assert lines[..j] == lines;
    }
  }

  /** Declarations of a prefix of the significant lines are a prefix of all declarations. */
  lemma {:induction false} PrefixDecls(T: seq<string>, S: seq<string>)
    requires T <= S
    ensures DeclPositions(T) <= DeclPositions(S)
    ensures Keys(T) <= Keys(S)
    decreases |S|
  {
    if T != S {
      assert T <= S[..|S| - 1];
      PrefixDecls(T, S[..|S| - 1]);
    }
  }

  lemma PrefixKeys(lines: seq<string>, j: nat)
    requires j <= |lines|
    ensures Significant(lines[..j]) <= Significant(lines)
    ensures Keys(Significant(lines[..j])) <= Keys(Significant(lines))
  {
    PrefixSignificant(lines, j);
    PrefixDecls(Significant(lines[..j]), Significant(lines));
  }

  // ---------------------------------------------------------------------------
  // Name normalisation (lines 35-41)

  /** Upper case for the ASCII letters only; every other character, non-ASCII letters included, is kept. */
  function Upper(c: char): char {
    if 'a' <= c <= 'z' then (c as int - 'a' as int + 'A' as int) as char else c
  }

  /** The model's `upcase`: ASCII letters only, so the length never changes. */
  function Upcase(s: string): (r: string)
    ensures |r| == |s| && forall i :: 0 <= i < |s| ==> r[i] == Upper(s[i])
  {
    if s == [] then [] else [Upper(s[0])] + Upcase(s[1..])
  }

  /** gsub('-', '_'). */
  function Underscores(s: string): (r: string)
    ensures |r| == |s| && forall i :: 0 <= i < |s| ==> r[i] == if s[i] == '-' then '_' else s[i]
  {
    if s == [] then [] else [if s[0] == '-' then '_' else s[0]] + Underscores(s[1..])
  }

  /** sub('!', ''): drops the first `!` only. */
  function DropFirstBang(s: string): string {
    if s == [] then [] else if s[0] == '!' then s[1..] else [s[0]] + DropFirstBang(s[1..])
  }

  /** The identifier of a variable's procedure (`var`). */
  function Var(name: string): string {
    DropFirstBang(Underscores(name))
  }

  /** The enumerator of a variable's node type (`const`). */
  function Const(name: string): string {
    DropFirstBang(Underscores(Upcase(name)))
  }

  function Count(s: string, c: char): nat {
    if s == [] then 0 else (if s[0] == c then 1 else 0) + Count(s[1..], c)
  }

  /** The first `!` goes and only that one; every `-` becomes `_`; everything else is kept. */
  lemma {:induction false} DropFirstBangSpec(s: string)
    ensures Count(DropFirstBang(s), '!') == if Count(s, '!') == 0 then 0 else Count(s, '!') - 1
    ensures |DropFirstBang(s)| == if Count(s, '!') == 0 then |s| else |s| - 1
    ensures Count(s, '!') == 0 ==> DropFirstBang(s) == s
    ensures forall c :: c != '!' ==> Count(DropFirstBang(s), c) == Count(s, c)
    ensures Count(s, '!') > 0 ==>
              exists i :: 0 <= i < |s| && s[i] == '!' && '!' !in s[..i] && DropFirstBang(s) == s[..i] + s[i+1..]
  {
    if s != [] {
      DropFirstBangSpec(s[1..]);
      assert s == [s[0]] + s[1..];
      if Count(s, '!') > 0 {
        if s[0] == '!' {
          DropFirstBangAt(s, 0);
        } else {
          var i :| 0 <= i < |s[1..]| && s[1..][i] == '!' && '!' !in s[1..][..i];
          assert s[..i+1] == [s[0]] + s[1..][..i];
          DropFirstBangAt(s, i + 1);
        }
      }
    }
  }

  /** Removing the first `!` keeps everything before it and everything after it, in order. */
  lemma {:induction false} DropFirstBangAt(s: string, i: nat)
    requires i < |s| && s[i] == '!' && '!' !in s[..i]
    ensures DropFirstBang(s) == s[..i] + s[i+1..]
  {
    if i > 0 {
      assert s[0] in s[..i];
      assert s[1..][..i-1] == s[1..i];
      assert '!' !in s[1..][..i-1];
      DropFirstBangAt(s[1..], i - 1);
      assert s[..i] == [s[0]] + s[1..i];
      assert s[1..][i..] == s[i+1..];
    }
  }

  lemma {:induction false} CountUnderscores(s: string)
    ensures Count(Underscores(s), '-') == 0
    ensures Count(Underscores(s), '!') == Count(s, '!')
  {
    if s != [] {
      CountUnderscores(s[1..]);
      assert Underscores(s) == [Underscores(s)[0]] + Underscores(s[1..]);
    }
  }

  /** `var` leaves no `-`, removes exactly one `!` when there is one, and keeps the length otherwise. */
  lemma VarProperties(name: string)
    ensures Count(Var(name), '-') == 0
    ensures Count(Var(name), '!') == if Count(name, '!') == 0 then 0 else Count(name, '!') - 1
    ensures |Var(name)| == if Count(name, '!') == 0 then |name| else |name| - 1
    ensures Count(name, '!') == 0 ==> Var(name) == Underscores(name)
    ensures Count(name, '!') > 0 ==>
              exists i :: 0 <= i < |name| && name[i] == '!' && '!' !in name[..i]
                          && Var(name) == Underscores(name)[..i] + Underscores(name)[i+1..]
  {
    CountUnderscores(name);
    DropFirstBangSpec(Underscores(name));
    var u := Underscores(name);
    if Count(name, '!') > 0 {
      var i :| 0 <= i < |u| && u[i] == '!' && '!' !in u[..i] && DropFirstBang(u) == u[..i] + u[i+1..];
      assert name[i] == '!';
      assert forall k :: 0 <= k < i ==> name[k] != '!' by {
        forall k | 0 <= k < i ensures name[k] != '!' { assert u[..i][k] == u[k]; }
      }
      assert '!' !in name[..i];
    }
  }

  /** The root key `!n` and the bare name `n` give the same procedure identifier. */
  lemma {:induction false} VarOfRootKey(n: string)
    requires Count(n, '!') == 0
    ensures Var("!" + n) == Var(n)
  {
    CountUnderscores(n);
    DropFirstBangSpec(Underscores(n));
    assert Underscores("!" + n) == "!" + Underscores(n);
  }

  lemma {:induction false} UpcaseDropFirstBang(s: string)
    ensures Upcase(DropFirstBang(s)) == DropFirstBang(Upcase(s))
  {
    if s != [] {
      UpcaseDropFirstBang(s[1..]);
      assert Upcase(s)[1..] == Upcase(s[1..]);
    }
  }

  /** `const` is `var` in upper case. */
  lemma ConstIsUpperVar(name: string)
    ensures Const(name) == Upcase(Var(name))
  {
    UpcaseDropFirstBang(Underscores(name));
    assert Upcase(Underscores(name)) == Underscores(Upcase(name));
  }
}

/**
 * Character classes and the operator/punctuator table of the lexer
 * (src/tokenize.cpp:19-79): the preprocessing-op-or-punc list of
 * section 2.13 of ISO/IEC 14882:2011 without `>>` and `>>=`.
 *
 * The lexer reads a NUL-terminated byte string. It is modelled as a
 * `string` without NUL characters, read through `At`, which yields the
 * terminating NUL at (and past) the end.
 */
module Scanner {
  import opened Wrappers

  const NUL: char := '\0'

  /** A C string: no character is NUL, and every character is a byte. */
  predicate IsCString(s: string) {
    forall k :: 0 <= k < |s| ==> s[k] != NUL && s[k] as int < 256
  }

  /** `*(str + i)`: the character at `i`, or the terminator. */
  function At(s: string, i: int): (c: char)
    ensures 0 <= i < |s| ==> c == s[i]
    ensures (i < 0 || i >= |s|) ==> c == NUL
  {
    if 0 <= i < |s| then s[i] else NUL
  }

  predicate IsNondigit(c: char) {
    ('a' <= c <= 'z') || ('A' <= c <= 'Z') || c == '_'
  }

  predicate IsDigit(c: char) {
    '0' <= c <= '9'
  }

  predicate IsOctDigit(c: char) {
    '0' <= c <= '7'
  }

  predicate IsHexDigit(c: char) {
    IsDigit(c) || ('a' <= c <= 'f') || ('A' <= c <= 'F')
  }

  /** `isspace` in the C locale. */
  predicate IsSpace(c: char) {
    c == ' ' || c == '\t' || c == '\n' || c == '\U{B}' || c == '\U{C}' || c == '\r'
  }

  /** `tolower` in the C locale. */
  function ToLower(c: char): (r: char)
    ensures 'A' <= c <= 'Z' ==> r as int == c as int + 32
    ensures !('A' <= c <= 'Z') ==> r == c
  {
    if 'A' <= c <= 'Z' then (c as int + 32) as char else c
  }

  /** The value of a digit character as lines 129, 158 and 311 compute it. */
  function DigitValue(c: char): (v: int)
    ensures IsDigit(c) ==> v == c as int - '0' as int
    ensures 'a' <= ToLower(c) <= 'f' ==> 10 <= v <= 15
  {
    var d := ToLower(c);
    if d > '9' then d as int - 'a' as int + 10 else d as int - '0' as int
  }

  /** The character classes the lexer scans runs of. */
  datatype CharClass = DecimalDigits | OctalDigits | HexDigits | IdentifierChars | NotNewline

  predicate InClass(c: char, cls: CharClass) {
    match cls
    case DecimalDigits => IsDigit(c)
    case OctalDigits => IsOctDigit(c)
    case HexDigits => IsHexDigit(c)
    case IdentifierChars => IsNondigit(c) || IsDigit(c)
    case NotNewline => c != '\n'
  }

  /** The end of the run of characters of class `cls` that starts at `k`. */
  function RunEnd(s: string, k: nat, cls: CharClass): (j: nat)
    ensures k <= j && (k <= |s| ==> j <= |s|)
    ensures forall q :: k <= q < j ==> q < |s| && InClass(s[q], cls)
    ensures j < |s| ==> !InClass(s[j], cls)
    decreases |s| - k
  {
    if k < |s| && InClass(s[k], cls) then RunEnd(s, k + 1, cls) else k
  }

  /** A `while (cls(*str)) str++;` loop. */
  method ScanRun(s: string, k: nat, cls: CharClass) returns (j: nat)
    ensures j == RunEnd(s, k, cls)
  {
    j := k;
    while j < |s| && InClass(s[j], cls)
      invariant k <= j && (k <= |s| ==> j <= |s|)
      invariant RunEnd(s, k, cls) == RunEnd(s, j, cls)
      decreases |s| - j
    {
      j := j + 1;
    }
  }

  // ---------------------------------------------------------------------------
  // The operator table (lines 38-57), entry by entry in the source's order.

  const PoopCount: nat := 68

  function Poop(k: nat): string
  {
    match k
    case 0 => "delete"
    case 1 => "and_eq"
    case 2 => "bitand"
    case 3 => "not_eq"
    case 4 => "xor_eq"
    case 5 => "bitor"
    case 6 => "compl"
    case 7 => "or_eq"
    case 8 => "%:%:"
    case 9 => "..."
    case 10 => "new"
    case 11 => "<<="
    case 12 => "->*"
    case 13 => "and"
    case 14 => "not"
    case 15 => "xor"
    case 16 => "##"
    case 17 => "<:"
    case 18 => ":>"
    case 19 => "<%"
    case 20 => "%>"
    case 21 => "%:"
    case 22 => "::"
    case 23 => ".*"
    case 24 => "+="
    case 25 => "-="
    case 26 => "*="
    case 27 => "/="
    case 28 => "%="
    case 29 => "^="
    case 30 => "&="
    case 31 => "|="
    case 32 => "<<"
    case 33 => "=="
    case 34 => "!="
    case 35 => "<="
    case 36 => ">="
    case 37 => "&&"
    case 38 => "||"
    case 39 => "++"
    case 40 => "--"
    case 41 => "->"
    case 42 => "or"
    case 43 => "{"
    case 44 => "}"
    case 45 => "["
    case 46 => "]"
    case 47 => "#"
    case 48 => "("
    case 49 => ")"
    case 50 => ";"
    case 51 => ":"
    case 52 => "?"
    case 53 => "."
    case 54 => "+"
    case 55 => "-"
    case 56 => "*"
    case 57 => "/"
    case 58 => "%"
    case 59 => "^"
    case 60 => "&"
    case 61 => "|"
    case 62 => "~"
    case 63 => "!"
    case 64 => "="
    case 65 => "<"
    case 66 => ">"
    case _ => ","
  }

  /** `poops`: the table, in the order the lexer tries it. */
  function PoopTable(): (t: seq<string>)
    ensures |t| == PoopCount && forall k :: 0 <= k < |t| ==> t[k] == Poop(k)
  {
    seq(PoopCount, (k: int) requires 0 <= k => Poop(k))
  }

  /** Lengths by position: 6, 5, 4, 3, 2 and 1 character entries in turn. */
  function PoopLength(k: nat): nat {
    if k < 5 then 6 else if k < 8 then 5 else if k < 9 then 4 else if k < 16 then 3 else if k < 43 then 2 else 1
  }

  lemma PoopLengths(k: nat)
    requires k < PoopCount
    ensures |Poop(k)| == PoopLength(k)
  {
  }

  /** No entry is empty, and no entry is longer than one before it. */
  predicate LongestFirst(table: seq<string>) {
    (forall k :: 0 <= k < |table| ==> table[k] != [])
    && forall i, j :: 0 <= i < j < |table| ==> |table[i]| >= |table[j]|
  }

  /** The table is sorted by non-increasing length, as the comment at line 37 says. */
  lemma PoopTableLongestFirst()
    ensures LongestFirst(PoopTable())
  {
    forall k | 0 <= k < |PoopTable()|
      ensures |PoopTable()[k]| == PoopLength(k)
    {
      PoopLengths(k);
    }
  }

  /** Lines 47-49: `>>` and `>>=` are not in the table, so `>` `>` lexes as two tokens. */
  lemma NoRightShiftOperators(k: nat)
    requires k < |PoopTable()|
    ensures PoopTable()[k] != ">>" && PoopTable()[k] != ">>="
  {
  }

  /** `strncmp(s + i, p, strlen(p)) == 0`. */
  predicate StartsAt(s: string, i: nat, p: string) {
    i + |p| <= |s| && s[i..i + |p|] == p
  }

  /** Entry `p` matches at `i` and is not cut out of a longer identifier (lines 63-70). */
  predicate EntryAt(s: string, i: nat, p: string) {
    StartsAt(s, i, p)
    && (p != [] && IsNondigit(p[|p| - 1]) ==> !(IsNondigit(At(s, i + |p|)) || IsDigit(At(s, i + |p|))))
  }

  /** The index of the first entry of `table` from `k` on that matches at `i`. */
  function FirstEntry(s: string, i: nat, table: seq<string>, k: nat := 0): (r: Option<nat>)
    requires k <= |table|
    ensures r.Some? ==> k <= r.value < |table|
    decreases |table| - k
  {
    if k == |table| then None
    else if EntryAt(s, i, table[k]) then Some(k)
    else FirstEntry(s, i, table, k + 1)
  }

  /** `ispoop` as a function: the end of the first matching entry, or `None`. */
  function PoopMatch(s: string, i: nat, table: seq<string>): (r: Option<nat>)
    ensures r.Some? ==> i <= r.value <= |s|
  {
    match FirstEntry(s, i, table)
    case None => None
    case Some(k) =>
      FirstEntryFirst(s, i, table, 0);
      Some(i + |table[k]|)
  }

  /** The index found is that of a matching entry, and no earlier entry matches. */
  lemma {:induction false} FirstEntryFirst(s: string, i: nat, table: seq<string>, k: nat)
    requires k <= |table| && FirstEntry(s, i, table, k).Some?
    ensures EntryAt(s, i, table[FirstEntry(s, i, table, k).value])
    ensures forall j :: k <= j < FirstEntry(s, i, table, k).value ==> !EntryAt(s, i, table[j])
    decreases |table| - k
  {
    if !EntryAt(s, i, table[k]) {
      FirstEntryFirst(s, i, table, k + 1);
    }
  }

  /** No index is found only when no entry matches. */
  lemma {:induction false} FirstEntryNone(s: string, i: nat, table: seq<string>, k: nat)
    requires k <= |table|
    ensures FirstEntry(s, i, table, k).None? <==> forall j :: k <= j < |table| ==> !EntryAt(s, i, table[j])
    decreases |table| - k
  {
    if k < |table| && !EntryAt(s, i, table[k]) {
      FirstEntryNone(s, i, table, k + 1);
    }
  }

  /** An entry that matches is found, and a word that matches where none is found is no entry. */
  lemma EntryFound(s: string, i: nat, table: seq<string>, w: string)
    requires EntryAt(s, i, w)
    ensures w in table ==> FirstEntry(s, i, table).Some?
  {
    FirstEntryNone(s, i, table, 0);
  }

  /**
   * `ispoop`: the end of the first table entry that matches at `i`, or
   * `None` when no entry does (the pointer is then left unchanged).
   */
  method IsPoop(s: string, i: nat, table: seq<string>) returns (r: Option<nat>)
    ensures r == PoopMatch(s, i, table)
  {
    var k := 0;
    while k < |table|
      invariant 0 <= k <= |table|
      invariant FirstEntry(s, i, table) == FirstEntry(s, i, table, k)
    {
      var p := table[k];
      if i + |p| <= |s| && s[i..i + |p|] == p {
        var skip := false;
        if p != [] && IsNondigit(p[|p| - 1]) {
          var next := At(s, i + |p|);
          skip := IsNondigit(next) || IsDigit(next);
        }
        if !skip {
          return Some(i + |p|);
        }
      }
      k := k + 1;
    }
    return None;
  }

  /** In a longest-first table the first matching entry is a longest one, and it is not empty. */
  lemma PoopMatchLongest(s: string, i: nat, table: seq<string>, k: nat)
    requires LongestFirst(table) && k < |table| && EntryAt(s, i, table[k])
    ensures PoopMatch(s, i, table).Some? && PoopMatch(s, i, table).value >= i + |table[k]|
    ensures PoopMatch(s, i, table).value > i
  {
    FirstEntryNone(s, i, table, 0);
    var j := FirstEntry(s, i, table).value;
    FirstEntryFirst(s, i, table, 0);
    assert j <= k;
  }
}

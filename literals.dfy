/**
 * Values of literal tokens (src/tokenize.cpp:82-203, 286-387): escape
 * sequences (section 2.14.3 of ISO/IEC 14882:2011), integer literals with
 * the type promotions of Table 6 in section 2.14.2, string, character and
 * boolean literals.
 *
 * A `char` holds a byte; the lexer's `char` is signed, so a byte is kept as
 * its bit pattern 0..255 and sign-extended where the source converts it.
 */
module Literals {
  import opened Wrappers
  import opened Tokens
  import opened Scanner

  datatype LexErrorKind =
    | EmptyEscape
    | InvalidEscape
    | UnsignedTooBig
    | SignedDecimalTooBig
    | ExpectedExponentDigit
    | UnterminatedChar
    | UnterminatedString
    | UnknownCharacter

  // ---------------------------------------------------------------------------
  // Escape sequences (lines 299-345)

  /** The single-character escapes of lines 329-342. */
  function SimpleEscape(c: char): Option<int> {
    match c
    case '\'' => Some(0x27)
    case '"' => Some(0x22)
    case '?' => Some(0x3F)
    case '\\' => Some(0x5C)
    case 'a' => Some(0x07)
    case 'b' => Some(0x08)
    case 'f' => Some(0x0C)
    case 'n' => Some(0x0A)
    case 'r' => Some(0x0D)
    case 't' => Some(0x09)
    case 'v' => Some(0x0B)
    case _ => None
  }

  /** The digits `s[lo..hi]` accumulated in a `char`, which wraps modulo 256. */
  function ByteAccumulate(s: string, lo: nat, hi: nat, base: int): (v: int)
    requires lo <= hi <= |s|
    ensures 0 <= v < 256
    decreases hi - lo
  {
    if hi == lo then 0 else (ByteAccumulate(s, lo, hi - 1, base) * base + DigitValue(s[hi - 1])) % 256
  }

  /** The mathematical value of the digits `s[lo..hi]` in `base`. */
  function DigitsValue(s: string, lo: nat, hi: nat, base: int): int
    requires lo <= hi <= |s|
    decreases hi - lo
  {
    if hi == lo then 0 else DigitsValue(s, lo, hi - 1, base) * base + DigitValue(s[hi - 1])
  }

  /**
   * `eseq` with the cursor at `i`, just after the backslash: the byte of the
   * escape and the position just past it. A hexadecimal escape takes every
   * following hex digit; an octal escape skips its first digit (line 319)
   * and takes the octal digits after it.
   */
  function Escape(s: string, i: nat): (r: Result<(int, nat), LexErrorKind>)
    ensures r.Success? ==> 0 <= r.value.0 < 256 && i < r.value.1 <= |s|
    ensures r.Failure? && r.error == EmptyEscape <==> At(s, i) == NUL
  {
    if At(s, i) == NUL then Failure(EmptyEscape)
    else if s[i] == 'x' then
      var j := RunEnd(s, i + 1, HexDigits);
      Success((ByteAccumulate(s, i + 1, j, 16), j))
    else if IsOctDigit(s[i]) then
      var j := RunEnd(s, i + 1, OctalDigits);
      Success((ByteAccumulate(s, i + 1, j, 8), j))
    else match SimpleEscape(s[i])
      case Some(b) => Success((b, i + 1))
      case None => Failure(InvalidEscape)
  }

  /** Where `eseq` leaves the cursor when it throws: on the NUL, or just past the bad character. */
  function EscapeErrorPos(e: LexErrorKind, i: nat): nat {
    if e == EmptyEscape then i else i + 1
  }

  /** `eseq` as the source runs it, a loop over the digits. */
  method EscapeSequence(s: string, i: nat) returns (r: Result<(int, nat), LexErrorKind>)
    ensures r == Escape(s, i)
  {
    if At(s, i) == NUL {
      return Failure(EmptyEscape);
    }
    var c := s[i];
    if c == 'x' || IsOctDigit(c) {
      var base := if c == 'x' then 16 else 8;
      var cls := if c == 'x' then HexDigits else OctalDigits;
      var val, j := AccumulateDigits(s, i + 1, cls, base);
      return Success((val, j));
    }
    var simple := SimpleEscape(c);
    if simple.None? {
      return Failure(InvalidEscape);
    }
    return Success((simple.value, i + 1));
  }

  /** The loops of lines 308-313 and 320-325 from `k`: the digits of class `cls` accumulated in a `char`, and where they end. */
  method AccumulateDigits(s: string, k: nat, cls: CharClass, base: int) returns (val: int, j: nat)
    requires k <= |s|
    ensures j == RunEnd(s, k, cls) && val == ByteAccumulate(s, k, j, base)
  {
    val, j := 0, k;
    while j < |s| && InClass(s[j], cls)
      invariant k <= j <= |s|
      invariant RunEnd(s, k, cls) == RunEnd(s, j, cls)
      invariant val == ByteAccumulate(s, k, j, base)
      decreases |s| - j
    {
      val := (val * base + DigitValue(s[j])) % 256;
      j := j + 1;
    }
  }

  /** Wrapping in a `char` loses nothing but the multiples of 256. */
  lemma {:induction false} ByteAccumulateIsValue(s: string, lo: nat, hi: nat, base: int)
    requires lo <= hi <= |s|
    ensures ByteAccumulate(s, lo, hi, base) == DigitsValue(s, lo, hi, base) % 256
    decreases hi - lo
  {
    if hi > lo {
      ByteAccumulateIsValue(s, lo, hi - 1, base);
      ByteStep(ByteAccumulate(s, lo, hi - 1, base), DigitsValue(s, lo, hi - 1, base), base, DigitValue(s[hi - 1]));
    }
  }

  lemma ByteStep(x: int, a: int, b: int, d: int)
    requires x == a % 256
    ensures (x * b + d) % 256 == (a * b + d) % 256
  {
    ModStep(a, b, d);
  }

  lemma ModStep(a: int, b: int, d: int)
    ensures ((a % 256) * b + d) % 256 == (a * b + d) % 256
  {
    var q, r := a / 256, a % 256;
    Distribute(q, r, b);
    ModMultiple(r * b + d, q * b);
  }

  lemma Distribute(q: int, r: int, b: int)
    ensures (256 * q + r) * b == 256 * (q * b) + r * b
  {
  }

  lemma ModMultiple(x: int, y: int)
    ensures (x + 256 * y) % 256 == x % 256
  {
  }

  /** Line 319: the first octal digit is skipped, so `\101` is the byte 1, not 65. */
  lemma OctalSkipsFirstDigit()
    ensures Escape("101", 0) == Success((1, 3))
  {
    assert RunEnd("101", 1, OctalDigits) == 3 by {
      assert RunEnd("101", 3, OctalDigits) == 3;
    }
  }

  /** The eleven simple escapes, and nothing else, are accepted exactly as one character. */
  lemma SimpleEscapes(s: string, i: nat)
    requires i < |s| && s[i] != 'x' && !IsOctDigit(s[i])
    ensures Escape(s, i).Success? <==> s[i] in "'\"?\\abfnrtv"
    ensures Escape(s, i).Success? ==> Escape(s, i).value.1 == i + 1
  {
  }

  // ---------------------------------------------------------------------------
  // Integer literals (lines 88-203)

  function Base(c: string): int {
    if At(c, 0) != '0' then 10 else if ToLower(At(c, 1)) != 'x' then 8 else 16
  }

  function DigitsStart(c: string): nat {
    if Base(c) == 16 then 2 else 0
  }

  predicate IsSuffixChar(ch: char) {
    ToLower(ch) == 'u' || ToLower(ch) == 'l'
  }

  /** Line 104: the first `u`/`l` (either case) or the end. */
  function SuffixStart(c: string, k: nat): (j: nat)
    ensures k <= j && (k <= |c| ==> j <= |c|)
    ensures forall q :: k <= q < j ==> q < |c| && !IsSuffixChar(c[q])
    ensures j < |c| ==> IsSuffixChar(c[j])
    decreases |c| - k
  {
    if k < |c| && !IsSuffixChar(c[k]) then SuffixStart(c, k + 1) else k
  }

  /** Line 111: `tolower(suffix[i] == 'u')` is true only for a lower-case `u`. */
  function HasLowerU(c: string, k: nat): bool
    decreases |c| - k
  {
    if k >= |c| then false else c[k] == 'u' || HasLowerU(c, k + 1)
  }

  /** Line 114: every other suffix character counts as an `l`. */
  function LCount(c: string, k: nat): nat
    decreases |c| - k
  {
    if k >= |c| then 0 else (if c[k] == 'u' then 0 else 1) + LCount(c, k + 1)
  }

  /**
   * Lines 121-130: the digits accumulated in `value.u`. `None` is the error
   * of line 125: a multiplication whose check `new_value / base != value.u`
   * fires. The digit addition is not checked and wraps.
   */
  function UnsignedAccumulate(c: string, lo: nat, hi: nat, base: int): Option<int>
    requires lo <= hi <= |c| && base >= 2
    decreases hi - lo
  {
    if hi == lo then Some(0)
    else match UnsignedAccumulate(c, lo, hi - 1, base)
      case None => None
      case Some(v) =>
        var product := Unsigned64(v * base);
        if product / base != v then None
        else Some(Unsigned64(product + DigitValue(c[hi - 1])))
  }

  /** `new_value / base` for `long long`: C division truncates toward zero. */
  function TruncDiv(a: int, b: int): int
    requires b > 0
  {
    if a >= 0 then a / b else -((-a) / b)
  }

  /** Lines 139-159, in `value.s`. `None` is the overflow check of line 142. */
  function SignedAccumulate(c: string, lo: nat, hi: nat, base: int): Option<int>
    requires lo <= hi <= |c| && base >= 2
    decreases hi - lo
  {
    if hi == lo then Some(0)
    else match SignedAccumulate(c, lo, hi - 1, base)
      case None => None
      case Some(v) =>
        var product := Signed64(v * base);
        if TruncDiv(product, base) != v then None
        else Some(Signed64(product + DigitValue(c[hi - 1])))
  }

  // Small facts of nonlinear arithmetic, each proved in an empty context.

  lemma MulNonNegative(a: int, b: int)
    requires a >= 0 && b >= 0
    ensures a * b >= 0
  {
  }

  lemma MulAtLeast(v: int, b: int)
    requires v >= 0 && b >= 1
    ensures v <= v * b
  {
    MulNonNegative(v, b - 1);
    assert v * b == v * (b - 1) + v;
  }

  lemma MulMonotone(a: int, c: int, b: int)
    requires b >= 0
    ensures a <= c ==> a * b <= c * b
  {
    if a <= c {
      MulNonNegative(c - a, b);
      assert c * b - a * b == (c - a) * b;
    }
  }

  lemma MulDivCancel(v: int, b: int)
    requires v >= 0 && b > 0
    ensures (v * b) / b == v
  {
    var q := (v * b) / b;
    var r := (v * b) % b;
    assert v * b == q * b + r && 0 <= r < b;
    assert (v - q) * b == r;
    MulMonotone(1, v - q, b);
    MulMonotone(v - q, -1, b);
  }

  lemma MulNegate(a: int, b: int)
    ensures (-a) * b == -(a * b)
  {
  }

  lemma DivNonNegative(p: int, b: int)
    requires p >= 0 && b > 0
    ensures p / b >= 0
  {
    assert (p / b) * b + p % b == p && p % b < b;
    MulMonotone(p / b, -1, b);
  }

  /** The quotient of a non-negative `p` below `v * b` is below `v`. */
  lemma DivBelow(p: int, b: int, v: int)
    requires 0 <= p < v * b && b > 0
    ensures p / b < v
  {
    var q := p / b;
    assert q * b + p % b == p && p % b >= 0;
    MulMonotone(v, q, b);
  }

  /** A truncating quotient of a product gives the factor back. */
  lemma TruncDivCancel(v: int, b: int)
    requires b > 0
    ensures TruncDiv(v * b, b) == v
  {
    if v >= 0 {
      MulNonNegative(v, b);
      MulDivCancel(v, b);
    } else {
      MulNonNegative(-v, b);
      assert -(v * b) == (-v) * b;
      MulDivCancel(-v, b);
      if v * b >= 0 {
        assert (-v) * b == 0;
        MulMonotone(1, -v, b);
      }
    }
  }

  /** The overflow check of line 124 fires exactly when the product does not fit. */
  lemma UnsignedCheckExact(v: int, base: int)
    requires 0 <= v <= ULLONG_MAX && base >= 2
    ensures Unsigned64(v * base) / base == v <==> v * base <= ULLONG_MAX
  {
    MulNonNegative(v, base);
    if v * base <= ULLONG_MAX {
      MulDivCancel(v, base);
    } else {
      DivBelow(Unsigned64(v * base), base, v);
    }
  }

  /** The overflow check of line 142 fires exactly when the product leaves `long long`. */
  lemma SignedCheckExact(v: int, base: int)
    requires LLONG_MIN <= v <= LLONG_MAX && base >= 2
    ensures TruncDiv(Signed64(v * base), base) == v <==> LLONG_MIN <= v * base <= LLONG_MAX
  {
    if LLONG_MIN <= v * base <= LLONG_MAX {
      TruncDivCancel(v, base);
    } else {
      TruncDivMisses(Signed64(v * base), v, base);
    }
  }

  /** A dividend in range cannot give back the factor of an out-of-range product. */
  lemma TruncDivMisses(p: int, v: int, b: int)
    requires LLONG_MIN <= p <= LLONG_MAX && b >= 2
    requires !(LLONG_MIN <= v * b <= LLONG_MAX)
    ensures TruncDiv(p, b) != v
  {
    if v * b > LLONG_MAX {
      TruncDivMissesAbove(p, v, b);
    } else {
      TruncDivMissesBelow(p, v, b);
    }
  }

  lemma TruncDivMissesAbove(p: int, v: int, b: int)
    requires p <= LLONG_MAX && b >= 2 && v * b > LLONG_MAX
    ensures TruncDiv(p, b) != v
  {
    MulMonotone(v, 0, b);
    assert v > 0;
    if p >= 0 {
      DivBelow(p, b, v);
    } else {
      DivNonNegative(-p, b);
    }
  }

  lemma TruncDivMissesBelow(p: int, v: int, b: int)
    requires LLONG_MIN <= p && b >= 2 && v * b < LLONG_MIN
    ensures TruncDiv(p, b) != v
  {
    MulMonotone(0, v, b);
    MulNegate(v, b);
    if p < 0 {
      DivBelow(-p, b, -v);
      assert TruncDiv(p, b) == -((-p) / b);
    } else {
      DivNonNegative(p, b);
    }
  }

  lemma {:induction false} DigitsValueNonNegative(c: string, lo: nat, hi: nat, base: int)
    requires lo <= hi <= |c| && base >= 2
    requires forall q :: lo <= q < hi ==> 0 <= DigitValue(c[q]) < base
    ensures DigitsValue(c, lo, hi, base) >= 0
    decreases hi - lo
  {
    if hi > lo {
      DigitsValueNonNegative(c, lo, hi - 1, base);
      MulNonNegative(DigitsValue(c, lo, hi - 1, base), base);
    }
  }

  /** The value before the last digit is non-negative and at most the whole value. */
  lemma DigitsValuePrefix(c: string, lo: nat, hi: nat, base: int)
    requires lo < hi <= |c| && base >= 2
    requires forall q :: lo <= q < hi ==> 0 <= DigitValue(c[q]) < base
    ensures 0 <= DigitsValue(c, lo, hi - 1, base) <= DigitsValue(c, lo, hi - 1, base) * base <= DigitsValue(c, lo, hi, base)
  {
    DigitsValueNonNegative(c, lo, hi - 1, base);
    MulAtLeast(DigitsValue(c, lo, hi - 1, base), base);
    assert 0 <= DigitValue(c[hi - 1]);
  }

  /**
   * Literals whose value fits are read exactly: the accumulations of lines
   * 121-130 and 139-159 compute the mathematical value of the digits.
   */
  lemma {:induction false} UnsignedAccumulateExact(c: string, lo: nat, hi: nat, base: int)
    requires lo <= hi <= |c| && base >= 2
    requires forall q :: lo <= q < hi ==> 0 <= DigitValue(c[q]) < base
    requires DigitsValue(c, lo, hi, base) <= ULLONG_MAX
    ensures UnsignedAccumulate(c, lo, hi, base) == Some(DigitsValue(c, lo, hi, base))
    decreases hi - lo
  {
    if hi > lo {
      DigitsValuePrefix(c, lo, hi, base);
      UnsignedAccumulateExact(c, lo, hi - 1, base);
      UnsignedCheckExact(DigitsValue(c, lo, hi - 1, base), base);
    }
  }

  lemma {:induction false} SignedAccumulateExact(c: string, lo: nat, hi: nat, base: int)
    requires lo <= hi <= |c| && base >= 2
    requires forall q :: lo <= q < hi ==> 0 <= DigitValue(c[q]) < base
    requires DigitsValue(c, lo, hi, base) <= LLONG_MAX
    ensures SignedAccumulate(c, lo, hi, base) == Some(DigitsValue(c, lo, hi, base))
    decreases hi - lo
  {
    if hi > lo {
      DigitsValuePrefix(c, lo, hi, base);
      SignedAccumulateExact(c, lo, hi - 1, base);
      SignedCheckExact(DigitsValue(c, lo, hi - 1, base), base);
    }
  }

  /** Lines 164-169: an `l`-count of 0, 1 or 2 sets the width; more leaves `INT`. */
  function WidthOf(lCount: nat): Width {
    if lCount == 1 then Long else if lCount == 2 then LongLong else Int
  }

  /**
   * Lines 172-202: the promotions, given the base, the type before them
   * and the 64-bit pattern of the value. `requestedUnsigned` is the final
   * `is_unsigned`, which the retry at line 150 may have set.
   */
  function Promote(base: int, t: IntegerType, bits: int, requestedUnsigned: bool): IntegerType {
    var s := Signed64(bits);
    var u := Unsigned64(bits);
    if base == 10 then
      var t1 := if t == IntegerType(Signed, Int) && (s < INT_MIN || s > INT_MAX) then IntegerType(Signed, Long) else t;
      var t2 := if t1 == IntegerType(Unsigned, Int) && u > UINT_MAX then IntegerType(Unsigned, Long) else t1;
      var t3 := if t2 == IntegerType(Signed, Long) && (s < LONG_MIN || s < LONG_MAX) then IntegerType(Signed, LongLong) else t2;
      if t3 == IntegerType(Unsigned, Long) && u > ULONG_MAX then IntegerType(Unsigned, LongLong) else t3
    else
      var t1 := if t == IntegerType(Signed, Int) && s < INT_MIN then IntegerType(Signed, Long) else t;
      var t2 := if t1 == IntegerType(Signed, Int) && s > INT_MAX then IntegerType(Unsigned, Int) else t1;
      var t3 := if t2 == IntegerType(Unsigned, Int) && u > UINT_MAX
                then IntegerType(if requestedUnsigned then Unsigned else Signed, Long) else t2;
      var t4 := if t3 == IntegerType(Signed, Long) && s < LONG_MIN then IntegerType(Signed, LongLong) else t3;
      var t5 := if t4 == IntegerType(Signed, Long) && s > LONG_MAX then IntegerType(Unsigned, Long) else t4;
      if t5 == IntegerType(Unsigned, Long) && u > ULONG_MAX
      then IntegerType(if requestedUnsigned then Unsigned else Signed, LongLong) else t5
  }

  /**
   * The `lit_integer_token` constructor on the token text `c`: the type and
   * the 64-bit pattern of the value, or the error of line 125 or 147.
   */
  function IntegerLiteral(c: string): Result<(IntegerType, int), LexErrorKind> {
    var base := Base(c);
    var lo := if DigitsStart(c) <= |c| then DigitsStart(c) else |c|;
    var hi := SuffixStart(c, lo);
    var wantUnsigned := HasLowerU(c, hi);
    var width := WidthOf(LCount(c, hi));
    var signed := if wantUnsigned then None else SignedAccumulate(c, lo, hi, base);
    if signed.Some? then
      Success((Promote(base, IntegerType(Signed, width), signed.value, false), Unsigned64(signed.value)))
    else if !wantUnsigned && base == 10 then
      Failure(SignedDecimalTooBig)
    else match UnsignedAccumulate(c, lo, hi, base)
      case None => Failure(UnsignedTooBig)
      case Some(v) => Success((Promote(base, IntegerType(Unsigned, width), v, true), v))
  }

  /** The constructor as the source runs it: the scanning loops and the retry of line 153. */
  method IntegerLiteralValue(c: string) returns (r: Result<(IntegerType, int), LexErrorKind>)
    ensures r == IntegerLiteral(c)
  {
    var base := Base(c);
    var lo := if DigitsStart(c) <= |c| then DigitsStart(c) else |c|;
    var hi := lo;
    while hi < |c| && !IsSuffixChar(c[hi])
      invariant lo <= hi <= |c|
      invariant SuffixStart(c, lo) == SuffixStart(c, hi)
      decreases |c| - hi
    {
      hi := hi + 1;
    }
    var isUnsigned := false;
    var lCounter := 0;
    var k := hi;
    while k < |c|
      invariant hi <= k <= |c|
      invariant HasLowerU(c, hi) == (isUnsigned || HasLowerU(c, k))
      invariant LCount(c, hi) == lCounter + LCount(c, k)
      decreases |c| - k
    {
      if c[k] == 'u' {
        isUnsigned := true;
      } else {
        lCounter := lCounter + 1;
      }
      k := k + 1;
    }
    var width := WidthOf(lCounter);
    if !isUnsigned {
      var signed := AccumulateSigned(c, lo, hi, base);
      if signed.Some? {
        return Success((Promote(base, IntegerType(Signed, width), signed.value, false), Unsigned64(signed.value)));
      }
      if base == 10 {
        return Failure(SignedDecimalTooBig);
      }
    }
    var unsigned := AccumulateUnsigned(c, lo, hi, base);
    if unsigned.None? {
      return Failure(UnsignedTooBig);
    }
    return Success((Promote(base, IntegerType(Unsigned, width), unsigned.value, true), unsigned.value));
  }

  method AccumulateSigned(c: string, lo: nat, hi: nat, base: int) returns (r: Option<int>)
    requires lo <= hi <= |c| && base >= 2
    ensures r == SignedAccumulate(c, lo, hi, base)
  {
    var value := 0;
    var k := lo;
    while k < hi
      invariant lo <= k <= hi
      invariant SignedAccumulate(c, lo, k, base) == Some(value)
    {
      var product := Signed64(value * base);
      SignedStep(c, lo, k, base, value);
      if TruncDiv(product, base) != value {
        OverflowPersistsSigned(c, lo, k + 1, hi, base);
        return None;
      }
      value := Signed64(product + DigitValue(c[k]));
      k := k + 1;
    }
    return Some(value);
  }

  method AccumulateUnsigned(c: string, lo: nat, hi: nat, base: int) returns (r: Option<int>)
    requires lo <= hi <= |c| && base >= 2
    ensures r == UnsignedAccumulate(c, lo, hi, base)
  {
    var value := 0;
    var k := lo;
    while k < hi
      invariant lo <= k <= hi
      invariant UnsignedAccumulate(c, lo, k, base) == Some(value)
    {
      var product := Unsigned64(value * base);
      UnsignedStep(c, lo, k, base, value);
      if product / base != value {
        OverflowPersistsUnsigned(c, lo, k + 1, hi, base);
        return None;
      }
      value := Unsigned64(product + DigitValue(c[k]));
      k := k + 1;
    }
    return Some(value);
  }

  lemma SignedStep(c: string, lo: nat, k: nat, base: int, value: int)
    requires lo <= k < |c| && base >= 2 && SignedAccumulate(c, lo, k, base) == Some(value)
    ensures SignedAccumulate(c, lo, k + 1, base)
            == if TruncDiv(Signed64(value * base), base) != value then None
               else Some(Signed64(Signed64(value * base) + DigitValue(c[k])))
  {
  }

  lemma UnsignedStep(c: string, lo: nat, k: nat, base: int, value: int)
    requires lo <= k < |c| && base >= 2 && UnsignedAccumulate(c, lo, k, base) == Some(value)
    ensures UnsignedAccumulate(c, lo, k + 1, base)
            == if Unsigned64(value * base) / base != value then None
               else Some(Unsigned64(Unsigned64(value * base) + DigitValue(c[k])))
  {
  }

  /** Once the check has fired, the loop has thrown: later digits do not matter. */
  lemma {:induction false} OverflowPersistsSigned(c: string, lo: nat, k: nat, hi: nat, base: int)
    requires lo <= k <= hi <= |c| && base >= 2 && SignedAccumulate(c, lo, k, base).None?
    ensures SignedAccumulate(c, lo, hi, base).None?
    decreases hi - k
  {
    if k < hi {
      OverflowPersistsSigned(c, lo, k + 1, hi, base);
    }
  }

  lemma {:induction false} OverflowPersistsUnsigned(c: string, lo: nat, k: nat, hi: nat, base: int)
    requires lo <= k <= hi <= |c| && base >= 2 && UnsignedAccumulate(c, lo, k, base).None?
    ensures UnsignedAccumulate(c, lo, hi, base).None?
    decreases hi - k
  {
    if k < hi {
      OverflowPersistsUnsigned(c, lo, k + 1, hi, base);
    }
  }

  /** Lines 172-183: decimal literals keep the signedness they were read with. */
  lemma DecimalKeepsSignedness(t: IntegerType, bits: int, requestedUnsigned: bool)
    ensures Promote(10, t, bits, requestedUnsigned).sign == t.sign
  {
  }

  /** Line 179 compares with `<`: a decimal `long` becomes `long long` unless it is exactly `LONG_MAX`. */
  lemma DecimalLongBecomesLongLong(bits: int)
    requires 0 <= bits <= LLONG_MAX
    ensures Promote(10, IntegerType(Signed, Long), bits, false)
            == if bits == LONG_MAX then IntegerType(Signed, Long) else IntegerType(Signed, LongLong)
  {
  }

  /** Lines 188-193: a non-decimal signed `int` above `INT_MAX` becomes `unsigned int` when it fits one. */
  lemma NonDecimalIntBecomesUnsigned(base: int, bits: int)
    requires base != 10 && INT_MAX < bits <= UINT_MAX
    ensures Promote(base, IntegerType(Signed, Int), bits, false) == IntegerType(Unsigned, Int)
  {
  }

  /** Lines 190-193: one above `UINT_MAX` it goes on to `long`, keeping the requested signedness. */
  lemma NonDecimalIntBecomesLong(base: int, bits: int, requestedUnsigned: bool)
    requires base != 10 && UINT_MAX < bits <= LLONG_MAX
    ensures Promote(base, IntegerType(if requestedUnsigned then Unsigned else Signed, Int), bits, requestedUnsigned)
            == IntegerType(if requestedUnsigned then Unsigned else Signed, Long)
  {
  }

  // ---------------------------------------------------------------------------
  // String, character and boolean literals (lines 286-381)

  /**
   * Lines 350-359: the `length` of a string literal whose text is `c`,
   * counted from position `k`: one per character, an escape counting once.
   */
  function StringLength(c: string, k: nat): Result<nat, LexErrorKind>
    decreases |c| - k
  {
    if k >= |c| then Failure(UnterminatedString)
    else if c[k] == '"' then Success(0)
    else if c[k] == '\\' then
      match Escape(c, k + 1)
      case Failure(e) => Failure(e)
      case Success((_, j)) =>
        match StringLength(c, j)
        case Failure(e) => Failure(e)
        case Success(n) => Success(n + 1)
    else match StringLength(c, k + 1)
      case Failure(e) => Failure(e)
      case Success(n) => Success(n + 1)
  }

  /** Lines 364-368: the bytes written into `value`, which are those of the escapes only. */
  function StringEscapes(c: string, k: nat): Result<seq<int>, LexErrorKind>
    decreases |c| - k
  {
    if k >= |c| then Failure(UnterminatedString)
    else if c[k] == '"' then Success([])
    else if c[k] == '\\' then
      match Escape(c, k + 1)
      case Failure(e) => Failure(e)
      case Success((b, j)) =>
        match StringEscapes(c, j)
        case Failure(e) => Failure(e)
        case Success(bs) => Success([b] + bs)
    else StringEscapes(c, k + 1)
  }

  /**
   * The `lit_string_token` constructor on the text `c`: the bytes written
   * into `value` and the `length`, or the error of the first loop that throws.
   */
  function StringLiteral(c: string): Result<(seq<int>, nat), LexErrorKind> {
    match StringLength(c, 1)
    case Failure(e) => Failure(e)
    case Success(n) =>
      match StringEscapes(c, 1)
      case Failure(e) => Failure(e)
      case Success(bs) => Success((bs, n))
  }

  /** The constructor as the source runs it: two loops over the text after the opening quote. */
  method StringLiteralValue(c: string) returns (r: Result<(seq<int>, nat), LexErrorKind>)
    ensures r == StringLiteral(c)
  {
    var length := 0;
    var tmp := 1;
    while tmp < |c| && c[tmp] != '"'
      invariant 1 <= tmp
      invariant StringLength(c, 1).Failure? <==> StringLength(c, tmp).Failure?
      invariant StringLength(c, tmp).Failure? ==> StringLength(c, 1) == StringLength(c, tmp)
      invariant StringLength(c, tmp).Success? ==> StringLength(c, 1).value == length + StringLength(c, tmp).value
      decreases |c| - tmp
    {
      if c[tmp] == '\\' {
        var e := EscapeSequence(c, tmp + 1);
        if e.Failure? {
          return Failure(e.error);
        }
        tmp := e.value.1;
      } else {
        tmp := tmp + 1;
      }
      length := length + 1;
    }
    if tmp >= |c| {
      return Failure(UnterminatedString);
    }
    assert StringLength(c, tmp) == Success(0);
    var value: seq<int> := [];
    var p := 1;
    while p < |c| && c[p] != '"'
      invariant 1 <= p
      invariant StringEscapes(c, 1).Failure? <==> StringEscapes(c, p).Failure?
      invariant StringEscapes(c, p).Failure? ==> StringEscapes(c, 1) == StringEscapes(c, p)
      invariant StringEscapes(c, p).Success? ==> StringEscapes(c, 1).value == value + StringEscapes(c, p).value
      decreases |c| - p
    {
      if c[p] == '\\' {
        var e := EscapeSequence(c, p + 1);
        if e.Failure? {
          return Failure(e.error);
        }
        value := value + [e.value.0];
        p := e.value.1;
      } else {
        p := p + 1;
      }
    }
    if p >= |c| {
      return Failure(UnterminatedString);
    }
    assert StringEscapes(c, p) == Success([]);
    assert StringEscapes(c, 1).value == value;
    assert StringLength(c, 1).value == length;
    return Success((value, length));
  }

  /** Without backslashes, `length` counts the characters up to the closing quote and nothing is written. */
  lemma {:induction false} PlainStringLiteral(c: string, k: nat, q: nat)
    requires k <= q < |c| && c[q] == '"' && forall p :: k <= p < q ==> c[p] != '"' && c[p] != '\\'
    ensures StringLength(c, k) == Success(q - k)
    ensures StringEscapes(c, k) == Success([])
    decreases q - k
  {
    if k < q {
      PlainStringLiteral(c, k + 1, q);
    }
  }

  /** Every byte written is counted: `length` is at least the number of escapes. */
  lemma {:induction false} EscapesCounted(c: string, k: nat)
    requires StringLength(c, k).Success? && StringEscapes(c, k).Success?
    ensures |StringEscapes(c, k).value| <= StringLength(c, k).value
    decreases |c| - k
  {
    if k < |c| && c[k] != '"' {
      if c[k] == '\\' {
        var j := Escape(c, k + 1).value.1;
        EscapesCounted(c, j);
      } else {
        EscapesCounted(c, k + 1);
      }
    }
  }

  /** `char` to `unsigned`: a byte above 127 is a negative `char` and sign-extends. */
  function SignExtend(b: int): (u: int)
    requires 0 <= b < 256
    ensures 0 <= u <= UINT_MAX
    ensures b < 128 ==> u == b
    ensures b >= 128 ==> u == UINT_MAX + 1 - (256 - b)
  {
    if b < 128 then b else b + UINT_MAX + 1 - 256
  }

  /** Lines 371-381: the value of a character literal whose text is `c`. */
  function CharLiteral(c: string): (r: Result<int, LexErrorKind>)
    requires IsCString(c)
    ensures r.Success? && At(c, 1) != '\\' ==> r.value == SignExtend(At(c, 1) as int)
    ensures r.Failure? ==> At(c, 1) == '\\'
  {
    if At(c, 1) != '\\' then Success(SignExtend(At(c, 1) as int))
    else match Escape(c, 2)
      case Failure(e) => Failure(e)
      case Success((b, _)) => Success(SignExtend(b))
  }

  /** A character literal with a simple escape has that escape's value, e.g. `'\n'` is 10. */
  lemma NewlineCharLiteral()
    ensures CharLiteral("'\\n'") == Success(10)
  {
  }

  /** Line 289: a boolean literal is true exactly when its text is `true`. */
  function BoolLiteral(c: string): (b: bool) {
    c == "true"
  }
}

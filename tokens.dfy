/**
 * Tokens of the input language (include/tokenize.hpp) and the integer
 * limits of the LP64 data model (include/translation_limits.hpp).
 */
module Tokens {
  import opened Wrappers

  /** `token::token_type`. */
  datatype TokenKind = Identifier | LitInteger | LitFloat | LitBool | LitPointer | LitString | LitChar | Operator

  /** The enumerator name of a kind, as the generated matcher spells it after `token::`. */
  function KindConstName(k: TokenKind): (r: string)
    ensures r != []
  {
    match k
    case Identifier => "IDENTIFIER"
    case LitInteger => "LIT_INTEGER"
    case LitFloat => "LIT_FLOAT"
    case LitBool => "LIT_BOOL"
    case LitPointer => "LIT_POINTER"
    case LitString => "LIT_STRING"
    case LitChar => "LIT_CHAR"
    case Operator => "OPERATOR"
  }

  lemma KindNamesInjective(k1: TokenKind, k2: TokenKind)
    ensures KindConstName(k1) == KindConstName(k2) ==> k1 == k2
  {
  }

  // LP64: 32-bit int, 64-bit long and long long.
  const INT_MIN: int := -0x8000_0000
  const INT_MAX: int := 0x7FFF_FFFF
  const UINT_MAX: int := 0xFFFF_FFFF
  const LONG_MIN: int := -0x8000_0000_0000_0000
  const LONG_MAX: int := 0x7FFF_FFFF_FFFF_FFFF
  const ULONG_MAX: int := 0xFFFF_FFFF_FFFF_FFFF
  const LLONG_MIN: int := LONG_MIN
  const LLONG_MAX: int := LONG_MAX
  const ULLONG_MAX: int := ULONG_MAX

  /** 2^64: the number of bit patterns of `long long`. */
  const TWO64: int := 0x1_0000_0000_0000_0000

  /** A 64-bit pattern read as `unsigned long long` (`value.u`). */
  function Unsigned64(x: int): (r: int)
    ensures 0 <= r <= ULLONG_MAX
    ensures 0 <= x <= ULLONG_MAX ==> r == x
  {
    x % TWO64
  }

  /** A 64-bit pattern read as `signed long long` (`value.s`), two's complement. */
  function Signed64(x: int): (r: int)
    ensures LLONG_MIN <= r <= LLONG_MAX
    ensures (r - x) % TWO64 == 0
    ensures LLONG_MIN <= x <= LLONG_MAX ==> r == x
  {
    var u := x % TWO64;
    if u <= LLONG_MAX then u else u - TWO64
  }

  /** The bits of `lit_integer_token::integer_type`: signedness and width. */
  datatype Signedness = Signed | Unsigned
  datatype Width = Int | Long | LongLong
  datatype IntegerType = IntegerType(sign: Signedness, width: Width)

  datatype FloatType = Float | Double | LongDouble

  /**
   * The per-kind payload. `Integer.bits` is the 64-bit pattern of the
   * `value` union; `Str.value` holds the bytes the constructor writes
   * and `Str.length` the length it computes; `Char.code` is the `unsigned`
   * value of a character literal.
   */
  datatype TokenValue =
    | Text(text: string)
    | Integer(subtype: IntegerType, bits: int)
    | FloatLiteral
    | Bool(b: bool)
    | NullPointer
    | Str(value: seq<int>, length: nat)
    | Char(code: int)

  /** A token with its source text (`content`) and position. */
  datatype Token = Token(kind: TokenKind, content: string, value: TokenValue, line: int, column: int)

  /** The `char *value` of an identifier or operator token. */
  function TextOf(t: Token): (r: Option<string>)
    ensures r.Some? <==> t.value.Text?
  {
    if t.value.Text? then Some(t.value.text) else None
  }
}

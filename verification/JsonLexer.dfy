/** The strings of a JSON text, read strictly as section 7 of RFC 8259 has it. */
module JsonLexer {
  import opened Options


  type byte = b: int | 0 <= b < 256

  const QUOTE: byte := 0x22
  const BACKSLASH: byte := 0x5C
  const LOWER_U: byte := 0x75

  predicate IsSpace(b: byte) {
    b == 0x20 || b == 0x09 || b == 0x0D || b == 0x0A
  }

  /** What may follow a string's closing quote: ',' '}' ']' ':' (section 2). */
  predicate IsStructural(b: byte) {
    b == 0x2C || b == 0x7D || b == 0x5D || b == 0x3A
  }

  predicate IsHexDigit(b: byte) {
    0x30 <= b <= 0x39 || 0x61 <= b <= 0x66 || 0x41 <= b <= 0x46
  }

  function HexValue(b: byte): nat
    requires IsHexDigit(b)
  {
    if b <= 0x39 then b - 0x30 else if b >= 0x61 then b - 0x61 + 10 else b - 0x41 + 10
  }

  /** One element of a string's value. ASCII has a single form however it was written; the bytes of a
      longer UTF-8 sequence and the \u escapes above ASCII stay apart. */
  datatype Unit = Raw(b: byte) | Code(code: nat)

  function UnitOf(code: nat): Unit {
    if code < 0x80 then Raw(code) else Code(code)
  }

  /** `Open` is a string the text ends in the middle of; it can only come last. */
  datatype Token = Gap(b: byte) | Literal(value: seq<Unit>) | Open(value: seq<Unit>)

  // ---------------------------------------------------------------- escapes

  predicate IsSimpleEscape(b: byte) {
    b == QUOTE || b == BACKSLASH || b == 0x2F || b == 0x62 || b == 0x66 || b == 0x6E || b == 0x72 || b == 0x74
  }

  function SimpleValue(b: byte): byte
    requires IsSimpleEscape(b)
  {
    if b == 0x62 then 0x08 else if b == 0x66 then 0x0C else if b == 0x6E then 0x0A
    else if b == 0x72 then 0x0D else if b == 0x74 then 0x09 else b
  }

  predicate FourHex(s: seq<byte>) {
    |s| >= 4 && IsHexDigit(s[0]) && IsHexDigit(s[1]) && IsHexDigit(s[2]) && IsHexDigit(s[3])
  }

  /** Length of the escape sequence `s` starts with, or 0 when its backslash starts none. */
  function EscapeLength(s: seq<byte>): (n: nat)
    requires s != [] && s[0] == BACKSLASH
    ensures n == 0 || n == 2 || n == 6
    ensures n <= |s|
  {
    if |s| < 2 then 0
    else if IsSimpleEscape(s[1]) then 2
    else if s[1] == LOWER_U && FourHex(s[2..]) then 6
    else 0
  }

  function EscapeUnit(s: seq<byte>): Unit
    requires s != [] && s[0] == BACKSLASH && EscapeLength(s) > 0
  {
    if IsSimpleEscape(s[1]) then Raw(SimpleValue(s[1]))
    else UnitOf(((HexValue(s[2]) * 16 + HexValue(s[3])) * 16 + HexValue(s[4])) * 16 + HexValue(s[5]))
  }

  // ---------------------------------------------------------------- the strict lexer

  function Prepend(t: Token, rest: Option<seq<Token>>): Option<seq<Token>> {
    match rest
    case None => None
    case Some(tokens) => Some([t] + tokens)
  }

  /** The tokens of `s`, or nothing when a string holds a bare control byte or an illegal backslash. */
  function Strict(s: seq<byte>): Option<seq<Token>>
    decreases |s|, 0
  {
    if s == [] then Some([])
    else if s[0] == QUOTE then StrictString(s[1..], [])
    else Prepend(Gap(s[0]), Strict(s[1..]))
  }

  function StrictString(s: seq<byte>, value: seq<Unit>): Option<seq<Token>>
    decreases |s|, 0
  {
    if s == [] then Some([Open(value)])
    else if s[0] == QUOTE then Prepend(Literal(value), Strict(s[1..]))
    else if s[0] == BACKSLASH then
      if EscapeLength(s) == 0 then None
      else StrictString(s[EscapeLength(s)..], value + [EscapeUnit(s)])
    else if s[0] < 0x20 then None
    else StrictString(s[1..], value + [Raw(s[0])])
  }

  // ---------------------------------------------------------------- the grammar around strings

  /** The text after a string goes on with white space and a structural character, or ends. */
  predicate Follows(tokens: seq<Token>) {
    tokens == []
    || (tokens[0].Gap? && (IsStructural(tokens[0].b) || (IsSpace(tokens[0].b) && Follows(tokens[1..]))))
  }

  /** As in every JSON text, each string is followed by structure or by the end. */
  predicate Separated(tokens: seq<Token>) {
    tokens == [] || ((tokens[0].Literal? ==> Follows(tokens[1..])) && Separated(tokens[1..]))
  }
}

// JSON values and their canonical text: no white space, members and items
// joined by single commas.

module JsonText {

  // A C++ char, as the code unit 0..255 of its bit pattern.
  type octet = c: char | c as int < 256 witness 'a'

  type int64 = n: int | -0x8000_0000_0000_0000 <= n < 0x8000_0000_0000_0000

  datatype Json =
    | Null
    | Bool(b: bool)
    | Number(n: int64)
    | Str(s: seq<octet>)
    | Array(items: seq<Json>)
    | Object(members: seq<Member>)
  {
    predicate Container() {
      Array? || Object?
    }
  }

  datatype Member = Member(key: seq<octet>, value: Json)

  // ---------------------------------------------------------------------
  // Tokens

  const HEX := "0123456789abcdef"

  function HexDigit(d: nat): char
    requires d < 16
  {
    HEX[d]
  }

  // escape_char for a signed plain char: octets from 0x80 up are negative,
  // hence below 0x20, and take the \u form, which names the code point of the
  // same number whatever character the octet is part of.
  function Escape(c: octet): string {
    if c == '\\' || c == '\"' then ['\\', c]
    else if c as int < 0x20 || c as int >= 0x80 then
      if c as int == 8 then "\\b"
      else if c as int == 12 then "\\f"
      else if c as int == 10 then "\\n"
      else if c as int == 13 then "\\r"
      else if c as int == 9 then "\\t"
      else "\\u00" + [HexDigit(c as int / 16), HexDigit(c as int % 16)]
    else [c]
  }

  function EscapeAll(s: seq<octet>): string {
    if s == [] then "" else Escape(s[0]) + EscapeAll(s[1..])
  }

  function Quote(s: seq<octet>): string {
    "\"" + EscapeAll(s) + "\""
  }

  function Digit(d: nat): char
    requires d < 10
  {
    '0' + d as char
  }

  function Digits(n: nat): (s: string)
    ensures |s| > 0
  {
    if n < 10 then [Digit(n)] else Digits(n / 10) + [Digit(n % 10)]
  }

  // "%ld"
  function Decimal(n: int): string {
    if n < 0 then "-" + Digits(-n) else Digits(n)
  }

  // ---------------------------------------------------------------------
  // Values

  function Print(v: Json): string
    decreases v, 1
  {
    match v
    case Null => "null"
    case Bool(b) => if b then "true" else "false"
    case Number(n) => Decimal(n)
    case Str(s) => Quote(s)
    case Array(items) => "[" + PrintItems(items) + "]"
    case Object(members) => "{" + PrintMembers(members) + "}"
  }

  function PrintItems(items: seq<Json>): string
    decreases items, 0
  {
    if items == [] then ""
    else if |items| == 1 then Print(items[0])
    else Print(items[0]) + "," + PrintItems(items[1..])
  }

  function PrintMember(m: Member): string
    decreases m, 2
  {
    Quote(m.key) + ":" + Print(m.value)
  }

  function PrintMembers(members: seq<Member>): string
    decreases members, 0
  {
    if members == [] then ""
    else if |members| == 1 then PrintMember(members[0])
    else PrintMember(members[0]) + "," + PrintMembers(members[1..])
  }

  lemma PrintNotEmpty(v: Json)
    ensures |Print(v)| > 0
  {
  }
}

// A recursive-descent reader for RFC 8259 text, sections 2 to 7, over octet
// strings and 64-bit integers, and the proof of what it reads in the printer's
// text: the value itself exactly when its strings are ASCII.

module JsonParser {
  import opened Wrappers
  import opened JsonText
  import opened JsonWriter

  // ---------------------------------------------------------------------
  // Tokens

  // section 2: insignificant white space
  function SkipSpace(s: string): (r: string)
    ensures |r| <= |s|
  {
    if s != "" && s[0] in " \t\n\r" then SkipSpace(s[1..]) else s
  }

  function Literal(s: string, word: string, v: Json): (r: Option<(Json, string)>)
    ensures r.Some? ==> |r.value.1| <= |s| - |word|
  {
    if word <= s then Some((v, s[|word|..])) else None
  }

  predicate IsDigit(c: char) {
    '0' <= c <= '9'
  }

  function DigitValue(c: char): nat
    requires IsDigit(c)
  {
    (c - '0') as nat
  }

  // The digits at the start of s, as a number, after a prefix worth acc.
  function ReadDigits(s: string, acc: nat): (r: (nat, string))
    ensures |r.1| <= |s|
  {
    if s != "" && IsDigit(s[0]) then ReadDigits(s[1..], 10 * acc + DigitValue(s[0])) else (acc, s)
  }

  predicate ContinuesNumber(s: string) {
    s != "" && (IsDigit(s[0]) || s[0] == '.' || s[0] == 'e' || s[0] == 'E')
  }

  // section 6, for numbers without fraction and exponent: no leading zeros.
  function ReadNatural(s: string): (r: Option<(int, string)>)
    ensures r.Some? ==> |r.value.1| < |s|
  {
    if s == "" || !IsDigit(s[0]) then None
    else
      var (n, rest) := if s[0] == '0' then (0, s[1..]) else ReadDigits(s[1..], DigitValue(s[0]));
      if ContinuesNumber(rest) then None else Some((n, rest))
  }

  function ReadNumber(s: string): (r: Option<(Json, string)>)
    ensures r.Some? ==> |r.value.1| < |s|
  {
    var negative := s != "" && s[0] == '-';
    var (n, rest) :- ReadNatural(if negative then s[1..] else s);
    var value := if negative then -n else n;
    if -0x8000_0000_0000_0000 <= value < 0x8000_0000_0000_0000 then Some((Number(value), rest)) else None
  }

  function HexValue(c: char): (r: Option<nat>)
    ensures r.Some? ==> r.value < 16
  {
    if '0' <= c <= '9' then Some((c - '0') as nat)
    else if 'a' <= c <= 'f' then Some((c - 'a') as nat + 10)
    else if 'A' <= c <= 'F' then Some((c - 'A') as nat + 10)
    else None
  }

  // The UTF-8 octets of a code point (section 3 of RFC 3629).
  function Utf8(code: nat): (octets: seq<octet>)
    requires code < 0x11_0000
    ensures octets != []
  {
    if code < 0x80 then [code as char]
    else if code < 0x800 then [(0xC0 + code / 0x40) as char, Continuation(code)]
    else if code < 0x1_0000 then [(0xE0 + code / 0x1000) as char, Continuation(code / 0x40), Continuation(code)]
    else
      [(0xF0 + code / 0x4_0000) as char, Continuation(code / 0x1000), Continuation(code / 0x40), Continuation(code)]
  }

  function Continuation(code: nat): octet {
    (0x80 + code % 0x40) as char
  }

  // Two hexadecimal digits.
  function ReadByte(s: string): (r: Option<(nat, string)>)
    ensures r.Some? ==> |r.value.1| < |s| && r.value.0 < 0x100
  {
    if |s| < 2 then None
    else
      var high :- HexValue(s[0]);
      var low :- HexValue(s[1]);
      Some((16 * high + low, s[2..]))
  }

  // Four hexadecimal digits: a UTF-16 code unit.
  function ReadUnit(s: string): (r: Option<(nat, string)>)
    ensures r.Some? ==> |r.value.1| < |s| && r.value.0 < 0x1_0000
  {
    var (high, rest) :- ReadByte(s);
    var (low, after) :- ReadByte(rest);
    Some((256 * high + low, after))
  }

  predicate HighSurrogate(unit: nat) {
    0xD800 <= unit < 0xDC00
  }

  predicate LowSurrogate(unit: nat) {
    0xDC00 <= unit < 0xE000
  }

  // section 7: one code point, or two code units for one beyond the basic
  // plane. A surrogate by itself is refused.
  function ReadCodePoint(s: string): (r: Option<(nat, string)>)
    ensures r.Some? ==> |r.value.1| < |s| && r.value.0 < 0x11_0000
  {
    var (high, rest) :- ReadUnit(s);
    if LowSurrogate(high) then None
    else if !HighSurrogate(high) then Some((high, rest))
    else if !("\\u" <= rest) then None
    else
      var (low, after) :- ReadUnit(rest[2..]);
      if LowSurrogate(low) then Some((0x1_0000 + (high - 0xD800) * 0x400 + (low - 0xDC00), after)) else None
  }

  // section 7: what follows a backslash, as UTF-8.
  function ReadEscape(s: string): (r: Option<(seq<octet>, string)>)
    ensures r.Some? ==> |r.value.1| < |s|
  {
    if s == "" then None
    else if s[0] == '\"' || s[0] == '\\' || s[0] == '/' then Some(([s[0]], s[1..]))
    else if s[0] == 'b' then Some(([8 as char], s[1..]))
    else if s[0] == 'f' then Some(([12 as char], s[1..]))
    else if s[0] == 'n' then Some(([10 as char], s[1..]))
    else if s[0] == 'r' then Some(([13 as char], s[1..]))
    else if s[0] == 't' then Some(([9 as char], s[1..]))
    else if s[0] == 'u' then
      var (code, rest) :- ReadCodePoint(s[1..]);
      Some((Utf8(code), rest))
    else None
  }

  // section 7: the characters of a string up to and including its closing
  // quote, as UTF-8. Control characters have to be escaped; octets of the text
  // from 0x80 on are taken as they are.
  function ReadChars(s: string): (r: Option<(seq<octet>, string)>)
    ensures r.Some? ==> |r.value.1| < |s|
    decreases |s|
  {
    if s == "" then None
    else if s[0] == '\"' then Some(([], s[1..]))
    else if s[0] == '\\' then
      var (octets, after) :- ReadEscape(s[1..]);
      var (more, rest) :- ReadChars(after);
      Some((octets + more, rest))
    else if s[0] as int < 0x20 || s[0] as int >= 256 then None
    else
      var (more, rest) :- ReadChars(s[1..]);
      Some(([s[0]] + more, rest))
  }

  function ReadString(s: string): (r: Option<(seq<octet>, string)>)
    ensures r.Some? ==> |r.value.1| < |s|
  {
    if s != "" && s[0] == '\"' then ReadChars(s[1..]) else None
  }

  // ---------------------------------------------------------------------
  // Values

  // sections 3, 4 and 5
  function ReadValue(text: string): (r: Option<(Json, string)>)
    ensures r.Some? ==> |r.value.1| < |text|
    decreases |text|, 0
  {
    var s := SkipSpace(text);
    if s == "" then None
    else if s[0] == 'n' then Literal(s, "null", Null)
    else if s[0] == 't' then Literal(s, "true", Bool(true))
    else if s[0] == 'f' then Literal(s, "false", Bool(false))
    else if s[0] == '\"' then
      var (chars, rest) :- ReadString(s);
      Some((Str(chars), rest))
    else if s[0] == '[' then
      var inside := SkipSpace(s[1..]);
      if inside != "" && inside[0] == ']' then Some((Array([]), inside[1..]))
      else
        var (items, rest) :- ReadItems(inside);
        Some((Array(items), rest))
    else if s[0] == '{' then
      var inside := SkipSpace(s[1..]);
      if inside != "" && inside[0] == '}' then Some((Object([]), inside[1..]))
      else
        var (members, rest) :- ReadMembers(inside);
        Some((Object(members), rest))
    else ReadNumber(s)
  }

  // One item or more, up to and including the closing bracket.
  function ReadItems(text: string): (r: Option<(seq<Json>, string)>)
    ensures r.Some? ==> |r.value.1| < |text|
    decreases |text|, 1
  {
    var (v, after) :- ReadValue(text);
    var s := SkipSpace(after);
    if s != "" && s[0] == ']' then Some(([v], s[1..]))
    else if s != "" && s[0] == ',' then
      var (more, rest) :- ReadItems(s[1..]);
      Some(([v] + more, rest))
    else None
  }

  // One member or more, up to and including the closing brace.
  function ReadMembers(text: string): (r: Option<(seq<Member>, string)>)
    ensures r.Some? ==> |r.value.1| < |text|
    decreases |text|, 1
  {
    var (m, after) :- ReadMember(text);
    var s := SkipSpace(after);
    if s != "" && s[0] == '}' then Some(([m], s[1..]))
    else if s != "" && s[0] == ',' then
      var (more, rest) :- ReadMembers(s[1..]);
      Some(([m] + more, rest))
    else None
  }

  function ReadMember(text: string): (r: Option<(Member, string)>)
    ensures r.Some? ==> |r.value.1| < |text|
    decreases |text|, 0
  {
    var (key, after) :- ReadString(SkipSpace(text));
    var s := SkipSpace(after);
    if s != "" && s[0] == ':' then
      var (v, rest) :- ReadValue(s[1..]);
      Some((Member(key, v), rest))
    else None
  }

  // A whole JSON text: one value and nothing else but white space.
  function Parse(text: string): Option<Json> {
    var (v, rest) :- ReadValue(text);
    if SkipSpace(rest) == "" then Some(v) else None
  }

  // ---------------------------------------------------------------------
  // What is read in a printed value

  // The writer takes each octet of a string for a code point, so the reader
  // finds the UTF-8 octets of that.
  function ReadBackText(s: seq<octet>): seq<octet> {
    if s == [] then [] else Utf8(s[0] as nat) + ReadBackText(s[1..])
  }

  function ReadBack(v: Json): Json
    decreases v, 1
  {
    match v
    case Str(s) => Str(ReadBackText(s))
    case Array(items) => Array(ReadBackItems(items))
    case Object(members) => Object(ReadBackMembers(members))
    case _ => v
  }

  function ReadBackItems(items: seq<Json>): seq<Json>
    decreases items, 0
  {
    if items == [] then [] else [ReadBack(items[0])] + ReadBackItems(items[1..])
  }

  function ReadBackMember(m: Member): Member
    decreases m, 2
  {
    Member(ReadBackText(m.key), ReadBack(m.value))
  }

  function ReadBackMembers(members: seq<Member>): seq<Member>
    decreases members, 0
  {
    if members == [] then [] else [ReadBackMember(members[0])] + ReadBackMembers(members[1..])
  }

  predicate AsciiText(s: seq<octet>) {
    forall c :: c in s ==> c as int < 0x80
  }

  // Every string in a value, keys included, is ASCII.
  predicate Ascii(v: Json) {
    match v
    case Str(s) => AsciiText(s)
    case Array(items) => forall w :: w in items ==> Ascii(w)
    case Object(members) => forall m :: m in members ==> AsciiText(m.key) && Ascii(m.value)
    case _ => true
  }

  // Each octet from 0x80 on becomes two.
  lemma {:induction false} ReadBackTextExact(s: seq<octet>)
    ensures |ReadBackText(s)| >= |s|
    ensures ReadBackText(s) == s <==> AsciiText(s)
  {
    if s != [] {
      ReadBackTextExact(s[1..]);
      assert s == [s[0]] + s[1..];
      if s[0] as int < 0x80 {
        assert ReadBackText(s) == [s[0]] + ReadBackText(s[1..]);
        assert ReadBackText(s)[1..] == ReadBackText(s[1..]);
        assert forall c :: c in s <==> c == s[0] || c in s[1..];
      } else {
        assert |ReadBackText(s)| == 2 + |ReadBackText(s[1..])| && s[0] in s;
      }
    }
  }

  lemma {:induction false} ReadBackTextInjective(s: seq<octet>, t: seq<octet>)
    requires ReadBackText(s) == ReadBackText(t)
    ensures s == t
  {
    if s != [] && t != [] {
      var u, w := Utf8(s[0] as nat), Utf8(t[0] as nat);
      assert (u + ReadBackText(s[1..]))[0] == u[0] && (w + ReadBackText(t[1..]))[0] == w[0];
      assert |u| == 2 == |w| ==>
             (u + ReadBackText(s[1..]))[1] == u[1] && (w + ReadBackText(t[1..]))[1] == w[1];
      assert s[0] == t[0];
      assert ReadBackText(s[1..]) == ReadBackText(s)[|u|..] == ReadBackText(t)[|w|..] == ReadBackText(t[1..]);
      ReadBackTextInjective(s[1..], t[1..]);
      assert s == [s[0]] + s[1..] && t == [t[0]] + t[1..];
    }
  }

  // A value comes back as it is exactly when its strings are ASCII.
  lemma {:induction false} ReadBackExact(v: Json)
    ensures ReadBack(v) == v <==> Ascii(v)
    decreases v, 1
  {
    match v {
      case Str(s) => ReadBackTextExact(s);
      case Array(items) => ReadBackItemsExact(items);
      case Object(members) => ReadBackMembersExact(members);
      case _ =>
    }
  }

  lemma {:induction false} ReadBackItemsExact(items: seq<Json>)
    ensures ReadBackItems(items) == items <==> forall w :: w in items ==> Ascii(w)
    decreases items, 0
  {
    if items != [] {
      ReadBackExact(items[0]);
      ReadBackItemsExact(items[1..]);
      assert items == [items[0]] + items[1..];
    }
  }

  lemma {:induction false} ReadBackMembersExact(members: seq<Member>)
    ensures ReadBackMembers(members) == members <==>
            forall m :: m in members ==> AsciiText(m.key) && Ascii(m.value)
    decreases members, 0
  {
    if members != [] {
      ReadBackTextExact(members[0].key);
      ReadBackExact(members[0].value);
      ReadBackMembersExact(members[1..]);
      assert members == [members[0]] + members[1..];
    }
  }

  lemma {:induction false} ReadBackInjective(v: Json, w: Json)
    requires ReadBack(v) == ReadBack(w)
    ensures v == w
    decreases v, 1
  {
    match v {
      case Str(s) => ReadBackTextInjective(s, w.s);
      case Array(items) => ReadBackItemsInjective(items, w.items);
      case Object(members) => ReadBackMembersInjective(members, w.members);
      case _ =>
    }
  }

  lemma {:induction false} ReadBackItemsInjective(v: seq<Json>, w: seq<Json>)
    requires ReadBackItems(v) == ReadBackItems(w)
    ensures v == w
    decreases v, 0
  {
    if v != [] && w != [] {
      assert ReadBackItems(v)[0] == ReadBack(v[0]) && ReadBackItems(v)[1..] == ReadBackItems(v[1..]);
      assert ReadBackItems(w)[0] == ReadBack(w[0]) && ReadBackItems(w)[1..] == ReadBackItems(w[1..]);
      ReadBackInjective(v[0], w[0]);
      ReadBackItemsInjective(v[1..], w[1..]);
      assert v == [v[0]] + v[1..] && w == [w[0]] + w[1..];
    }
  }

  lemma {:induction false} ReadBackMembersInjective(v: seq<Member>, w: seq<Member>)
    requires ReadBackMembers(v) == ReadBackMembers(w)
    ensures v == w
    decreases v, 0
  {
    if v != [] && w != [] {
      assert ReadBackMembers(v)[0] == ReadBackMember(v[0]) && ReadBackMembers(v)[1..] == ReadBackMembers(v[1..]);
      assert ReadBackMembers(w)[0] == ReadBackMember(w[0]) && ReadBackMembers(w)[1..] == ReadBackMembers(w[1..]);
      ReadBackTextInjective(v[0].key, w[0].key);
      ReadBackInjective(v[0].value, w[0].value);
      ReadBackMembersInjective(v[1..], w[1..]);
      assert v == [v[0]] + v[1..] && w == [w[0]] + w[1..];
    }
  }

  // ---------------------------------------------------------------------
  // Reading what was printed: tokens

  lemma HexRoundTrip(d: nat)
    requires d < 16
    ensures HexValue(HexDigit(d)) == Some(d)
  {
  }

  lemma UnicodeRoundTrip(c: octet, s: string)
    ensures ReadCodePoint("00" + [HexDigit(c as int / 16), HexDigit(c as int % 16)] + s) == Some((c as nat, s))
  {
    HexRoundTrip(c as int / 16);
    HexRoundTrip(c as int % 16);
    var tail := [HexDigit(c as int / 16), HexDigit(c as int % 16)] + s;
    assert tail[2..] == s;
    assert "00" + [HexDigit(c as int / 16), HexDigit(c as int % 16)] + s == "00" + tail;
    assert ("00" + tail)[2..] == tail;
    assert ReadByte(tail) == Some((c as nat, s));
  }

  // What the writer makes of an octet is read as the code point of the same
  // number.
  lemma EscapeRoundTrip(c: octet, s: string)
    ensures ReadChars(Escape(c) + s) ==
            match ReadChars(s)
            case Some((more, rest)) => Some((Utf8(c as nat) + more, rest))
            case None => None
  {
    var t := Escape(c) + s;
    if |Escape(c)| == 1 {
      assert t[1..] == s;
    } else {
      assert ReadEscape(t[1..]) == Some((Utf8(c as nat), s)) by {
        if |Escape(c)| == 2 {
          assert t[1..][1..] == s;
        } else {
          var digits := "00" + [HexDigit(c as int / 16), HexDigit(c as int % 16)] + s;
          assert t[1..] == "u" + digits;
          assert t[1..][1..] == digits;
          UnicodeRoundTrip(c, s);
        }
      }
    }
  }

  lemma {:induction false} CharsRoundTrip(s: seq<octet>, rest: string)
    ensures ReadChars(EscapeAll(s) + ("\"" + rest)) == Some((ReadBackText(s), rest))
  {
    if s == [] {
      assert "" + ("\"" + rest) == "\"" + rest;
    } else {
      CharsRoundTrip(s[1..], rest);
      EscapeRoundTrip(s[0], EscapeAll(s[1..]) + ("\"" + rest));
      assert Escape(s[0]) + EscapeAll(s[1..]) + ("\"" + rest) == Escape(s[0]) + (EscapeAll(s[1..]) + ("\"" + rest));
    }
  }

  lemma QuoteOpens(escaped: string, rest: string)
    ensures "\"" + escaped + "\"" + rest == "\"" + (escaped + ("\"" + rest))
  {
  }

  lemma StringRoundTrip(s: seq<octet>, rest: string)
    ensures ReadString(Quote(s) + rest) == Some((ReadBackText(s), rest))
    ensures SkipSpace(Quote(s) + rest) == Quote(s) + rest
  {
    var inside := EscapeAll(s) + ("\"" + rest);
    assert Quote(s) + rest == "\"" + inside by {
      QuoteOpens(EscapeAll(s), rest);
    }
    assert ("\"" + inside)[1..] == inside;
    CharsRoundTrip(s, rest);
  }

  lemma ReadDigit(d: nat, rest: string, acc: nat)
    requires d < 10
    ensures ReadDigits([Digit(d)] + rest, acc) == ReadDigits(rest, 10 * acc + d)
  {
    assert ([Digit(d)] + rest)[1..] == rest;
  }

  lemma OneMoreDigit(acc: nat, p: nat, q: nat, d: nat)
    ensures 10 * (acc * p + q) + d == acc * (10 * p) + (10 * q + d)
  {
  }

  lemma {:induction false} DigitsAppend(n: nat, acc: nat, rest: string)
    ensures ReadDigits(Digits(n) + rest, acc) == ReadDigits(rest, acc * Power10(|Digits(n)|) + n)
    decreases n
  {
    if n < 10 {
      ReadDigit(n, rest, acc);
    } else {
      var q, d := n / 10, n % 10;
      var front, p := Digits(q), Power10(|Digits(q)|);
      assert front + [Digit(d)] + rest == front + ([Digit(d)] + rest);
      DigitsAppend(q, acc, [Digit(d)] + rest);
      ReadDigit(d, rest, acc * p + q);
      OneMoreDigit(acc, p, q, d);
    }
  }

  function Power10(n: nat): nat {
    if n == 0 then 1 else 10 * Power10(n - 1)
  }

  // The first digit of a number with more than one digit is not zero.
  lemma {:induction false} FirstDigit(n: nat)
    ensures IsDigit(Digits(n)[0])
    ensures n >= 10 ==> Digits(n)[0] != '0'
    ensures n < 10 ==> Digits(n) == [Digit(n)]
  {
    if n >= 10 {
      FirstDigit(n / 10);
      assert Digits(n)[0] == Digits(n / 10)[0];
    }
  }

  lemma NaturalRoundTrip(n: nat, rest: string)
    requires !ContinuesNumber(rest)
    ensures ReadNatural(Digits(n) + rest) == Some((n, rest))
  {
    FirstDigit(n);
    var s := Digits(n) + rest;
    DigitsAppend(n, 0, rest);
    if n < 10 {
      assert s[1..] == rest;
    } else {
      assert ReadDigits(s, 0) == ReadDigits(s[1..], DigitValue(s[0]));
    }
  }

  lemma NumberRoundTrip(n: int64, rest: string)
    requires !ContinuesNumber(rest)
    ensures ReadNumber(Decimal(n) + rest) == Some((Number(n), rest))
  {
    var value: int := n;
    if value < 0 {
      NaturalRoundTrip(-value, rest);
      var digits := Digits(-value);
      assert "-" + digits + rest == "-" + (digits + rest);
      assert ("-" + (digits + rest))[1..] == digits + rest;
    } else {
      FirstDigit(value);
      NaturalRoundTrip(value, rest);
    }
  }

  // ---------------------------------------------------------------------
  // Reading what was printed: values

  // What may follow a value: a number must not run on.
  predicate Stops(v: Json, rest: string) {
    v.Number? ==> !ContinuesNumber(rest)
  }

  // A printed value begins with the character that tells its kind.
  lemma FirstCharacter(v: Json, rest: string)
    ensures var s := Print(v) + rest;
            && SkipSpace(s) == s
            && s[0] == match v
                       case Null => 'n'
                       case Bool(b) => if b then 't' else 'f'
                       case Number(n) => if n < 0 then '-' else Digits(n)[0]
                       case Str(_) => '\"'
                       case Array(_) => '['
                       case Object(_) => '{'
    ensures v.Number? && v.n >= 0 ==> IsDigit(Print(v)[0])
  {
    if v.Number? && v.n >= 0 {
      FirstDigit(v.n);
    }
  }

  lemma ScalarRoundTrip(v: Json, rest: string)
    requires !v.Container() && Stops(v, rest)
    ensures ReadValue(Print(v) + rest) == Some((ReadBack(v), rest))
  {
    FirstCharacter(v, rest);
    match v {
      case Null => assert (Print(v) + rest)[4..] == rest;
      case Bool(b) => assert (Print(v) + rest)[if b then 4 else 5..] == rest;
      case Number(n) => NumberRoundTrip(n, rest);
      case Str(s) => StringRoundTrip(s, rest);
    }
  }

  // Reading what the printer wrote gives the value with its strings taken for
  // code points, and stops right after its text, whatever follows.
  lemma {:induction false} ValueRoundTrip(v: Json, rest: string)
    requires Stops(v, rest)
    ensures ReadValue(Print(v) + rest) == Some((ReadBack(v), rest))
    decreases v, 1
  {
    match v {
      case Array(items) => ArrayRoundTrip(items, rest);
      case Object(members) => ObjectRoundTrip(members, rest);
      case _ => ScalarRoundTrip(v, rest);
    }
  }

  lemma {:induction false} ArrayRoundTrip(items: seq<Json>, rest: string)
    ensures ReadValue(Print(Array(items)) + rest) == Some((ReadBack(Array(items)), rest))
    decreases items, 2
  {
    var text, inside := Print(Array(items)) + rest, PrintItems(items) + ("]" + rest);
    Enclosed("[", PrintItems(items), "]", rest);
    FirstCharacter(Array(items), rest);
    assert text[1..] == inside;
    if items == [] {
      assert inside == "]" + rest && inside[1..] == rest;
    } else {
      ItemsRoundTrip(items, rest);
      ItemsStart(items, "]" + rest);
      ReadFullArray(text, inside, ReadBackItems(items), rest);
    }
  }

  lemma Enclosed(open: string, body: string, close: string, rest: string)
    ensures open + body + close + rest == open + (body + (close + rest))
  {
  }

  lemma ReadFullArray(text: string, inside: string, items: seq<Json>, rest: string)
    requires SkipSpace(text) == text && text != "" && text[0] == '[' && text[1..] == inside
    requires SkipSpace(inside) == inside && inside != "" && inside[0] != ']'
    requires ReadItems(inside) == Some((items, rest))
    ensures ReadValue(text) == Some((Array(items), rest))
  {
  }

  lemma {:induction false} ObjectRoundTrip(members: seq<Member>, rest: string)
    ensures ReadValue(Print(Object(members)) + rest) == Some((ReadBack(Object(members)), rest))
    decreases members, 5
  {
    var text, inside := Print(Object(members)) + rest, PrintMembers(members) + ("}" + rest);
    Enclosed("{", PrintMembers(members), "}", rest);
    FirstCharacter(Object(members), rest);
    assert text[1..] == inside;
    if members == [] {
      assert inside == "}" + rest && inside[1..] == rest;
    } else {
      MembersRoundTrip(members, rest);
      MembersStart(members, "}" + rest);
      ReadFullObject(text, inside, ReadBackMembers(members), rest);
    }
  }

  lemma ReadFullObject(text: string, inside: string, members: seq<Member>, rest: string)
    requires SkipSpace(text) == text && text != "" && text[0] == '{' && text[1..] == inside
    requires SkipSpace(inside) == inside && inside != "" && inside[0] != '}'
    requires ReadMembers(inside) == Some((members, rest))
    ensures ReadValue(text) == Some((Object(members), rest))
  {
  }

  lemma ItemsStart(items: seq<Json>, rest: string)
    requires items != []
    ensures var s := PrintItems(items) + rest; SkipSpace(s) == s && s != "" && s[0] != ']'
  {
    PrintNotEmpty(items[0]);
    FirstCharacter(items[0], "");
    assert Print(items[0]) + "" == Print(items[0]);
  }

  lemma MembersStart(members: seq<Member>, rest: string)
    requires members != []
    ensures var s := PrintMembers(members) + rest; SkipSpace(s) == s && s != "" && s[0] != '}'
  {
  }

  lemma ReadLastItem(text: string, v: Json, rest: string)
    requires ReadValue(text) == Some((v, "]" + rest))
    ensures ReadItems(text) == Some(([v], rest))
  {
    assert ("]" + rest)[1..] == rest;
  }

  lemma ReadItemAndMore(text: string, v: Json, tail: string, more: seq<Json>, rest: string)
    requires ReadValue(text) == Some((v, "," + tail)) && ReadItems(tail) == Some((more, rest))
    ensures ReadItems(text) == Some(([v] + more, rest))
  {
    assert ("," + tail)[1..] == tail;
  }

  lemma {:induction false} SplitItems(items: seq<Json>, after: string)
    requires |items| > 1
    ensures PrintItems(items) + after == Print(items[0]) + ("," + (PrintItems(items[1..]) + after))
    ensures items == [items[0]] + items[1..]
  {
    Regroup(Print(items[0]), ",", PrintItems(items[1..]), after);
  }

  lemma Regroup(a: string, b: string, c: string, d: string)
    ensures a + b + c + d == a + (b + (c + d))
  {
  }

  lemma {:induction false} ItemsRoundTrip(items: seq<Json>, rest: string)
    requires items != []
    ensures ReadItems(PrintItems(items) + ("]" + rest)) == Some((ReadBackItems(items), rest))
    decreases items, 0
  {
    var text, v := PrintItems(items) + ("]" + rest), items[0];
    if |items| == 1 {
      assert items == [v] && ReadBackItems(items) == [ReadBack(v)];
      ValueRoundTrip(v, "]" + rest);
      ReadLastItem(text, ReadBack(v), rest);
    } else {
      var tail := PrintItems(items[1..]) + ("]" + rest);
      SplitItems(items, "]" + rest);
      ValueRoundTrip(v, "," + tail);
      ItemsRoundTrip(items[1..], rest);
      ReadItemAndMore(text, ReadBack(v), tail, ReadBackItems(items[1..]), rest);
    }
  }

  lemma {:induction false} MemberRoundTrip(m: Member, rest: string)
    requires Stops(m.value, rest)
    ensures ReadMember(PrintMember(m) + rest) == Some((ReadBackMember(m), rest))
    decreases m, 2
  {
    var after := ":" + (Print(m.value) + rest);
    assert PrintMember(m) + rest == Quote(m.key) + after;
    StringRoundTrip(m.key, after);
    assert after[1..] == Print(m.value) + rest;
    ValueRoundTrip(m.value, rest);
  }

  lemma ReadLastMember(text: string, m: Member, rest: string)
    requires ReadMember(text) == Some((m, "}" + rest))
    ensures ReadMembers(text) == Some(([m], rest))
  {
    assert ("}" + rest)[1..] == rest;
  }

  lemma ReadMemberAndMore(text: string, m: Member, tail: string, more: seq<Member>, rest: string)
    requires ReadMember(text) == Some((m, "," + tail)) && ReadMembers(tail) == Some((more, rest))
    ensures ReadMembers(text) == Some(([m] + more, rest))
  {
    assert ("," + tail)[1..] == tail;
  }

  lemma {:induction false} SplitMembers(members: seq<Member>, after: string)
    requires |members| > 1
    ensures PrintMembers(members) + after == PrintMember(members[0]) + ("," + (PrintMembers(members[1..]) + after))
    ensures members == [members[0]] + members[1..]
  {
    Regroup(PrintMember(members[0]), ",", PrintMembers(members[1..]), after);
  }

  lemma {:induction false} MembersRoundTrip(members: seq<Member>, rest: string)
    requires members != []
    ensures ReadMembers(PrintMembers(members) + ("}" + rest)) == Some((ReadBackMembers(members), rest))
    decreases members, 4
  {
    var text, m := PrintMembers(members) + ("}" + rest), members[0];
    if |members| == 1 {
      assert members == [m] && ReadBackMembers(members) == [ReadBackMember(m)];
      MemberRoundTrip(m, "}" + rest);
      ReadLastMember(text, ReadBackMember(m), rest);
    } else {
      var tail := PrintMembers(members[1..]) + ("}" + rest);
      SplitMembers(members, "}" + rest);
      MemberRoundTrip(m, "," + tail);
      MembersRoundTrip(members[1..], rest);
      ReadMemberAndMore(text, ReadBackMember(m), tail, ReadBackMembers(members[1..]), rest);
    }
  }

  // ---------------------------------------------------------------------
  // The writer

  // A reader of what is left for a value stops at the end, or at the comma
  // behind a scalar or a nested value.
  lemma WrittenRead(v: Json, nested: bool)
    ensures ReadValue(Written(v, nested)) == Some((ReadBack(v), if nested || !v.Container() then "," else ""))
  {
    ValueRoundTrip(v, if nested || !v.Container() then "," else "");
  }

  // What serialize leaves for an array or an object is a JSON text; a scalar
  // at the root is followed by a comma.
  lemma RootTextRead(v: Json)
    ensures Parse(Written(v, false)) == if v.Container() then Some(ReadBack(v)) else None
  {
    WrittenRead(v, false);
  }

  // It is that of the value exactly when the strings are ASCII as well.
  lemma RootTextExact(v: Json)
    ensures Parse(Written(v, false)) == Some(v) <==> v.Container() && Ascii(v)
  {
    RootTextRead(v);
    ReadBackExact(v);
  }

  // The letter e acute, in UTF-8 the octets C3 A9, is read as two letters.
  lemma AccentIsLost()
    ensures var text := [0xC3 as char, 0xA9 as char];
            var twice := Utf8(0xC3) + Utf8(0xA9);
            && text == Utf8(0xE9)
            && twice != text
            && EscapeAll(text) == "\\u00c3\\u00a9"
            && Parse(Written(Array([Str(text)]), false)) == Some(Array([Str(twice)]))
  {
    var text := [0xC3 as char, 0xA9 as char];
    TwoOctets(text[0], text[1]);
    assert text == Utf8(0xE9);
    assert |Utf8(0xC3) + Utf8(0xA9)| == 4;
    assert EscapeAll(text) == "\\u00c3\\u00a9";
    var v := Str(text);
    var items := [v];
    assert ReadBackItems(items) == [ReadBack(v)] + [];
    assert ReadBack(Array(items)) == Array([ReadBack(v)]);
    RootTextRead(Array(items));
  }

  lemma TwoOctets(c: octet, d: octet)
    ensures EscapeAll([c, d]) == Escape(c) + Escape(d)
    ensures ReadBackText([c, d]) == Utf8(c as nat) + Utf8(d as nat)
  {
    assert [c, d][1..] == [d] && [d][1..] == [];
    assert EscapeAll([d]) == Escape(d) + "" && ReadBackText([d]) == Utf8(d as nat) + [];
  }

  // Two different values never have the same text.
  lemma WrittenIsInjective(v: Json, w: Json)
    requires Written(v, false) == Written(w, false)
    ensures v == w
  {
    WrittenRead(v, false);
    WrittenRead(w, false);
    ReadBackInjective(v, w);
  }
}

// Base 64 as section 4 of RFC 4648 defines it, and a strict decoder for it.

module Base64Text {
  import opened Bits
  import opened Bytes
  import opened Wrappers

  // Table 1 of RFC 4648
  function Letter(i: nat): char
    requires i < 64
  {
    if i < 26 then (i + 65) as char // A to Z
    else if i < 52 then (i + 71) as char // a to z
    else if i < 62 then (i - 4) as char // 0 to 9
    else if i == 62 then '+'
    else '/'
  }

  // A 24-bit group: three octets, left to right, taken as one number and cut
  // into four digits of six bits.
  function Group(a: byte, b: byte, c: byte): (n: nat)
    ensures n < 0x100_0000
  {
    a * 0x1_0000 + b * 0x100 + c
  }

  // The last count digits of n in base 64, as letters.
  function Digits(n: nat, count: nat): (s: string)
    ensures |s| == count
  {
    if count == 0 then "" else Digits(n / 64, count - 1) + [Letter(n % 64)]
  }

  function GroupText(n: nat): (s: string)
    ensures |s| == 4
  {
    Digits(n, 4)
  }

  // The final group is padded with zero bits, and the letters that hold no
  // input with '='.
  function Encode(data: seq<byte>): string {
    if data == [] then ""
    else if |data| == 1 then GroupText(Group(data[0], 0, 0))[..2] + "=="
    else if |data| == 2 then GroupText(Group(data[0], data[1], 0))[..3] + "="
    else GroupText(Group(data[0], data[1], data[2])) + Encode(data[3..])
  }

  lemma {:induction false} EncodeLength(data: seq<byte>)
    ensures |Encode(data)| == 4 * ((|data| + 2) / 3)
    decreases |data|
  {
    if |data| > 2 {
      EncodeLength(data[3..]);
      QuotientUnique(|data| + 2, 3, 1 + (|data| - 1) / 3, (|data| - 1) % 3);
    }
  }

  // Whole groups are encoded independently of what follows them.
  lemma {:induction false} EncodeAppend(a: seq<byte>, b: seq<byte>)
    requires |a| % 3 == 0
    ensures Encode(a + b) == Encode(a) + Encode(b)
    decreases |a|
  {
    if a == [] {
      assert a + b == b;
    } else {
      assert (a + b)[3..] == a[3..] + b;
      EncodeAppend(a[3..], b);
    }
  }

  // ---------------------------------------------------------------------
  // A strict decoder: no stray characters, no missing padding, and no
  // non-zero pad bits.

  function Value(c: char): (r: Option<nat>)
    ensures r.Some? ==> r.value < 64
  {
    var code := c as int;
    if 65 <= code <= 90 then Some(code - 65)
    else if 97 <= code <= 122 then Some(code - 71)
    else if 48 <= code <= 57 then Some(code + 4)
    else if c == '+' then Some(62)
    else if c == '/' then Some(63)
    else None
  }

  lemma LetterValue(i: nat)
    requires i < 64
    ensures Value(Letter(i)) == Some(i) && Letter(i) != '='
  {
  }

  lemma ValueLetter(c: char)
    ensures Value(c).Some? ==> Letter(Value(c).value) == c
  {
  }

  // The octets that four digits of six bits carry.
  function First(a: nat, b: nat): byte
    requires a < 64 && b < 64
  {
    a * 4 + b / 16
  }

  function Second(b: nat, c: nat): byte
    requires b < 64 && c < 64
  {
    b % 16 * 16 + c / 4
  }

  function Third(c: nat, d: nat): byte
    requires c < 64 && d < 64
  {
    c % 4 * 64 + d
  }

  function Decode(s: string): Option<seq<byte>> {
    if s == "" then Some([])
    else if |s| < 4 then None
    else
      var a :- Value(s[0]);
      var b :- Value(s[1]);
      if s[2] == '=' then
        if s[3..] == "=" && b % 16 == 0 then Some([First(a, b)]) else None
      else
        var c :- Value(s[2]);
        if s[3] == '=' then
          if |s| == 4 && c % 4 == 0 then Some([First(a, b), Second(b, c)]) else None
        else
          var d :- Value(s[3]);
          var rest :- Decode(s[4..]);
          Some([First(a, b), Second(b, c), Third(c, d)] + rest)
  }

  // ---------------------------------------------------------------------
  // Arithmetic of the groups

  lemma GroupDigits(a: byte, b: byte, c: byte)
    ensures var n := Group(a, b, c);
            && n % 64 == c % 64
            && n / 64 % 64 == b % 16 * 4 + c / 64
            && n / 64 / 64 % 64 == a % 4 * 16 + b / 16
            && n / 64 / 64 / 64 % 64 == a / 4
  {
    var n := Group(a, b, c);
    QuotientUnique(n, 64, a * 1024 + b * 4 + c / 64, c % 64);
    QuotientUnique(a * 1024 + b * 4 + c / 64, 64, a * 16 + b / 16, b % 16 * 4 + c / 64);
    QuotientUnique(a * 16 + b / 16, 64, a / 4, a % 4 * 16 + b / 16);
  }

  lemma FourDigits(n: nat)
    ensures GroupText(n) == Letters(n / 64 / 64 / 64 % 64, n / 64 / 64 % 64, n / 64 % 64, n % 64)
  {
    assert Digits(n / 64 / 64 / 64, 1) == [Letter(n / 64 / 64 / 64 % 64)];
    assert Digits(n / 64 / 64, 2) == Digits(n / 64 / 64 / 64, 1) + [Letter(n / 64 / 64 % 64)];
    assert Digits(n / 64, 3) == Digits(n / 64 / 64, 2) + [Letter(n / 64 % 64)];
  }

  // Cutting three octets into digits and joining these gives them back ...
  lemma Joined(a: byte, b: byte, c: byte)
    ensures First(a / 4, a % 4 * 16 + b / 16) == a
    ensures Second(a % 4 * 16 + b / 16, b % 16 * 4 + c / 64) == b
    ensures Third(b % 16 * 4 + c / 64, c % 64) == c
  {
  }

  // ... and so does joining four digits and cutting the octets.
  lemma Cut(a: nat, b: nat, c: nat, d: nat)
    requires a < 64 && b < 64 && c < 64 && d < 64
    ensures var x, y, z := First(a, b), Second(b, c), Third(c, d);
            x / 4 == a && x % 4 * 16 + y / 16 == b && y % 16 * 4 + z / 64 == c && z % 64 == d
  {
  }

  function Letters(a: nat, b: nat, c: nat, d: nat): (s: string)
    requires a < 64 && b < 64 && c < 64 && d < 64
    ensures |s| == 4
  {
    [Letter(a), Letter(b), Letter(c), Letter(d)]
  }

  lemma Sextets(a: byte, b: byte, c: byte)
    ensures GroupText(Group(a, b, c)) ==
            Letters(a / 4, a % 4 * 16 + b / 16, b % 16 * 4 + c / 64, c % 64)
  {
    GroupDigits(a, b, c);
    FourDigits(Group(a, b, c));
  }

  // The text of a group, from the digits its octets are joined from.
  lemma GroupOfDigits(a: nat, b: nat, c: nat, d: nat)
    requires a < 64 && b < 64 && c < 64 && d < 64
    ensures GroupText(Group(First(a, b), Second(b, c), Third(c, d))) == Letters(a, b, c, d)
  {
    Sextets(First(a, b), Second(b, c), Third(c, d));
    Cut(a, b, c, d);
  }

  // ---------------------------------------------------------------------
  // Decoding is exactly the inverse of encoding.

  lemma DecodeLetters(a: nat, b: nat, c: nat, d: nat, more: string)
    requires a < 64 && b < 64 && c < 64 && d < 64
    ensures Decode(Letters(a, b, c, d) + more) ==
            match Decode(more)
            case Some(rest) => Some([First(a, b), Second(b, c), Third(c, d)] + rest)
            case None => None
  {
    LetterValue(a);
    LetterValue(b);
    LetterValue(c);
    LetterValue(d);
    assert (Letters(a, b, c, d) + more)[4..] == more;
  }

  lemma DecodePadded(a: nat, b: nat, c: nat)
    requires a < 64 && b < 64 && c < 64
    ensures b % 16 == 0 ==> Decode([Letter(a), Letter(b)] + "==") == Some([First(a, b)])
    ensures c % 4 == 0 ==> Decode([Letter(a), Letter(b), Letter(c)] + "=") == Some([First(a, b), Second(b, c)])
  {
    LetterValue(a);
    LetterValue(b);
    LetterValue(c);
    var s := [Letter(a), Letter(b)] + "==";
    assert s[3..] == "=";
  }

  lemma DecodeOne(a: byte)
    ensures Decode(Encode([a])) == Some([a])
  {
    Sextets(a, 0, 0);
    Joined(a, 0, 0);
    DecodePadded(a / 4, a % 4 * 16, 0);
    assert Letters(a / 4, a % 4 * 16, 0, 0)[..2] == [Letter(a / 4), Letter(a % 4 * 16)];
  }

  lemma DecodeTwo(a: byte, b: byte)
    ensures Decode(Encode([a, b])) == Some([a, b])
  {
    Sextets(a, b, 0);
    Joined(a, b, 0);
    var x, y, z := a / 4, a % 4 * 16 + b / 16, b % 16 * 4;
    DecodePadded(x, y, z);
    assert Letters(x, y, z, 0)[..3] == [Letter(x), Letter(y), Letter(z)];
  }

  lemma EncodeGroup(x: byte, y: byte, z: byte, rest: seq<byte>)
    ensures Encode([x, y, z] + rest) == GroupText(Group(x, y, z)) + Encode(rest)
  {
    assert ([x, y, z] + rest)[3..] == rest;
  }

  lemma {:induction false} DecodeGroup(a: byte, b: byte, c: byte, rest: seq<byte>)
    requires Decode(Encode(rest)) == Some(rest)
    ensures Decode(Encode([a, b, c] + rest)) == Some([a, b, c] + rest)
  {
    EncodeGroup(a, b, c, rest);
    Sextets(a, b, c);
    Joined(a, b, c);
    DecodeLetters(a / 4, a % 4 * 16 + b / 16, b % 16 * 4 + c / 64, c % 64, Encode(rest));
  }

  lemma {:induction false} DecodeEncode(data: seq<byte>)
    ensures Decode(Encode(data)) == Some(data)
    decreases |data|
  {
    if |data| == 1 {
      DecodeOne(data[0]);
      assert data == [data[0]];
    } else if |data| == 2 {
      DecodeTwo(data[0], data[1]);
      assert data == [data[0], data[1]];
    } else if |data| > 2 {
      DecodeEncode(data[3..]);
      DecodeGroup(data[0], data[1], data[2], data[3..]);
      assert data == [data[0], data[1], data[2]] + data[3..];
    }
  }

  // The decoder accepts nothing but encodings.

  lemma {:induction false} EncodeDecodeOne(s: string)
    requires Decode(s).Some? && s != "" && s[2] == '='
    ensures Encode(Decode(s).value) == s
  {
    ValueLetter(s[0]);
    ValueLetter(s[1]);
    var a, b := Value(s[0]).value, Value(s[1]).value;
    GroupOfDigits(a, b, 0, 0);
    assert Letters(a, b, 0, 0)[..2] + "==" == s;
  }

  lemma {:induction false} EncodeDecodeTwo(s: string)
    requires Decode(s).Some? && s != "" && s[2] != '=' && s[3] == '='
    ensures Encode(Decode(s).value) == s
  {
    ValueLetter(s[0]);
    ValueLetter(s[1]);
    ValueLetter(s[2]);
    var a, b, c := Value(s[0]).value, Value(s[1]).value, Value(s[2]).value;
    GroupOfDigits(a, b, c, 0);
    assert Letters(a, b, c, 0)[..3] + "=" == s;
  }

  lemma {:induction false} EncodeDecodeGroup(s: string)
    requires Decode(s).Some? && s != "" && s[2] != '=' && s[3] != '='
    requires Encode(Decode(s[4..]).value) == s[4..]
    ensures Encode(Decode(s).value) == s
  {
    ValueLetter(s[0]);
    ValueLetter(s[1]);
    ValueLetter(s[2]);
    ValueLetter(s[3]);
    var a, b, c, d := Value(s[0]).value, Value(s[1]).value, Value(s[2]).value, Value(s[3]).value;
    GroupOfDigits(a, b, c, d);
    EncodeGroup(First(a, b), Second(b, c), Third(c, d), Decode(s[4..]).value);
    assert Letters(a, b, c, d) + s[4..] == s;
  }

  lemma {:induction false} EncodeDecode(s: string)
    requires Decode(s).Some?
    ensures Encode(Decode(s).value) == s
    decreases |s|
  {
    if s != "" {
      if s[2] == '=' {
        EncodeDecodeOne(s);
      } else if s[3] == '=' {
        EncodeDecodeTwo(s);
      } else {
        EncodeDecode(s[4..]);
        EncodeDecodeGroup(s);
      }
    }
  }

  lemma DecodeExact(s: string, data: seq<byte>)
    ensures Decode(s) == Some(data) <==> s == Encode(data)
  {
    DecodeEncode(data);
    if Decode(s).Some? {
      EncodeDecode(s);
    }
  }
}

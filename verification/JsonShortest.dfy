// The writer wastes nothing: no JSON text of a value with ASCII strings is
// shorter than the one it writes.

module JsonShortest {
  import opened Wrappers
  import opened JsonText
  import opened JsonWriter
  import opened JsonParser

  // ---------------------------------------------------------------------
  // Tokens: what the reader consumes for one is at least its printed length.

  lemma UnitLength(s: string)
    requires ReadUnit(s).Some?
    ensures |ReadUnit(s).value.1| == |s| - 4
  {
  }

  lemma CodePointLength(s: string)
    requires ReadCodePoint(s).Some?
    ensures |ReadCodePoint(s).value.1| <= |s| - 4
  {
    UnitLength(s);
  }

  lemma Utf8OfAscii(code: nat)
    requires code < 0x11_0000 && AsciiText(Utf8(code))
    ensures |Utf8(code)| == 1 && Utf8(code)[0] as int < 0x80
  {
    assert Utf8(code)[0] in Utf8(code);
  }

  lemma EscapeLength(c: octet)
    ensures |Escape(c)| <= 6
  {
  }

  lemma EscapeShortest(s: string, octets: seq<octet>, after: string)
    requires ReadEscape(s) == Some((octets, after)) && AsciiText(octets)
    ensures |octets| == 1 && |Escape(octets[0])| <= 1 + |s| - |after|
  {
    if s[0] == 'u' {
      CodePointLength(s[1..]);
      Utf8OfAscii(ReadCodePoint(s[1..]).value.0);
      EscapeLength(octets[0]);
    }
  }

  lemma AsciiParts(a: seq<octet>, b: seq<octet>)
    requires AsciiText(a + b)
    ensures AsciiText(a) && AsciiText(b)
  {
    forall c | c in a ensures c as int < 0x80 {
      assert c in a + b;
    }
    forall c | c in b ensures c as int < 0x80 {
      assert c in a + b;
    }
  }

  lemma EscapeAllCons(c: octet, more: seq<octet>)
    ensures EscapeAll([c] + more) == Escape(c) + EscapeAll(more)
  {
    assert ([c] + more)[1..] == more;
  }

  lemma {:induction false} CharsShortest(s: string, t: seq<octet>, rest: string)
    requires ReadChars(s) == Some((t, rest)) && AsciiText(t)
    ensures |EscapeAll(t)| + 1 <= |s| - |rest|
    decreases |s|
  {
    if s[0] == '\\' {
      var (octets, after) := ReadEscape(s[1..]).value;
      var more := ReadChars(after).value.0;
      assert t == octets + more;
      AsciiParts(octets, more);
      CharsShortest(after, more, rest);
      EscapeShortest(s[1..], octets, after);
      assert octets == [octets[0]];
      EscapeAllCons(octets[0], more);
    } else if s[0] != '\"' {
      var more := ReadChars(s[1..]).value.0;
      assert t == [s[0]] + more;
      AsciiParts([s[0]], more);
      assert s[0] in [s[0]];
      CharsShortest(s[1..], more, rest);
      EscapeAllCons(s[0], more);
    }
  }

  // No text that is read as these characters is shorter than theirs.
  lemma StringShortest(s: string, t: seq<octet>, rest: string)
    requires ReadString(s) == Some((t, rest)) && AsciiText(t)
    ensures |Quote(t)| <= |s| - |rest|
  {
    CharsShortest(s[1..], t, rest);
  }

  lemma {:induction false} DigitsShortest(s: string, acc: nat, n: nat, rest: string)
    requires ReadDigits(s, acc) == (n, rest)
    ensures |Digits(n)| <= |Digits(acc)| + |s| - |rest|
    decreases |s|
  {
    if s != "" && IsDigit(s[0]) {
      DigitsShortest(s[1..], 10 * acc + DigitValue(s[0]), n, rest);
      assert acc > 0 ==> (10 * acc + DigitValue(s[0])) / 10 == acc;
    }
  }

  lemma NumberShortest(s: string, n: int64, rest: string)
    requires ReadNumber(s) == Some((Number(n), rest))
    ensures |Decimal(n)| <= |s| - |rest|
  {
    var negative := s != "" && s[0] == '-';
    var digits := if negative then s[1..] else s;
    var natural := ReadNatural(digits).value.0;
    if digits[0] != '0' {
      DigitsShortest(digits[1..], DigitValue(digits[0]), natural, rest);
    }
  }

  // ---------------------------------------------------------------------
  // Values

  lemma {:induction false} ValueShortest(text: string, v: Json, rest: string)
    requires ReadValue(text) == Some((v, rest)) && Ascii(v)
    ensures |Print(v)| <= |text| - |rest|
    decreases |text|, 0
  {
    var s := SkipSpace(text);
    match v
    case Str(chars) => StringShortest(s, chars, rest);
    case Number(n) => NumberShortest(s, n, rest);
    case Array(items) =>
      var inside := SkipSpace(s[1..]);
      if items != [] {
        ItemsShortest(inside, items, rest);
      }
    case Object(members) =>
      var inside := SkipSpace(s[1..]);
      if members != [] {
        MembersShortest(inside, members, rest);
      }
    case _ =>
  }

  lemma {:induction false} ItemsShortest(text: string, items: seq<Json>, rest: string)
    requires ReadItems(text) == Some((items, rest)) && forall w :: w in items ==> Ascii(w)
    ensures items != [] && |PrintItems(items)| + 1 <= |text| - |rest|
    decreases |text|, 1
  {
    var (v, after) := ReadValue(text).value;
    var s := SkipSpace(after);
    assert items[0] == v;
    ValueShortest(text, v, after);
    if s[0] == ',' {
      var more := items[1..];
      assert ReadItems(s[1..]) == Some((more, rest));
      ItemsShortest(s[1..], more, rest);
    }
  }

  lemma {:induction false} MembersShortest(text: string, members: seq<Member>, rest: string)
    requires ReadMembers(text) == Some((members, rest))
    requires forall m :: m in members ==> AsciiText(m.key) && Ascii(m.value)
    ensures members != [] && |PrintMembers(members)| + 1 <= |text| - |rest|
    decreases |text|, 1
  {
    var (m, after) := ReadMember(text).value;
    var s := SkipSpace(after);
    assert members[0] == m;
    MemberShortest(text, m, after);
    if s[0] == ',' {
      var more := members[1..];
      assert ReadMembers(s[1..]) == Some((more, rest));
      MembersShortest(s[1..], more, rest);
    }
  }

  lemma {:induction false} MemberShortest(text: string, m: Member, rest: string)
    requires ReadMember(text) == Some((m, rest)) && AsciiText(m.key) && Ascii(m.value)
    ensures |PrintMember(m)| <= |text| - |rest|
    decreases |text|, 0
  {
    var (key, after) := ReadString(SkipSpace(text)).value;
    StringShortest(SkipSpace(text), key, after);
    ValueShortest(SkipSpace(after)[1..], m.value, rest);
  }

  // Whatever text a reader takes for an array or object with ASCII strings,
  // the one that serialize leaves is no longer.
  lemma WrittenIsShortest(text: string, v: Json)
    requires Parse(text) == Some(v) && v.Container() && Ascii(v)
    ensures Parse(Written(v, false)) == Some(v)
    ensures |Written(v, false)| <= |text|
  {
    RootTextExact(v);
    var rest := ReadValue(text).value.1;
    ValueShortest(text, v, rest);
  }
}

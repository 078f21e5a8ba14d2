// JSONSerializer driven by serializer::apply: a writer that puts a comma after
// every value and takes the last one back when it closes a container.

module JsonWriter {
  import opened JsonText
  import opened Views

  datatype Status = Ok | BufferFull

  datatype JsonState = InArray | InObject

  // What the writer leaves behind for a value: the text, and a comma unless
  // the value is a container at the root.
  function Written(v: Json, nested: bool): string {
    Print(v) + if nested || !v.Container() then "," else ""
  }

  // Items and members as the loops write them, each with its comma.
  function Emitted(items: seq<Json>): string {
    if items == [] then "" else Emitted(items[..|items| - 1]) + (Print(items[|items| - 1]) + ",")
  }

  function EmittedMembers(members: seq<Member>): string {
    if members == [] then ""
    else EmittedMembers(members[..|members| - 1]) + (PrintMember(members[|members| - 1]) + ",")
  }

  // ---------------------------------------------------------------------
  // Commas after every value, less the last one, are commas between values.

  lemma {:induction false} PrintItemsSnoc(items: seq<Json>, v: Json)
    ensures PrintItems(items + [v]) == (if items == [] then "" else PrintItems(items) + ",") + Print(v)
  {
    if items == [] {
      assert items + [v] == [v];
    } else {
      assert (items + [v])[1..] == items[1..] + [v];
      PrintItemsSnoc(items[1..], v);
      if |items| > 1 {
        calc {
          PrintItems(items + [v]);
          Print(items[0]) + "," + (PrintItems(items[1..]) + "," + Print(v));
          PrintItems(items) + "," + Print(v);
        }
      }
    }
  }

  lemma {:induction false} EmittedIsJoined(items: seq<Json>)
    ensures Emitted(items) == if items == [] then "" else PrintItems(items) + ","
  {
    if items != [] {
      var front, last := items[..|items| - 1], items[|items| - 1];
      assert items == front + [last];
      EmittedIsJoined(front);
      PrintItemsSnoc(front, last);
    }
  }

  lemma {:induction false} PrintMembersSnoc(members: seq<Member>, m: Member)
    ensures PrintMembers(members + [m])
            == (if members == [] then "" else PrintMembers(members) + ",") + PrintMember(m)
  {
    if members == [] {
      assert members + [m] == [m];
    } else {
      assert (members + [m])[1..] == members[1..] + [m];
      PrintMembersSnoc(members[1..], m);
      if |members| > 1 {
        calc {
          PrintMembers(members + [m]);
          PrintMember(members[0]) + "," + (PrintMembers(members[1..]) + "," + PrintMember(m));
          PrintMembers(members) + "," + PrintMember(m);
        }
      }
    }
  }

  lemma {:induction false} EmittedMembersIsJoined(members: seq<Member>)
    ensures EmittedMembers(members) == if members == [] then "" else PrintMembers(members) + ","
  {
    if members != [] {
      var front, last := members[..|members| - 1], members[|members| - 1];
      assert members == front + [last];
      EmittedMembersIsJoined(front);
      PrintMembersSnoc(front, last);
    }
  }

  // The next item fits: what is written before it, and it, are part of the
  // whole.
  lemma {:induction false} EmittedPrefix(items: seq<Json>, i: nat)
    requires i < |items|
    ensures Emitted(items[..i + 1]) == Emitted(items[..i]) + (Print(items[i]) + ",")
    ensures |Emitted(items[..i])| + |Print(items[i]) + ","| <= |Emitted(items)|
    decreases |items|
  {
    assert items[..i + 1][..i] == items[..i];
    if i + 1 < |items| {
      var front := items[..|items| - 1];
      assert front[..i + 1] == items[..i + 1];
      EmittedPrefix(front, i);
    } else {
      assert items[..i + 1] == items;
    }
  }

  lemma {:induction false} EmittedMembersPrefix(members: seq<Member>, i: nat)
    requires i < |members|
    ensures EmittedMembers(members[..i + 1]) == EmittedMembers(members[..i]) + (PrintMember(members[i]) + ",")
    ensures |EmittedMembers(members[..i])| + |PrintMember(members[i]) + ","| <= |EmittedMembers(members)|
    decreases |members|
  {
    assert members[..i + 1][..i] == members[..i];
    if i + 1 < |members| {
      var front := members[..|members| - 1];
      assert front[..i + 1] == members[..i + 1];
      EmittedMembersPrefix(front, i);
    } else {
      assert members[..i + 1] == members;
    }
  }

  lemma EscapeSnoc(s: seq<octet>, i: nat)
    requires i < |s|
    ensures EscapeAll(s[..i + 1]) == EscapeAll(s[..i]) + Escape(s[i])
    ensures |EscapeAll(s[..i + 1])| <= |EscapeAll(s)|
  {
    EscapeAppend(s[..i], [s[i]]);
    assert s[..i + 1] == s[..i] + [s[i]];
    EscapeAppend(s[..i + 1], s[i + 1..]);
    assert s == s[..i + 1] + s[i + 1..];
  }

  lemma {:induction false} EscapeAppend(s: seq<octet>, t: seq<octet>)
    ensures EscapeAll(s + t) == EscapeAll(s) + EscapeAll(t)
  {
    if s == [] {
      assert s + t == t;
    } else {
      assert (s + t)[1..] == s[1..] + t;
      EscapeAppend(s[1..], t);
    }
  }

  // ---------------------------------------------------------------------
  // Writing into a view

  // A closing bracket written over the comma of the last item, or after the
  // opening bracket when there is none, completes the text of the container.
  lemma Closed(a: seq<char>, b: seq<char>, c: seq<char>, pos: nat, open: string, emitted: string, body: string,
               tail: string)
    requires Wrote(a, b, pos, open + emitted) && open != "" && tail != ""
    requires emitted == "" || emitted == body + ","
    requires emitted == "" ==> body == ""
    requires Wrote(b, c, pos + |open + emitted| - (if emitted == "" then 0 else 1), tail)
    ensures Wrote(a, c, pos, open + body + tail)
  {
    if emitted == "" {
      WroteThen(a, b, c, pos, open + emitted, tail);
      assert open + emitted == open + body;
    } else {
      WroteOver(a, b, c, pos, open + emitted, tail);
      assert (open + emitted)[..|open + emitted| - 1] == open + body;
    }
  }

  // What end looks at before it writes the bracket.
  lemma BeforeClosing(a: seq<char>, b: seq<char>, pos: nat, open: char, emitted: string, body: string)
    requires Wrote(a, b, pos, [open] + emitted) && open != ','
    requires emitted == "" || emitted == body + ","
    ensures pos + |emitted| < |b| && (b[pos + |emitted|] == open <==> emitted == "")
  {
    WroteLast(a, b, pos, [open] + emitted);
  }

  lemma WrittenArray(items: seq<Json>, nested: bool)
    ensures Written(Array(items), nested) == "[" + PrintItems(items) + ("]" + if nested then "," else "")
  {
  }

  lemma WrittenObject(members: seq<Member>, nested: bool)
    ensures Written(Object(members), nested) == "{" + PrintMembers(members) + ("}" + if nested then "," else "")
  {
  }

  // The room that is left for the bracket, and the text when it is written:
  // arrays ...

  lemma ArrayClosing(a: seq<char>, b: seq<char>, pos: nat, items: seq<Json>, nested: bool)
    requires Wrote(a, b, pos, "[" + Emitted(items))
    ensures pos + |Emitted(items)| < |b| && (b[pos + |Emitted(items)|] == '[' <==> items == [])
    ensures |Written(Array(items), nested)|
            == |Emitted(items)| + (if items == [] then 1 else 0) + (if nested then 2 else 1)
  {
    EmittedIsJoined(items);
    WrittenArray(items, nested);
    BeforeClosing(a, b, pos, '[', Emitted(items), PrintItems(items));
  }

  lemma ArrayClosed(a: seq<char>, b: seq<char>, c: seq<char>, pos: nat, items: seq<Json>, nested: bool)
    requires Wrote(a, b, pos, "[" + Emitted(items))
    requires Wrote(b, c, pos + |Emitted(items)| + (if items == [] then 1 else 0), "]" + if nested then "," else "")
    ensures Wrote(a, c, pos, Written(Array(items), nested))
  {
    var emitted, body, tail := Emitted(items), PrintItems(items), "]" + if nested then "," else "";
    EmittedIsJoined(items);
    assert |"[" + emitted| == 1 + |emitted|;
    Closed(a, b, c, pos, "[", emitted, body, tail);
    assert Written(Array(items), nested) == "[" + body + tail by {
      WrittenArray(items, nested);
    }
  }

  // ... and objects.

  lemma ObjectClosing(a: seq<char>, b: seq<char>, pos: nat, members: seq<Member>, nested: bool)
    requires Wrote(a, b, pos, "{" + EmittedMembers(members))
    ensures pos + |EmittedMembers(members)| < |b| && (b[pos + |EmittedMembers(members)|] == '{' <==> members == [])
    ensures |Written(Object(members), nested)|
            == |EmittedMembers(members)| + (if members == [] then 1 else 0) + (if nested then 2 else 1)
  {
    EmittedMembersIsJoined(members);
    WrittenObject(members, nested);
    BeforeClosing(a, b, pos, '{', EmittedMembers(members), PrintMembers(members));
  }

  lemma ObjectClosed(a: seq<char>, b: seq<char>, c: seq<char>, pos: nat, members: seq<Member>, nested: bool)
    requires Wrote(a, b, pos, "{" + EmittedMembers(members))
    requires Wrote(b, c, pos + |EmittedMembers(members)| + (if members == [] then 1 else 0),
                   "}" + if nested then "," else "")
    ensures Wrote(a, c, pos, Written(Object(members), nested))
  {
    var emitted, body, tail := EmittedMembers(members), PrintMembers(members), "}" + if nested then "," else "";
    EmittedMembersIsJoined(members);
    assert |"{" + emitted| == 1 + |emitted|;
    Closed(a, b, c, pos, "{", emitted, body, tail);
    assert Written(Object(members), nested) == "{" + body + tail by {
      WrittenObject(members, nested);
    }
  }

  // The view does not follow a closing bracket.
  predicate NoCommaDue(view: seq<char>, pos: nat) {
    0 < pos <= |view| && view[pos - 1] != '}' && view[pos - 1] != ']'
  }

  lemma NextMember(members: seq<Member>, i: nat, done: string) returns (text: string)
    requires i < |members| && done == EmittedMembers(members[..i])
    ensures text == PrintMember(members[i]) + "," && done + text == EmittedMembers(members[..i + 1])
    ensures |done| + |text| <= |EmittedMembers(members)|
  {
    EmittedMembersPrefix(members, i);
    text := PrintMember(members[i]) + ",";
  }

  // The view passed by reference is the part of buf from pos to its end; each
  // call returns where it leaves that position.
  class JsonSerializer {
    var stateStack: seq<JsonState>

    constructor ()
      ensures stateStack == []
    {
      stateStack := [];
    }

    method Put(buf: array<char>, pos: nat, text: string) returns (next: nat)
      requires pos + |text| <= buf.Length
      modifies buf
      ensures Wrote(old(buf[..]), buf[..], pos, text) && next == pos + |text|
    {
      forall i | 0 <= i < |text| {
        buf[pos + i] := text[i];
      }
      next := pos + |text|;
      WroteIs(old(buf[..]), buf[..], pos, text);
    }

    method EscapeChar(c: octet, buf: array<char>, pos: nat) returns (next: nat)
      requires pos + |Escape(c)| <= buf.Length
      modifies buf
      ensures Wrote(old(buf[..]), buf[..], pos, Escape(c)) && next == pos + |Escape(c)|
    {
      var signed := if c as int >= 0x80 then c as int - 0x100 else c as int;
      if c == '\\' || c == '\"' {
        next := Put(buf, pos, ['\\', c]);
      } else if signed < 0x20 {
        var letter;
        if signed == 8 {
          letter := 'b';
        } else if signed == 12 {
          letter := 'f';
        } else if signed == 10 {
          letter := 'n';
        } else if signed == 13 {
          letter := 'r';
        } else if signed == 9 {
          letter := 't';
        } else {
          // (c >> 4) & 0xF and c & 0xF look at the bits of c, whatever its sign
          next := Put(buf, pos, "\\u00" + [HEX[c as int / 16], HEX[c as int % 16]]);
          return;
        }
        next := Put(buf, pos, ['\\', letter]);
      } else {
        next := Put(buf, pos, [c]);
      }
    }

    method EscapeString(s: seq<octet>, buf: array<char>, pos: nat) returns (next: nat)
      requires pos + |EscapeAll(s)| <= buf.Length
      modifies buf
      ensures Wrote(old(buf[..]), buf[..], pos, EscapeAll(s)) && next == pos + |EscapeAll(s)|
    {
      next := pos;
      ghost var before := buf[..];
      var i := 0;
      while i < |s|
        invariant i <= |s|
        invariant next == pos + |EscapeAll(s[..i])|
        invariant Wrote(before, buf[..], pos, EscapeAll(s[..i]))
      {
        EscapeSnoc(s, i);
        ghost var mid := buf[..];
        next := EscapeChar(s[i], buf, next);
        WroteThen(before, mid, buf[..], pos, EscapeAll(s[..i]), Escape(s[i]));
        i := i + 1;
      }
      assert s[..i] == s;
    }

    method QuotedKey(key: seq<octet>, buf: array<char>, pos: nat) returns (next: nat)
      requires pos + |Quote(key)| + 1 <= buf.Length
      modifies buf
      ensures Wrote(old(buf[..]), buf[..], pos, Quote(key) + ":") && next == pos + |Quote(key)| + 1
    {
      ghost var before := buf[..];
      next := Put(buf, pos, "\"");
      ghost var a := buf[..];
      next := EscapeString(key, buf, next);
      WroteThen(before, a, buf[..], pos, "\"", EscapeAll(key));
      ghost var b := buf[..];
      next := Put(buf, next, "\":");
      WroteThen(before, b, buf[..], pos, "\"" + EscapeAll(key), "\":");
      assert "\"" + EscapeAll(key) + "\":" == Quote(key) + ":";
    }

    // A key in quotes, with its colon; after a container that left no comma
    // (never the case between members) a comma first.
    method Key(key: seq<octet>, buf: array<char>, pos: nat) returns (next: nat)
      requires 0 < pos <= buf.Length
      requires pos + (if NoCommaDue(buf[..], pos) then 0 else 1) + |Quote(key)| + 1 <= buf.Length
      modifies buf
      ensures var text := if old(NoCommaDue(buf[..], pos)) then Quote(key) + ":" else "," + (Quote(key) + ":");
              Wrote(old(buf[..]), buf[..], pos, text) && next == pos + |text|
    {
      if buf[pos - 1] == '}' || buf[pos - 1] == ']' {
        ghost var before := buf[..];
        next := Put(buf, pos, ",");
        ghost var mid := buf[..];
        next := QuotedKey(key, buf, next);
        WroteThen(before, mid, buf[..], pos, ",", Quote(key) + ":");
      } else {
        next := QuotedKey(key, buf, pos);
      }
    }

    method BeginObj(buf: array<char>, pos: nat) returns (next: nat)
      requires pos < buf.Length
      modifies this, buf
      ensures Wrote(old(buf[..]), buf[..], pos, "{") && next == pos + 1
      ensures stateStack == old(stateStack) + [InObject]
    {
      next := Put(buf, pos, "{");
      stateStack := stateStack + [InObject];
    }

    method BeginArray(buf: array<char>, pos: nat) returns (next: nat)
      requires pos < buf.Length
      modifies this, buf
      ensures Wrote(old(buf[..]), buf[..], pos, "[") && next == pos + 1
      ensures stateStack == old(stateStack) + [InArray]
    {
      next := Put(buf, pos, "[");
      stateStack := stateStack + [InArray];
    }

    // The closing bracket takes the place of a trailing comma; a comma follows
    // it inside an enclosing container.
    method End(open: char, close: char, buf: array<char>, pos: nat) returns (next: nat)
      requires stateStack != [] && 0 < pos <= buf.Length
      requires (if buf[pos - 1] != open then pos - 1 else pos) + (if |stateStack| > 1 then 2 else 1) <= buf.Length
      modifies this, buf
      ensures var start := if old(buf[pos - 1]) != open then pos - 1 else pos;
              var text := [close] + if stateStack != [] then "," else "";
              Wrote(old(buf[..]), buf[..], start, text) && next == start + |text|
      ensures stateStack == old(stateStack)[..|old(stateStack)| - 1]
    {
      stateStack := stateStack[..|stateStack| - 1];
      next := pos;
      if buf[pos - 1] != open {
        next := pos - 1;
      }
      ghost var start, before := next, buf[..];
      next := Put(buf, next, [close]);
      if stateStack != [] {
        ghost var mid := buf[..];
        next := Put(buf, next, ",");
        WroteThen(before, mid, buf[..], start, [close], ",");
      }
    }

    method EndObj(buf: array<char>, pos: nat) returns (next: nat)
      requires stateStack != [] && 0 < pos <= buf.Length
      requires (if buf[pos - 1] != '{' then pos - 1 else pos) + (if |stateStack| > 1 then 2 else 1) <= buf.Length
      modifies this, buf
      ensures var start := if old(buf[pos - 1]) != '{' then pos - 1 else pos;
              var text := "}" + if stateStack != [] then "," else "";
              Wrote(old(buf[..]), buf[..], start, text) && next == start + |text|
      ensures stateStack == old(stateStack)[..|old(stateStack)| - 1]
    {
      next := End('{', '}', buf, pos);
    }

    method EndArray(buf: array<char>, pos: nat) returns (next: nat)
      requires stateStack != [] && 0 < pos <= buf.Length
      requires (if buf[pos - 1] != '[' then pos - 1 else pos) + (if |stateStack| > 1 then 2 else 1) <= buf.Length
      modifies this, buf
      ensures var start := if old(buf[pos - 1]) != '[' then pos - 1 else pos;
              var text := "]" + if stateStack != [] then "," else "";
              Wrote(old(buf[..]), buf[..], start, text) && next == start + |text|
      ensures stateStack == old(stateStack)[..|old(stateStack)| - 1]
    {
      next := End('[', ']', buf, pos);
    }

    // write_null and write_bool: the word and a comma, or nothing at all when
    // they do not fit.
    method WriteWord(word: string, buf: array<char>, pos: nat) returns (next: nat, status: Status)
      requires pos <= buf.Length
      modifies buf
      ensures status == Ok <==> pos + |word| + 1 <= buf.Length
      ensures status == Ok ==> Wrote(old(buf[..]), buf[..], pos, word + ",") && next == pos + |word| + 1
      ensures status != Ok ==> buf[..] == old(buf[..]) && next == pos
    {
      if |word| >= buf.Length - pos {
        return pos, BufferFull;
      }
      ghost var before := buf[..];
      next := Put(buf, pos, word);
      ghost var mid := buf[..];
      next := Put(buf, next, ",");
      WroteThen(before, mid, buf[..], pos, word, ",");
      status := Ok;
    }

    // snprintf truncates to the space there is and always ends its output
    // with a NUL, which the comma then overwrites.
    method WriteInt(n: int64, buf: array<char>, pos: nat) returns (next: nat, status: Status)
      requires pos <= buf.Length
      modifies buf
      ensures status == Ok <==> pos + |Decimal(n)| + 1 <= buf.Length
      ensures status == Ok ==> Wrote(old(buf[..]), buf[..], pos, Decimal(n) + ",") && next == pos + |Decimal(n)| + 1
      ensures status != Ok ==> buf[..pos] == old(buf[..pos]) && next == pos
    {
      var digits := Decimal(n);
      var room := buf.Length - pos;
      if |digits| >= room {
        if room > 0 {
          var end := Put(buf, pos, digits[..room - 1] + "\0");
          WroteLast(old(buf[..]), buf[..], pos, digits[..room - 1] + "\0");
          assert buf[..pos] == buf[..][..pos] && old(buf[..pos]) == old(buf[..])[..pos];
        }
        return pos, BufferFull;
      }
      ghost var before := buf[..];
      next := Put(buf, pos, digits + "\0");
      next := next - 1;
      ghost var mid := buf[..];
      next := Put(buf, next, ",");
      WroteOver(before, mid, buf[..], pos, digits + "\0", ",");
      assert (digits + "\0")[..|digits|] == digits;
      status := Ok;
    }

    // Only the two quotes are checked for; the caller has to provide room for
    // the rest.
    method WriteString(s: seq<octet>, buf: array<char>, pos: nat) returns (next: nat, status: Status)
      requires pos <= buf.Length
      requires buf.Length - pos >= 2 ==> pos + |Quote(s)| + 1 <= buf.Length
      modifies buf
      ensures status == Ok <==> buf.Length - pos >= 2
      ensures status == Ok ==> Wrote(old(buf[..]), buf[..], pos, Quote(s) + ",") && next == pos + |Quote(s)| + 1
      ensures status != Ok ==> buf[..] == old(buf[..]) && next == pos
    {
      if buf.Length - pos < 2 {
        return pos, BufferFull;
      }
      ghost var before := buf[..];
      next := Put(buf, pos, "\"");
      ghost var a := buf[..];
      next := EscapeString(s, buf, next);
      WroteThen(before, a, buf[..], pos, "\"", EscapeAll(s));
      ghost var b := buf[..];
      next := Put(buf, next, "\",");
      WroteThen(before, b, buf[..], pos, "\"" + EscapeAll(s), "\",");
      assert "\"" + EscapeAll(s) + "\"," == Quote(s) + ",";
      status := Ok;
    }

    // serializer::apply: for a view with room for the written text, exactly
    // that text is written, nothing beyond it is touched, and the state stack
    // is as it was.
    method Apply(v: Json, buf: array<char>, pos: nat) returns (written: nat, status: Status)
      requires pos + |Written(v, stateStack != [])| <= buf.Length
      modifies this, buf
      ensures status == Ok
      ensures Wrote(old(buf[..]), buf[..], pos, Written(v, stateStack != []))
      ensures written == |Written(v, stateStack != [])|
      ensures stateStack == old(stateStack)
      decreases v, 1
    {
      var next: nat;
      match v {
        case Null => next, status := WriteWord("null", buf, pos);
        case Bool(b) => next, status := WriteWord(if b then "true" else "false", buf, pos);
        case Number(n) => next, status := WriteInt(n, buf, pos);
        case Str(s) => next, status := WriteString(s, buf, pos);
        case Array(items) => next, status := ApplyArray(v, items, buf, pos);
        case Object(members) => next, status := ApplyObject(v, members, buf, pos);
      }
      written := next - pos;
    }

    method ApplyArray(ghost v: Json, items: seq<Json>, buf: array<char>, pos: nat) returns (next: nat, status: Status)
      requires v == Array(items)
      requires pos + |Written(v, stateStack != [])| <= buf.Length
      modifies this, buf
      ensures status == Ok
      ensures Wrote(old(buf[..]), buf[..], pos, Written(v, stateStack != []))
      ensures next == pos + |Written(v, stateStack != [])|
      ensures stateStack == old(stateStack)
      decreases v, 0
    {
      ghost var before := buf[..];
      EmittedIsJoined(items);
      WrittenArray(items, stateStack != []);
      next := BeginArray(buf, pos);
      ghost var open := buf[..];
      next, status := ApplyItems(items, buf, next);
      if status != Ok {
        return;
      }
      WroteThen(before, open, buf[..], pos, "[", Emitted(items));
      next := FinishArray(before, pos, items, buf, next);
    }

    // end_array after the loop: see Closed.
    method FinishArray(ghost before: seq<char>, ghost start: nat, ghost items: seq<Json>, buf: array<char>, pos: nat)
      returns (next: nat)
      requires stateStack != [] && Wrote(before, buf[..], start, "[" + Emitted(items))
      requires pos == start + 1 + |Emitted(items)|
      requires start + |Written(Array(items), |stateStack| > 1)| <= buf.Length
      modifies this, buf
      ensures stateStack == old(stateStack)[..|old(stateStack)| - 1]
      ensures Wrote(before, buf[..], start, Written(Array(items), stateStack != []))
      ensures next == start + |Written(Array(items), stateStack != [])|
    {
      ghost var mid := buf[..];
      ArrayClosing(before, mid, start, items, |stateStack| > 1);
      next := EndArray(buf, pos);
      ArrayClosed(before, mid, buf[..], start, items, stateStack != []);
    }

    // The loop over the items.
    method ApplyItems(items: seq<Json>, buf: array<char>, pos: nat) returns (next: nat, status: Status)
      requires stateStack != []
      requires pos + |Emitted(items)| <= buf.Length
      modifies this, buf
      ensures status == Ok
      ensures Wrote(old(buf[..]), buf[..], pos, Emitted(items)) && next == pos + |Emitted(items)|
      ensures stateStack == old(stateStack)
      decreases items, 2
    {
      ghost var before := buf[..];
      next, status := pos, Ok;
      var i := 0;
      while i < |items|
        invariant i <= |items| && status == Ok
        invariant Wrote(before, buf[..], pos, Emitted(items[..i])) && next == pos + |Emitted(items[..i])|
        invariant stateStack == old(stateStack)
      {
        EmittedPrefix(items, i);
        ghost var mid := buf[..];
        var written;
        written, status := Apply(items[i], buf, next);
        if status != Ok {
          return;
        }
        WroteThen(before, mid, buf[..], pos, Emitted(items[..i]), Print(items[i]) + ",");
        next := next + written;
        i := i + 1;
      }
      assert items[..i] == items;
    }

    method ApplyObject(ghost v: Json, members: seq<Member>, buf: array<char>, pos: nat)
      returns (next: nat, status: Status)
      requires v == Object(members)
      requires pos + |Written(v, stateStack != [])| <= buf.Length
      modifies this, buf
      ensures status == Ok
      ensures Wrote(old(buf[..]), buf[..], pos, Written(v, stateStack != []))
      ensures next == pos + |Written(v, stateStack != [])|
      ensures stateStack == old(stateStack)
      decreases v, 0
    {
      ghost var before := buf[..];
      EmittedMembersIsJoined(members);
      WrittenObject(members, stateStack != []);
      next := BeginObj(buf, pos);
      ghost var open := buf[..];
      WroteLast(before, open, pos, "{");
      next, status := ApplyMembers(members, buf, next);
      if status != Ok {
        return;
      }
      WroteThen(before, open, buf[..], pos, "{", EmittedMembers(members));
      next := FinishObject(before, pos, members, buf, next);
    }

    // end_obj after the loop: see Closed.
    method FinishObject(ghost before: seq<char>, ghost start: nat, ghost members: seq<Member>, buf: array<char>,
                        pos: nat)
      returns (next: nat)
      requires stateStack != [] && Wrote(before, buf[..], start, "{" + EmittedMembers(members))
      requires pos == start + 1 + |EmittedMembers(members)|
      requires start + |Written(Object(members), |stateStack| > 1)| <= buf.Length
      modifies this, buf
      ensures stateStack == old(stateStack)[..|old(stateStack)| - 1]
      ensures Wrote(before, buf[..], start, Written(Object(members), stateStack != []))
      ensures next == start + |Written(Object(members), stateStack != [])|
    {
      ghost var mid := buf[..];
      ObjectClosing(before, mid, start, members, |stateStack| > 1);
      next := EndObj(buf, pos);
      ObjectClosed(before, mid, buf[..], start, members, stateStack != []);
    }

    // The loop over the members, after the opening brace.
    method ApplyMembers(members: seq<Member>, buf: array<char>, pos: nat) returns (next: nat, status: Status)
      requires stateStack != [] && NoCommaDue(buf[..], pos)
      requires pos + |EmittedMembers(members)| <= buf.Length
      modifies this, buf
      ensures status == Ok
      ensures Wrote(old(buf[..]), buf[..], pos, EmittedMembers(members)) && next == pos + |EmittedMembers(members)|
      ensures stateStack == old(stateStack)
      decreases members, 4
    {
      ghost var before, done := buf[..], "";
      next, status := pos, Ok;
      var i := 0;
      while i < |members|
        invariant i <= |members| && status == Ok
        invariant done == EmittedMembers(members[..i])
        invariant Wrote(before, buf[..], pos, done) && NoCommaDue(buf[..], next) && next == pos + |done|
        invariant stateStack == old(stateStack)
      {
        ghost var mid := buf[..];
        ghost var text := NextMember(members, i, done);
        next, status := ApplyMember(members[i], text, buf, next);
        if status != Ok {
          return;
        }
        WroteThen(before, mid, buf[..], pos, done, text);
        done := done + text;
        i := i + 1;
      }
      assert members[..i] == members;
    }

    // The body of the loop over the members: the key, then the value.
    method ApplyMember(m: Member, ghost text: string, buf: array<char>, pos: nat) returns (next: nat, status: Status)
      requires stateStack != [] && NoCommaDue(buf[..], pos)
      requires text == PrintMember(m) + "," && pos + |text| <= buf.Length
      modifies this, buf
      ensures status == Ok
      ensures Wrote(old(buf[..]), buf[..], pos, text) && next == pos + |text| && NoCommaDue(buf[..], next)
      ensures stateStack == old(stateStack)
      decreases m, 2
    {
      ghost var before := buf[..];
      next := Key(m.key, buf, pos);
      ghost var mid := buf[..];
      var written;
      written, status := Apply(m.value, buf, next);
      next := next + written;
      WroteThen(before, mid, buf[..], pos, Quote(m.key) + ":", Print(m.value) + ",");
      assert Quote(m.key) + ":" + (Print(m.value) + ",") == text;
      WroteLast(before, buf[..], pos, text);
    }
  }
}

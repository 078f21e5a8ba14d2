// Writing through a BasicBufferView: a run of elements placed at a position of
// the underlying storage, with nothing else changed.

module Views {

  // after is before with data written at pos, element by element, and nothing
  // else changed.
  predicate Wrote<T(==)>(before: seq<T>, after: seq<T>, pos: nat, data: seq<T>)
    decreases |data|
  {
    if data == [] then pos <= |before| && after == before
    else pos < |before| && Wrote(before[pos := data[0]], after, pos + 1, data[1..])
  }

  // What that comes to.
  lemma {:induction false} WroteIs<T>(before: seq<T>, after: seq<T>, pos: nat, data: seq<T>)
    ensures Wrote(before, after, pos, data) <==>
              pos + |data| <= |before| && after == before[..pos] + data + before[pos + |data|..]
    decreases |data|
  {
    if data == [] {
      if pos <= |before| {
        assert before == before[..pos] + before[pos..];
      }
    } else if pos < |before| {
      var next := before[pos := data[0]];
      WroteIs(next, after, pos + 1, data[1..]);
      if pos + |data| <= |before| {
        assert next[..pos + 1] + data[1..] == before[..pos] + data;
      }
    }
  }

  lemma WroteThen<T>(a: seq<T>, b: seq<T>, c: seq<T>, pos: nat, s: seq<T>, t: seq<T>)
    requires Wrote(a, b, pos, s) && Wrote(b, c, pos + |s|, t)
    ensures Wrote(a, c, pos, s + t)
  {
    WroteIs(a, b, pos, s);
    WroteIs(b, c, pos + |s|, t);
    WroteIs(a, c, pos, s + t);
    assert b[..pos + |s|] == a[..pos] + s;
    assert b[pos + |s| + |t|..] == a[pos + |s| + |t|..];
  }

  // The last element of s taken back, and t written from there on.
  lemma WroteOver<T>(a: seq<T>, b: seq<T>, c: seq<T>, pos: nat, s: seq<T>, t: seq<T>)
    requires s != [] && t != []
    requires Wrote(a, b, pos, s) && Wrote(b, c, pos + |s| - 1, t)
    ensures Wrote(a, c, pos, s[..|s| - 1] + t)
  {
    WroteIs(a, b, pos, s);
    WroteIs(b, c, pos + |s| - 1, t);
    WroteIs(a, c, pos, s[..|s| - 1] + t);
    assert b[..pos + |s| - 1] == a[..pos] + s[..|s| - 1];
    assert b[pos + |s| - 1 + |t|..] == a[pos + |s| - 1 + |t|..];
  }

  // The length is kept, and the element before the end of what was written
  // is its last one.
  lemma WroteLast<T>(a: seq<T>, b: seq<T>, pos: nat, s: seq<T>)
    requires Wrote(a, b, pos, s)
    ensures |a| == |b| && pos + |s| <= |a|
    ensures s != [] ==> b[pos + |s| - 1] == s[|s| - 1]
    ensures b[..pos] == a[..pos]
  {
    WroteIs(a, b, pos, s);
    Middle(a[..pos], s, a[pos + |s|..]);
  }

  lemma Middle<T>(a: seq<T>, b: seq<T>, c: seq<T>)
    ensures (a + b + c)[..|a|] == a
    ensures b != [] ==> (a + b + c)[|a| + |b| - 1] == b[|b| - 1]
  {
  }
}

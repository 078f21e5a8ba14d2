// Base64Encoder: a streaming encoder that holds over the octets that do not
// fill a group. Chunking does not show in its output.

module Base64Encoders {
  import opened Bits
  import opened Bytes
  import opened Wrappers
  import opened Base64Text
  import opened Views

  const TABLE: string :=
    "ABCDEFGHIJKLM" + "NOPQRSTUVWXYZ" + "abcdefghijklm" + "nopqrstuvwxyz" + "0123456789+/"

  lemma TableIsAlphabet(i: nat)
    requires i < 64
    ensures |TABLE| == 64 && TABLE[i] == Letter(i)
  {
    if i < 13 {
      assert TABLE[i] == "ABCDEFGHIJKLM"[i];
    } else if i < 26 {
      assert TABLE[i] == "NOPQRSTUVWXYZ"[i - 13];
    } else if i < 39 {
      assert TABLE[i] == "abcdefghijklm"[i - 26];
    } else if i < 52 {
      assert TABLE[i] == "nopqrstuvwxyz"[i - 39];
    } else {
      assert TABLE[i] == "0123456789+/"[i - 52];
    }
  }

  // ---------------------------------------------------------------------
  // The shifts and masks of get_4_chars

  lemma Powers()
    ensures Pow2(2) == 4 && Pow2(4) == 16 && Pow2(6) == 64 && Pow2(8) == 256
  {
    Pow2Add(4, 4);
  }

  lemma TopBits(a: byte)
    ensures Shr(a, 2) == a / 4
  {
    Powers();
    ShrIsQuotient(a, 2);
  }

  lemma LowTwo(a: byte)
    ensures And(a, 0x03) == a % 4
  {
    Powers();
    MaskIsRemainder(a, 2);
  }

  lemma HighFour(b: byte)
    ensures Shr(And(b, 0xF0), 4) == b / 16
  {
    Powers();
    FieldIsRemainder(b, 4, 4);
  }

  lemma LowFour(b: byte)
    ensures And(b, 0x0F) == b % 16
  {
    Powers();
    MaskIsRemainder(b, 4);
  }

  lemma HighTwo(c: byte)
    ensures Shr(And(c, 0xC0), 6) == c / 64
  {
    Powers();
    FieldIsRemainder(c, 2, 6);
  }

  lemma LowSix(c: byte)
    ensures And(c, 0x3F) == c % 64
  {
    Powers();
    MaskIsRemainder(c, 6);
  }

  // The four digits, as the encoder shifts and masks them.

  function FirstDigit(a: byte): (d: nat)
    ensures d == a / 4
  {
    TopBits(a);
    Shr(a, 2)
  }

  function SecondDigit(a: byte, b: byte): (d: nat)
    ensures d == a % 4 * 16 + b / 16
  {
    LowTwo(a);
    HighFour(b);
    Powers();
    OrIsSum(a % 4, 4, b / 16);
    Or(Shl(And(a, 0x03), 4), Shr(And(b, 0xF0), 4))
  }

  function ThirdDigit(b: byte, c: byte): (d: nat)
    ensures d == b % 16 * 4 + c / 64
  {
    LowFour(b);
    HighTwo(c);
    Powers();
    OrIsSum(b % 16, 2, c / 64);
    Or(Shl(And(b, 0x0F), 2), Shr(And(c, 0xC0), 6))
  }

  // The last digit before padding.
  function LowTwoShifted(a: byte): (d: nat)
    ensures d == a % 4 * 16
  {
    LowTwo(a);
    Powers();
    Shl(And(a, 0x03), 4)
  }

  function LowFourShifted(b: byte): (d: nat)
    ensures d == b % 16 * 4
  {
    LowFour(b);
    Powers();
    Shl(And(b, 0x0F), 2)
  }

  function FourthDigit(c: byte): (d: nat)
    ensures d == c % 64
  {
    LowSix(c);
    And(c, 0x3F)
  }

  lemma EncodeThree(a: byte, b: byte, c: byte)
    ensures Encode([a, b, c]) == Letters(a / 4, a % 4 * 16 + b / 16, b % 16 * 4 + c / 64, c % 64)
  {
    Sextets(a, b, c);
    EncodeGroup(a, b, c, []);
    assert [a, b, c] + [] == [a, b, c];
  }

  lemma EncodeTwo(a: byte, b: byte)
    ensures Encode([a, b]) == [Letter(a / 4), Letter(a % 4 * 16 + b / 16), Letter(b % 16 * 4), '=']
  {
    Sextets(a, b, 0);
  }

  lemma EncodeOne(a: byte)
    ensures Encode([a]) == [Letter(a / 4), Letter(a % 4 * 16), '=', '=']
  {
    Sextets(a, 0, 0);
  }

  // The last of the test vectors of section 10 of RFC 4648: foob, fooba, foobar
  lemma TestVectors(f: byte, o: byte, b: byte, a: byte, r: byte)
    requires f == 0x66 && o == 0x6F && b == 0x62 && a == 0x61 && r == 0x72
    ensures Encode([f, o, o] + [b]) == "Zm9vYg=="
    ensures Encode([f, o, o] + [b, a]) == "Zm9vYmE="
    ensures Encode([f, o, o] + [b, a, r]) == "Zm9vYmFy"
  {
    EncodeThree(f, o, o);
    EncodeAppend([f, o, o], [b]);
    EncodeOne(b);
    EncodeAppend([f, o, o], [b, a]);
    EncodeTwo(b, a);
    EncodeAppend([f, o, o], [b, a, r]);
    EncodeThree(b, a, r);
  }

  // ---------------------------------------------------------------------
  // What the encoder does with a chunk: it encodes the whole groups of what
  // it has, and holds the rest over.

  function Whole(n: nat): (w: nat)
    ensures w <= n < w + 3 && w % 3 == 0
  {
    n / 3 * 3
  }

  function ChunkText(held: seq<byte>, chunk: seq<byte>): string {
    Encode((held + chunk)[..Whole(|held + chunk|)])
  }

  function ChunkHeld(held: seq<byte>, chunk: seq<byte>): (rest: seq<byte>)
    ensures |rest| < 3
  {
    (held + chunk)[Whole(|held + chunk|)..]
  }

  // The output of a run of encode calls ended by finish.
  function Streamed(held: seq<byte>, chunks: seq<seq<byte>>, last: seq<byte>): string
    decreases |chunks|
  {
    if chunks == [] then Encode(held + last)
    else ChunkText(held, chunks[0]) + Streamed(ChunkHeld(held, chunks[0]), chunks[1..], last)
  }

  function Concat(chunks: seq<seq<byte>>, last: seq<byte>): seq<byte> {
    if chunks == [] then last else chunks[0] + Concat(chunks[1..], last)
  }

  lemma {:induction false} ChunkThen(held: seq<byte>, chunk: seq<byte>, more: seq<byte>)
    ensures Encode(held + (chunk + more)) == ChunkText(held, chunk) + Encode(ChunkHeld(held, chunk) + more)
  {
    var all := held + chunk;
    var w := Whole(|all|);
    assert held + (chunk + more) == all[..w] + (all[w..] + more);
    EncodeAppend(all[..w], all[w..] + more);
  }

  // However the input is split, the output is the encoding of the whole.
  lemma {:induction false} StreamedIsEncode(held: seq<byte>, chunks: seq<seq<byte>>, last: seq<byte>)
    ensures Streamed(held, chunks, last) == Encode(held + Concat(chunks, last))
    decreases |chunks|
  {
    if chunks != [] {
      StreamedIsEncode(ChunkHeld(held, chunks[0]), chunks[1..], last);
      ChunkThen(held, chunks[0], Concat(chunks[1..], last));
    }
  }

  // So a strict decoder returns the input, and two runs write the same text
  // exactly when they were given the same octets.
  lemma StreamedExact(chunks: seq<seq<byte>>, last: seq<byte>, data: seq<byte>)
    ensures Decode(Streamed([], chunks, last)) == Some(Concat(chunks, last))
    ensures Streamed([], chunks, last) == Encode(data) <==> Concat(chunks, last) == data
  {
    var all := Concat(chunks, last);
    StreamedIsEncode([], chunks, last);
    assert [] + all == all;
    DecodeEncode(all);
    DecodeEncode(data);
  }

  // ---------------------------------------------------------------------
  // The encoder. The output view is the part of out from pos to its end.

  datatype Status = Ok | OutputBufferFull | NeedsInput

  datatype Result = Result(processed: nat, output: nat, status: Status)

  // The counts an encoder reports when its output view fills up: sizes that
  // remain rather than progress, and nothing when the first group of a call
  // with octets held over does not fit.
  function Full(held: nat, size: nat, room: nat): Result
    requires held < 3 && room / 4 < (held + size) / 3
  {
    if held == 0 then Result(size - room / 4 * 3, room % 4, OutputBufferFull)
    else if room < 4 then Result(0, 0, OutputBufferFull)
    else Result(size - (room / 4 - 1) * 3, room % 4 + 4, OutputBufferFull)
  }

  // The next three octets of a run of whole groups.
  lemma {:induction false} WholeLength(data: seq<byte>)
    requires |data| % 3 == 0
    ensures |Encode(data)| == |data| / 3 * 4
  {
    EncodeLength(data);
    QuotientUnique(|data| + 2, 3, |data| / 3, 2);
  }

  lemma FullAfter(size: nat, room: nat, groups: nat)
    requires groups * 3 + 3 <= size && groups * 4 <= room < groups * 4 + 4
    ensures size / 3 * 4 > room
    ensures Full(0, size, room) == Result(size - groups * 3, room - groups * 4, OutputBufferFull)
  {
    QuotientUnique(room, 4, groups, room - groups * 4);
  }

  lemma WholeIs(size: nat, groups: nat)
    requires groups * 3 <= size < groups * 3 + 3
    ensures Whole(size) == groups * 3 && size / 3 == groups
  {
    QuotientUnique(size, 3, groups, size - groups * 3);
  }

  // The text of data has been written from pos on, up to next.
  ghost predicate Encoded(before: seq<char>, after: seq<char>, pos: nat, data: seq<byte>, next: nat) {
    Wrote(before, after, pos, Encode(data)) && next == pos + |Encode(data)|
  }

  lemma {:induction false} NextGroup(before: seq<char>, mid: seq<char>, after: seq<char>, pos: nat,
                                     data: seq<byte>, i: nat, groups: nat, next: nat)
    requires i == groups * 3 && i + 3 <= |data|
    requires Encoded(before, mid, pos, data[..i], next)
    requires Encoded(mid, after, next, [data[i], data[i + 1], data[i + 2]], next + 4)
    ensures Encoded(before, after, pos, data[..i + 3], next + 4)
  {
    var group := [data[i], data[i + 1], data[i + 2]];
    assert data[..i + 3] == data[..i] + group;
    WholeIs(i, groups);
    EncodeAppend(data[..i], group);
    WholeLength(group);
    WroteThen(before, mid, after, pos, Encode(data[..i]), Encode(group));
  }

  // What encode does to its output view when the whole groups of the octets
  // it has fit ...
  ghost predicate ChunkDone(all: seq<byte>, size: nat, before: seq<char>, after: seq<char>, pos: nat,
                            left: seq<byte>, r: Result)
  {
    && r == Result(size, |all| / 3 * 4, Ok)
    && left == all[Whole(|all|)..]
    && Encoded(before, after, pos, all[..Whole(|all|)], pos + |all| / 3 * 4)
  }

  // ... and when they do not: it writes those that do.
  ghost predicate ChunkFull(all: seq<byte>, held: nat, size: nat, before: seq<char>, after: seq<char>, pos: nat,
                            r: Result)
    requires held < 3 && |all| == held + size && pos <= |before| && (|before| - pos) / 4 < |all| / 3
  {
    var fit := (|before| - pos) / 4;
    && r == Full(held, size, |before| - pos)
    && Encoded(before, after, pos, all[..fit * 3], pos + fit * 4)
  }

  ghost predicate EncodedChunk(held: seq<byte>, chunk: seq<byte>, before: seq<char>, after: seq<char>, pos: nat,
                               left: seq<byte>, r: Result)
    requires |held| < 3 && pos <= |before|
  {
    var all := held + chunk;
    if |all| / 3 <= (|before| - pos) / 4 then ChunkDone(all, |chunk|, before, after, pos, left, r)
    else ChunkFull(all, |held|, |chunk|, before, after, pos, r) && left == held
  }

  lemma GroupsDone(chunk: seq<byte>, before: seq<char>, after: seq<char>, pos: nat, groups: nat, next: nat)
    requires groups * 3 <= |chunk| < groups * 3 + 3
    requires pos <= |before| && next == pos + groups * 4 <= |before|
    requires Encoded(before, after, pos, chunk[..groups * 3], next)
    ensures EncodedChunk([], chunk, before, after, pos, chunk[groups * 3..], Result(|chunk|, next - pos, Ok))
  {
    WholeIs(|chunk|, groups);
    assert [] + chunk == chunk;
  }

  lemma GroupsFull(chunk: seq<byte>, before: seq<char>, after: seq<char>, pos: nat, groups: nat, next: nat)
    requires groups * 3 + 3 <= |chunk|
    requires next == pos + groups * 4 <= |before| < next + 4
    requires Encoded(before, after, pos, chunk[..groups * 3], next)
    ensures EncodedChunk([], chunk, before, after, pos, [],
                         Result(|chunk| - groups * 3, |before| - next, OutputBufferFull))
  {
    FullAfter(|chunk|, |before| - pos, groups);
    assert [] + chunk == chunk;
  }

  lemma SliceAfter(group: seq<byte>, rest: seq<byte>, n: nat)
    requires |group| == 3 && n <= |rest|
    ensures (group + rest)[..n + 3] == group + rest[..n]
    ensures (group + rest)[n + 3..] == rest[n..]
  {
  }

  lemma {:induction false} GroupThen(before: seq<char>, mid: seq<char>, after: seq<char>, pos: nat,
                                     group: seq<byte>, rest: seq<byte>, n: nat, next: nat)
    requires |group| == 3 && n <= |rest|
    requires Encoded(before, mid, pos, group, pos + 4)
    requires Encoded(mid, after, pos + 4, rest[..n], next)
    ensures Encoded(before, after, pos, (group + rest)[..n + 3], next)
  {
    SliceAfter(group, rest, n);
    EncodeAppend(group, rest[..n]);
    WroteThen(before, mid, after, pos, Encode(group), Encode(rest[..n]));
  }

  lemma FullShift(held: nat, size: nat, k: nat, room: nat)
    requires 0 < held < 3 && held + k == 3 && k <= size && room >= 4
    requires room / 4 < (held + size) / 3
    ensures room / 4 - 1 < (size - k) / 3
    ensures var r := Full(0, size - k, room - 4);
            Full(held, size, room) == Result(r.processed + k, r.output + 4, r.status)
  {
    assert held + size == size - k + 3;
  }

  // The octets held over, completed to a group by the first of the chunk,
  // then the rest of the chunk.

  lemma DoneAfterGroup(group: seq<byte>, rest: seq<byte>, k: nat, size: nat, before: seq<char>, mid: seq<char>,
                       after: seq<char>, pos: nat, left: seq<byte>, r: Result)
    requires |group| == 3
    requires Encoded(before, mid, pos, group, pos + 4)
    requires ChunkDone(rest, size, mid, after, pos + 4, left, r)
    ensures ChunkDone(group + rest, size + k, before, after, pos, left, Result(r.processed + k, r.output + 4, Ok))
  {
    var w := Whole(|rest|);
    WholeIs(|rest| + 3, |rest| / 3 + 1);
    GroupThen(before, mid, after, pos, group, rest, w, pos + 4 + |rest| / 3 * 4);
    SliceAfter(group, rest, w);
  }

  lemma FullAfterGroup(group: seq<byte>, rest: seq<byte>, k: nat, held: nat, before: seq<char>, mid: seq<char>,
                       after: seq<char>, pos: nat, r: Result)
    requires |group| == 3 && 0 < held < 3 && held + k == 3
    requires pos + 4 <= |before| == |mid| && (|before| - pos) / 4 < |group + rest| / 3
    requires Encoded(before, mid, pos, group, pos + 4)
    requires (|mid| - (pos + 4)) / 4 < |rest| / 3 && ChunkFull(rest, 0, |rest|, mid, after, pos + 4, r)
    ensures ChunkFull(group + rest, held, |rest| + k, before, after, pos,
                      Result(r.processed + k, r.output + 4, r.status))
  {
    FullShift(held, |rest| + k, k, |before| - pos);
    var fit := (|before| - pos) / 4;
    assert (|mid| - (pos + 4)) / 4 == fit - 1;
    GroupThen(before, mid, after, pos, group, rest, (fit - 1) * 3, pos + fit * 4);
  }

  lemma {:induction false} AfterGroup(held: seq<byte>, chunk: seq<byte>, k: nat, before: seq<char>, mid: seq<char>,
                                      after: seq<char>, pos: nat, left: seq<byte>, r: Result)
    requires 0 < |held| < 3 && |held| + k == 3 && k <= |chunk| && pos + 4 <= |before| == |mid|
    requires Encoded(before, mid, pos, held + chunk[..k], pos + 4)
    requires EncodedChunk([], chunk[k..], mid, after, pos + 4, if r.status == Ok then left else [], r)
    requires r.status != Ok ==> left == held
    ensures EncodedChunk(held, chunk, before, after, pos, left, Result(r.processed + k, r.output + 4, r.status))
  {
    var group, rest := held + chunk[..k], chunk[k..];
    assert [] + rest == rest;
    assert held + chunk == group + rest;
    assert (|mid| - (pos + 4)) / 4 == (|before| - pos) / 4 - 1;
    if |held + chunk| / 3 <= (|before| - pos) / 4 {
      DoneAfterGroup(group, rest, k, |rest|, before, mid, after, pos, left, r);
    } else {
      FullAfterGroup(group, rest, k, |held|, before, mid, after, pos, r);
    }
  }

  ghost predicate Finished(held: seq<byte>, chunk: seq<byte>, before: seq<char>, after: seq<char>, pos: nat,
                           left: seq<byte>, r: Result)
    requires |held| < 3 && pos <= |before|
  {
    var all, room := held + chunk, |before| - pos;
    if (|all| + 2) / 3 <= room / 4 then
      && r == Result(|chunk|, (|all| + 2) / 3 * 4, Ok)
      && left == []
      && Encoded(before, after, pos, all, pos + r.output)
    else if |all| / 3 <= room / 4 then
      && r == Result(|chunk|, |all| / 3 * 4, OutputBufferFull)
      && left == ChunkHeld(held, chunk)
      && Encoded(before, after, pos, all[..Whole(|all|)], pos + r.output)
    else ChunkFull(all, |held|, |chunk|, before, after, pos, r) && left == held
  }

  lemma FinishFull(held: seq<byte>, chunk: seq<byte>, before: seq<char>, mid: seq<char>, pos: nat, left: seq<byte>,
                   r: Result)
    requires |held| < 3 && pos <= |before|
    requires r.status == Ok && EncodedChunk(held, chunk, before, mid, pos, left, r)
    requires left != [] && |before| - pos - r.output < 4
    ensures Finished(held, chunk, before, mid, pos, left, Result(r.processed, r.output, OutputBufferFull))
  {
  }

  lemma {:induction false} FinishDone(held: seq<byte>, chunk: seq<byte>, before: seq<char>, mid: seq<char>,
                                      after: seq<char>, pos: nat, left: seq<byte>, r: Result)
    requires |held| < 3 && pos <= |before|
    requires r.status == Ok && EncodedChunk(held, chunk, before, mid, pos, left, r)
    requires left != [] ==> |before| - pos - r.output >= 4
    requires Encoded(mid, after, pos + r.output, left, pos + r.output + if left == [] then 0 else 4)
    ensures Finished(held, chunk, before, after, pos, [],
                     Result(r.processed, r.output + (if left == [] then 0 else 4), Ok))
  {
    var all := held + chunk;
    if left == [] {
      assert all[..Whole(|all|)] == all;
      assert (|all| + 2) / 3 == |all| / 3;
    } else {
      assert (|all| + 2) / 3 == |all| / 3 + 1;
    }
    RestThen(before, mid, after, pos, all, Whole(|all|), pos + r.output, if left == [] then 0 else 4);
  }

  lemma {:induction false} RestThen(before: seq<char>, mid: seq<char>, after: seq<char>, pos: nat,
                                    all: seq<byte>, w: nat, next: nat, more: nat)
    requires w <= |all| && w % 3 == 0
    requires Encoded(before, mid, pos, all[..w], next)
    requires Encoded(mid, after, next, all[w..], next + more)
    ensures Encoded(before, after, pos, all, next + more)
  {
    assert all == all[..w] + all[w..];
    EncodeAppend(all[..w], all[w..]);
    WroteThen(before, mid, after, pos, Encode(all[..w]), Encode(all[w..]));
  }

  // ---------------------------------------------------------------------
  // Whole runs of the methods below

  // Successive calls that all return Ok, each writing where the one before it
  // ended; views holds the storage before, between and after the calls.
  ghost predicate OkRun(held: seq<byte>, chunks: seq<seq<byte>>, last: seq<byte>, views: seq<seq<char>>, pos: nat)
    requires |held| < 3 && |views| == |chunks| + 2
    decreases |chunks|
  {
    && pos <= |views[0]|
    && if chunks == [] then
         Finished(held, last, views[0], views[1], pos, [], Result(|last|, (|held + last| + 2) / 3 * 4, Ok))
       else
         var written := |held + chunks[0]| / 3 * 4;
         && EncodedChunk(held, chunks[0], views[0], views[1], pos, ChunkHeld(held, chunks[0]),
                         Result(|chunks[0]|, written, Ok))
         && OkRun(ChunkHeld(held, chunks[0]), chunks[1..], last, views[1..], pos + written)
  }

  // They leave the encoding of the whole input behind, and nothing else.
  lemma {:induction false} OkRunWrites(held: seq<byte>, chunks: seq<seq<byte>>, last: seq<byte>,
                                       views: seq<seq<char>>, pos: nat)
    requires |held| < 3 && |views| == |chunks| + 2
    requires OkRun(held, chunks, last, views, pos)
    ensures Wrote(views[0], views[|chunks| + 1], pos, Encode(held + Concat(chunks, last)))
    decreases |chunks|
  {
    if chunks != [] {
      var left := ChunkHeld(held, chunks[0]);
      var written := |held + chunks[0]| / 3 * 4;
      OkRunWrites(left, chunks[1..], last, views[1..], pos + written);
      var more := Concat(chunks[1..], last);
      ChunkThen(held, chunks[0], more);
      WroteThen(views[0], views[1], views[|chunks| + 1], pos, ChunkText(held, chunks[0]), Encode(left + more));
    }
  }

  // The conditions under which the calls of a run return Ok.
  predicate EveryCallOk(held: seq<byte>, chunks: seq<seq<byte>>, last: seq<byte>, room: nat)
    decreases |chunks|
  {
    if chunks == [] then (|held + last| + 2) / 3 <= room / 4
    else
      && |held + chunks[0]| / 3 <= room / 4
      && EveryCallOk(ChunkHeld(held, chunks[0]), chunks[1..], last, room - |held + chunks[0]| / 3 * 4)
  }

  // All of them do exactly when the view holds the encoding of the whole.
  lemma {:induction false} RoomForAll(held: seq<byte>, chunks: seq<seq<byte>>, last: seq<byte>, room: nat)
    ensures EveryCallOk(held, chunks, last, room) <==> |Encode(held + Concat(chunks, last))| <= room
    decreases |chunks|
  {
    if chunks == [] {
      EncodeLength(held + last);
    } else {
      var left, more := ChunkHeld(held, chunks[0]), Concat(chunks[1..], last);
      var groups := |held + chunks[0]| / 3;
      ChunkThen(held, chunks[0], more);
      WholeLength((held + chunks[0])[..Whole(|held + chunks[0]|)]);
      assert |ChunkText(held, chunks[0])| == groups * 4;
      if groups <= room / 4 {
        RoomForAll(left, chunks[1..], last, room - groups * 4);
      }
    }
  }

  lemma OneMore(held: seq<byte>, chunk: seq<byte>, s: seq<char>, pos: nat)
    requires |held| == 1 && |chunk| == 1 && pos <= |s|
    ensures EncodedChunk(held, chunk, s, s, pos, [held[0], chunk[0]], Result(1, 0, Ok))
  {
    NothingWritten(s, pos, held + chunk);
  }

  lemma NoRoom(held: seq<byte>, chunk: seq<byte>, s: seq<char>, pos: nat)
    requires 0 < |held| < 3 && |held| + |chunk| >= 3 && pos <= |s| < pos + 4
    ensures EncodedChunk(held, chunk, s, s, pos, held, Result(0, 0, OutputBufferFull))
  {
    NothingWritten(s, pos, held + chunk);
  }

  // A view with room for no group, or no group to write.
  lemma NothingWritten(s: seq<char>, pos: nat, data: seq<byte>)
    requires pos <= |s|
    ensures Encoded(s, s, pos, data[..0], pos)
  {
  }

  lemma FourWritten(before: seq<char>, pos: nat, w: char, x: char, y: char, z: char)
    requires pos + 4 <= |before|
    ensures Wrote(before, before[pos := w][pos + 1 := x][pos + 2 := y][pos + 3 := z], pos, [w, x, y, z])
  {
    WroteIs(before, before[pos := w][pos + 1 := x][pos + 2 := y][pos + 3 := z], pos, [w, x, y, z]);
  }

  class Base64Encoder {
    const holdover: array<byte> // its first element says how many of the others are in use

    ghost predicate Valid()
      reads this, holdover
    {
      holdover.Length == 3 && holdover[0] <= 2
    }

    ghost function Held(): (s: seq<byte>)
      requires Valid()
      reads this, holdover
      ensures |s| < 3
    {
      holdover[1..1 + holdover[0]]
    }

    constructor ()
      ensures Valid() && fresh(holdover) && Held() == []
    {
      holdover := new byte[3](_ => 0);
    }

    static method GetFourChars(a: byte, b: byte, c: byte, out: array<char>, pos: nat)
      requires pos + 4 <= out.Length
      modifies out
      ensures Encoded(old(out[..]), out[..], pos, [a, b, c], pos + 4)
    {
      EncodeThree(a, b, c);
      PutDigits(FirstDigit(a), SecondDigit(a, b), ThirdDigit(b, c), FourthDigit(c), out, pos);
    }

    // The digits first, then in their places their letters.
    static method PutDigits(w: nat, x: nat, y: nat, z: nat, out: array<char>, pos: nat)
      requires w < 64 && x < 64 && y < 64 && z < 64
      requires pos + 4 <= out.Length
      modifies out
      ensures Wrote(old(out[..]), out[..], pos, Letters(w, x, y, z))
    {
      out[pos] := w as char;
      out[pos + 1] := x as char;
      out[pos + 2] := y as char;
      out[pos + 3] := z as char;
      Look(out, pos);
      Look(out, pos + 1);
      Look(out, pos + 2);
      Look(out, pos + 3);
      ghost var before := old(out[..]);
      assert out[..] == before[pos := Letter(w)][pos + 1 := Letter(x)][pos + 2 := Letter(y)][pos + 3 := Letter(z)];
      FourWritten(before, pos, Letter(w), Letter(x), Letter(y), Letter(z));
    }

    // A digit replaced by its letter.
    static method Look(out: array<char>, pos: nat)
      requires pos < out.Length && out[pos] as int < 64
      modifies out
      ensures out[..] == old(out[..])[pos := Letter(old(out[pos]) as int)]
    {
      TableIsAlphabet(out[pos] as int);
      out[pos] := TABLE[out[pos] as int];
    }

    method NoHoldover(inp: seq<byte>, out: array<char>, pos: nat) returns (r: Result)
      requires Valid() && pos <= out.Length
      modifies holdover, out
      ensures Valid()
      ensures EncodedChunk([], inp, old(out[..]), out[..], pos, if r.status == Ok then Held() else [], r)
      ensures r.status != Ok ==> holdover[..] == old(holdover[..])
    {
      ghost var before := out[..];
      ghost var groups := 0;
      var i, next := 0, pos;
      while |inp| - i >= 3
        invariant i == groups * 3 <= |inp| && next == pos + groups * 4 <= out.Length
        invariant Encoded(before, out[..], pos, inp[..i], next)
        invariant holdover[..] == old(holdover[..])
      {
        if out.Length - next < 4 {
          GroupsFull(inp, before, out[..], pos, groups, next);
          r := Result(|inp| - i, out.Length - next, OutputBufferFull);
          return;
        }
        ghost var mid := out[..];
        GetFourChars(inp[i], inp[i + 1], inp[i + 2], out, next);
        NextGroup(before, mid, out[..], pos, inp, i, groups, next);
        next := next + 4;
        i := i + 3;
        groups := groups + 1;
      }
      GroupsDone(inp, before, out[..], pos, groups, next);
      HoldOver(inp[i..]);
      r := Result(|inp|, next - pos, Ok);
    }

    method OneHoldover(inp: seq<byte>, out: array<char>, pos: nat) returns (r: Result)
      requires Valid() && |Held()| == 1 && inp != [] && pos <= out.Length
      modifies holdover, out
      ensures Valid()
      ensures EncodedChunk(old(Held()), inp, old(out[..]), out[..], pos, Held(), r)
    {
      ghost var held, before := Held(), out[..];
      if |inp| < 2 {
        holdover[0] := 2;
        holdover[2] := inp[0];
        OneMore(held, inp, before, pos);
        return Result(1, 0, Ok);
      }
      if out.Length - pos < 4 {
        NoRoom(held, inp, before, pos);
        return Result(0, 0, OutputBufferFull);
      }
      GetFourChars(holdover[1], inp[0], inp[1], out, pos);
      ghost var mid := out[..];
      assert held + inp[..2] == [held[0], inp[0], inp[1]];
      r := NoHoldover(inp[2..], out, pos + 4);
      AfterGroup(held, inp, 2, before, mid, out[..], pos, Held(), r);
      r := Result(r.processed + 2, r.output + 4, r.status);
    }

    method TwoHoldover(inp: seq<byte>, out: array<char>, pos: nat) returns (r: Result)
      requires Valid() && |Held()| == 2 && pos <= out.Length
      modifies holdover, out
      ensures Valid()
      ensures inp == [] ==> r == Result(0, 0, NeedsInput) && out[..] == old(out[..]) && Held() == old(Held())
      ensures inp != [] ==> EncodedChunk(old(Held()), inp, old(out[..]), out[..], pos, Held(), r)
    {
      ghost var held, before := Held(), out[..];
      if |inp| < 1 {
        return Result(0, 0, NeedsInput);
      }
      if out.Length - pos < 4 {
        NoRoom(held, inp, before, pos);
        return Result(0, 0, OutputBufferFull);
      }
      GetFourChars(holdover[1], holdover[2], inp[0], out, pos);
      ghost var mid := out[..];
      assert held + inp[..1] == [holdover[1], holdover[2], inp[0]];
      r := NoHoldover(inp[1..], out, pos + 4);
      AfterGroup(held, inp, 1, before, mid, out[..], pos, Held(), r);
      r := Result(r.processed + 1, r.output + 4, r.status);
    }

    // Ok exactly when the view holds the whole groups of the octets held over
    // and the input; on a full view the octets held over stay as they are.
    method Encode(inp: seq<byte>, out: array<char>, pos: nat) returns (r: Result)
      requires Valid() && pos <= out.Length
      modifies holdover, out
      ensures Valid()
      ensures EncodedChunk(old(Held()), inp, old(out[..]), out[..], pos, Held(), r)
      ensures r.status == OutputBufferFull ==>
                var fit := (out.Length - pos) / 4;
                if old(Held()) == [] then r.processed + 3 * fit == |inp| && r.output + 4 * fit == out.Length - pos
                else if fit == 0 then r.processed == r.output == 0
                else r.processed + 3 * (fit - 1) == |inp| && r.output + 4 * (fit - 1) == out.Length - pos
    {
      if inp == [] {
        NothingWritten(out[..], pos, Held() + inp);
        return Result(0, 0, Ok);
      }
      if holdover[0] == 0 {
        r := NoHoldover(inp, out, pos);
      } else if holdover[0] == 1 {
        r := OneHoldover(inp, out, pos);
      } else {
        r := TwoHoldover(inp, out, pos);
      }
    }

    // Ok exactly when the view holds the padded text as well. When only the
    // final group does not fit, its octets stay held over for another finish.
    method Finish(inp: seq<byte>, out: array<char>, pos: nat) returns (r: Result)
      requires Valid() && pos <= out.Length
      modifies holdover, out
      ensures Valid()
      ensures Finished(old(Held()), inp, old(out[..]), out[..], pos, Held(), r)
    {
      ghost var held, before := Held(), out[..];
      r := Encode(inp, out, pos);
      if r.status == OutputBufferFull {
        return;
      }
      ghost var left, mid := Held(), out[..];
      ghost var done := r;
      var padded := PadHeld(out, pos + r.output);
      if !padded {
        FinishFull(held, inp, before, mid, pos, left, r);
        return Result(r.processed, r.output, OutputBufferFull);
      }
      r := Result(r.processed, r.output + (if holdover[0] != 0 then 4 else 0), Ok);
      holdover[0], holdover[1], holdover[2] := 0, 0, 0;
      FinishDone(held, inp, before, mid, out[..], pos, left, done);
    }

    // The final group, if there are octets for one and it fits.
    method PadHeld(out: array<char>, pos: nat) returns (padded: bool)
      requires Valid() && pos <= out.Length
      modifies out
      ensures Valid() && Held() == old(Held())
      ensures padded <==> Held() == [] || out.Length - pos >= 4
      ensures padded ==> Encoded(old(out[..]), out[..], pos, Held(), pos + if Held() == [] then 0 else 4)
      ensures !padded ==> out[..] == old(out[..])
    {
      if holdover[0] == 1 {
        if out.Length - pos < 4 {
          return false;
        }
        PadOne(holdover[1], out, pos);
        assert Held() == [holdover[1]];
      } else if holdover[0] == 2 {
        if out.Length - pos < 4 {
          return false;
        }
        PadTwo(holdover[1], holdover[2], out, pos);
        assert Held() == [holdover[1], holdover[2]];
      }
      padded := true;
    }

    static method PadOne(a: byte, out: array<char>, pos: nat)
      requires pos + 4 <= out.Length
      modifies out
      ensures Encoded(old(out[..]), out[..], pos, [a], pos + 4)
    {
      ghost var before := out[..];
      TableIsAlphabet(a / 4);
      TableIsAlphabet(a % 4 * 16);
      out[pos] := TABLE[FirstDigit(a)];
      out[pos + 1] := TABLE[LowTwoShifted(a)];
      out[pos + 2] := '=';
      out[pos + 3] := '=';
      EncodeOne(a);
      assert out[..] == before[pos := Letter(a / 4)][pos + 1 := Letter(a % 4 * 16)][pos + 2 := '='][pos + 3 := '='];
      FourWritten(before, pos, Letter(a / 4), Letter(a % 4 * 16), '=', '=');
    }

    static method PadTwo(a: byte, b: byte, out: array<char>, pos: nat)
      requires pos + 4 <= out.Length
      modifies out
      ensures Encoded(old(out[..]), out[..], pos, [a, b], pos + 4)
    {
      ghost var before := out[..];
      ghost var x, y, z := Letter(a / 4), Letter(a % 4 * 16 + b / 16), Letter(b % 16 * 4);
      TableIsAlphabet(a / 4);
      TableIsAlphabet(a % 4 * 16 + b / 16);
      TableIsAlphabet(b % 16 * 4);
      out[pos] := TABLE[FirstDigit(a)];
      out[pos + 1] := TABLE[SecondDigit(a, b)];
      out[pos + 2] := TABLE[LowFourShifted(b)];
      out[pos + 3] := '=';
      EncodeTwo(a, b);
      assert out[..] == before[pos := x][pos + 1 := y][pos + 2 := z][pos + 3 := '='];
      FourWritten(before, pos, x, y, z, '=');
    }

    method HoldOver(rest: seq<byte>)
      requires Valid() && |rest| < 3
      modifies holdover
      ensures Valid() && Held() == rest
    {
      holdover[0] := |rest|;
      for k := 0 to |rest|
        invariant holdover[0] == |rest|
        invariant holdover[1..1 + k] == rest[..k]
      {
        holdover[k + 1] := rest[k];
      }
    }
  }
}

// The length fields of an Electromagnetic Emission PDU and of the records in
// it. A record starts with its length in 32-bit words, so a receiver can hop
// over records it does not decode.

module DisLengths {
  import opened Bytes
  import opened Wrappers
  import opened DisWire
  import opened DisRecords
  import opened DisEmission

  function RecordLength(words: byte): nat {
    4 * (words as nat)
  }

  function Hop(bs: seq<byte>, pos: nat, count: nat): Option<nat>
    decreases count
  {
    if count == 0 then Some(pos)
    else if pos >= |bs| then None
    else Hop(bs, pos + RecordLength(bs[pos]), count - 1)
  }

  lemma {:induction false} HopStep<T>(bs: seq<byte>, pos: nat, mid: nat, next: nat, records: seq<T>)
    requires records != [] && pos < |bs| && RecordLength(bs[pos]) == mid - pos
    requires Hop(bs, mid, |records[1..]|) == Some(next)
    ensures Hop(bs, pos, |records|) == Some(next)
  {
  }

  lemma {:induction false} BeamsAreWords(beams: seq<Beam>) returns (words: nat)
    ensures BeamsBits(beams) == 32 * words
    decreases |beams|
  {
    words := 0;
    if beams != [] {
      words := BeamsAreWords(beams[1..]);
      words := words + 13 + 2 * |beams[0].Jams()|;
    }
  }

  lemma WordsExact(bits: nat, words: nat)
    requires bits == 32 * words
    ensures RecordLength(Low8(bits / 32)) == bits / 8 <==> bits <= 32 * 255
  {
  }

  lemma BeamFirst(w: seq<byte>, b: Beam, bs: seq<byte>)
    requires Starts(PutBeam(w, b), bs)
    ensures |w| < |bs| && bs[|w|] == Low8(BeamBits(b) / 32)
  {
    JamsBack(PutBeamFixed(w, b), b.Jams(), bs);
    BeamFixedBack(w, b, bs);
    U8Back(w, Low8(BeamBits(b) / 32), bs);
  }

  lemma SystemFirst(w: seq<byte>, s: EmitterSystem, bs: seq<byte>)
    requires Starts(PutSystem(w, s), bs)
    ensures |w| < |bs| && bs[|w|] == Low8(SystemBits(s) / 32)
  {
    BeamsPrefix(PutSystemFixed(w, s), s.beams, bs);
    SystemFixedBack(w, s, bs);
    U8Back(w, Low8(SystemBits(s) / 32), bs);
  }

  // The length of a beam is right exactly when it has at most 121 entries,
  lemma BeamLength(w: seq<byte>, b: Beam, bs: seq<byte>)
    requires Starts(PutBeam(w, b), bs)
    ensures |w| < |bs| && (RecordLength(bs[|w|]) == |PutBeam(w, b)| - |w| <==> BeamFits(b))
  {
    BeamFirst(w, b, bs);
    WordsExact(BeamBits(b), 13 + 2 * |b.Jams()|);
  }

  // that of a system exactly when it does not exceed 255 words,
  lemma SystemLength(w: seq<byte>, s: EmitterSystem, bs: seq<byte>)
    requires Starts(PutSystem(w, s), bs)
    ensures |w| < |bs| && (RecordLength(bs[|w|]) == |PutSystem(w, s)| - |w| <==> SystemBits(s) <= 32 * 255)
  {
    SystemFirst(w, s, bs);
    var words := BeamsAreWords(s.beams);
    WordsExact(SystemBits(s), words + 5);
  }

  // and that of the PDU exactly when it does not exceed 65535 bytes.
  lemma EmissionLength(w: seq<byte>, pdu: Emission, bs: seq<byte>)
    requires PutEmission(w, pdu) <= bs
    ensures var length := ReadU16(bs, |w| + 8);
            length.Some? && (length.value.value == |PutEmission(w, pdu)| - |w| <==> PduSize(pdu) < 0x1_0000)
  {
    StartsIsPrefix(PutEmission(w, pdu), bs);
    SystemsPrefix(PutEmissionFixed(w, pdu), pdu.systems, bs);
    EmissionFixedBack(w, pdu, bs);
  }

  lemma {:induction false} BeamsHop(w: seq<byte>, beams: seq<Beam>, bs: seq<byte>)
    requires Starts(PutBeams(w, beams), bs) && All(BeamFits, beams)
    ensures Hop(bs, |w|, |beams|) == Some(|PutBeams(w, beams)|)
    decreases |beams|
  {
    if beams != [] {
      var head := PutBeam(w, beams[0]);
      BeamsPrefix(head, beams[1..], bs);
      BeamLength(w, beams[0], bs);
      BeamsHop(head, beams[1..], bs);
      HopStep(bs, |w|, |head|, |PutBeams(w, beams)|, beams);
    }
  }

  predicate LengthFits(s: EmitterSystem) {
    SystemBits(s) <= 32 * 255
  }

  lemma {:induction false} SystemsHop(w: seq<byte>, systems: seq<EmitterSystem>, bs: seq<byte>)
    requires Starts(PutSystems(w, systems), bs) && All(LengthFits, systems)
    ensures Hop(bs, |w|, |systems|) == Some(|PutSystems(w, systems)|)
    decreases |systems|
  {
    if systems != [] {
      var head := PutSystem(w, systems[0]);
      SystemsPrefix(head, systems[1..], bs);
      SystemLength(w, systems[0], bs);
      SystemsHop(head, systems[1..], bs);
      HopStep(bs, |w|, |head|, |PutSystems(w, systems)|, systems);
    }
  }

  // Hopping over all the systems of a PDU leads to its end.
  lemma EmissionHop(w: seq<byte>, pdu: Emission, bs: seq<byte>)
    requires PutEmission(w, pdu) <= bs && All(LengthFits, pdu.systems)
    ensures Hop(bs, |w| + 28, |pdu.systems|) == Some(|PutEmission(w, pdu)|)
  {
    StartsIsPrefix(PutEmission(w, pdu), bs);
    SystemsHop(PutEmissionFixed(w, pdu), pdu.systems, bs);
  }
}

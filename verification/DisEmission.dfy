// The Electromagnetic Emission PDU: emitter systems, each with beams, each with
// track/jam entries, in records whose lengths and counts are single bytes.

module DisEmission {
  import opened Bytes
  import opened Wrappers
  import opened DisWire
  import opened DisRecords

  datatype Beam = Beam(
    parameterIndex: u16, beamNumber: byte, numberOfTargets: byte, beamFunction: byte, highDensityTrackJam: byte,
    beamStatus: byte, jammingTechnique: JammingTechnique, fundamental: EeFundamental, beamData: BeamData,
    trackJams: Option<seq<TrackJam>>)
  {
    // The entries there are to write.
    function Jams(): seq<TrackJam> {
      if trackJams.Some? then trackJams.value else []
    }
  }

  datatype EmitterSystem = EmitterSystem(emitterName: u16, systemFunction: byte, emitterNumber: byte,
                                         location: Vector, beams: seq<Beam>)

  datatype Emission = Emission(header: PduHeader, emitterId: Id, eventId: Id, stateUpdateIndicator: byte,
                               systems: seq<EmitterSystem>)

  // ---------------------------------------------------------------------
  // Sizes in bits, as pdu_size_calc and the record lengths count them

  function BeamBits(b: Beam): nat {
    416 + 64 * |b.Jams()|
  }

  function BeamsBits(beams: seq<Beam>): nat
    decreases |beams|
  {
    if beams == [] then 0 else BeamBits(beams[0]) + BeamsBits(beams[1..])
  }

  function SystemBits(s: EmitterSystem): nat {
    160 + BeamsBits(s.beams)
  }

  function SystemsBits(systems: seq<EmitterSystem>): nat
    decreases |systems|
  {
    if systems == [] then 0 else SystemBits(systems[0]) + SystemsBits(systems[1..])
  }

  function PduSize(pdu: Emission): nat {
    (224 + SystemsBits(pdu.systems)) / 8
  }

  // ---------------------------------------------------------------------
  // The layout

  function PutJams(w: seq<byte>, jams: seq<TrackJam>): (r: seq<byte>)
    ensures |r| == |w| + 8 * |jams|
    decreases |jams|
  {
    if jams == [] then w else PutJams(PutTrackJam(w, jams[0]), jams[1..])
  }

  // The 52 bytes before the track/jam entries, the first of them the length
  // of the record in 32-bit words.
  function PutBeamFixed(w: seq<byte>, b: Beam): (r: seq<byte>)
    ensures |r| == |w| + 52
  {
    var a := PutU16(PutU8(PutU8(w, Low8(BeamBits(b) / 32)), b.beamNumber), b.parameterIndex);
    var c := PutBeamData(PutEeFundamental(a, b.fundamental), b.beamData);
    var d := PutU8(PutU8(PutU8(PutU8(c, b.beamFunction), b.numberOfTargets), b.highDensityTrackJam), b.beamStatus);
    PutJamming(d, b.jammingTechnique)
  }

  function PutBeam(w: seq<byte>, b: Beam): (r: seq<byte>)
    ensures 8 * |r| == 8 * |w| + BeamBits(b)
  {
    PutJams(PutBeamFixed(w, b), b.Jams())
  }

  function PutBeams(w: seq<byte>, beams: seq<Beam>): (r: seq<byte>)
    ensures 8 * |r| == 8 * |w| + BeamsBits(beams)
    decreases |beams|
  {
    if beams == [] then w else PutBeams(PutBeam(w, beams[0]), beams[1..])
  }

  function PutSystemFixed(w: seq<byte>, s: EmitterSystem): (r: seq<byte>)
    ensures |r| == |w| + 20
  {
    var a := Pad(PutU8(PutU8(w, Low8(SystemBits(s) / 32)), Low8(|s.beams|)), 2);
    PutVector(PutU8(PutU8(PutU16(a, s.emitterName), s.systemFunction), s.emitterNumber), s.location)
  }

  function PutSystem(w: seq<byte>, s: EmitterSystem): (r: seq<byte>)
    ensures 8 * |r| == 8 * |w| + SystemBits(s)
  {
    PutBeams(PutSystemFixed(w, s), s.beams)
  }

  function PutSystems(w: seq<byte>, systems: seq<EmitterSystem>): (r: seq<byte>)
    ensures 8 * |r| == 8 * |w| + SystemsBits(systems)
    decreases |systems|
  {
    if systems == [] then w else PutSystems(PutSystem(w, systems[0]), systems[1..])
  }

  function PutEmissionFixed(w: seq<byte>, pdu: Emission): (r: seq<byte>)
    ensures |r| == |w| + 28
  {
    var a := PutId(PutId(PutHeader(w, pdu.header, PduSize(pdu)), pdu.emitterId), pdu.eventId);
    Pad(PutU8(PutU8(a, pdu.stateUpdateIndicator), Low8(|pdu.systems|)), 2)
  }

  function PutEmission(w: seq<byte>, pdu: Emission): (r: seq<byte>)
    ensures |r| == |w| + PduSize(pdu)
  {
    PutSystems(PutEmissionFixed(w, pdu), pdu.systems)
  }

  // ---------------------------------------------------------------------
  // Limits

  // At most 121 entries keep the record length in its byte.
  predicate BeamFits(b: Beam) {
    |b.Jams()| <= 121
  }

  predicate SystemFits(s: EmitterSystem) {
    |s.beams| < 256 && All(BeamFits, s.beams)
  }

  predicate Fits(pdu: Emission) {
    |pdu.systems| < 256 && All(SystemFits, pdu.systems)
  }

  // An empty list of entries is read back as an absent one.
  function NormalBeam(b: Beam): Beam {
    if b.Jams() == [] then b.(trackJams := None) else b
  }

  function NormalBeams(beams: seq<Beam>): (r: seq<Beam>)
    ensures |r| == |beams|
  {
    if beams == [] then [] else [NormalBeam(beams[0])] + NormalBeams(beams[1..])
  }

  function NormalSystem(s: EmitterSystem): EmitterSystem {
    s.(beams := NormalBeams(s.beams))
  }

  function NormalSystems(systems: seq<EmitterSystem>): (r: seq<EmitterSystem>)
    ensures |r| == |systems|
  {
    if systems == [] then [] else [NormalSystem(systems[0])] + NormalSystems(systems[1..])
  }

  function Normal(pdu: Emission): Emission {
    pdu.(systems := NormalSystems(pdu.systems))
  }

  // What the reader can return: nothing but PDUs that fit, with no empty lists.

  predicate BeamReadable(b: Beam) {
    BeamFits(b) && NormalBeam(b) == b
  }

  predicate SystemReadable(s: EmitterSystem) {
    |s.beams| < 256 && All(BeamReadable, s.beams)
  }

  predicate Readable(pdu: Emission) {
    |pdu.systems| < 256 && All(SystemReadable, pdu.systems)
  }

  // ---------------------------------------------------------------------
  // The reader

  function ReadJams(bs: seq<byte>, pos: nat, count: nat): (r: Option<Got<seq<TrackJam>>>)
    ensures r.Some? ==> |r.value.value| == count && r.value.next == pos + 8 * count
    ensures r.Some? && count > 0 ==> r.value.next <= |bs|
  {
    ManyEnd(ReadTrackJam, bs, pos, count, 8);
    ReadMany(ReadTrackJam, bs, pos, count)
  }

  const SIZE := 0x1_0000_0000_0000_0000

  // The number of track/jam entries a record length stands for: C++ division
  // rounds towards zero, and a negative result becomes a huge size_t.
  function JamCount(recordLength: byte): nat {
    var bits := recordLength * 32 - 416;
    if bits >= 0 then bits / 64 else (SIZE - -bits / 64) % SIZE
  }

  lemma JamCountRange(recordLength: byte)
    ensures JamCount(recordLength) <= 121 || JamCount(recordLength) >= SIZE - 6
  {
  }

  function ReadBeamFixed(bs: seq<byte>, pos: nat): (r: Option<Got<(byte, Beam)>>)
    ensures r.Some? ==> r.value.next == pos + 52 <= |bs| && r.value.value.1.trackJams == None
  {
    var length :- ReadU8(bs, pos);
    var number :- ReadU8(bs, length.next);
    var index :- ReadU16(bs, number.next);
    var fundamental :- ReadEeFundamental(bs, index.next);
    var data :- ReadBeamData(bs, fundamental.next);
    var beamFunction :- ReadU8(bs, data.next);
    var targets :- ReadU8(bs, beamFunction.next);
    var highDensity :- ReadU8(bs, targets.next);
    var status :- ReadU8(bs, highDensity.next);
    var jamming :- ReadJamming(bs, status.next);
    Some(Got((length.value, Beam(index.value, number.value, targets.value, beamFunction.value, highDensity.value,
                                 status.value, jamming.value, fundamental.value, data.value, None)),
             jamming.next))
  }

  function ReadBeam(bs: seq<byte>, pos: nat): (r: Option<Got<Beam>>)
    ensures r.Some? && |bs| < SIZE ==> BeamReadable(r.value.value)
  {
    var fixed :- ReadBeamFixed(bs, pos);
    JamCountRange(fixed.value.0);
    var count := JamCount(fixed.value.0);
    if count > 0 then
      var jams :- ReadJams(bs, fixed.next, count);
      Some(Got(fixed.value.1.(trackJams := Some(jams.value)), jams.next))
    else
      Some(Got(fixed.value.1, fixed.next))
  }

  function ReadBeams(bs: seq<byte>, pos: nat, count: nat): (r: Option<Got<seq<Beam>>>)
    ensures r.Some? && |bs| < SIZE ==> |r.value.value| == count && All(BeamReadable, r.value.value)
  {
    BeamsRange(bs, pos, count);
    ReadMany(ReadBeam, bs, pos, count)
  }

  lemma BeamsRange(bs: seq<byte>, pos: nat, count: nat)
    ensures var r := ReadMany(ReadBeam, bs, pos, count);
            r.Some? && |bs| < SIZE ==> All(BeamReadable, r.value.value)
  {
    if |bs| < SIZE {
      ManyAll(ReadBeam, BeamReadable, bs, pos, count);
    }
  }

  // The number of beams, and the system without them.
  function ReadSystemFixed(bs: seq<byte>, pos: nat): (r: Option<Got<(byte, EmitterSystem)>>)
    ensures r.Some? ==> r.value.next <= pos + 20 && r.value.value.1.beams == []
  {
    var length :- ReadU8(bs, pos);
    var count :- ReadU8(bs, length.next);
    var name :- ReadU16(bs, Skipped(bs, count.next, 2));
    var systemFunction :- ReadU8(bs, name.next);
    var number :- ReadU8(bs, systemFunction.next);
    var location :- ReadVector(bs, number.next);
    Some(Got((count.value, EmitterSystem(name.value, systemFunction.value, number.value, location.value, [])),
             location.next))
  }

  function ReadSystem(bs: seq<byte>, pos: nat): (r: Option<Got<EmitterSystem>>)
    ensures r.Some? && |bs| < SIZE ==> SystemReadable(r.value.value)
  {
    var fixed :- ReadSystemFixed(bs, pos);
    var beams :- ReadBeams(bs, fixed.next, fixed.value.0);
    Some(Got(fixed.value.1.(beams := beams.value), beams.next))
  }

  function ReadSystems(bs: seq<byte>, pos: nat, count: nat): (r: Option<Got<seq<EmitterSystem>>>)
    ensures r.Some? && |bs| < SIZE ==> |r.value.value| == count && All(SystemReadable, r.value.value)
  {
    SystemsRange(bs, pos, count);
    ReadMany(ReadSystem, bs, pos, count)
  }

  lemma SystemsRange(bs: seq<byte>, pos: nat, count: nat)
    ensures var r := ReadMany(ReadSystem, bs, pos, count);
            r.Some? && |bs| < SIZE ==> All(SystemReadable, r.value.value)
  {
    if |bs| < SIZE {
      ManyAll(ReadSystem, SystemReadable, bs, pos, count);
    }
  }

  // The number of systems, and the PDU without them.
  function ReadEmissionFixed(bs: seq<byte>, pos: nat): (r: Option<Got<(byte, Emission)>>)
    ensures r.Some? ==> r.value.next <= pos + 28 && r.value.value.1.systems == []
  {
    var header :- ReadHeader(bs, pos);
    var emitter :- ReadId(bs, header.next);
    var event :- ReadId(bs, emitter.next);
    var indicator :- ReadU8(bs, event.next);
    var count :- ReadU8(bs, indicator.next);
    Some(Got((count.value, Emission(header.value, emitter.value, event.value, indicator.value, [])),
             Skipped(bs, count.next, 2)))
  }

  function ReadEmission(bs: seq<byte>, pos: nat): (r: Option<Got<Emission>>)
    ensures r.Some? && |bs| < SIZE ==> Readable(r.value.value)
  {
    var fixed :- ReadEmissionFixed(bs, pos);
    var systems :- ReadSystems(bs, fixed.next, fixed.value.0);
    Some(Got(fixed.value.1.(systems := systems.value), systems.next))
  }

  // ---------------------------------------------------------------------
  // Round trip

  lemma {:induction false} JamsBack(w: seq<byte>, jams: seq<TrackJam>, bs: seq<byte>)
    requires Starts(PutJams(w, jams), bs)
    ensures ReadMany(ReadTrackJam, bs, |w|, |jams|) == Some(Got(jams, |PutJams(w, jams)|)) && Starts(w, bs)
    decreases |jams|
  {
    if jams != [] {
      var head := PutTrackJam(w, jams[0]);
      JamsBack(head, jams[1..], bs);
      TrackJamBack(w, jams[0], bs);
      ManyStep(ReadTrackJam, bs, |w|, |head|, |PutJams(w, jams)|, jams);
    }
  }

  lemma BeamFixedBack(w: seq<byte>, b: Beam, bs: seq<byte>)
    requires Starts(PutBeamFixed(w, b), bs)
    ensures ReadBeamFixed(bs, |w|) == Some(Got((Low8(BeamBits(b) / 32), b.(trackJams := None)), |PutBeamFixed(w, b)|))
    ensures Starts(PutU8(w, Low8(BeamBits(b) / 32)), bs)
    ensures Starts(w, bs)
  {
    var length := PutU8(w, Low8(BeamBits(b) / 32));
    var number := PutU8(length, b.beamNumber);
    var index := PutU16(number, b.parameterIndex);
    var fundamental := PutEeFundamental(index, b.fundamental);
    var data := PutBeamData(fundamental, b.beamData);
    var beamFunction := PutU8(data, b.beamFunction);
    var targets := PutU8(beamFunction, b.numberOfTargets);
    var highDensity := PutU8(targets, b.highDensityTrackJam);
    JammingBack(PutU8(highDensity, b.beamStatus), b.jammingTechnique, bs);
    U8Back(highDensity, b.beamStatus, bs);
    U8Back(targets, b.highDensityTrackJam, bs);
    U8Back(beamFunction, b.numberOfTargets, bs);
    U8Back(data, b.beamFunction, bs);
    BeamDataBack(fundamental, b.beamData, bs);
    EeFundamentalBack(index, b.fundamental, bs);
    U16Back(number, b.parameterIndex, bs);
    U8Back(length, b.beamNumber, bs);
    U8Back(w, Low8(BeamBits(b) / 32), bs);
  }

  lemma JamCountBack(b: Beam)
    ensures BeamFits(b) ==> JamCount(Low8(BeamBits(b) / 32)) == |b.Jams()|
  {
  }

  lemma BeamBack(w: seq<byte>, b: Beam, bs: seq<byte>)
    requires Starts(PutBeam(w, b), bs)
    ensures BeamFits(b) ==> ReadBeam(bs, |w|) == Some(Got(NormalBeam(b), |PutBeam(w, b)|))
    ensures Starts(w, bs)
  {
    JamsBack(PutBeamFixed(w, b), b.Jams(), bs);
    BeamFixedBack(w, b, bs);
    JamCountBack(b);
  }

  lemma {:induction false} BeamsPrefix(w: seq<byte>, beams: seq<Beam>, bs: seq<byte>)
    requires Starts(PutBeams(w, beams), bs)
    ensures Starts(w, bs)
    decreases |beams|
  {
    if beams != [] {
      BeamsPrefix(PutBeam(w, beams[0]), beams[1..], bs);
      BeamBack(w, beams[0], bs);
    }
  }

  lemma {:induction false} BeamsBack(w: seq<byte>, beams: seq<Beam>, bs: seq<byte>)
    requires Starts(PutBeams(w, beams), bs) && All(BeamFits, beams)
    ensures ReadMany(ReadBeam, bs, |w|, |beams|) == Some(Got(NormalBeams(beams), |PutBeams(w, beams)|))
    decreases |beams|
  {
    if beams != [] {
      var head, rest := PutBeam(w, beams[0]), beams[1..];
      BeamsPrefix(head, rest, bs);
      BeamsBack(head, rest, bs);
      BeamBack(w, beams[0], bs);
      assert NormalBeams(beams)[1..] == NormalBeams(rest);
      ManyStep(ReadBeam, bs, |w|, |head|, |PutBeams(w, beams)|, NormalBeams(beams));
    }
  }

  lemma SystemFixedBack(w: seq<byte>, s: EmitterSystem, bs: seq<byte>)
    requires Starts(PutSystemFixed(w, s), bs)
    ensures ReadSystemFixed(bs, |w|) == Some(Got((Low8(|s.beams|), s.(beams := [])), |PutSystemFixed(w, s)|))
    ensures Starts(PutU8(w, Low8(SystemBits(s) / 32)), bs)
    ensures Starts(w, bs)
  {
    var length := PutU8(w, Low8(SystemBits(s) / 32));
    var count := PutU8(length, Low8(|s.beams|));
    var pad := Pad(count, 2);
    var name := PutU16(pad, s.emitterName);
    var systemFunction := PutU8(name, s.systemFunction);
    VectorBack(PutU8(systemFunction, s.emitterNumber), s.location, bs);
    U8Back(systemFunction, s.emitterNumber, bs);
    U8Back(name, s.systemFunction, bs);
    U16Back(pad, s.emitterName, bs);
    PadBack(count, 2, bs);
    U8Back(length, Low8(|s.beams|), bs);
    U8Back(w, Low8(SystemBits(s) / 32), bs);
  }

  lemma SystemBack(w: seq<byte>, s: EmitterSystem, bs: seq<byte>)
    requires Starts(PutSystem(w, s), bs)
    ensures SystemFits(s) ==> ReadSystem(bs, |w|) == Some(Got(NormalSystem(s), |PutSystem(w, s)|))
    ensures Starts(w, bs)
  {
    BeamsPrefix(PutSystemFixed(w, s), s.beams, bs);
    SystemFixedBack(w, s, bs);
    if SystemFits(s) {
      BeamsBack(PutSystemFixed(w, s), s.beams, bs);
    }
  }

  lemma {:induction false} SystemsPrefix(w: seq<byte>, systems: seq<EmitterSystem>, bs: seq<byte>)
    requires Starts(PutSystems(w, systems), bs)
    ensures Starts(w, bs)
    decreases |systems|
  {
    if systems != [] {
      SystemsPrefix(PutSystem(w, systems[0]), systems[1..], bs);
      SystemBack(w, systems[0], bs);
    }
  }

  lemma {:induction false} SystemsBack(w: seq<byte>, systems: seq<EmitterSystem>, bs: seq<byte>)
    requires Starts(PutSystems(w, systems), bs) && All(SystemFits, systems)
    ensures ReadMany(ReadSystem, bs, |w|, |systems|) == Some(Got(NormalSystems(systems), |PutSystems(w, systems)|))
    decreases |systems|
  {
    if systems != [] {
      var head, rest := PutSystem(w, systems[0]), systems[1..];
      SystemsPrefix(head, rest, bs);
      SystemsBack(head, rest, bs);
      SystemBack(w, systems[0], bs);
      assert NormalSystems(systems)[1..] == NormalSystems(rest);
      ManyStep(ReadSystem, bs, |w|, |head|, |PutSystems(w, systems)|, NormalSystems(systems));
    }
  }

  lemma EmissionFixedBack(w: seq<byte>, pdu: Emission, bs: seq<byte>)
    requires Starts(PutEmissionFixed(w, pdu), bs)
    ensures ReadEmissionFixed(bs, |w|)
            == Some(Got((Low8(|pdu.systems|), pdu.(systems := [])), |PutEmissionFixed(w, pdu)|))
    ensures ReadU16(bs, |w| + 8) == Some(Got(Low16(PduSize(pdu)), |w| + 10))
  {
    var header := PutHeader(w, pdu.header, PduSize(pdu));
    var emitter := PutId(header, pdu.emitterId);
    var event := PutId(emitter, pdu.eventId);
    var indicator := PutU8(event, pdu.stateUpdateIndicator);
    PadBack(PutU8(indicator, Low8(|pdu.systems|)), 2, bs);
    U8Back(indicator, Low8(|pdu.systems|), bs);
    U8Back(event, pdu.stateUpdateIndicator, bs);
    IdBack(emitter, pdu.eventId, bs);
    IdBack(header, pdu.emitterId, bs);
    HeaderBack(w, pdu.header, PduSize(pdu), bs);
  }

  // Decoding any bytes that start with an encoded PDU returns that PDU, with
  // empty lists absent, and leaves the cursor behind it.
  lemma EmissionBack(w: seq<byte>, pdu: Emission, bs: seq<byte>)
    requires PutEmission(w, pdu) <= bs && Fits(pdu)
    ensures ReadEmission(bs, |w|) == Some(Got(Normal(pdu), |PutEmission(w, pdu)|))
  {
    StartsIsPrefix(PutEmission(w, pdu), bs);
    SystemsBack(PutEmissionFixed(w, pdu), pdu.systems, bs);
    SystemsPrefix(PutEmissionFixed(w, pdu), pdu.systems, bs);
    EmissionFixedBack(w, pdu, bs);
  }

  lemma {:induction false} ReadableBeamsNormal(beams: seq<Beam>)
    ensures All(BeamReadable, beams) <==> All(BeamFits, beams) && NormalBeams(beams) == beams
  {
    if beams != [] {
      ReadableBeamsNormal(beams[1..]);
    }
  }

  lemma {:induction false} ReadableSystemsNormal(systems: seq<EmitterSystem>)
    ensures All(SystemReadable, systems) <==> All(SystemFits, systems) && NormalSystems(systems) == systems
  {
    if systems != [] {
      ReadableBeamsNormal(systems[0].beams);
      ReadableSystemsNormal(systems[1..]);
    }
  }

  // So a PDU survives the trip exactly when its counts fit and it has no
  // empty list of entries.
  lemma EmissionExact(w: seq<byte>, pdu: Emission, bs: seq<byte>)
    requires PutEmission(w, pdu) <= bs && |bs| < SIZE
    ensures ReadEmission(bs, |w|) == Some(Got(pdu, |PutEmission(w, pdu)|)) <==> Readable(pdu)
  {
    if Readable(pdu) {
      ReadableSystemsNormal(pdu.systems);
      EmissionBack(w, pdu, bs);
    }
  }
}

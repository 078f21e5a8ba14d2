// The fixed-size records of a DIS PDU (IEEE 1278.1): how each is laid out, how
// it is read, and that it is read as it was written. Floating-point fields are
// their bit patterns.

module DisRecords {
  import opened Bytes
  import opened Wrappers
  import opened DisWire

  datatype PduHeader = PduHeader(protocolVersion: byte, exerciseId: byte, pduType: byte, timestamp: u32,
                                 protocolFamily: byte, status: byte)

  // EntityID and EventID
  datatype Id = Id(site: u16, application: u16, id: u16)

  datatype EntityType = EntityType(kind: byte, domain: byte, country: u16, category: byte, subcategory: byte,
                                   specific: byte, extra: byte)

  // Vector, EntityCoordinates, and the three EulerAngles psi, theta, phi
  datatype Vector = Vector(x: u32, y: u32, z: u32)

  datatype WorldCoordinates = WorldCoordinates(x: u64, y: u64, z: u64)

  datatype DisQuat = DisQuat(u0: u16, x: u32, y: u32, z: u32)

  type otherType = t: byte | t != 1 && t != 2

  // The union of DeadReckoningParameters, with the params_type that says which
  // member is in use.
  datatype DrUnion = Fixed(localAngles: Vector) | Rotating(quat: DisQuat) | Other(paramsType: otherType)

  datatype DeadReckoning = DeadReckoning(algorithm: byte, parameters: DrUnion, linearAcceleration: Vector,
                                         angularVelocity: Vector)

  datatype EeFundamental = EeFundamental(centerFrequency: u32, frequencyRange: u32, effectiveRadiatedPower: u32,
                                         pulseRepetitionFrequency: u32, pulseWidth: u32)

  datatype BeamData = BeamData(azimuthCenter: u32, elevationCenter: u32, azimuthSweep: u32, elevationSweep: u32,
                               sweepSync: u32)

  datatype JammingTechnique = JammingTechnique(kind: byte, category: byte, subcategory: byte, specific: byte)

  datatype TrackJam = TrackJam(target: Id, emitterNumber: byte, beamNumber: byte)

  // ---------------------------------------------------------------------
  // PDUHeader: 12 bytes, with the length of the PDU narrowed to 16 bits

  function PutHeader(w: seq<byte>, h: PduHeader, pduSize: nat): (r: seq<byte>)
    ensures |r| == |w| + 12
  {
    var a := PutU8(PutU8(PutU8(PutU8(w, h.protocolVersion), h.exerciseId), h.pduType), h.protocolFamily);
    Pad(PutU8(PutU16(PutU32(a, h.timestamp), Low16(pduSize)), h.status), 1)
  }

  function ReadHeader(bs: seq<byte>, pos: nat): (r: Option<Got<PduHeader>>)
    ensures r.Some? ==> r.value.next <= pos + 12
  {
    var version :- ReadU8(bs, pos);
    var exercise :- ReadU8(bs, version.next);
    var pduType :- ReadU8(bs, exercise.next);
    var family :- ReadU8(bs, pduType.next);
    var timestamp :- ReadU32(bs, family.next);
    var length :- ReadU16(bs, timestamp.next);
    var status :- ReadU8(bs, length.next);
    Some(Got(PduHeader(version.value, exercise.value, pduType.value, timestamp.value, family.value, status.value),
             Skipped(bs, status.next, 1)))
  }

  lemma HeaderBack(w: seq<byte>, h: PduHeader, pduSize: nat, bs: seq<byte>)
    requires Starts(PutHeader(w, h, pduSize), bs)
    ensures ReadHeader(bs, |w|) == Some(Got(h, |PutHeader(w, h, pduSize)|)) && Starts(w, bs)
    ensures ReadU16(bs, |w| + 8) == Some(Got(Low16(pduSize), |w| + 10))
  {
    var a := PutU8(w, h.protocolVersion);
    var b := PutU8(a, h.exerciseId);
    var c := PutU8(b, h.pduType);
    var d := PutU8(c, h.protocolFamily);
    var e := PutU32(d, h.timestamp);
    var f := PutU16(e, Low16(pduSize));
    var g := PutU8(f, h.status);
    PadBack(g, 1, bs);
    U8Back(f, h.status, bs);
    U16Back(e, Low16(pduSize), bs);
    U32Back(d, h.timestamp, bs);
    U8Back(c, h.protocolFamily, bs);
    U8Back(b, h.pduType, bs);
    U8Back(a, h.exerciseId, bs);
    U8Back(w, h.protocolVersion, bs);
  }

  // ---------------------------------------------------------------------
  // Identifiers and types

  function PutId(w: seq<byte>, id: Id): (r: seq<byte>)
    ensures |r| == |w| + 6
  {
    PutU16(PutU16(PutU16(w, id.site), id.application), id.id)
  }

  function ReadId(bs: seq<byte>, pos: nat): (r: Option<Got<Id>>)
    ensures r.Some? ==> r.value.next == pos + 6 <= |bs|
  {
    var site :- ReadU16(bs, pos);
    var application :- ReadU16(bs, site.next);
    var id :- ReadU16(bs, application.next);
    Some(Got(Id(site.value, application.value, id.value), id.next))
  }

  lemma IdBack(w: seq<byte>, id: Id, bs: seq<byte>)
    requires Starts(PutId(w, id), bs)
    ensures ReadId(bs, |w|) == Some(Got(id, |PutId(w, id)|)) && Starts(w, bs)
  {
    var a := PutU16(w, id.site);
    U16Back(PutU16(a, id.application), id.id, bs);
    U16Back(a, id.application, bs);
    U16Back(w, id.site, bs);
  }

  function PutEntityType(w: seq<byte>, t: EntityType): (r: seq<byte>)
    ensures |r| == |w| + 8
  {
    var a := PutU8(PutU16(PutU8(PutU8(w, t.kind), t.domain), t.country), t.category);
    PutU8(PutU8(PutU8(a, t.subcategory), t.specific), t.extra)
  }

  function ReadEntityType(bs: seq<byte>, pos: nat): (r: Option<Got<EntityType>>)
    ensures r.Some? ==> r.value.next == pos + 8 <= |bs|
  {
    var kind :- ReadU8(bs, pos);
    var domain :- ReadU8(bs, kind.next);
    var country :- ReadU16(bs, domain.next);
    var category :- ReadU8(bs, country.next);
    var subcategory :- ReadU8(bs, category.next);
    var specific :- ReadU8(bs, subcategory.next);
    var extra :- ReadU8(bs, specific.next);
    Some(Got(EntityType(kind.value, domain.value, country.value, category.value, subcategory.value, specific.value,
                        extra.value),
             extra.next))
  }

  lemma EntityTypeBack(w: seq<byte>, t: EntityType, bs: seq<byte>)
    requires Starts(PutEntityType(w, t), bs)
    ensures ReadEntityType(bs, |w|) == Some(Got(t, |PutEntityType(w, t)|)) && Starts(w, bs)
  {
    var a := PutU8(w, t.kind);
    var b := PutU8(a, t.domain);
    var c := PutU16(b, t.country);
    var d := PutU8(c, t.category);
    var e := PutU8(d, t.subcategory);
    U8Back(PutU8(e, t.specific), t.extra, bs);
    U8Back(e, t.specific, bs);
    U8Back(d, t.subcategory, bs);
    U8Back(c, t.category, bs);
    U16Back(b, t.country, bs);
    U8Back(a, t.domain, bs);
    U8Back(w, t.kind, bs);
  }

  // ---------------------------------------------------------------------
  // Coordinates and angles

  function PutVector(w: seq<byte>, v: Vector): (r: seq<byte>)
    ensures |r| == |w| + 12
  {
    PutU32(PutU32(PutU32(w, v.x), v.y), v.z)
  }

  function ReadVector(bs: seq<byte>, pos: nat): (r: Option<Got<Vector>>)
    ensures r.Some? ==> r.value.next == pos + 12 <= |bs|
  {
    var x :- ReadU32(bs, pos);
    var y :- ReadU32(bs, x.next);
    var z :- ReadU32(bs, y.next);
    Some(Got(Vector(x.value, y.value, z.value), z.next))
  }

  lemma VectorBack(w: seq<byte>, v: Vector, bs: seq<byte>)
    requires Starts(PutVector(w, v), bs)
    ensures ReadVector(bs, |w|) == Some(Got(v, |PutVector(w, v)|)) && Starts(w, bs)
  {
    var a := PutU32(w, v.x);
    U32Back(PutU32(a, v.y), v.z, bs);
    U32Back(a, v.y, bs);
    U32Back(w, v.x, bs);
  }

  function PutWorld(w: seq<byte>, p: WorldCoordinates): (r: seq<byte>)
    ensures |r| == |w| + 24
  {
    PutU64(PutU64(PutU64(w, p.x), p.y), p.z)
  }

  function ReadWorld(bs: seq<byte>, pos: nat): (r: Option<Got<WorldCoordinates>>)
    ensures r.Some? ==> r.value.next == pos + 24 <= |bs|
  {
    var x :- ReadU64(bs, pos);
    var y :- ReadU64(bs, x.next);
    var z :- ReadU64(bs, y.next);
    Some(Got(WorldCoordinates(x.value, y.value, z.value), z.next))
  }

  lemma WorldBack(w: seq<byte>, p: WorldCoordinates, bs: seq<byte>)
    requires Starts(PutWorld(w, p), bs)
    ensures ReadWorld(bs, |w|) == Some(Got(p, |PutWorld(w, p)|)) && Starts(w, bs)
  {
    var a := PutU64(w, p.x);
    U64Back(PutU64(a, p.y), p.z, bs);
    U64Back(a, p.y, bs);
    U64Back(w, p.x, bs);
  }

  function PutQuat(w: seq<byte>, q: DisQuat): (r: seq<byte>)
    ensures |r| == |w| + 14
  {
    PutVector(PutU16(w, q.u0), Vector(q.x, q.y, q.z))
  }

  function ReadQuat(bs: seq<byte>, pos: nat): (r: Option<Got<DisQuat>>)
    ensures r.Some? ==> r.value.next == pos + 14 <= |bs|
  {
    var u0 :- ReadU16(bs, pos);
    var v :- ReadVector(bs, u0.next);
    Some(Got(DisQuat(u0.value, v.value.x, v.value.y, v.value.z), v.next))
  }

  lemma QuatBack(w: seq<byte>, q: DisQuat, bs: seq<byte>)
    requires Starts(PutQuat(w, q), bs)
    ensures ReadQuat(bs, |w|) == Some(Got(q, |PutQuat(w, q)|)) && Starts(w, bs)
  {
    VectorBack(PutU16(w, q.u0), Vector(q.x, q.y, q.z), bs);
    U16Back(w, q.u0, bs);
  }

  // ---------------------------------------------------------------------
  // DeadReckoningParameters: the writer pads the union to 14 bytes whatever
  // its type; the reader skips only 8 for a type it does not know.

  function PutUnion(w: seq<byte>, u: DrUnion): (r: seq<byte>)
    ensures |r| == |w| + 15
  {
    match u
    case Fixed(angles) => PutVector(Pad(PutU8(w, 1), 2), angles)
    case Rotating(quat) => PutQuat(PutU8(w, 2), quat)
    case Other(paramsType) => Pad(PutU8(w, paramsType), 14)
  }

  function ReadUnion(bs: seq<byte>, pos: nat): (r: Option<Got<DrUnion>>)
    ensures r.Some? ==> r.value.next <= pos + 15
    ensures r.Some? && r.value.value.Other? ==> r.value.next <= pos + 9
  {
    var paramsType :- ReadU8(bs, pos);
    if paramsType.value == 1 then
      var angles :- ReadVector(bs, Skipped(bs, paramsType.next, 2));
      Some(Got(Fixed(angles.value), angles.next))
    else if paramsType.value == 2 then
      var quat :- ReadQuat(bs, paramsType.next);
      Some(Got(Rotating(quat.value), quat.next))
    else
      Some(Got(Other(paramsType.value), Skipped(bs, paramsType.next, 8)))
  }

  lemma UnionBack(w: seq<byte>, u: DrUnion, bs: seq<byte>)
    requires Starts(PutUnion(w, u), bs)
    ensures Starts(w, bs)
    ensures ReadUnion(bs, |w|) == Some(Got(u, if u.Other? then |w| + 9 else |PutUnion(w, u)|))
  {
    match u {
      case Fixed(angles) =>
        VectorBack(Pad(PutU8(w, 1), 2), angles, bs);
        PadBack(PutU8(w, 1), 2, bs);
        U8Back(w, 1, bs);
      case Rotating(quat) =>
        QuatBack(PutU8(w, 2), quat, bs);
        U8Back(w, 2, bs);
      case Other(paramsType) =>
        PadBack(PutU8(w, paramsType), 14, bs);
        U8Back(w, paramsType, bs);
    }
  }

  function PutDeadReckoning(w: seq<byte>, d: DeadReckoning): (r: seq<byte>)
    ensures |r| == |w| + 40
  {
    PutVector(PutVector(PutUnion(PutU8(w, d.algorithm), d.parameters), d.linearAcceleration), d.angularVelocity)
  }

  function ReadDeadReckoning(bs: seq<byte>, pos: nat): (r: Option<Got<DeadReckoning>>)
    ensures r.Some? ==> r.value.next <= pos + 40
    ensures r.Some? && r.value.value.parameters.Other? ==> r.value.next < pos + 40
  {
    var algorithm :- ReadU8(bs, pos);
    var parameters :- ReadUnion(bs, algorithm.next);
    var acceleration :- ReadVector(bs, parameters.next);
    var velocity :- ReadVector(bs, acceleration.next);
    Some(Got(DeadReckoning(algorithm.value, parameters.value, acceleration.value, velocity.value), velocity.next))
  }

  lemma DeadReckoningBack(w: seq<byte>, d: DeadReckoning, bs: seq<byte>)
    requires Starts(PutDeadReckoning(w, d), bs)
    ensures Starts(w, bs)
    ensures !d.parameters.Other? ==> ReadDeadReckoning(bs, |w|) == Some(Got(d, |PutDeadReckoning(w, d)|))
  {
    var a := PutU8(w, d.algorithm);
    var b := PutUnion(a, d.parameters);
    var c := PutVector(b, d.linearAcceleration);
    VectorBack(c, d.angularVelocity, bs);
    VectorBack(b, d.linearAcceleration, bs);
    UnionBack(a, d.parameters, bs);
    U8Back(w, d.algorithm, bs);
  }

  // ---------------------------------------------------------------------
  // The records of an emission

  function PutEeFundamental(w: seq<byte>, p: EeFundamental): (r: seq<byte>)
    ensures |r| == |w| + 20
  {
    var a := PutU32(PutU32(w, p.centerFrequency), p.frequencyRange);
    PutVector(a, Vector(p.effectiveRadiatedPower, p.pulseRepetitionFrequency, p.pulseWidth))
  }

  function ReadEeFundamental(bs: seq<byte>, pos: nat): (r: Option<Got<EeFundamental>>)
    ensures r.Some? ==> r.value.next == pos + 20 <= |bs|
  {
    var frequency :- ReadU32(bs, pos);
    var range :- ReadU32(bs, frequency.next);
    var v :- ReadVector(bs, range.next);
    Some(Got(EeFundamental(frequency.value, range.value, v.value.x, v.value.y, v.value.z), v.next))
  }

  lemma EeFundamentalBack(w: seq<byte>, p: EeFundamental, bs: seq<byte>)
    requires Starts(PutEeFundamental(w, p), bs)
    ensures ReadEeFundamental(bs, |w|) == Some(Got(p, |PutEeFundamental(w, p)|)) && Starts(w, bs)
  {
    var a := PutU32(w, p.centerFrequency);
    VectorBack(PutU32(a, p.frequencyRange),
               Vector(p.effectiveRadiatedPower, p.pulseRepetitionFrequency, p.pulseWidth), bs);
    U32Back(a, p.frequencyRange, bs);
    U32Back(w, p.centerFrequency, bs);
  }

  function PutBeamData(w: seq<byte>, d: BeamData): (r: seq<byte>)
    ensures |r| == |w| + 20
  {
    var a := PutU32(PutU32(w, d.azimuthCenter), d.elevationCenter);
    PutVector(a, Vector(d.azimuthSweep, d.elevationSweep, d.sweepSync))
  }

  function ReadBeamData(bs: seq<byte>, pos: nat): (r: Option<Got<BeamData>>)
    ensures r.Some? ==> r.value.next == pos + 20 <= |bs|
  {
    var azimuth :- ReadU32(bs, pos);
    var elevation :- ReadU32(bs, azimuth.next);
    var v :- ReadVector(bs, elevation.next);
    Some(Got(BeamData(azimuth.value, elevation.value, v.value.x, v.value.y, v.value.z), v.next))
  }

  lemma BeamDataBack(w: seq<byte>, d: BeamData, bs: seq<byte>)
    requires Starts(PutBeamData(w, d), bs)
    ensures ReadBeamData(bs, |w|) == Some(Got(d, |PutBeamData(w, d)|)) && Starts(w, bs)
  {
    var a := PutU32(w, d.azimuthCenter);
    VectorBack(PutU32(a, d.elevationCenter), Vector(d.azimuthSweep, d.elevationSweep, d.sweepSync), bs);
    U32Back(a, d.elevationCenter, bs);
    U32Back(w, d.azimuthCenter, bs);
  }

  function PutJamming(w: seq<byte>, t: JammingTechnique): (r: seq<byte>)
    ensures |r| == |w| + 4
  {
    PutU8(PutU8(PutU8(PutU8(w, t.kind), t.category), t.subcategory), t.specific)
  }

  function ReadJamming(bs: seq<byte>, pos: nat): (r: Option<Got<JammingTechnique>>)
    ensures r.Some? ==> r.value.next == pos + 4 <= |bs|
  {
    var kind :- ReadU8(bs, pos);
    var category :- ReadU8(bs, kind.next);
    var subcategory :- ReadU8(bs, category.next);
    var specific :- ReadU8(bs, subcategory.next);
    Some(Got(JammingTechnique(kind.value, category.value, subcategory.value, specific.value), specific.next))
  }

  lemma JammingBack(w: seq<byte>, t: JammingTechnique, bs: seq<byte>)
    requires Starts(PutJamming(w, t), bs)
    ensures ReadJamming(bs, |w|) == Some(Got(t, |PutJamming(w, t)|)) && Starts(w, bs)
  {
    var a := PutU8(w, t.kind);
    var b := PutU8(a, t.category);
    U8Back(PutU8(b, t.subcategory), t.specific, bs);
    U8Back(b, t.subcategory, bs);
    U8Back(a, t.category, bs);
    U8Back(w, t.kind, bs);
  }

  function PutTrackJam(w: seq<byte>, t: TrackJam): (r: seq<byte>)
    ensures |r| == |w| + 8
  {
    PutU8(PutU8(PutId(w, t.target), t.emitterNumber), t.beamNumber)
  }

  function ReadTrackJam(bs: seq<byte>, pos: nat): (r: Option<Got<TrackJam>>)
    ensures r.Some? ==> r.value.next == pos + 8 <= |bs|
  {
    var target :- ReadId(bs, pos);
    var emitter :- ReadU8(bs, target.next);
    var beam :- ReadU8(bs, emitter.next);
    Some(Got(TrackJam(target.value, emitter.value, beam.value), beam.next))
  }

  lemma TrackJamBack(w: seq<byte>, t: TrackJam, bs: seq<byte>)
    requires Starts(PutTrackJam(w, t), bs)
    ensures ReadTrackJam(bs, |w|) == Some(Got(t, |PutTrackJam(w, t)|)) && Starts(w, bs)
  {
    var a := PutId(w, t.target);
    U8Back(PutU8(a, t.emitterNumber), t.beamNumber, bs);
    U8Back(a, t.emitterNumber, bs);
    IdBack(w, t.target, bs);
  }
}

// serialize_wire over DirectSerializer: each field is copied into the output
// view and the view advances behind it.

module DisSerializer {
  import opened Bytes
  import opened Wrappers
  import opened DisWire
  import opened DisRecords
  import ES = DisEntityState
  import EE = DisEmission
  import L = DisLayout

  datatype Status = Ok | BufferFull

  // The view starts at pos, behind the bytes w.
  ghost predicate At(out: seq<byte>, w: seq<byte>, pos: nat) {
    pos == |w| && Starts(w, out)
  }

  // Nothing has changed from pos on.
  ghost predicate SameFrom(before: seq<byte>, after: seq<byte>, pos: nat) {
    |before| == |after| && forall i :: pos <= i < |before| ==> after[i] == before[i]
  }

  lemma Copied(before: seq<byte>, after: seq<byte>, w: seq<byte>, bytes: seq<byte>)
    requires Starts(w, before) && |w| + |bytes| <= |before|
    requires after == before[..|w|] + bytes + before[|w| + |bytes|..]
    ensures Starts(PutBytes(w, bytes), after) && SameFrom(before, after, |w| + |bytes|)
  {
    StartsIsPrefix(w, before);
    StartsIsPrefix(PutBytes(w, bytes), after);
    assert before[..|w|] == w;
    assert after[..|w| + |bytes|] == PutBytes(w, bytes);
  }

  // One more record of a run, and room for it where there is room for them all.

  lemma {:induction false} NextBeam(v: seq<byte>, beams: seq<EE.Beam>, i: nat)
    requires i < |beams|
    ensures EE.PutBeams(v, beams[i..]) == EE.PutBeams(EE.PutBeam(v, beams[i]), beams[i + 1..])
    ensures 8 * |v| + EE.BeamBits(beams[i]) <= 8 * |EE.PutBeams(v, beams[i..])|
  {
    assert beams[i..][0] == beams[i] && beams[i..][1..] == beams[i + 1..];
  }

  lemma {:induction false} NextSystem(v: seq<byte>, systems: seq<EE.EmitterSystem>, i: nat)
    requires i < |systems|
    ensures EE.PutSystems(v, systems[i..]) == EE.PutSystems(EE.PutSystem(v, systems[i]), systems[i + 1..])
    ensures 8 * |v| + EE.SystemBits(systems[i]) <= 8 * |EE.PutSystems(v, systems[i..])|
  {
    assert systems[i..][0] == systems[i] && systems[i..][1..] == systems[i + 1..];
  }

  lemma {:induction false} RoomForSystems(w: seq<byte>, pdu: EE.Emission, room: nat)
    requires |w| + EE.PduSize(pdu) <= room
    ensures |EE.PutEmissionFixed(w, pdu)| <= room
    ensures 8 * |EE.PutEmissionFixed(w, pdu)| + EE.SystemsBits(pdu.systems) <= 8 * room
  {
    L.SystemsOctetsAre(pdu.systems);
  }

  class DirectSerializer {
    const host: Endian

    constructor (host: Endian)
      ensures this.host == host
    {
      this.host := host;
    }

    // memcpy of an object; BufferFull, and no change, when it does not fit.
    method Write(bytes: seq<byte>, out: array<byte>, ghost w: seq<byte>, pos: nat) returns (next: nat, status: Status)
      requires At(out[..], w, pos)
      modifies out
      ensures status == Ok <==> pos + |bytes| <= out.Length
      ensures status == Ok ==>
                At(out[..], PutBytes(w, bytes), next) && SameFrom(old(out[..]), out[..], next)
      ensures status != Ok ==> out[..] == old(out[..]) && next == pos
    {
      if |bytes| > out.Length - pos {
        return pos, BufferFull;
      }
      ghost var before := out[..];
      forall i | 0 <= i < |bytes| {
        out[pos + i] := bytes[i];
      }
      assert out[..] == before[..pos] + bytes + before[pos + |bytes|..];
      Copied(before, out[..], w, bytes);
      next, status := pos + |bytes|, Ok;
    }

    method PadBytes(n: nat, out: array<byte>, ghost w: seq<byte>, pos: nat) returns (next: nat)
      requires At(out[..], w, pos) && pos + n <= out.Length
      modifies out
      ensures At(out[..], Pad(w, n), next) && SameFrom(old(out[..]), out[..], next)
    {
      var status;
      next, status := Write(seq(n, _ => 0), out, w, pos);
    }

    method WriteU8(x: byte, out: array<byte>, ghost w: seq<byte>, pos: nat) returns (next: nat)
      requires At(out[..], w, pos) && pos < out.Length
      modifies out
      ensures At(out[..], PutU8(w, x), next) && SameFrom(old(out[..]), out[..], next)
    {
      var status;
      next, status := Write([x], out, w, pos);
    }

    // A word wrapped in be<T>: kept in network order inside a word of the host.
    method WriteWord(x: nat, width: nat, out: array<byte>, ghost w: seq<byte>, pos: nat) returns (next: nat)
      requires At(out[..], w, pos) && pos + width <= out.Length
      modifies out
      ensures At(out[..], PutWord(w, x, width), next) && SameFrom(old(out[..]), out[..], next)
    {
      var repr := Reordered(host, Big, x, width);
      BigEndianOnEveryHost(host, x, width);
      var status;
      next, status := Write(Image(host, repr, width), out, w, pos);
    }

    method WriteU16(x: u16, out: array<byte>, ghost w: seq<byte>, pos: nat) returns (next: nat)
      requires At(out[..], w, pos) && pos + 2 <= out.Length
      modifies out
      ensures At(out[..], PutU16(w, x), next) && SameFrom(old(out[..]), out[..], next)
    {
      next := WriteWord(x, 2, out, w, pos);
    }

    method WriteU32(x: u32, out: array<byte>, ghost w: seq<byte>, pos: nat) returns (next: nat)
      requires At(out[..], w, pos) && pos + 4 <= out.Length
      modifies out
      ensures At(out[..], PutU32(w, x), next) && SameFrom(old(out[..]), out[..], next)
    {
      next := WriteWord(x, 4, out, w, pos);
    }

    method WriteU64(x: u64, out: array<byte>, ghost w: seq<byte>, pos: nat) returns (next: nat)
      requires At(out[..], w, pos) && pos + 8 <= out.Length
      modifies out
      ensures At(out[..], PutU64(w, x), next) && SameFrom(old(out[..]), out[..], next)
    {
      next := WriteWord(x, 8, out, w, pos);
    }

    method WriteHost32(x: u32, out: array<byte>, ghost w: seq<byte>, pos: nat) returns (next: nat)
      requires At(out[..], w, pos) && pos + 4 <= out.Length
      modifies out
      ensures At(out[..], PutHost32(host, w, x), next) && SameFrom(old(out[..]), out[..], next)
    {
      var status;
      next, status := Write(Image(host, x, 4), out, w, pos);
    }

    // -------------------------------------------------------------------
    // Records

    method SerializeHeader(h: PduHeader, pduSize: nat, out: array<byte>, ghost w: seq<byte>, pos: nat)
      returns (next: nat)
      requires At(out[..], w, pos) && pos + 12 <= out.Length
      modifies out
      ensures At(out[..], PutHeader(w, h, pduSize), next) && SameFrom(old(out[..]), out[..], next)
      ensures L.HeaderLaid(out[..], pos, h, pduSize)
    {
      next := WriteU8(h.protocolVersion, out, w, pos);
      ghost var v := PutU8(w, h.protocolVersion);
      next := WriteU8(h.exerciseId, out, v, next);
      v := PutU8(v, h.exerciseId);
      next := WriteU8(h.pduType, out, v, next);
      v := PutU8(v, h.pduType);
      next := WriteU8(h.protocolFamily, out, v, next);
      v := PutU8(v, h.protocolFamily);
      next := WriteU32(h.timestamp, out, v, next);
      v := PutU32(v, h.timestamp);
      next := WriteU16(Low16(pduSize), out, v, next);
      v := PutU16(v, Low16(pduSize));
      next := WriteU8(h.status, out, v, next);
      v := PutU8(v, h.status);
      next := PadBytes(1, out, v, next);
      L.HeaderPut(w, h, pduSize, out[..]);
    }

    method SerializeId(id: Id, out: array<byte>, ghost w: seq<byte>, pos: nat) returns (next: nat)
      requires At(out[..], w, pos) && pos + 6 <= out.Length
      modifies out
      ensures At(out[..], PutId(w, id), next) && SameFrom(old(out[..]), out[..], next)
    {
      next := WriteU16(id.site, out, w, pos);
      ghost var v := PutU16(w, id.site);
      next := WriteU16(id.application, out, v, next);
      v := PutU16(v, id.application);
      next := WriteU16(id.id, out, v, next);
    }

    method SerializeEntityType(t: EntityType, out: array<byte>, ghost w: seq<byte>, pos: nat) returns (next: nat)
      requires At(out[..], w, pos) && pos + 8 <= out.Length
      modifies out
      ensures At(out[..], PutEntityType(w, t), next) && SameFrom(old(out[..]), out[..], next)
    {
      next := WriteU8(t.kind, out, w, pos);
      ghost var v := PutU8(w, t.kind);
      next := WriteU8(t.domain, out, v, next);
      v := PutU8(v, t.domain);
      next := WriteU16(t.country, out, v, next);
      v := PutU16(v, t.country);
      next := WriteU8(t.category, out, v, next);
      v := PutU8(v, t.category);
      next := WriteU8(t.subcategory, out, v, next);
      v := PutU8(v, t.subcategory);
      next := WriteU8(t.specific, out, v, next);
      v := PutU8(v, t.specific);
      next := WriteU8(t.extra, out, v, next);
    }

    method SerializeVector(u: Vector, out: array<byte>, ghost w: seq<byte>, pos: nat) returns (next: nat)
      requires At(out[..], w, pos) && pos + 12 <= out.Length
      modifies out
      ensures At(out[..], PutVector(w, u), next) && SameFrom(old(out[..]), out[..], next)
    {
      next := WriteU32(u.x, out, w, pos);
      ghost var v := PutU32(w, u.x);
      next := WriteU32(u.y, out, v, next);
      v := PutU32(v, u.y);
      next := WriteU32(u.z, out, v, next);
    }

    method SerializeWorld(p: WorldCoordinates, out: array<byte>, ghost w: seq<byte>, pos: nat) returns (next: nat)
      requires At(out[..], w, pos) && pos + 24 <= out.Length
      modifies out
      ensures At(out[..], PutWorld(w, p), next) && SameFrom(old(out[..]), out[..], next)
    {
      next := WriteU64(p.x, out, w, pos);
      ghost var v := PutU64(w, p.x);
      next := WriteU64(p.y, out, v, next);
      v := PutU64(v, p.y);
      next := WriteU64(p.z, out, v, next);
    }

    method SerializeQuat(q: DisQuat, out: array<byte>, ghost w: seq<byte>, pos: nat) returns (next: nat)
      requires At(out[..], w, pos) && pos + 14 <= out.Length
      modifies out
      ensures At(out[..], PutQuat(w, q), next) && SameFrom(old(out[..]), out[..], next)
    {
      next := WriteU16(q.u0, out, w, pos);
      ghost var v := PutU16(w, q.u0);
      next := WriteU32(q.x, out, v, next);
      v := PutU32(v, q.x);
      next := WriteU32(q.y, out, v, next);
      v := PutU32(v, q.y);
      next := WriteU32(q.z, out, v, next);
    }

    method SerializeDeadReckoning(d: DeadReckoning, out: array<byte>, ghost w: seq<byte>, pos: nat)
      returns (next: nat)
      requires At(out[..], w, pos) && pos + 40 <= out.Length
      modifies out
      ensures At(out[..], PutDeadReckoning(w, d), next) && SameFrom(old(out[..]), out[..], next)
    {
      next := WriteU8(d.algorithm, out, w, pos);
      ghost var v := PutU8(w, d.algorithm);
      next := SerializeUnion(d.parameters, out, v, next);
      v := PutUnion(v, d.parameters);
      next := SerializeVector(d.linearAcceleration, out, v, next);
      v := PutVector(v, d.linearAcceleration);
      next := SerializeVector(d.angularVelocity, out, v, next);
    }

    method SerializeUnion(u: DrUnion, out: array<byte>, ghost w: seq<byte>, pos: nat) returns (next: nat)
      requires At(out[..], w, pos) && pos + 15 <= out.Length
      modifies out
      ensures At(out[..], PutUnion(w, u), next) && SameFrom(old(out[..]), out[..], next)
    {
      match u {
        case Fixed(angles) =>
          next := WriteU8(1, out, w, pos);
          next := PadBytes(2, out, PutU8(w, 1), next);
          next := SerializeVector(angles, out, Pad(PutU8(w, 1), 2), next);
        case Rotating(quat) =>
          next := WriteU8(2, out, w, pos);
          next := SerializeQuat(quat, out, PutU8(w, 2), next);
        case Other(paramsType) =>
          next := WriteU8(paramsType, out, w, pos);
          next := PadBytes(14, out, PutU8(w, paramsType), next);
      }
    }

    method SerializeEeFundamental(p: EeFundamental, out: array<byte>, ghost w: seq<byte>, pos: nat)
      returns (next: nat)
      requires At(out[..], w, pos) && pos + 20 <= out.Length
      modifies out
      ensures At(out[..], PutEeFundamental(w, p), next) && SameFrom(old(out[..]), out[..], next)
    {
      next := WriteU32(p.centerFrequency, out, w, pos);
      ghost var v := PutU32(w, p.centerFrequency);
      next := WriteU32(p.frequencyRange, out, v, next);
      v := PutU32(v, p.frequencyRange);
      next := WriteU32(p.effectiveRadiatedPower, out, v, next);
      v := PutU32(v, p.effectiveRadiatedPower);
      next := WriteU32(p.pulseRepetitionFrequency, out, v, next);
      v := PutU32(v, p.pulseRepetitionFrequency);
      next := WriteU32(p.pulseWidth, out, v, next);
    }

    method SerializeBeamData(d: BeamData, out: array<byte>, ghost w: seq<byte>, pos: nat) returns (next: nat)
      requires At(out[..], w, pos) && pos + 20 <= out.Length
      modifies out
      ensures At(out[..], PutBeamData(w, d), next) && SameFrom(old(out[..]), out[..], next)
    {
      next := WriteU32(d.azimuthCenter, out, w, pos);
      ghost var v := PutU32(w, d.azimuthCenter);
      next := WriteU32(d.elevationCenter, out, v, next);
      v := PutU32(v, d.elevationCenter);
      next := WriteU32(d.azimuthSweep, out, v, next);
      v := PutU32(v, d.azimuthSweep);
      next := WriteU32(d.elevationSweep, out, v, next);
      v := PutU32(v, d.elevationSweep);
      next := WriteU32(d.sweepSync, out, v, next);
    }

    method SerializeJamming(t: JammingTechnique, out: array<byte>, ghost w: seq<byte>, pos: nat) returns (next: nat)
      requires At(out[..], w, pos) && pos + 4 <= out.Length
      modifies out
      ensures At(out[..], PutJamming(w, t), next) && SameFrom(old(out[..]), out[..], next)
    {
      next := WriteU8(t.kind, out, w, pos);
      ghost var v := PutU8(w, t.kind);
      next := WriteU8(t.category, out, v, next);
      v := PutU8(v, t.category);
      next := WriteU8(t.subcategory, out, v, next);
      v := PutU8(v, t.subcategory);
      next := WriteU8(t.specific, out, v, next);
    }

    method SerializeTrackJam(t: TrackJam, out: array<byte>, ghost w: seq<byte>, pos: nat) returns (next: nat)
      requires At(out[..], w, pos) && pos + 8 <= out.Length
      modifies out
      ensures At(out[..], PutTrackJam(w, t), next) && SameFrom(old(out[..]), out[..], next)
    {
      next := SerializeId(t.target, out, w, pos);
      ghost var v := PutId(w, t.target);
      next := WriteU8(t.emitterNumber, out, v, next);
      v := PutU8(v, t.emitterNumber);
      next := WriteU8(t.beamNumber, out, v, next);
    }

    // -------------------------------------------------------------------
    // Entity State

    // A fixed array of bytes, one write for each.
    method WriteEach(bytes: seq<byte>, out: array<byte>, ghost w: seq<byte>, pos: nat) returns (next: nat)
      requires At(out[..], w, pos) && pos + |bytes| <= out.Length
      modifies out
      ensures At(out[..], PutBytes(w, bytes), next) && SameFrom(old(out[..]), out[..], next)
    {
      next := pos;
      assert PutBytes(w, bytes[..0]) == w;
      for i := 0 to |bytes|
        invariant At(out[..], PutBytes(w, bytes[..i]), next) && SameFrom(old(out[..]), out[..], next)
      {
        assert PutU8(PutBytes(w, bytes[..i]), bytes[i]) == PutBytes(w, bytes[..i + 1]);
        next := WriteU8(bytes[i], out, PutBytes(w, bytes[..i]), next);
      }
      assert bytes[..|bytes|] == bytes;
    }

    method SerializeParameters(ps: seq<ES.VariableParameter>, out: array<byte>, ghost w: seq<byte>, pos: nat)
      returns (next: nat)
      requires At(out[..], w, pos) && pos + 16 * |ps| <= out.Length
      modifies out
      ensures At(out[..], ES.PutParameters(w, ps), next) && SameFrom(old(out[..]), out[..], next)
    {
      next := pos;
      ghost var v := w;
      for i := 0 to |ps|
        invariant At(out[..], v, next) && SameFrom(old(out[..]), out[..], next)
        invariant ES.PutParameters(v, ps[i..]) == ES.PutParameters(w, ps)
      {
        assert ps[i..][0] == ps[i] && ps[i..][1..] == ps[i + 1..];
        next := WriteU8(ps[i].kind, out, v, next);
        next := WriteEach(ps[i].data, out, PutU8(v, ps[i].kind), next);
        v := ES.PutParameter(v, ps[i]);
      }
    }

    method SerializeEntityState(pdu: ES.EntityState, out: array<byte>, ghost w: seq<byte>, pos: nat)
      returns (next: nat)
      requires At(out[..], w, pos) && pos + ES.PduSize(pdu) <= out.Length
      modifies out
      ensures At(out[..], ES.PutEntityState(host, w, pdu), next) && SameFrom(old(out[..]), out[..], next)
      ensures L.EntityStateLaid(host, out[..], pos, pdu)
    {
      next := SerializeIdentity(pdu, out, w, pos);
      ghost var v := ES.PutIdentity(w, pdu);
      next := SerializeMotion(pdu, out, v, next);
      v := ES.PutMotion(host, v, pdu);
      next := WriteU8(pdu.marking.characterSet, out, v, next);
      next := WriteEach(pdu.marking.marking, out, PutU8(v, pdu.marking.characterSet), next);
      v := ES.PutMarking(v, pdu.marking);
      next := WriteHost32(pdu.capabilities, out, v, next);
      v := PutHost32(host, v, pdu.capabilities);
      next := SerializeParameters(pdu.variableParameters, out, v, next);
      L.EntityStatePut(host, w, pdu, out[..]);
    }

    method SerializeIdentity(pdu: ES.EntityState, out: array<byte>, ghost w: seq<byte>, pos: nat) returns (next: nat)
      requires At(out[..], w, pos) && pos + 36 <= out.Length
      modifies out
      ensures At(out[..], ES.PutIdentity(w, pdu), next) && SameFrom(old(out[..]), out[..], next)
    {
      next := SerializeHeader(pdu.header, ES.PduSize(pdu), out, w, pos);
      ghost var v := PutHeader(w, pdu.header, ES.PduSize(pdu));
      next := SerializeId(pdu.entityId, out, v, next);
      v := PutId(v, pdu.entityId);
      next := WriteU8(pdu.forceId, out, v, next);
      v := PutU8(v, pdu.forceId);
      next := WriteU8(Low8(|pdu.variableParameters|), out, v, next);
      v := PutU8(v, Low8(|pdu.variableParameters|));
      next := SerializeEntityType(pdu.entityType, out, v, next);
      v := PutEntityType(v, pdu.entityType);
      next := SerializeEntityType(pdu.alternativeEntityType, out, v, next);
    }

    method SerializeMotion(pdu: ES.EntityState, out: array<byte>, ghost w: seq<byte>, pos: nat) returns (next: nat)
      requires At(out[..], w, pos) && pos + 92 <= out.Length
      modifies out
      ensures At(out[..], ES.PutMotion(host, w, pdu), next) && SameFrom(old(out[..]), out[..], next)
    {
      next := SerializeVector(pdu.linearVelocity, out, w, pos);
      ghost var v := PutVector(w, pdu.linearVelocity);
      next := SerializeWorld(pdu.location, out, v, next);
      v := PutWorld(v, pdu.location);
      next := SerializeVector(pdu.orientation, out, v, next);
      v := PutVector(v, pdu.orientation);
      next := WriteHost32(pdu.appearance, out, v, next);
      v := PutHost32(host, v, pdu.appearance);
      next := SerializeDeadReckoning(pdu.deadReckoning, out, v, next);
    }

    // -------------------------------------------------------------------
    // Electromagnetic Emission

    method SerializeBeam(b: EE.Beam, out: array<byte>, ghost w: seq<byte>, pos: nat) returns (next: nat)
      requires At(out[..], w, pos) && 8 * pos + EE.BeamBits(b) <= 8 * out.Length
      modifies out
      ensures At(out[..], EE.PutBeam(w, b), next) && SameFrom(old(out[..]), out[..], next)
      ensures L.BeamLaid(out[..], pos, b)
    {
      next := SerializeBeamFixed(b, out, w, pos);
      ghost var v := EE.PutBeamFixed(w, b);
      if b.trackJams.Some? {
        var jams := b.trackJams.value;
        for i := 0 to |jams|
          invariant At(out[..], v, next) && SameFrom(old(out[..]), out[..], next)
          invariant EE.PutJams(v, jams[i..]) == EE.PutBeam(w, b)
        {
          assert jams[i..][0] == jams[i] && jams[i..][1..] == jams[i + 1..];
          next := SerializeTrackJam(jams[i], out, v, next);
          v := PutTrackJam(v, jams[i]);
        }
      }
      L.BeamPut(w, b, out[..]);
    }

    method SerializeBeamFixed(b: EE.Beam, out: array<byte>, ghost w: seq<byte>, pos: nat) returns (next: nat)
      requires At(out[..], w, pos) && pos + 52 <= out.Length
      modifies out
      ensures At(out[..], EE.PutBeamFixed(w, b), next) && SameFrom(old(out[..]), out[..], next)
    {
      var trackJamsSize := if b.trackJams.Some? then |b.trackJams.value| else 0;
      var length := Low8((416 + 64 * trackJamsSize) / 32);
      next := WriteU8(length, out, w, pos);
      ghost var v := PutU8(w, length);
      next := WriteU8(b.beamNumber, out, v, next);
      v := PutU8(v, b.beamNumber);
      next := WriteU16(b.parameterIndex, out, v, next);
      v := PutU16(v, b.parameterIndex);
      next := SerializeEeFundamental(b.fundamental, out, v, next);
      v := PutEeFundamental(v, b.fundamental);
      next := SerializeBeamData(b.beamData, out, v, next);
      v := PutBeamData(v, b.beamData);
      next := WriteU8(b.beamFunction, out, v, next);
      v := PutU8(v, b.beamFunction);
      next := WriteU8(b.numberOfTargets, out, v, next);
      v := PutU8(v, b.numberOfTargets);
      next := WriteU8(b.highDensityTrackJam, out, v, next);
      v := PutU8(v, b.highDensityTrackJam);
      next := WriteU8(b.beamStatus, out, v, next);
      v := PutU8(v, b.beamStatus);
      next := SerializeJamming(b.jammingTechnique, out, v, next);
    }

    static method SizeOfBeams(beams: seq<EE.Beam>) returns (bits: nat)
      ensures bits == EE.BeamsBits(beams)
    {
      bits := 0;
      for i := 0 to |beams|
        invariant bits + EE.BeamsBits(beams[i..]) == EE.BeamsBits(beams)
      {
        assert beams[i..][0] == beams[i] && beams[i..][1..] == beams[i + 1..];
        bits := bits + 416 + 64 * if beams[i].trackJams.Some? then |beams[i].trackJams.value| else 0;
      }
    }

    method SerializeSystem(s: EE.EmitterSystem, out: array<byte>, ghost w: seq<byte>, pos: nat) returns (next: nat)
      requires At(out[..], w, pos) && 8 * pos + EE.SystemBits(s) <= 8 * out.Length
      modifies out
      ensures At(out[..], EE.PutSystem(w, s), next) && SameFrom(old(out[..]), out[..], next)
      ensures L.SystemLaid(out[..], pos, s)
    {
      next := SerializeSystemFixed(s, out, w, pos);
      next := SerializeBeams(s.beams, out, EE.PutSystemFixed(w, s), next);
      L.SystemPut(w, s, out[..]);
    }

    // The loop over the beams
    method SerializeBeams(beams: seq<EE.Beam>, out: array<byte>, ghost w: seq<byte>, pos: nat) returns (next: nat)
      requires At(out[..], w, pos) && 8 * pos + EE.BeamsBits(beams) <= 8 * out.Length
      modifies out
      ensures At(out[..], EE.PutBeams(w, beams), next) && SameFrom(old(out[..]), out[..], next)
    {
      next := pos;
      ghost var v, whole := w, EE.PutBeams(w, beams);
      for i := 0 to |beams|
        invariant At(out[..], v, next) && SameFrom(old(out[..]), out[..], next)
        invariant EE.PutBeams(v, beams[i..]) == whole
      {
        NextBeam(v, beams, i);
        next := SerializeBeam(beams[i], out, v, next);
        v := EE.PutBeam(v, beams[i]);
      }
    }

    method SerializeSystemFixed(s: EE.EmitterSystem, out: array<byte>, ghost w: seq<byte>, pos: nat)
      returns (next: nat)
      requires At(out[..], w, pos) && pos + 20 <= out.Length
      modifies out
      ensures At(out[..], EE.PutSystemFixed(w, s), next) && SameFrom(old(out[..]), out[..], next)
    {
      var beamsSize := SizeOfBeams(s.beams);
      var length := Low8((160 + beamsSize) / 32);
      next := WriteU8(length, out, w, pos);
      ghost var v := PutU8(w, length);
      next := WriteU8(Low8(|s.beams|), out, v, next);
      v := PutU8(v, Low8(|s.beams|));
      next := PadBytes(2, out, v, next);
      v := Pad(v, 2);
      next := WriteU16(s.emitterName, out, v, next);
      v := PutU16(v, s.emitterName);
      next := WriteU8(s.systemFunction, out, v, next);
      v := PutU8(v, s.systemFunction);
      next := WriteU8(s.emitterNumber, out, v, next);
      v := PutU8(v, s.emitterNumber);
      next := SerializeVector(s.location, out, v, next);
    }

    static method PduSizeCalc(pdu: EE.Emission) returns (bytes: nat)
      ensures bytes == EE.PduSize(pdu)
    {
      var bits := 224;
      for i := 0 to |pdu.systems|
        invariant bits + EE.SystemsBits(pdu.systems[i..]) == 224 + EE.SystemsBits(pdu.systems)
      {
        assert pdu.systems[i..][0] == pdu.systems[i] && pdu.systems[i..][1..] == pdu.systems[i + 1..];
        var beams := SizeOfBeams(pdu.systems[i].beams);
        bits := bits + 160 + beams;
      }
      bytes := bits / 8;
    }

    method SerializeEmission(pdu: EE.Emission, out: array<byte>, ghost w: seq<byte>, pos: nat) returns (next: nat)
      requires At(out[..], w, pos) && pos + EE.PduSize(pdu) <= out.Length
      modifies out
      ensures At(out[..], EE.PutEmission(w, pdu), next) && SameFrom(old(out[..]), out[..], next)
      ensures L.EmissionLaid(out[..], pos, pdu)
    {
      next := SerializeEmissionFixed(pdu, out, w, pos);
      RoomForSystems(w, pdu, out.Length);
      next := SerializeSystems(pdu.systems, out, EE.PutEmissionFixed(w, pdu), next);
      L.EmissionPut(w, pdu, out[..]);
    }

    // The loop over the systems
    method SerializeSystems(systems: seq<EE.EmitterSystem>, out: array<byte>, ghost w: seq<byte>, pos: nat)
      returns (next: nat)
      requires At(out[..], w, pos) && 8 * pos + EE.SystemsBits(systems) <= 8 * out.Length
      modifies out
      ensures At(out[..], EE.PutSystems(w, systems), next) && SameFrom(old(out[..]), out[..], next)
    {
      next := pos;
      ghost var v, whole := w, EE.PutSystems(w, systems);
      for i := 0 to |systems|
        invariant At(out[..], v, next) && SameFrom(old(out[..]), out[..], next)
        invariant EE.PutSystems(v, systems[i..]) == whole
      {
        NextSystem(v, systems, i);
        next := SerializeSystem(systems[i], out, v, next);
        v := EE.PutSystem(v, systems[i]);
      }
    }

    method SerializeEmissionFixed(pdu: EE.Emission, out: array<byte>, ghost w: seq<byte>, pos: nat)
      returns (next: nat)
      requires At(out[..], w, pos) && pos + 28 <= out.Length
      modifies out
      ensures At(out[..], EE.PutEmissionFixed(w, pdu), next) && SameFrom(old(out[..]), out[..], next)
    {
      var size := PduSizeCalc(pdu);
      next := SerializeHeader(pdu.header, size, out, w, pos);
      ghost var v := PutHeader(w, pdu.header, size);
      next := SerializeId(pdu.emitterId, out, v, next);
      v := PutId(v, pdu.emitterId);
      next := SerializeId(pdu.eventId, out, v, next);
      v := PutId(v, pdu.eventId);
      next := WriteU8(pdu.stateUpdateIndicator, out, v, next);
      v := PutU8(v, pdu.stateUpdateIndicator);
      next := WriteU8(Low8(|pdu.systems|), out, v, next);
      v := PutU8(v, Low8(|pdu.systems|));
      next := PadBytes(2, out, v, next);
    }
  }
}

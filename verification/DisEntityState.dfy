// The Entity State PDU: a fixed part of 144 bytes and 16 bytes for each of the
// variable parameters that one byte counts.

module DisEntityState {
  import opened Bytes
  import opened Wrappers
  import opened DisWire
  import opened DisRecords

  type marking = s: seq<byte> | |s| == 11 witness seq(11, _ => 0)
  type parameterData = s: seq<byte> | |s| == 15 witness seq(15, _ => 0)

  datatype EntityMarking = EntityMarking(characterSet: byte, marking: marking)

  datatype VariableParameter = VariableParameter(kind: byte, data: parameterData)

  datatype EntityState = EntityState(
    header: PduHeader, entityId: Id, forceId: byte, entityType: EntityType, alternativeEntityType: EntityType,
    linearVelocity: Vector, location: WorldCoordinates, orientation: Vector, appearance: u32,
    deadReckoning: DeadReckoning, marking: EntityMarking, capabilities: u32,
    variableParameters: seq<VariableParameter>)

  // pdu_size_calc, which counts bits
  function PduSize(pdu: EntityState): (bytes: nat)
    ensures bytes == 144 + 16 * |pdu.variableParameters|
  {
    (1152 + 128 * |pdu.variableParameters|) / 8
  }

  // ---------------------------------------------------------------------
  // The layout

  function PutMarking(w: seq<byte>, m: EntityMarking): (r: seq<byte>)
    ensures |r| == |w| + 12
  {
    PutBytes(PutU8(w, m.characterSet), m.marking)
  }

  function PutParameter(w: seq<byte>, p: VariableParameter): (r: seq<byte>)
    ensures |r| == |w| + 16
  {
    PutBytes(PutU8(w, p.kind), p.data)
  }

  function PutParameters(w: seq<byte>, ps: seq<VariableParameter>): (r: seq<byte>)
    ensures |r| == |w| + 16 * |ps|
    decreases |ps|
  {
    if ps == [] then w else PutParameters(PutParameter(w, ps[0]), ps[1..])
  }

  function PutIdentity(w: seq<byte>, pdu: EntityState): (r: seq<byte>)
    ensures |r| == |w| + 36
  {
    var a := PutId(PutHeader(w, pdu.header, PduSize(pdu)), pdu.entityId);
    var b := PutU8(PutU8(a, pdu.forceId), Low8(|pdu.variableParameters|));
    PutEntityType(PutEntityType(b, pdu.entityType), pdu.alternativeEntityType)
  }

  // Appearance and capabilities are written as the host keeps them.
  function PutMotion(host: Endian, w: seq<byte>, pdu: EntityState): (r: seq<byte>)
    ensures |r| == |w| + 92
  {
    var a := PutVector(PutWorld(PutVector(w, pdu.linearVelocity), pdu.location), pdu.orientation);
    PutDeadReckoning(PutHost32(host, a, pdu.appearance), pdu.deadReckoning)
  }

  function PutEntityState(host: Endian, w: seq<byte>, pdu: EntityState): (r: seq<byte>)
    ensures |r| == |w| + PduSize(pdu)
  {
    var a := PutMarking(PutMotion(host, PutIdentity(w, pdu), pdu), pdu.marking);
    PutParameters(PutHost32(host, a, pdu.capabilities), pdu.variableParameters)
  }

  // ---------------------------------------------------------------------
  // The reader

  function ReadMarking(bs: seq<byte>, pos: nat): (r: Option<Got<EntityMarking>>)
    ensures r.Some? ==> r.value.next == pos + 12 <= |bs|
  {
    var characterSet :- ReadU8(bs, pos);
    var marking :- ReadBytes(bs, characterSet.next, 11);
    Some(Got(EntityMarking(characterSet.value, marking.value), marking.next))
  }

  function ReadParameter(bs: seq<byte>, pos: nat): (r: Option<Got<VariableParameter>>)
    ensures r.Some? ==> r.value.next == pos + 16 <= |bs|
  {
    var kind :- ReadU8(bs, pos);
    var data :- ReadBytes(bs, kind.next, 15);
    Some(Got(VariableParameter(kind.value, data.value), data.next))
  }

  function ReadParameters(bs: seq<byte>, pos: nat, count: nat): (r: Option<Got<seq<VariableParameter>>>)
    ensures r.Some? ==> |r.value.value| == count && r.value.next == pos + 16 * count
  {
    ManyEnd(ReadParameter, bs, pos, count, 16);
    ReadMany(ReadParameter, bs, pos, count)
  }

  // Header, entity id, force id, number of variable parameters, and the two
  // entity types.
  function ReadIdentity(bs: seq<byte>, pos: nat): (r: Option<Got<(PduHeader, Id, byte, byte, EntityType, EntityType)>>)
    ensures r.Some? ==> r.value.next <= pos + 36
  {
    var header :- ReadHeader(bs, pos);
    var entityId :- ReadId(bs, header.next);
    var forceId :- ReadU8(bs, entityId.next);
    var count :- ReadU8(bs, forceId.next);
    var entityType :- ReadEntityType(bs, count.next);
    var alternative :- ReadEntityType(bs, entityType.next);
    Some(Got((header.value, entityId.value, forceId.value, count.value, entityType.value, alternative.value),
             alternative.next))
  }

  // Velocity, location, orientation, appearance and dead reckoning.
  function ReadMotion(host: Endian, bs: seq<byte>, pos: nat)
    : (r: Option<Got<(Vector, WorldCoordinates, Vector, u32, DeadReckoning)>>)
    ensures r.Some? ==> r.value.next <= pos + 92
    ensures r.Some? && r.value.value.4.parameters.Other? ==> r.value.next < pos + 92
  {
    var velocity :- ReadVector(bs, pos);
    var location :- ReadWorld(bs, velocity.next);
    var orientation :- ReadVector(bs, location.next);
    var appearance :- ReadHost32(host, bs, orientation.next);
    var deadReckoning :- ReadDeadReckoning(bs, appearance.next);
    Some(Got((velocity.value, location.value, orientation.value, appearance.value, deadReckoning.value),
             deadReckoning.next))
  }

  function ReadEntityState(host: Endian, bs: seq<byte>, pos: nat): (r: Option<Got<EntityState>>)
    ensures r.Some? ==>
              && |r.value.value.variableParameters| < 256
              && r.value.next <= pos + PduSize(r.value.value)
              && (r.value.value.deadReckoning.parameters.Other? ==> r.value.next < pos + PduSize(r.value.value))
  {
    var identity :- ReadIdentity(bs, pos);
    var motion :- ReadMotion(host, bs, identity.next);
    var marking :- ReadMarking(bs, motion.next);
    var capabilities :- ReadHost32(host, bs, marking.next);
    var parameters :- ReadParameters(bs, capabilities.next, identity.value.3);
    var (header, entityId, forceId, count, entityType, alternative) := identity.value;
    var (velocity, location, orientation, appearance, deadReckoning) := motion.value;
    Some(Got(EntityState(header, entityId, forceId, entityType, alternative, velocity, location, orientation,
                         appearance, deadReckoning, marking.value, capabilities.value, parameters.value),
             parameters.next))
  }

  // ---------------------------------------------------------------------
  // Round trip

  lemma MarkingBack(w: seq<byte>, m: EntityMarking, bs: seq<byte>)
    requires Starts(PutMarking(w, m), bs)
    ensures ReadMarking(bs, |w|) == Some(Got(m, |PutMarking(w, m)|)) && Starts(w, bs)
  {
    BytesBack(PutU8(w, m.characterSet), m.marking, bs);
    U8Back(w, m.characterSet, bs);
  }

  lemma ParameterBack(w: seq<byte>, p: VariableParameter, bs: seq<byte>)
    requires Starts(PutParameter(w, p), bs)
    ensures ReadParameter(bs, |w|) == Some(Got(p, |PutParameter(w, p)|)) && Starts(w, bs)
  {
    BytesBack(PutU8(w, p.kind), p.data, bs);
    U8Back(w, p.kind, bs);
  }

  lemma {:induction false} ParametersBack(w: seq<byte>, ps: seq<VariableParameter>, bs: seq<byte>)
    requires Starts(PutParameters(w, ps), bs)
    ensures ReadMany(ReadParameter, bs, |w|, |ps|) == Some(Got(ps, |PutParameters(w, ps)|)) && Starts(w, bs)
    decreases |ps|
  {
    if ps != [] {
      var head := PutParameter(w, ps[0]);
      ParametersBack(head, ps[1..], bs);
      ParameterBack(w, ps[0], bs);
      ManyStep(ReadParameter, bs, |w|, |head|, |PutParameters(w, ps)|, ps);
    }
  }

  // Decoding any bytes that start with an encoded PDU returns that PDU and
  // leaves the cursor behind it, exactly when the dead-reckoning type is one
  // the reader knows and the count of variable parameters fits its byte.
  lemma EntityStateExact(host: Endian, w: seq<byte>, pdu: EntityState, bs: seq<byte>)
    requires PutEntityState(host, w, pdu) <= bs
    ensures ReadEntityState(host, bs, |w|) == Some(Got(pdu, |PutEntityState(host, w, pdu)|))
            <==> !pdu.deadReckoning.parameters.Other? && |pdu.variableParameters| < 256
  {
    StartsIsPrefix(PutEntityState(host, w, pdu), bs);
    if !pdu.deadReckoning.parameters.Other? && |pdu.variableParameters| < 256 {
      EntityStateBack(host, w, pdu, bs);
    }
  }

  predicate ParametersAt(bs: seq<byte>, pos: nat, ps: seq<VariableParameter>, next: nat) {
    ReadParameters(bs, pos, |ps|) == Some(Got(ps, next))
  }

  // Every part of the PDU is found behind the one before it.
  predicate PartsAt(host: Endian, bs: seq<byte>, pos: nat, pdu: EntityState, next: nat) {
    && |pdu.variableParameters| < 256
    && ReadIdentity(bs, pos)
       == Some(Got((pdu.header, pdu.entityId, pdu.forceId, |pdu.variableParameters|, pdu.entityType,
                    pdu.alternativeEntityType),
                   pos + 36))
    && ReadMotion(host, bs, pos + 36)
       == Some(Got((pdu.linearVelocity, pdu.location, pdu.orientation, pdu.appearance, pdu.deadReckoning), pos + 128))
    && ReadMarking(bs, pos + 128) == Some(Got(pdu.marking, pos + 140))
    && ReadHost32(host, bs, pos + 140) == Some(Got(pdu.capabilities, pos + 144))
    && ParametersAt(bs, pos + 144, pdu.variableParameters, next)
  }

  lemma Assembled(host: Endian, bs: seq<byte>, pos: nat, pdu: EntityState, next: nat)
    requires PartsAt(host, bs, pos, pdu, next)
    ensures ReadEntityState(host, bs, pos) == Some(Got(pdu, next))
  {
  }

  lemma EntityStateBack(host: Endian, w: seq<byte>, pdu: EntityState, bs: seq<byte>)
    requires Starts(PutEntityState(host, w, pdu), bs)
    requires !pdu.deadReckoning.parameters.Other? && |pdu.variableParameters| < 256
    ensures ReadEntityState(host, bs, |w|) == Some(Got(pdu, |PutEntityState(host, w, pdu)|))
  {
    PartsBack(host, w, pdu, bs);
    Assembled(host, bs, |w|, pdu, |PutEntityState(host, w, pdu)|);
  }

  lemma PartsBack(host: Endian, w: seq<byte>, pdu: EntityState, bs: seq<byte>)
    requires Starts(PutEntityState(host, w, pdu), bs)
    requires !pdu.deadReckoning.parameters.Other? && |pdu.variableParameters| < 256
    ensures PartsAt(host, bs, |w|, pdu, |PutEntityState(host, w, pdu)|)
  {
    PrefixesOfPdu(host, w, pdu, bs);
    MotionBack(host, PutIdentity(w, pdu), pdu, bs);
    IdentityBack(w, pdu, bs);
  }

  lemma PrefixesOfPdu(host: Endian, w: seq<byte>, pdu: EntityState, bs: seq<byte>)
    requires Starts(PutEntityState(host, w, pdu), bs)
    ensures Starts(PutIdentity(w, pdu), bs) && Starts(PutMotion(host, PutIdentity(w, pdu), pdu), bs)
    ensures ReadMarking(bs, |w| + 128) == Some(Got(pdu.marking, |w| + 140))
    ensures ReadHost32(host, bs, |w| + 140) == Some(Got(pdu.capabilities, |w| + 144))
    ensures ParametersAt(bs, |w| + 144, pdu.variableParameters, |PutEntityState(host, w, pdu)|)
  {
    var identity := PutIdentity(w, pdu);
    var motion := PutMotion(host, identity, pdu);
    var marking := PutMarking(motion, pdu.marking);
    ParametersBack(PutHost32(host, marking, pdu.capabilities), pdu.variableParameters, bs);
    Host32Back(host, marking, pdu.capabilities, bs);
    MarkingBack(motion, pdu.marking, bs);
    MotionBack(host, identity, pdu, bs);
  }

  lemma MotionBack(host: Endian, w: seq<byte>, pdu: EntityState, bs: seq<byte>)
    requires Starts(PutMotion(host, w, pdu), bs)
    ensures Starts(w, bs)
    ensures !pdu.deadReckoning.parameters.Other? ==>
              ReadMotion(host, bs, |w|)
              == Some(Got((pdu.linearVelocity, pdu.location, pdu.orientation, pdu.appearance, pdu.deadReckoning),
                          |PutMotion(host, w, pdu)|))
  {
    var velocity := PutVector(w, pdu.linearVelocity);
    var location := PutWorld(velocity, pdu.location);
    var orientation := PutVector(location, pdu.orientation);
    var appearance := PutHost32(host, orientation, pdu.appearance);
    DeadReckoningBack(appearance, pdu.deadReckoning, bs);
    Host32Back(host, orientation, pdu.appearance, bs);
    VectorBack(location, pdu.orientation, bs);
    WorldBack(velocity, pdu.location, bs);
    VectorBack(w, pdu.linearVelocity, bs);
  }

  lemma IdentityBack(w: seq<byte>, pdu: EntityState, bs: seq<byte>)
    requires Starts(PutIdentity(w, pdu), bs)
    ensures ReadIdentity(bs, |w|)
            == Some(Got((pdu.header, pdu.entityId, pdu.forceId, Low8(|pdu.variableParameters|), pdu.entityType,
                         pdu.alternativeEntityType),
                        |PutIdentity(w, pdu)|))
    ensures ReadU16(bs, |w| + 8) == Some(Got(Low16(PduSize(pdu)), |w| + 10))
  {
    var header := PutHeader(w, pdu.header, PduSize(pdu));
    var entityId := PutId(header, pdu.entityId);
    var forceId := PutU8(entityId, pdu.forceId);
    var count := PutU8(forceId, Low8(|pdu.variableParameters|));
    EntityTypeBack(PutEntityType(count, pdu.entityType), pdu.alternativeEntityType, bs);
    EntityTypeBack(count, pdu.entityType, bs);
    U8Back(forceId, Low8(|pdu.variableParameters|), bs);
    U8Back(entityId, pdu.forceId, bs);
    IdBack(header, pdu.entityId, bs);
    HeaderBack(w, pdu.header, PduSize(pdu), bs);
  }

  // The length field says how long the PDU is, exactly when it is not too
  // long for the field: at most 4086 variable parameters.
  lemma EntityStateLength(host: Endian, w: seq<byte>, pdu: EntityState, bs: seq<byte>)
    requires PutEntityState(host, w, pdu) <= bs
    ensures var length := ReadU16(bs, |w| + 8);
            && length.Some?
            && (length.value.value == |PutEntityState(host, w, pdu)| - |w| <==> |pdu.variableParameters| <= 4086)
  {
    StartsIsPrefix(PutEntityState(host, w, pdu), bs);
    LengthFieldBack(host, w, pdu, bs);
  }

  lemma LengthFieldBack(host: Endian, w: seq<byte>, pdu: EntityState, bs: seq<byte>)
    requires Starts(PutEntityState(host, w, pdu), bs)
    ensures ReadU16(bs, |w| + 8) == Some(Got(Low16(PduSize(pdu)), |w| + 10))
  {
    PrefixesOfPdu(host, w, pdu, bs);
    IdentityBack(w, pdu, bs);
  }
}

// deserialize_direct over DirectDeserializer: a cursor that each read moves
// forward, and that stays where it is when too few bytes are left.

module DisDeserializer {
  import opened Bytes
  import opened Wrappers
  import opened DisWire
  import opened DisRecords
  import ES = DisEntityState
  import EE = DisEmission

  // A result of the reader and where it leaves the cursor, against the layout.
  // A record with a missing field is not returned, wherever the cursor is then.
  predicate Agrees<T(==)>(spec: Option<Got<T>>, r: Option<T>, pos: nat) {
    match spec
    case None => r == None
    case Some(g) => r == Some(g.value) && pos == g.next
  }

  class DirectDeserializer {
    const host: Endian
    const data: seq<byte>
    var pos: nat

    constructor (host: Endian, data: seq<byte>)
      ensures this.host == host && this.data == data && pos == 0
    {
      this.host := host;
      this.data := data;
      pos := 0;
    }

    // memcpy out of the view
    method Read(width: nat) returns (r: Option<seq<byte>>)
      modifies this
      ensures Agrees(ReadBytes(data, old(pos), width), r, pos)
      ensures pos == Skipped(data, old(pos), width)
    {
      if pos + width > |data| {
        return None;
      }
      WindowIsSlice(data, width, pos);
      r := Some(data[pos..pos + width]);
      pos := pos + width;
    }

    method Skip(n: nat)
      modifies this
      ensures pos == Skipped(data, old(pos), n)
    {
      if pos + n <= |data| {
        pos := pos + n;
      }
    }

    method NextU8() returns (r: Option<byte>)
      modifies this
      ensures Agrees(ReadU8(data, old(pos)), r, pos)
      ensures pos >= old(pos)
    {
      var bytes := Read(1);
      r := if bytes.Some? then Some(bytes.value[0]) else None;
      if bytes.Some? {
        WindowIsSlice(data, 1, old(pos));
      }
    }

    // A word wrapped in be<T>: bytes of the host, put in order on access. The
    // host does not show.
    method NextWord(width: nat) returns (r: Option<nat>)
      modifies this
      ensures Agrees(ReadWord(data, old(pos), width), r, pos)
      ensures pos >= old(pos)
    {
      var bytes := Read(width);
      if bytes == None {
        return None;
      }
      BigEndianReadOnEveryHost(host, bytes.value);
      var repr := FromImage(host, bytes.value);
      r := Some(Reordered(host, Big, repr, width));
    }

    method NextU16() returns (r: Option<u16>)
      modifies this
      ensures Agrees(ReadU16(data, old(pos)), r, pos)
      ensures pos >= old(pos)
    {
      WordSizes();
      var x := NextWord(2);
      r := if x.Some? then Some(x.value) else None;
    }

    method NextU32() returns (r: Option<u32>)
      modifies this
      ensures Agrees(ReadU32(data, old(pos)), r, pos)
      ensures pos >= old(pos)
    {
      WordSizes();
      var x := NextWord(4);
      r := if x.Some? then Some(x.value) else None;
    }

    method NextU64() returns (r: Option<u64>)
      modifies this
      ensures Agrees(ReadU64(data, old(pos)), r, pos)
      ensures pos >= old(pos)
    {
      WordSizes();
      var x := NextWord(8);
      r := if x.Some? then Some(x.value) else None;
    }

    method NextHost32() returns (r: Option<u32>)
      modifies this
      ensures Agrees(ReadHost32(host, data, old(pos)), r, pos)
      ensures pos >= old(pos)
    {
      var bytes := Read(4);
      if bytes == None {
        return None;
      }
      WordSizes();
      FromBigEndianRoundTrip(bytes.value);
      FromLittleEndianRoundTrip(bytes.value);
      r := Some(FromImage(host, bytes.value));
    }

    // -------------------------------------------------------------------
    // Records: every field is read, and then the record is there if all its
    // fields are.

    method DeserializeHeader() returns (r: Option<PduHeader>)
      modifies this
      ensures Agrees(ReadHeader(data, old(pos)), r, pos)
      ensures pos >= old(pos)
    {
      var version := NextU8();
      var exercise := NextU8();
      var pduType := NextU8();
      var family := NextU8();
      var timestamp := NextU32();
      var length := NextU16();
      var status := NextU8();
      Skip(1);
      if version == None || exercise == None || pduType == None || family == None || timestamp == None ||
         length == None || status == None {
        return None;
      }
      r := Some(PduHeader(version.value, exercise.value, pduType.value, timestamp.value, family.value, status.value));
    }

    method DeserializeId() returns (r: Option<Id>)
      modifies this
      ensures Agrees(ReadId(data, old(pos)), r, pos)
      ensures pos >= old(pos)
    {
      var site := NextU16();
      var application := NextU16();
      var id := NextU16();
      if site == None || application == None || id == None {
        return None;
      }
      r := Some(Id(site.value, application.value, id.value));
    }

    method DeserializeEntityType() returns (r: Option<EntityType>)
      modifies this
      ensures Agrees(ReadEntityType(data, old(pos)), r, pos)
      ensures pos >= old(pos)
    {
      var kind := NextU8();
      var domain := NextU8();
      var country := NextU16();
      var category := NextU8();
      var subcategory := NextU8();
      var specific := NextU8();
      var extra := NextU8();
      if kind == None || domain == None || country == None || category == None || subcategory == None ||
         specific == None || extra == None {
        return None;
      }
      r := Some(EntityType(kind.value, domain.value, country.value, category.value, subcategory.value, specific.value,
                           extra.value));
    }

    method DeserializeVector() returns (r: Option<Vector>)
      modifies this
      ensures Agrees(ReadVector(data, old(pos)), r, pos)
      ensures pos >= old(pos)
    {
      var x := NextU32();
      var y := NextU32();
      var z := NextU32();
      if x == None || y == None || z == None {
        return None;
      }
      r := Some(Vector(x.value, y.value, z.value));
    }

    method DeserializeWorld() returns (r: Option<WorldCoordinates>)
      modifies this
      ensures Agrees(ReadWorld(data, old(pos)), r, pos)
      ensures pos >= old(pos)
    {
      var x := NextU64();
      var y := NextU64();
      var z := NextU64();
      if x == None || y == None || z == None {
        return None;
      }
      r := Some(WorldCoordinates(x.value, y.value, z.value));
    }

    method DeserializeQuat() returns (r: Option<DisQuat>)
      modifies this
      ensures Agrees(ReadQuat(data, old(pos)), r, pos)
      ensures pos >= old(pos)
    {
      var u0 := NextU16();
      var x := NextU32();
      var y := NextU32();
      var z := NextU32();
      if u0 == None || x == None || y == None || z == None {
        return None;
      }
      r := Some(DisQuat(u0.value, x.value, y.value, z.value));
    }

    method DeserializeUnion() returns (r: Option<DrUnion>)
      modifies this
      ensures Agrees(ReadUnion(data, old(pos)), r, pos)
      ensures pos >= old(pos)
    {
      var paramsType := NextU8();
      if paramsType == None {
        return None;
      }
      if paramsType.value == 1 {
        Skip(2);
        var angles := DeserializeVector();
        r := if angles.Some? then Some(Fixed(angles.value)) else None;
      } else if paramsType.value == 2 {
        var quat := DeserializeQuat();
        r := if quat.Some? then Some(Rotating(quat.value)) else None;
      } else {
        Skip(8);
        r := Some(Other(paramsType.value));
      }
    }

    method DeserializeDeadReckoning() returns (r: Option<DeadReckoning>)
      modifies this
      ensures Agrees(ReadDeadReckoning(data, old(pos)), r, pos)
      ensures pos >= old(pos)
    {
      var algorithm := NextU8();
      var parameters := DeserializeUnion();
      var acceleration := DeserializeVector();
      var velocity := DeserializeVector();
      if algorithm == None || parameters == None || acceleration == None || velocity == None {
        return None;
      }
      r := Some(DeadReckoning(algorithm.value, parameters.value, acceleration.value, velocity.value));
    }

    method DeserializeEeFundamental() returns (r: Option<EeFundamental>)
      modifies this
      ensures Agrees(ReadEeFundamental(data, old(pos)), r, pos)
      ensures pos >= old(pos)
    {
      var frequency := NextU32();
      var range := NextU32();
      var power := NextU32();
      var repetition := NextU32();
      var width := NextU32();
      if frequency == None || range == None || power == None || repetition == None || width == None {
        return None;
      }
      r := Some(EeFundamental(frequency.value, range.value, power.value, repetition.value, width.value));
    }

    method DeserializeBeamData() returns (r: Option<BeamData>)
      modifies this
      ensures Agrees(ReadBeamData(data, old(pos)), r, pos)
      ensures pos >= old(pos)
    {
      var azimuth := NextU32();
      var elevation := NextU32();
      var azimuthSweep := NextU32();
      var elevationSweep := NextU32();
      var sync := NextU32();
      if azimuth == None || elevation == None || azimuthSweep == None || elevationSweep == None || sync == None {
        return None;
      }
      r := Some(BeamData(azimuth.value, elevation.value, azimuthSweep.value, elevationSweep.value, sync.value));
    }

    method DeserializeJamming() returns (r: Option<JammingTechnique>)
      modifies this
      ensures Agrees(ReadJamming(data, old(pos)), r, pos)
      ensures pos >= old(pos)
    {
      var kind := NextU8();
      var category := NextU8();
      var subcategory := NextU8();
      var specific := NextU8();
      if kind == None || category == None || subcategory == None || specific == None {
        return None;
      }
      r := Some(JammingTechnique(kind.value, category.value, subcategory.value, specific.value));
    }

    method DeserializeTrackJam() returns (r: Option<TrackJam>)
      modifies this
      ensures Agrees(ReadTrackJam(data, old(pos)), r, pos)
      ensures pos >= old(pos)
    {
      var target := DeserializeId();
      var emitter := NextU8();
      var beam := NextU8();
      if target == None || emitter == None || beam == None {
        return None;
      }
      r := Some(TrackJam(target.value, emitter.value, beam.value));
    }

    // -------------------------------------------------------------------
    // Entity State

    // A fixed array of bytes, one read for each.
    method NextBytes(n: nat) returns (r: Option<seq<byte>>)
      requires n > 0
      modifies this
      ensures Agrees(ReadBytes(data, old(pos), n), r, pos)
      ensures pos >= old(pos)
    {
      var bytes: seq<byte> := [];
      for i := 0 to n
        invariant pos == old(pos) + i && |bytes| == i
        invariant i > 0 ==> pos <= |data| && bytes == data[old(pos)..pos]
      {
        var b := NextU8();
        if b == None {
          return None;
        }
        bytes := bytes + [b.value];
      }
      WindowIsSlice(data, n, old(pos));
      r := Some(bytes);
    }

    // The type is used unchecked; when it is missing, so are the data.
    method NextParameter() returns (r: Option<ES.VariableParameter>)
      modifies this
      ensures Agrees(ES.ReadParameter(data, old(pos)), r, pos)
      ensures pos >= old(pos)
    {
      var kind := NextU8();
      var bytes := NextBytes(15);
      if bytes == None {
        return None;
      }
      r := Some(ES.VariableParameter(kind.value, bytes.value));
    }

    method NextParameters(count: nat) returns (r: Option<seq<ES.VariableParameter>>)
      modifies this
      ensures Agrees(ReadMany(ES.ReadParameter, data, old(pos), count), r, pos)
      ensures pos >= old(pos)
    {
      var items: seq<ES.VariableParameter> := [];
      for i := 0 to count
        invariant pos >= old(pos)
        invariant ReadMany(ES.ReadParameter, data, old(pos), i) == Some(Got(items, pos))
      {
        ManySnoc(ES.ReadParameter, data, old(pos), i, items, pos);
        var item := NextParameter();
        if item == None {
          ManyCut(ES.ReadParameter, data, old(pos), i, count);
          return None;
        }
        items := items + [item.value];
      }
      r := Some(items);
    }

    method NextIdentity()
      returns (header: Option<PduHeader>, entityId: Option<Id>, forceId: Option<byte>, count: Option<byte>,
               entityType: Option<EntityType>, alternative: Option<EntityType>)
      modifies this
      ensures Agrees(ES.ReadIdentity(data, old(pos)),
                     if header == None || entityId == None || forceId == None || count == None ||
                        entityType == None || alternative == None then None
                     else Some((header.value, entityId.value, forceId.value, count.value, entityType.value,
                                alternative.value)),
                     pos)
      ensures pos >= old(pos)
      ensures count == None ==> pos >= |data|
    {
      header := DeserializeHeader();
      entityId := DeserializeId();
      forceId := NextU8();
      count := NextU8();
      entityType := DeserializeEntityType();
      alternative := DeserializeEntityType();
    }

    method NextMotion()
      returns (velocity: Option<Vector>, location: Option<WorldCoordinates>, orientation: Option<Vector>,
               appearance: Option<u32>, deadReckoning: Option<DeadReckoning>)
      modifies this
      ensures Agrees(ES.ReadMotion(host, data, old(pos)),
                     if velocity == None || location == None || orientation == None || appearance == None ||
                        deadReckoning == None then None
                     else Some((velocity.value, location.value, orientation.value, appearance.value,
                                deadReckoning.value)),
                     pos)
      ensures pos >= old(pos)
    {
      velocity := DeserializeVector();
      location := DeserializeWorld();
      orientation := DeserializeVector();
      appearance := NextHost32();
      deadReckoning := DeserializeDeadReckoning();
    }

    // The count is used before any of the first fields is checked; when it is
    // missing, so is the marking.
    method DeserializeEntityState() returns (r: Option<ES.EntityState>)
      modifies this
      ensures Agrees(ES.ReadEntityState(host, data, old(pos)), r, pos)
    {
      var header, entityId, forceId, count, entityType, alternative := NextIdentity();
      var velocity, location, orientation, appearance, deadReckoning := NextMotion();
      var characterSet := NextU8();
      if characterSet == None {
        return None;
      }
      var marking := NextBytes(11);
      if marking == None {
        return None;
      }
      var capabilities := NextHost32();
      var parameters := NextParameters(count.value);
      if parameters == None {
        return None;
      }
      if header == None || entityId == None || forceId == None || entityType == None || alternative == None ||
         velocity == None || location == None || orientation == None || appearance == None ||
         deadReckoning == None || capabilities == None {
        return None;
      }
      r := Some(ES.EntityState(header.value, entityId.value, forceId.value, entityType.value, alternative.value,
                               velocity.value, location.value, orientation.value, appearance.value,
                               deadReckoning.value, ES.EntityMarking(characterSet.value, marking.value),
                               capabilities.value, parameters.value));
    }

    // -------------------------------------------------------------------
    // Electromagnetic Emission

    method NextJams(count: nat) returns (r: Option<seq<TrackJam>>)
      modifies this
      ensures Agrees(ReadMany(ReadTrackJam, data, old(pos), count), r, pos)
      ensures pos >= old(pos)
    {
      var items: seq<TrackJam> := [];
      for i := 0 to count
        invariant pos >= old(pos)
        invariant ReadMany(ReadTrackJam, data, old(pos), i) == Some(Got(items, pos))
      {
        ManySnoc(ReadTrackJam, data, old(pos), i, items, pos);
        var item := DeserializeTrackJam();
        if item == None {
          ManyCut(ReadTrackJam, data, old(pos), i, count);
          return None;
        }
        items := items + [item.value];
      }
      r := Some(items);
    }

    method NextBeamFixed() returns (r: Option<(byte, EE.Beam)>)
      modifies this
      ensures Agrees(EE.ReadBeamFixed(data, old(pos)), r, pos)
      ensures pos >= old(pos)
    {
      var length := NextU8();
      var number := NextU8();
      var index := NextU16();
      var fundamental := DeserializeEeFundamental();
      var beamData := DeserializeBeamData();
      var beamFunction := NextU8();
      var targets := NextU8();
      var highDensity := NextU8();
      var status := NextU8();
      var jamming := DeserializeJamming();
      if length == None || number == None || index == None || fundamental == None || beamData == None ||
         beamFunction == None || targets == None || highDensity == None || status == None || jamming == None {
        return None;
      }
      r := Some((length.value, EE.Beam(index.value, number.value, targets.value, beamFunction.value,
                                       highDensity.value, status.value, jamming.value, fundamental.value,
                                       beamData.value, None)));
    }

    method DeserializeBeam() returns (r: Option<EE.Beam>)
      modifies this
      ensures Agrees(EE.ReadBeam(data, old(pos)), r, pos)
      ensures pos >= old(pos)
    {
      var fixed := NextBeamFixed();
      if fixed == None {
        return None;
      }
      var count := EE.JamCount(fixed.value.0);
      var beam := fixed.value.1;
      if count > 0 {
        var jams := NextJams(count);
        if jams == None {
          return None;
        }
        beam := beam.(trackJams := Some(jams.value));
      }
      r := Some(beam);
    }

    method NextBeams(count: nat) returns (r: Option<seq<EE.Beam>>)
      modifies this
      ensures Agrees(ReadMany(EE.ReadBeam, data, old(pos), count), r, pos)
      ensures pos >= old(pos)
    {
      var items: seq<EE.Beam> := [];
      for i := 0 to count
        invariant pos >= old(pos)
        invariant ReadMany(EE.ReadBeam, data, old(pos), i) == Some(Got(items, pos))
      {
        ManySnoc(EE.ReadBeam, data, old(pos), i, items, pos);
        var item := DeserializeBeam();
        if item == None {
          ManyCut(EE.ReadBeam, data, old(pos), i, count);
          return None;
        }
        items := items + [item.value];
      }
      r := Some(items);
    }

    method DeserializeSystem() returns (r: Option<EE.EmitterSystem>)
      modifies this
      ensures Agrees(EE.ReadSystem(data, old(pos)), r, pos)
      ensures pos >= old(pos)
    {
      var length := NextU8();
      var count := NextU8();
      Skip(2);
      var name := NextU16();
      var systemFunction := NextU8();
      var number := NextU8();
      var location := DeserializeVector();
      if length == None || count == None || name == None || systemFunction == None || number == None ||
         location == None {
        return None;
      }
      var beams := NextBeams(count.value);
      if beams == None {
        return None;
      }
      r := Some(EE.EmitterSystem(name.value, systemFunction.value, number.value, location.value, beams.value));
    }

    method NextSystems(count: nat) returns (r: Option<seq<EE.EmitterSystem>>)
      modifies this
      ensures Agrees(ReadMany(EE.ReadSystem, data, old(pos), count), r, pos)
      ensures pos >= old(pos)
    {
      var items: seq<EE.EmitterSystem> := [];
      for i := 0 to count
        invariant pos >= old(pos)
        invariant ReadMany(EE.ReadSystem, data, old(pos), i) == Some(Got(items, pos))
      {
        ManySnoc(EE.ReadSystem, data, old(pos), i, items, pos);
        var item := DeserializeSystem();
        if item == None {
          ManyCut(EE.ReadSystem, data, old(pos), i, count);
          return None;
        }
        items := items + [item.value];
      }
      r := Some(items);
    }

    method DeserializeEmission() returns (r: Option<EE.Emission>)
      modifies this
      ensures Agrees(EE.ReadEmission(data, old(pos)), r, pos)
    {
      var header := DeserializeHeader();
      var emitter := DeserializeId();
      var event := DeserializeId();
      var indicator := NextU8();
      var count := NextU8();
      Skip(2);
      if header == None || emitter == None || event == None || indicator == None || count == None {
        return None;
      }
      var systems := NextSystems(count.value);
      if systems == None {
        return None;
      }
      r := Some(EE.Emission(header.value, emitter.value, event.value, indicator.value, systems.value));
    }
  }
}

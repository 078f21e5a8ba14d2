// Where each field of a DIS record lies on the wire, octet by octet, padding
// included, and that this is where it is written.

module DisLayout {
  import opened Bytes
  import opened Wrappers
  import opened DisWire
  import opened DisRecords
  import ES = DisEntityState
  import EE = DisEmission

  // ---------------------------------------------------------------------
  // Octets at an offset

  predicate Octet(bs: seq<byte>, i: nat, x: int) {
    i < |bs| && bs[i] == x
  }

  predicate Octets(bs: seq<byte>, i: nat, xs: seq<byte>)
    decreases |xs|
  {
    xs == [] || (Octet(bs, i, xs[0]) && Octets(bs, i + 1, xs[1..]))
  }

  predicate Zeros(bs: seq<byte>, i: nat, n: nat)
    decreases n
  {
    n == 0 || (Octet(bs, i, 0) && Zeros(bs, i + 1, n - 1))
  }

  // In network order the octet with n - 1 behind it counts 256 to that power.
  predicate Word(bs: seq<byte>, i: nat, n: nat, x: nat)
    decreases n
  {
    n == 0 || (Octet(bs, i, x / Pow256(n - 1) % 256) && Word(bs, i + 1, n - 1, x))
  }

  predicate LittleWord(bs: seq<byte>, i: nat, n: nat, x: nat)
    decreases n
  {
    n == 0 || (Octet(bs, i, x % 256) && LittleWord(bs, i + 1, n - 1, x / 256))
  }

  predicate HostWord(host: Endian, bs: seq<byte>, i: nat, x: nat) {
    if host == Little then LittleWord(bs, i, 4, x) else Word(bs, i, 4, x)
  }

  // ---------------------------------------------------------------------
  // The records

  predicate HeaderLaid(bs: seq<byte>, p: nat, h: PduHeader, size: nat) {
    && Octet(bs, p, h.protocolVersion) && Octet(bs, p + 1, h.exerciseId)
    && Octet(bs, p + 2, h.pduType) && Octet(bs, p + 3, h.protocolFamily)
    && Word(bs, p + 4, 4, h.timestamp)
    && Word(bs, p + 8, 2, size % 0x1_0000)
    && Octet(bs, p + 10, h.status) && Octet(bs, p + 11, 0)
  }

  predicate IdLaid(bs: seq<byte>, p: nat, id: Id) {
    Word(bs, p, 2, id.site) && Word(bs, p + 2, 2, id.application) && Word(bs, p + 4, 2, id.id)
  }

  predicate TypeLaid(bs: seq<byte>, p: nat, t: EntityType) {
    && Octet(bs, p, t.kind) && Octet(bs, p + 1, t.domain) && Word(bs, p + 2, 2, t.country)
    && Octet(bs, p + 4, t.category) && Octet(bs, p + 5, t.subcategory)
    && Octet(bs, p + 6, t.specific) && Octet(bs, p + 7, t.extra)
  }

  predicate VectorLaid(bs: seq<byte>, p: nat, v: Vector) {
    Word(bs, p, 4, v.x) && Word(bs, p + 4, 4, v.y) && Word(bs, p + 8, 4, v.z)
  }

  predicate WorldLaid(bs: seq<byte>, p: nat, v: WorldCoordinates) {
    Word(bs, p, 8, v.x) && Word(bs, p + 8, 8, v.y) && Word(bs, p + 16, 8, v.z)
  }

  // params_type, and the member that it says is in use; a type that has none is
  // followed by zeros.
  predicate UnionLaid(bs: seq<byte>, p: nat, u: DrUnion) {
    match u
    case Fixed(angles) => Octet(bs, p, 1) && Zeros(bs, p + 1, 2) && VectorLaid(bs, p + 3, angles)
    case Rotating(q) =>
      && Octet(bs, p, 2) && Word(bs, p + 1, 2, q.u0)
      && Word(bs, p + 3, 4, q.x) && Word(bs, p + 7, 4, q.y) && Word(bs, p + 11, 4, q.z)
    case Other(t) => Octet(bs, p, t) && Zeros(bs, p + 1, 14)
  }

  predicate DeadReckoningLaid(bs: seq<byte>, p: nat, d: DeadReckoning) {
    && Octet(bs, p, d.algorithm) && UnionLaid(bs, p + 1, d.parameters)
    && VectorLaid(bs, p + 16, d.linearAcceleration) && VectorLaid(bs, p + 28, d.angularVelocity)
  }

  predicate ParametersLaid(bs: seq<byte>, p: nat, ps: seq<ES.VariableParameter>)
    decreases |ps|
  {
    ps == [] ||
    (Octet(bs, p, ps[0].kind) && Octets(bs, p + 1, ps[0].data) && ParametersLaid(bs, p + 16, ps[1..]))
  }

  predicate EntityStateLaid(host: Endian, bs: seq<byte>, p: nat, pdu: ES.EntityState) {
    var n := |pdu.variableParameters|;
    && HeaderLaid(bs, p, pdu.header, 144 + 16 * n)
    && IdLaid(bs, p + 12, pdu.entityId) && Octet(bs, p + 18, pdu.forceId) && Octet(bs, p + 19, n % 256)
    && TypeLaid(bs, p + 20, pdu.entityType) && TypeLaid(bs, p + 28, pdu.alternativeEntityType)
    && VectorLaid(bs, p + 36, pdu.linearVelocity) && WorldLaid(bs, p + 48, pdu.location)
    && VectorLaid(bs, p + 72, pdu.orientation) && HostWord(host, bs, p + 84, pdu.appearance)
    && DeadReckoningLaid(bs, p + 88, pdu.deadReckoning)
    && Octet(bs, p + 128, pdu.marking.characterSet) && Octets(bs, p + 129, pdu.marking.marking)
    && HostWord(host, bs, p + 140, pdu.capabilities)
    && ParametersLaid(bs, p + 144, pdu.variableParameters)
  }

  predicate FundamentalLaid(bs: seq<byte>, p: nat, f: EeFundamental) {
    && Word(bs, p, 4, f.centerFrequency) && Word(bs, p + 4, 4, f.frequencyRange)
    && Word(bs, p + 8, 4, f.effectiveRadiatedPower) && Word(bs, p + 12, 4, f.pulseRepetitionFrequency)
    && Word(bs, p + 16, 4, f.pulseWidth)
  }

  predicate BeamDataLaid(bs: seq<byte>, p: nat, d: BeamData) {
    && Word(bs, p, 4, d.azimuthCenter) && Word(bs, p + 4, 4, d.elevationCenter)
    && Word(bs, p + 8, 4, d.azimuthSweep) && Word(bs, p + 12, 4, d.elevationSweep)
    && Word(bs, p + 16, 4, d.sweepSync)
  }

  predicate JammingLaid(bs: seq<byte>, p: nat, t: JammingTechnique) {
    && Octet(bs, p, t.kind) && Octet(bs, p + 1, t.category)
    && Octet(bs, p + 2, t.subcategory) && Octet(bs, p + 3, t.specific)
  }

  predicate JamsLaid(bs: seq<byte>, p: nat, jams: seq<TrackJam>)
    decreases |jams|
  {
    jams == [] ||
    (&& IdLaid(bs, p, jams[0].target) && Octet(bs, p + 6, jams[0].emitterNumber) && Octet(bs, p + 7, jams[0].beamNumber)
     && JamsLaid(bs, p + 8, jams[1..]))
  }

  // How many octets a beam and a system take.

  function BeamOctets(b: EE.Beam): nat {
    52 + match b.trackJams case Some(jams) => 8 * |jams| case None => 0
  }

  function BeamsOctets(beams: seq<EE.Beam>): nat
    decreases |beams|
  {
    if beams == [] then 0 else BeamOctets(beams[0]) + BeamsOctets(beams[1..])
  }

  function SystemOctets(s: EE.EmitterSystem): nat {
    20 + BeamsOctets(s.beams)
  }

  function SystemsOctets(systems: seq<EE.EmitterSystem>): nat
    decreases |systems|
  {
    if systems == [] then 0 else SystemOctets(systems[0]) + SystemsOctets(systems[1..])
  }

  predicate BeamHeadLaid(bs: seq<byte>, p: nat, b: EE.Beam) {
    && Octet(bs, p, BeamOctets(b) / 4 % 256) && Octet(bs, p + 1, b.beamNumber) && Word(bs, p + 2, 2, b.parameterIndex)
    && FundamentalLaid(bs, p + 4, b.fundamental) && BeamDataLaid(bs, p + 24, b.beamData)
  }

  predicate BeamFixedLaid(bs: seq<byte>, p: nat, b: EE.Beam) {
    && BeamHeadLaid(bs, p, b)
    && Octet(bs, p + 44, b.beamFunction) && Octet(bs, p + 45, b.numberOfTargets)
    && Octet(bs, p + 46, b.highDensityTrackJam) && Octet(bs, p + 47, b.beamStatus)
    && JammingLaid(bs, p + 48, b.jammingTechnique)
  }

  predicate BeamLaid(bs: seq<byte>, p: nat, b: EE.Beam) {
    && BeamFixedLaid(bs, p, b)
    && (b.trackJams.Some? ==> JamsLaid(bs, p + 52, b.trackJams.value))
  }

  predicate BeamsLaid(bs: seq<byte>, p: nat, beams: seq<EE.Beam>)
    decreases |beams|
  {
    beams == [] || (BeamLaid(bs, p, beams[0]) && BeamsLaid(bs, p + BeamOctets(beams[0]), beams[1..]))
  }

  predicate SystemFixedLaid(bs: seq<byte>, p: nat, s: EE.EmitterSystem) {
    && Octet(bs, p, SystemOctets(s) / 4 % 256) && Octet(bs, p + 1, |s.beams| % 256) && Zeros(bs, p + 2, 2)
    && Word(bs, p + 4, 2, s.emitterName) && Octet(bs, p + 6, s.systemFunction) && Octet(bs, p + 7, s.emitterNumber)
    && VectorLaid(bs, p + 8, s.location)
  }

  predicate SystemLaid(bs: seq<byte>, p: nat, s: EE.EmitterSystem) {
    SystemFixedLaid(bs, p, s) && BeamsLaid(bs, p + 20, s.beams)
  }

  predicate SystemsLaid(bs: seq<byte>, p: nat, systems: seq<EE.EmitterSystem>)
    decreases |systems|
  {
    systems == [] || (SystemLaid(bs, p, systems[0]) && SystemsLaid(bs, p + SystemOctets(systems[0]), systems[1..]))
  }

  predicate EmissionFixedLaid(bs: seq<byte>, p: nat, pdu: EE.Emission) {
    && HeaderLaid(bs, p, pdu.header, 28 + SystemsOctets(pdu.systems))
    && IdLaid(bs, p + 12, pdu.emitterId) && IdLaid(bs, p + 18, pdu.eventId)
    && Octet(bs, p + 24, pdu.stateUpdateIndicator) && Octet(bs, p + 25, |pdu.systems| % 256)
    && Zeros(bs, p + 26, 2)
  }

  predicate EmissionLaid(bs: seq<byte>, p: nat, pdu: EE.Emission) {
    EmissionFixedLaid(bs, p, pdu) && SystemsLaid(bs, p + 28, pdu.systems)
  }

  // ---------------------------------------------------------------------
  // What is put lies there: octets and words

  lemma {:induction false} OctetPut(w: seq<byte>, x: byte, bs: seq<byte>)
    requires Starts(PutU8(w, x), bs)
    ensures Octet(bs, |w|, x) && Starts(w, bs)
  {
    U8Back(w, x, bs);
  }

  lemma {:induction false} SameOctets(bs: seq<byte>, i: nat, xs: seq<byte>)
    requires i + |xs| <= |bs| && bs[i..i + |xs|] == xs
    ensures Octets(bs, i, xs)
    decreases |xs|
  {
    if xs != [] {
      assert bs[i..i + |xs|][0] == bs[i] && bs[i..i + |xs|][1..] == bs[i + 1..i + |xs|];
      SameOctets(bs, i + 1, xs[1..]);
    }
  }

  lemma {:induction false} OctetsPut(w: seq<byte>, xs: seq<byte>, bs: seq<byte>)
    requires Starts(PutBytes(w, xs), bs)
    ensures Octets(bs, |w|, xs) && Starts(w, bs)
  {
    BytesThere(w, xs, bs);
    SameOctets(bs, |w|, xs);
  }

  lemma {:induction false} OctetsAreWord(bs: seq<byte>, i: nat, n: nat, x: nat, width: nat)
    requires n <= width && i + n <= |bs|
    requires forall k :: width - n <= k < width ==> bs[i + (k - (width - n))] == BigEndian(x, width)[k]
    ensures Word(bs, i, n, x)
    decreases n
  {
    if n > 0 {
      assert bs[i + ((width - n) - (width - n))] == BigEndian(x, width)[width - n];
      BigEndianAt(x, width, width - n);
      forall k | width - (n - 1) <= k < width
        ensures bs[i + 1 + (k - (width - (n - 1)))] == BigEndian(x, width)[k]
      {
        assert bs[i + (k - (width - n))] == BigEndian(x, width)[k];
      }
      OctetsAreWord(bs, i + 1, n - 1, x, width);
    }
  }

  lemma {:induction false} WordPut(w: seq<byte>, x: nat, width: nat, bs: seq<byte>)
    requires Starts(PutWord(w, x, width), bs)
    ensures Word(bs, |w|, width, x) && Starts(w, bs)
  {
    BytesThere(w, BigEndian(x, width), bs);
    forall k | 0 <= k < width ensures bs[|w| + (k - 0)] == BigEndian(x, width)[k] {
      assert bs[|w|..|w| + width][k] == bs[|w| + k];
    }
    OctetsAreWord(bs, |w|, width, x, width);
  }

  lemma {:induction false} OctetsAreLittle(bs: seq<byte>, i: nat, n: nat, x: nat)
    requires i + n <= |bs| && bs[i..i + n] == LittleEndian(x, n)
    ensures LittleWord(bs, i, n, x)
    decreases n
  {
    if n > 0 {
      var rest := LittleEndian(x / 256, n - 1);
      assert bs[i..i + n][0] == bs[i] && bs[i..i + n][1..] == bs[i + 1..i + n];
      assert ([x % 256] + rest)[1..] == rest;
      OctetsAreLittle(bs, i + 1, n - 1, x / 256);
    }
  }

  lemma {:induction false} HostWordPut(host: Endian, w: seq<byte>, x: u32, bs: seq<byte>)
    requires Starts(PutHost32(host, w, x), bs)
    ensures HostWord(host, bs, |w|, x) && Starts(w, bs)
  {
    if host == Little {
      BytesThere(w, LittleEndian(x, 4), bs);
      OctetsAreLittle(bs, |w|, 4, x);
    } else {
      WordPut(w, x, 4, bs);
    }
  }

  lemma {:induction false} OctetsAreZeros(bs: seq<byte>, i: nat, n: nat)
    requires Octets(bs, i, seq(n, _ => 0))
    ensures Zeros(bs, i, n)
    decreases n
  {
    if n > 0 {
      assert seq(n, _ => 0)[1..] == seq(n - 1, _ => 0);
      OctetsAreZeros(bs, i + 1, n - 1);
    }
  }

  lemma {:induction false} ZerosPut(w: seq<byte>, n: nat, bs: seq<byte>)
    requires Starts(Pad(w, n), bs)
    ensures Zeros(bs, |w|, n) && Starts(w, bs)
  {
    OctetsPut(w, seq(n, _ => 0), bs);
    OctetsAreZeros(bs, |w|, n);
  }

  // ---------------------------------------------------------------------
  // Records

  lemma {:induction false} HeaderPut(w: seq<byte>, h: PduHeader, size: nat, bs: seq<byte>)
    requires Starts(PutHeader(w, h, size), bs)
    ensures HeaderLaid(bs, |w|, h, size) && Starts(w, bs)
  {
    var a := PutU8(w, h.protocolVersion);
    var b := PutU8(a, h.exerciseId);
    var c := PutU8(b, h.pduType);
    var d := PutU8(c, h.protocolFamily);
    var e := PutU32(d, h.timestamp);
    var f := PutU16(e, Low16(size));
    var g := PutU8(f, h.status);
    ZerosPut(g, 1, bs);
    OctetPut(f, h.status, bs);
    WordPut(e, Low16(size), 2, bs);
    WordPut(d, h.timestamp, 4, bs);
    OctetPut(c, h.protocolFamily, bs);
    OctetPut(b, h.pduType, bs);
    OctetPut(a, h.exerciseId, bs);
    OctetPut(w, h.protocolVersion, bs);
  }

  lemma {:induction false} IdPut(w: seq<byte>, id: Id, bs: seq<byte>)
    requires Starts(PutId(w, id), bs)
    ensures IdLaid(bs, |w|, id) && Starts(w, bs)
  {
    var a := PutU16(w, id.site);
    WordPut(PutU16(a, id.application), id.id, 2, bs);
    WordPut(a, id.application, 2, bs);
    WordPut(w, id.site, 2, bs);
  }

  lemma {:induction false} TypePut(w: seq<byte>, t: EntityType, bs: seq<byte>)
    requires Starts(PutEntityType(w, t), bs)
    ensures TypeLaid(bs, |w|, t) && Starts(w, bs)
  {
    var a := PutU8(w, t.kind);
    var b := PutU8(a, t.domain);
    var c := PutU16(b, t.country);
    var d := PutU8(c, t.category);
    var e := PutU8(d, t.subcategory);
    OctetPut(PutU8(e, t.specific), t.extra, bs);
    OctetPut(e, t.specific, bs);
    OctetPut(d, t.subcategory, bs);
    OctetPut(c, t.category, bs);
    WordPut(b, t.country, 2, bs);
    OctetPut(a, t.domain, bs);
    OctetPut(w, t.kind, bs);
  }

  lemma {:induction false} VectorPut(w: seq<byte>, v: Vector, bs: seq<byte>)
    requires Starts(PutVector(w, v), bs)
    ensures VectorLaid(bs, |w|, v) && Starts(w, bs)
  {
    var a := PutU32(w, v.x);
    WordPut(PutU32(a, v.y), v.z, 4, bs);
    WordPut(a, v.y, 4, bs);
    WordPut(w, v.x, 4, bs);
  }

  lemma {:induction false} WorldPut(w: seq<byte>, v: WorldCoordinates, bs: seq<byte>)
    requires Starts(PutWorld(w, v), bs)
    ensures WorldLaid(bs, |w|, v) && Starts(w, bs)
  {
    var a := PutU64(w, v.x);
    WordPut(PutU64(a, v.y), v.z, 8, bs);
    WordPut(a, v.y, 8, bs);
    WordPut(w, v.x, 8, bs);
  }

  lemma {:induction false} UnionPut(w: seq<byte>, u: DrUnion, bs: seq<byte>)
    requires Starts(PutUnion(w, u), bs)
    ensures UnionLaid(bs, |w|, u) && Starts(w, bs)
  {
    match u {
      case Fixed(angles) =>
        VectorPut(Pad(PutU8(w, 1), 2), angles, bs);
        ZerosPut(PutU8(w, 1), 2, bs);
        OctetPut(w, 1, bs);
      case Rotating(q) =>
        VectorPut(PutU16(PutU8(w, 2), q.u0), Vector(q.x, q.y, q.z), bs);
        WordPut(PutU8(w, 2), q.u0, 2, bs);
        OctetPut(w, 2, bs);
      case Other(t) =>
        ZerosPut(PutU8(w, t), 14, bs);
        OctetPut(w, t, bs);
    }
  }

  lemma {:induction false} DeadReckoningPut(w: seq<byte>, d: DeadReckoning, bs: seq<byte>)
    requires Starts(PutDeadReckoning(w, d), bs)
    ensures DeadReckoningLaid(bs, |w|, d) && Starts(w, bs)
  {
    var a := PutU8(w, d.algorithm);
    var b := PutUnion(a, d.parameters);
    VectorPut(PutVector(b, d.linearAcceleration), d.angularVelocity, bs);
    VectorPut(b, d.linearAcceleration, bs);
    UnionPut(a, d.parameters, bs);
    OctetPut(w, d.algorithm, bs);
  }

  lemma {:induction false} FundamentalPut(w: seq<byte>, f: EeFundamental, bs: seq<byte>)
    requires Starts(PutEeFundamental(w, f), bs)
    ensures FundamentalLaid(bs, |w|, f) && Starts(w, bs)
  {
    var a := PutU32(w, f.centerFrequency);
    VectorPut(PutU32(a, f.frequencyRange),
              Vector(f.effectiveRadiatedPower, f.pulseRepetitionFrequency, f.pulseWidth), bs);
    WordPut(a, f.frequencyRange, 4, bs);
    WordPut(w, f.centerFrequency, 4, bs);
  }

  lemma {:induction false} BeamDataPut(w: seq<byte>, d: BeamData, bs: seq<byte>)
    requires Starts(PutBeamData(w, d), bs)
    ensures BeamDataLaid(bs, |w|, d) && Starts(w, bs)
  {
    var a := PutU32(w, d.azimuthCenter);
    VectorPut(PutU32(a, d.elevationCenter), Vector(d.azimuthSweep, d.elevationSweep, d.sweepSync), bs);
    WordPut(a, d.elevationCenter, 4, bs);
    WordPut(w, d.azimuthCenter, 4, bs);
  }

  lemma {:induction false} JammingPut(w: seq<byte>, t: JammingTechnique, bs: seq<byte>)
    requires Starts(PutJamming(w, t), bs)
    ensures JammingLaid(bs, |w|, t) && Starts(w, bs)
  {
    var a := PutU8(w, t.kind);
    var b := PutU8(a, t.category);
    OctetPut(PutU8(b, t.subcategory), t.specific, bs);
    OctetPut(b, t.subcategory, bs);
    OctetPut(a, t.category, bs);
    OctetPut(w, t.kind, bs);
  }

  // ---------------------------------------------------------------------
  // Entity State

  lemma {:induction false} ParametersPut(w: seq<byte>, ps: seq<ES.VariableParameter>, bs: seq<byte>)
    requires Starts(ES.PutParameters(w, ps), bs)
    ensures ParametersLaid(bs, |w|, ps) && Starts(w, bs)
    decreases |ps|
  {
    if ps != [] {
      var kind := PutU8(w, ps[0].kind);
      ParametersPut(PutBytes(kind, ps[0].data), ps[1..], bs);
      OctetsPut(kind, ps[0].data, bs);
      OctetPut(w, ps[0].kind, bs);
    }
  }

  predicate IdentityLaid(bs: seq<byte>, p: nat, pdu: ES.EntityState) {
    var n := |pdu.variableParameters|;
    && HeaderLaid(bs, p, pdu.header, 144 + 16 * n)
    && IdLaid(bs, p + 12, pdu.entityId) && Octet(bs, p + 18, pdu.forceId) && Octet(bs, p + 19, n % 256)
    && TypeLaid(bs, p + 20, pdu.entityType) && TypeLaid(bs, p + 28, pdu.alternativeEntityType)
  }

  lemma {:induction false} IdentityPut(w: seq<byte>, pdu: ES.EntityState, bs: seq<byte>)
    requires Starts(ES.PutIdentity(w, pdu), bs)
    ensures IdentityLaid(bs, |w|, pdu) && Starts(w, bs)
  {
    var n := |pdu.variableParameters|;
    var header := PutHeader(w, pdu.header, ES.PduSize(pdu));
    var id := PutId(header, pdu.entityId);
    var force := PutU8(id, pdu.forceId);
    var count := PutU8(force, Low8(n));
    TypePut(PutEntityType(count, pdu.entityType), pdu.alternativeEntityType, bs);
    TypePut(count, pdu.entityType, bs);
    OctetPut(force, Low8(n), bs);
    OctetPut(id, pdu.forceId, bs);
    IdPut(header, pdu.entityId, bs);
    HeaderPut(w, pdu.header, ES.PduSize(pdu), bs);
  }

  predicate MotionLaid(host: Endian, bs: seq<byte>, p: nat, pdu: ES.EntityState) {
    && VectorLaid(bs, p, pdu.linearVelocity) && WorldLaid(bs, p + 12, pdu.location)
    && VectorLaid(bs, p + 36, pdu.orientation) && HostWord(host, bs, p + 48, pdu.appearance)
    && DeadReckoningLaid(bs, p + 52, pdu.deadReckoning)
  }

  lemma {:induction false} MotionPut(host: Endian, w: seq<byte>, pdu: ES.EntityState, bs: seq<byte>)
    requires Starts(ES.PutMotion(host, w, pdu), bs)
    ensures MotionLaid(host, bs, |w|, pdu) && Starts(w, bs)
  {
    var velocity := PutVector(w, pdu.linearVelocity);
    var location := PutWorld(velocity, pdu.location);
    var orientation := PutVector(location, pdu.orientation);
    DeadReckoningPut(PutHost32(host, orientation, pdu.appearance), pdu.deadReckoning, bs);
    HostWordPut(host, orientation, pdu.appearance, bs);
    VectorPut(location, pdu.orientation, bs);
    WorldPut(velocity, pdu.location, bs);
    VectorPut(w, pdu.linearVelocity, bs);
  }

  // Every octet of a written Entity State PDU.
  lemma {:induction false} EntityStatePut(host: Endian, w: seq<byte>, pdu: ES.EntityState, bs: seq<byte>)
    requires Starts(ES.PutEntityState(host, w, pdu), bs)
    ensures EntityStateLaid(host, bs, |w|, pdu)
  {
    var identity := ES.PutIdentity(w, pdu);
    var motion := ES.PutMotion(host, identity, pdu);
    var charSet := PutU8(motion, pdu.marking.characterSet);
    var marking := PutBytes(charSet, pdu.marking.marking);
    ParametersPut(PutHost32(host, marking, pdu.capabilities), pdu.variableParameters, bs);
    HostWordPut(host, marking, pdu.capabilities, bs);
    OctetsPut(charSet, pdu.marking.marking, bs);
    OctetPut(motion, pdu.marking.characterSet, bs);
    MotionPut(host, identity, pdu, bs);
    IdentityPut(w, pdu, bs);
  }

  // ---------------------------------------------------------------------
  // Electromagnetic Emission

  lemma {:induction false} JamsPut(w: seq<byte>, jams: seq<TrackJam>, bs: seq<byte>)
    requires Starts(EE.PutJams(w, jams), bs)
    ensures JamsLaid(bs, |w|, jams) && Starts(w, bs)
    decreases |jams|
  {
    if jams != [] {
      var target := PutId(w, jams[0].target);
      var emitter := PutU8(target, jams[0].emitterNumber);
      JamsPut(PutU8(emitter, jams[0].beamNumber), jams[1..], bs);
      OctetPut(emitter, jams[0].beamNumber, bs);
      OctetPut(target, jams[0].emitterNumber, bs);
      IdPut(w, jams[0].target, bs);
    }
  }

  function PutBeamHead(w: seq<byte>, b: EE.Beam): seq<byte> {
    var a := PutU16(PutU8(PutU8(w, Low8(EE.BeamBits(b) / 32)), b.beamNumber), b.parameterIndex);
    PutBeamData(PutEeFundamental(a, b.fundamental), b.beamData)
  }

  lemma {:induction false} BeamHeadPut(w: seq<byte>, b: EE.Beam, bs: seq<byte>)
    requires Starts(PutBeamHead(w, b), bs)
    ensures BeamHeadLaid(bs, |w|, b) && Starts(w, bs)
  {
    var words := Low8(EE.BeamBits(b) / 32);
    var length := PutU8(w, words);
    var number := PutU8(length, b.beamNumber);
    var index := PutU16(number, b.parameterIndex);
    BeamDataPut(PutEeFundamental(index, b.fundamental), b.beamData, bs);
    FundamentalPut(index, b.fundamental, bs);
    WordPut(number, b.parameterIndex, 2, bs);
    OctetPut(length, b.beamNumber, bs);
    OctetPut(w, words, bs);
    BeamWords(b);
  }

  lemma {:induction false} BeamWords(b: EE.Beam)
    ensures Low8(EE.BeamBits(b) / 32) == BeamOctets(b) / 4 % 256
  {
  }

  lemma {:induction false} BeamFixedPut(w: seq<byte>, b: EE.Beam, bs: seq<byte>)
    requires Starts(EE.PutBeamFixed(w, b), bs)
    ensures BeamFixedLaid(bs, |w|, b) && Starts(w, bs)
  {
    var head := PutBeamHead(w, b);
    var beamFunction := PutU8(head, b.beamFunction);
    var targets := PutU8(beamFunction, b.numberOfTargets);
    var density := PutU8(targets, b.highDensityTrackJam);
    JammingPut(PutU8(density, b.beamStatus), b.jammingTechnique, bs);
    OctetPut(density, b.beamStatus, bs);
    OctetPut(targets, b.highDensityTrackJam, bs);
    OctetPut(beamFunction, b.numberOfTargets, bs);
    OctetPut(head, b.beamFunction, bs);
    BeamHeadPut(w, b, bs);
  }

  lemma {:induction false} BeamPut(w: seq<byte>, b: EE.Beam, bs: seq<byte>)
    requires Starts(EE.PutBeam(w, b), bs)
    ensures BeamLaid(bs, |w|, b) && Starts(w, bs)
  {
    JamsPut(EE.PutBeamFixed(w, b), b.Jams(), bs);
    BeamFixedPut(w, b, bs);
  }

  lemma {:induction false} NextBeam(w: seq<byte>, beams: seq<EE.Beam>, bs: seq<byte>) returns (next: seq<byte>)
    requires Starts(EE.PutBeams(w, beams), bs) && beams != []
    ensures next == EE.PutBeam(w, beams[0]) && Starts(EE.PutBeams(next, beams[1..]), bs)
    ensures |next| == |w| + BeamOctets(beams[0])
  {
    next := EE.PutBeam(w, beams[0]);
  }

  lemma {:induction false} BeamsStart(bs: seq<byte>, p: nat, next: nat, beams: seq<EE.Beam>)
    requires beams != [] && next == p + BeamOctets(beams[0])
    requires BeamLaid(bs, p, beams[0]) && BeamsLaid(bs, next, beams[1..])
    ensures BeamsLaid(bs, p, beams)
  {
  }

  lemma {:induction false} BeamsPut(w: seq<byte>, beams: seq<EE.Beam>, bs: seq<byte>)
    requires Starts(EE.PutBeams(w, beams), bs)
    ensures BeamsLaid(bs, |w|, beams) && Starts(w, bs)
    decreases |beams|
  {
    if beams != [] {
      var next := NextBeam(w, beams, bs);
      BeamsPut(next, beams[1..], bs);
      BeamPut(w, beams[0], bs);
      BeamsStart(bs, |w|, |next|, beams);
    }
  }

  lemma {:induction false} BeamsOctetsAre(beams: seq<EE.Beam>)
    ensures 8 * BeamsOctets(beams) == EE.BeamsBits(beams)
  {
    if beams != [] {
      BeamsOctetsAre(beams[1..]);
    }
  }

  lemma {:induction false} SystemFixedPut(w: seq<byte>, s: EE.EmitterSystem, bs: seq<byte>)
    requires Starts(EE.PutSystemFixed(w, s), bs)
    ensures SystemFixedLaid(bs, |w|, s) && Starts(w, bs)
  {
    BeamsOctetsAre(s.beams);
    var length := PutU8(w, Low8(EE.SystemBits(s) / 32));
    var count := PutU8(length, Low8(|s.beams|));
    var pad := Pad(count, 2);
    var name := PutU16(pad, s.emitterName);
    var systemFunction := PutU8(name, s.systemFunction);
    VectorPut(PutU8(systemFunction, s.emitterNumber), s.location, bs);
    OctetPut(systemFunction, s.emitterNumber, bs);
    OctetPut(name, s.systemFunction, bs);
    WordPut(pad, s.emitterName, 2, bs);
    ZerosPut(count, 2, bs);
    OctetPut(length, Low8(|s.beams|), bs);
    OctetPut(w, Low8(EE.SystemBits(s) / 32), bs);
  }

  lemma {:induction false} SystemPut(w: seq<byte>, s: EE.EmitterSystem, bs: seq<byte>)
    requires Starts(EE.PutSystem(w, s), bs)
    ensures SystemLaid(bs, |w|, s) && Starts(w, bs)
  {
    BeamsPut(EE.PutSystemFixed(w, s), s.beams, bs);
    SystemFixedPut(w, s, bs);
  }

  lemma {:induction false} NextSystem(w: seq<byte>, systems: seq<EE.EmitterSystem>, bs: seq<byte>)
    returns (next: seq<byte>)
    requires Starts(EE.PutSystems(w, systems), bs) && systems != []
    ensures next == EE.PutSystem(w, systems[0]) && Starts(EE.PutSystems(next, systems[1..]), bs)
    ensures |next| == |w| + SystemOctets(systems[0])
  {
    BeamsOctetsAre(systems[0].beams);
    next := EE.PutSystem(w, systems[0]);
  }

  lemma {:induction false} SystemsStart(bs: seq<byte>, p: nat, next: nat, systems: seq<EE.EmitterSystem>)
    requires systems != [] && next == p + SystemOctets(systems[0])
    requires SystemLaid(bs, p, systems[0]) && SystemsLaid(bs, next, systems[1..])
    ensures SystemsLaid(bs, p, systems)
  {
  }

  lemma {:induction false} SystemsPut(w: seq<byte>, systems: seq<EE.EmitterSystem>, bs: seq<byte>)
    requires Starts(EE.PutSystems(w, systems), bs)
    ensures SystemsLaid(bs, |w|, systems) && Starts(w, bs)
    decreases |systems|
  {
    if systems != [] {
      var next := NextSystem(w, systems, bs);
      SystemsPut(next, systems[1..], bs);
      SystemPut(w, systems[0], bs);
      SystemsStart(bs, |w|, |next|, systems);
    }
  }

  lemma {:induction false} SystemsOctetsAre(systems: seq<EE.EmitterSystem>)
    ensures 8 * SystemsOctets(systems) == EE.SystemsBits(systems)
  {
    if systems != [] {
      BeamsOctetsAre(systems[0].beams);
      SystemsOctetsAre(systems[1..]);
    }
  }

  lemma {:induction false} EmissionFixedPut(w: seq<byte>, pdu: EE.Emission, bs: seq<byte>)
    requires Starts(EE.PutEmissionFixed(w, pdu), bs)
    ensures EmissionFixedLaid(bs, |w|, pdu)
  {
    SystemsOctetsAre(pdu.systems);
    var header := PutHeader(w, pdu.header, EE.PduSize(pdu));
    var emitter := PutId(header, pdu.emitterId);
    var event := PutId(emitter, pdu.eventId);
    var indicator := PutU8(event, pdu.stateUpdateIndicator);
    ZerosPut(PutU8(indicator, Low8(|pdu.systems|)), 2, bs);
    OctetPut(indicator, Low8(|pdu.systems|), bs);
    OctetPut(event, pdu.stateUpdateIndicator, bs);
    IdPut(emitter, pdu.eventId, bs);
    IdPut(header, pdu.emitterId, bs);
    HeaderPut(w, pdu.header, EE.PduSize(pdu), bs);
  }

  // Every octet of a written emission.
  lemma {:induction false} EmissionPut(w: seq<byte>, pdu: EE.Emission, bs: seq<byte>)
    requires Starts(EE.PutEmission(w, pdu), bs)
    ensures EmissionLaid(bs, |w|, pdu)
  {
    SystemsPut(EE.PutEmissionFixed(w, pdu), pdu.systems, bs);
    EmissionFixedPut(w, pdu, bs);
  }
}

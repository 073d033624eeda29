/**
 * The key manager told from its history alone: which entry every version has
 * after any calls on a new manager, when it can be retrieved, and from which
 * hash input its bytes come.
 */
module KeyHistory {
  import opened Octets
  import opened Platform
  import opened KeyManagement
  import Sorting

  /** A new manager. */
  function Empty(rotation: KeyRotationPolicy): Store {
    Store(rotation, map[], map[])
  }

  /** The parameters of the call that first made a version. */
  datatype Making = Making(kind: KeyKind, day: u32, seed: u64)

  /** The greatest version made for a key id so far, and the kind of the one made
      last under that number: what the next rotation continues. */
  function LatestMade(env: Env, calls: seq<Call>, keyId: Bytes): Option<(u32, KeyKind)> {
    if calls == [] then None
    else
      var earlier := LatestMade(env, calls[..|calls| - 1], keyId);
      match calls[|calls| - 1]
      case GenerateCall(g, kind, version, _, _) =>
        if g == keyId && !env.blank(g) && version != 0 && (earlier.None? || version >= earlier.value.0)
        then Some((version, kind)) else earlier
      case RotateCall(g, _, _) =>
        if g == keyId && earlier.Some? && earlier.value.0 < TWO32 - 1
        then Some((earlier.value.0 + 1, earlier.value.1)) else earlier
      case _ => earlier
  }

  /** How a call after `before` makes a version of a key id, if it does. */
  function MadeBy(env: Env, before: seq<Call>, call: Call, keyId: Bytes, v: u32): Option<Making> {
    match call
    case GenerateCall(g, kind, version, day, seed) =>
      if g == keyId && version == v && !env.blank(g) && v != 0 then Some(Making(kind, day, seed)) else None
    case RotateCall(g, day, seed) =>
      var latest := LatestMade(env, before, keyId);
      if g == keyId && latest.Some? && latest.value.0 < TWO32 - 1 && latest.value.0 + 1 == v
      then Some(Making(latest.value.1, day, seed)) else None
    case _ => None
  }

  /** The first successful generation or rotation that made a version. */
  function FirstMade(env: Env, calls: seq<Call>, keyId: Bytes, v: u32): Option<Making> {
    if calls == [] then None
    else
      var before := calls[..|calls| - 1];
      var earlier := FirstMade(env, before, keyId, v);
      if earlier.Some? then earlier else MadeBy(env, before, calls[|calls| - 1], keyId, v)
  }

  /** Whether a version was revoked after it had been made. */
  predicate RevokedSince(env: Env, calls: seq<Call>, keyId: Bytes, v: u32) {
    calls != [] &&
    var before := calls[..|calls| - 1];
    || RevokedSince(env, before, keyId, v)
    || (calls[|calls| - 1] == RevokeCall(keyId, v) && FirstMade(env, before, keyId, v).Some?)
  }

  /** The entry the history gives a version. */
  function EntryMade(env: Env, rotation: KeyRotationPolicy, calls: seq<Call>, keyId: Bytes, v: u32)
    : Option<ManagedKey>
  {
    match FirstMade(env, calls, keyId, v)
    case None => None
    case Some(m) =>
      Some(NewKey(env, rotation, keyId, m.kind, v, m.day, m.seed).(revoked := RevokedSince(env, calls, keyId, v)))
  }

  // ---- The last entry of a bucket -----------------------------------------

  ghost predicate EndsWith(bucket: seq<ManagedKey>, latest: Option<(u32, KeyKind)>) {
    match latest
    case None => bucket == []
    case Some((version, kind)) =>
      && bucket != []
      && bucket[|bucket| - 1].reference.version == version && bucket[|bucket| - 1].reference.kind == kind
  }

  /** Pushing onto an ordered bucket and sorting leaves the greatest version
      last, the newest among equals. */
  lemma LastAfterPush(b: seq<ManagedKey>, key: ManagedKey)
    requires Sorting.Sorted(b, ByVersion)
    ensures var after := Sorting.Sort(b + [key], ByVersion);
      after != [] && after[|after| - 1] == if b == [] || ByVersion(b[|b| - 1], key) then key else b[|b| - 1]
  {
    hide ByVersion;
    VersionOrder();
    Sorting.SortFixpoint(b, ByVersion);
    Init(b, key);
  }

  lemma GenerateEnds(env: Env, st: Store, keyId: Bytes, kind: KeyKind, version: u32, day: u32, seed: u64,
                     latest: Option<(u32, KeyKind)>)
    requires Valid(env, st) && EndsWith(Bucket(st, keyId), latest)
    ensures EndsWith(Bucket(Generate(env, st, keyId, kind, version, day, seed).0, keyId),
      if !env.blank(keyId) && version != 0 && (latest.None? || version >= latest.value.0)
      then Some((version, kind)) else latest)
  {
    hide Material, Add32, Derived, Sorting.Sort;
    LastAfterPush(Bucket(st, keyId), NewKey(env, st.rotation, keyId, kind, version, day, seed));
  }

  lemma RevokeEnds(st: Store, keyId: Bytes, version: u32, latest: Option<(u32, KeyKind)>)
    requires EndsWith(Bucket(st, keyId), latest)
    ensures EndsWith(Bucket(Revoke(st, keyId, version).0, keyId), latest)
  {
  }

  /** No rotation finds a blank id. */
  lemma KnownIsNotBlank(env: Env, st: Store, keyId: Bytes)
    requires Valid(env, st) && Bucket(st, keyId) != []
    ensures !env.blank(keyId)
  {
  }

  /** The last entry of a bucket is the one the history gives. */
  lemma {:induction false} LatestIsMade(env: Env, rotation: KeyRotationPolicy, calls: seq<Call>, keyId: Bytes)
    requires rotation.IsValid()
    ensures Valid(env, Run(env, Empty(rotation), calls))
    ensures EndsWith(Bucket(Run(env, Empty(rotation), calls), keyId), LatestMade(env, calls, keyId))
  {
    hide Valid, EndsWith, Generate, Revoke, Bucket;
    EmptyIsValid(env, rotation, keyId);
    RunValid(env, Empty(rotation), calls);
    if calls != [] {
      var before := calls[..|calls| - 1];
      LatestIsMade(env, rotation, before, keyId);
      EndsStep(env, Run(env, Empty(rotation), before), calls[|calls| - 1], keyId, LatestMade(env, before, keyId));
    }
  }

  lemma EmptyIsValid(env: Env, rotation: KeyRotationPolicy, keyId: Bytes)
    requires rotation.IsValid()
    ensures Valid(env, Empty(rotation)) && EndsWith(Bucket(Empty(rotation), keyId), None)
  {
  }

  lemma EndsStep(env: Env, st: Store, call: Call, keyId: Bytes, latest: Option<(u32, KeyKind)>)
    requires Valid(env, st) && EndsWith(Bucket(st, keyId), latest)
    ensures EndsWith(Bucket(Step(env, st, call), keyId),
      match call
      case GenerateCall(g, kind, version, _, _) =>
        if g == keyId && !env.blank(g) && version != 0 && (latest.None? || version >= latest.value.0)
        then Some((version, kind)) else latest
      case RotateCall(g, _, _) =>
        if g == keyId && latest.Some? && latest.value.0 < TWO32 - 1
        then Some((latest.value.0 + 1, latest.value.1)) else latest
      case _ => latest)
  {
    hide Valid, Material, Generate;
    match call
    case GenerateCall(g, kind, version, day, seed) =>
      if g == keyId { GenerateEnds(env, st, keyId, kind, version, day, seed, latest); }
      else { OtherCall(env, st, call, keyId); }
    case RotateCall(g, day, seed) =>
      if g != keyId {
        OtherCall(env, st, call, keyId);
      } else if latest.Some? {
        KnownIsNotBlank(env, st, keyId);
        GenerateEnds(env, st, keyId, latest.value.1, Add32(latest.value.0, 1), day, seed, latest);
      }
    case RevokeCall(g, version) =>
      if g == keyId { RevokeEnds(st, keyId, version, latest); } else { OtherCall(env, st, call, keyId); }
    case PolicyCall(_) =>
  }

  // ---- The entry of a version ----------------------------------------------

  lemma GenerateMakes(env: Env, st: Store, keyId: Bytes, kind: KeyKind, version: u32, day: u32, seed: u64, v: u32)
    requires Lookup(st, keyId, v).None?
    ensures Lookup(Generate(env, st, keyId, kind, version, day, seed).0, keyId, v) ==
      if !env.blank(keyId) && v != 0 && version == v
      then Some(NewKey(env, st.rotation, keyId, kind, v, day, seed)) else None
  {
    hide Material, FirstIndex;
    if !env.blank(keyId) && version != 0 {
      var key := NewKey(env, st.rotation, keyId, kind, version, day, seed);
      FindSorted(Bucket(st, keyId) + [key], v);
      FindSnoc(Bucket(st, keyId), key, v);
    }
  }

  /** A call gives a version that had no entry the one it makes, if it makes it. */
  lemma StepMakes(env: Env, st: Store, before: seq<Call>, call: Call, keyId: Bytes, v: u32)
    requires Valid(env, st) && EndsWith(Bucket(st, keyId), LatestMade(env, before, keyId))
    requires Lookup(st, keyId, v).None?
    ensures Lookup(Step(env, st, call), keyId, v) ==
      match MadeBy(env, before, call, keyId, v)
      case None => None
      case Some(m) => Some(NewKey(env, st.rotation, keyId, m.kind, v, m.day, m.seed))
  {
    hide Valid, Material, Generate, LatestMade, Find;
    match call
    case GenerateCall(g, kind, version, day, seed) =>
      if g == keyId { GenerateMakes(env, st, keyId, kind, version, day, seed, v); }
      else { OtherCall(env, st, call, keyId); }
    case RotateCall(g, day, seed) =>
      var latest := LatestMade(env, before, keyId);
      if g != keyId {
        OtherCall(env, st, call, keyId);
      } else if latest.Some? {
        KnownIsNotBlank(env, st, keyId);
        GenerateMakes(env, st, keyId, latest.value.1, Add32(latest.value.0, 1), day, seed, v);
      }
    case RevokeCall(g, version) =>
      if g != keyId { OtherCall(env, st, call, keyId); }
      else if Lookup(st, keyId, version).Some? { FindRevoked(Bucket(st, keyId), version, v); }
    case PolicyCall(_) =>
  }

  /** After any calls on a new manager, the entry a lookup finds for a version is
      the one its first successful generation or rotation made, revoked exactly
      when the version was revoked since. */
  lemma {:induction false} LookupIsEntryMade(env: Env, rotation: KeyRotationPolicy, calls: seq<Call>,
                                             keyId: Bytes, v: u32)
    requires rotation.IsValid()
    ensures Lookup(Run(env, Empty(rotation), calls), keyId, v) == EntryMade(env, rotation, calls, keyId, v)
  {
    hide Valid, Lookup, NewKey, Step, MadeBy, LatestMade, EndsWith;
    if calls == [] {
      EmptyLookup(env, rotation, keyId, v);
    } else {
      var before, call := calls[..|calls| - 1], calls[|calls| - 1];
      var st := Run(env, Empty(rotation), before);
      LookupIsEntryMade(env, rotation, before, keyId, v);
      LatestIsMade(env, rotation, before, keyId);
      EmptyIsValid(env, rotation, keyId);
      RunValid(env, Empty(rotation), before);
      if FirstMade(env, before, keyId, v).Some? {
        StepKeepsEntry(env, st, call, keyId, v);
      } else {
        NotRevokedUnmade(env, before, keyId, v);
        StepMakes(env, st, before, call, keyId, v);
        NewIsUnrevoked(env, rotation, calls, keyId, v);
      }
    }
  }

  lemma EmptyLookup(env: Env, rotation: KeyRotationPolicy, keyId: Bytes, v: u32)
    ensures Lookup(Empty(rotation), keyId, v) == None
  {
  }

  lemma NewIsUnrevoked(env: Env, rotation: KeyRotationPolicy, calls: seq<Call>, keyId: Bytes, v: u32)
    ensures forall m: Making :: !NewKey(env, rotation, keyId, m.kind, v, m.day, m.seed).revoked
  {
  }

  lemma {:induction false} NotRevokedUnmade(env: Env, calls: seq<Call>, keyId: Bytes, v: u32)
    requires FirstMade(env, calls, keyId, v).None?
    ensures !RevokedSince(env, calls, keyId, v)
  {
    if calls != [] { NotRevokedUnmade(env, calls[..|calls| - 1], keyId, v); }
  }

  // ---- Retrieval -----------------------------------------------------------

  /** After any calls on a new manager, the answer to a retrieval: refused unless
      the policy last added for the identity names the key id and the kind; not
      found unless the version was made; revoked if it was revoked since or the
      day is past the period and the overlap after the day it was first made
      for; and otherwise the hash of the parameters it was first made with. */
  lemma RetrieveIsHistory(env: Env, rotation: KeyRotationPolicy, calls: seq<Call>,
                          identity: Bytes, reference: KeyMaterialRef, day: u32)
    requires rotation.IsValid()
    ensures var policy := PolicyInForce(Empty(rotation), calls, identity);
      var KeyMaterialRef(keyId, version, kind) := reference;
      Retrieve(Run(env, Empty(rotation), calls), identity, reference, day) ==
        if policy.None? || keyId !in policy.value.allowedKeyIds || kind !in policy.value.allowedKinds
        then Err(Unauthorized)
        else match FirstMade(env, calls, keyId, version)
          case None => Err(KeyNotFound)
          case Some(made) =>
            if RevokedSince(env, calls, keyId, version)
              || day > Add32(Add32(made.day, rotation.rotateEveryDays), rotation.overlapDays)
            then Err(KeyRevoked)
            else Ok(env.sha(DerivationInput(keyId, made.kind, version, made.seed, 0)))
  {
    hide DerivationInput, FirstMade, RevokedSince, PolicyInForce, Lookup, Run;
    LookupIsEntryMade(env, rotation, calls, reference.keyId, reference.version);
    PoliciesInForce(env, Empty(rotation), calls, identity);
  }

  /** After any calls on a new manager: a rotation continues the greatest version
      made, with the kind of its newest making, unless none was made or its
      number is the last `u32`; and what can be revoked is what was made. */
  lemma AnswersAreHistory(env: Env, rotation: KeyRotationPolicy, calls: seq<Call>,
                          keyId: Bytes, version: u32, day: u32, seed: u64)
    requires rotation.IsValid()
    ensures Rotate(env, Run(env, Empty(rotation), calls), keyId, day, seed).1 ==
      match LatestMade(env, calls, keyId)
      case None => Err(KeyNotFound)
      case Some((latest, kind)) =>
        if latest == 0xffff_ffff then Err(InvalidInput) else Ok(KeyMaterialRef(keyId, latest + 1, kind))
    ensures Revoke(Run(env, Empty(rotation), calls), keyId, version).1 ==
      if FirstMade(env, calls, keyId, version).Some? then Ok(()) else Err(KeyNotFound)
  {
    hide Valid, FirstMade, LatestMade, Run, Material, Lookup;
    LookupIsEntryMade(env, rotation, calls, keyId, version);
    LatestIsMade(env, rotation, calls, keyId);
    if LatestMade(env, calls, keyId).Some? { KnownIsNotBlank(env, Run(env, Empty(rotation), calls), keyId); }
  }

  /** A generation is refused exactly for a blank id or the version zero. */
  lemma GenerateAnswer(env: Env, st: Store, keyId: Bytes, kind: KeyKind, version: u32, day: u32, seed: u64)
    ensures Generate(env, st, keyId, kind, version, day, seed).1 ==
      if env.blank(keyId) || version == 0 then Err(InvalidInput) else Ok(KeyMaterialRef(keyId, version, kind))
  {
    hide Material;
  }

  /** Two versions, of one key or of two, in one manager or in two, never yield
      the same bytes, unless the two derivation inputs that their histories name
      collide under SHA-256. */
  lemma VersionsHaveOwnMaterial(env: Env,
      rotation: KeyRotationPolicy, calls: seq<Call>, identity: Bytes, reference: KeyMaterialRef, day: u32,
      rotation': KeyRotationPolicy, calls': seq<Call>, identity': Bytes, reference': KeyMaterialRef, day': u32)
    requires rotation.IsValid() && rotation'.IsValid()
    requires (reference.keyId, reference.version) != (reference'.keyId, reference'.version)
    requires Retrieve(Run(env, Empty(rotation), calls), identity, reference, day).Ok?
    requires Retrieve(Run(env, Empty(rotation), calls), identity, reference, day)
      == Retrieve(Run(env, Empty(rotation'), calls'), identity', reference', day')
    ensures var m := FirstMade(env, calls, reference.keyId, reference.version);
      var n := FirstMade(env, calls', reference'.keyId, reference'.version);
      && m.Some? && n.Some?
      && Collision(env.sha,
           DerivationInput(reference.keyId, m.value.kind, reference.version, m.value.seed, 0),
           DerivationInput(reference'.keyId, n.value.kind, reference'.version, n.value.seed, 0))
  {
    hide DerivationInput, FirstMade, Retrieve, Run;
    RetrieveIsHistory(env, rotation, calls, identity, reference, day);
    RetrieveIsHistory(env, rotation', calls', identity', reference', day');
    var m := FirstMade(env, calls, reference.keyId, reference.version).value;
    var n := FirstMade(env, calls', reference'.keyId, reference'.version).value;
    MaterialsDiffer(env.sha, reference.keyId, m.kind, reference.version, m.seed,
                    reference'.keyId, n.kind, reference'.version, n.seed);
  }
}

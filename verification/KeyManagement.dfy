/**
 * Versioned keys of `src/key_management.rs`: derivation of the material, the
 * operations of the key manager, and what every run of them keeps.
 *
 * `u32` sums wrap, as they do in a release build; a debug build stops exactly
 * where one would wrap.  `RotationWindow` says when none does.
 */
module KeyManagement {
  import opened Octets
  import opened Platform
  import opened Sorting

  datatype KeyKind = Encryption | Signature | Tls

  datatype KeyMaterialRef = KeyMaterialRef(keyId: Bytes, version: u32, kind: KeyKind)

  datatype KeyRotationPolicy = KeyRotationPolicy(rotateEveryDays: u32, overlapDays: u32) {
    predicate IsValid() { rotateEveryDays > 0 && overlapDays <= rotateEveryDays }
  }

  datatype KeyAccessPolicy = KeyAccessPolicy(
    identity: Bytes, allowedKeyIds: set<Bytes>, allowedKinds: set<KeyKind>)

  datatype ManagedKey = ManagedKey(
    reference: KeyMaterialRef, material: Bytes, activatedDay: u32, expiresDay: u32, revoked: bool)

  /** SHA-256 and the test `trim().is_empty()`. */
  datatype Env = Env(sha: Sha256, blank: Bytes -> bool)

  /** Wrapping addition. */
  function Add32(a: u32, b: u32): u32 {
    if a + b < TWO32 then a + b else a + b - TWO32
  }

  lemma Add32IsModular(a: u32, b: u32)
    ensures Add32(a, b) == (a + b) % 0x1_0000_0000
  {
  }

  // ---- Derivation of key material -----------------------------------------

  function KindName(kind: KeyKind): Bytes {
    match kind
    case Encryption => "Encryption"
    case Signature => "Signature"
    case Tls => "Tls"
  }

  const DERIVATION_LABEL: Bytes := "lite-llm::key-derivation"

  function DerivationInput(keyId: Bytes, kind: KeyKind, version: u32, seed: u64, counter: u64): Bytes {
    DERIVATION_LABEL + keyId + KindName(kind) + ['|'] + Decimal(version) + ['|'] + Decimal(seed)
      + ['|'] + Decimal(counter)
  }

  function Material(sha: Sha256, keyId: Bytes, kind: KeyKind, version: u32, seed: u64): (r: Bytes)
    ensures |r| == 32
  {
    sha(DerivationInput(keyId, kind, version, seed, 0))
  }

  /** One round of the loop always suffices: a SHA-256 digest fills the key. */
  method DeriveKeyMaterial(sha: Sha256, keyId: Bytes, kind: KeyKind, version: u32, seed: u64) returns (out: Bytes)
    ensures out == Material(sha, keyId, kind, version, seed)
  {
    out := [];
    var counter: u64 := 0;
    while |out| < 32
      invariant (counter == 0 && out == []) || (counter == 1 && out == Material(sha, keyId, kind, version, seed))
      decreases 32 - |out|
    {
      var hash := sha(DerivationInput(keyId, kind, version, seed, counter));
      out := out + hash;
      counter := counter + 1;
    }
    out := out[..32];
  }

  /** What a reader recovers from the derivation input. */
  datatype DerivationReading = DerivationReading(keyId: Bytes, kind: KeyKind, version: int, seed: int, counter: int)

  predicate EndsIn(s: Bytes, tail: Bytes) {
    |tail| <= |s| && s[|s| - |tail|..] == tail
  }

  /** A key id between the label and the name of a kind. */
  function ReadHead(s: Bytes): Option<(Bytes, KeyKind)> {
    var mark: Bytes := "lite-llm::key-derivation";
    if !(mark <= s) then None
    else
      var t := s[|mark|..];
      if EndsIn(t, "Encryption") then Some((t[..|t| - 10], Encryption))
      else if EndsIn(t, "Signature") then Some((t[..|t| - 9], Signature))
      else if EndsIn(t, "Tls") then Some((t[..|t| - 3], Tls))
      else None
  }

  /** Read the numbers from the right, then the head they leave. */
  function ReadDerivation(text: Bytes): Option<DerivationReading> {
    var text2 := BeforeLast('|', text);
    var text1 := BeforeLast('|', text2);
    match ReadHead(BeforeLast('|', text1))
    case None => None
    case Some((keyId, kind)) =>
      Some(DerivationReading(keyId, kind, DecimalValue(AfterLast('|', text1)), DecimalValue(AfterLast('|', text2)),
                             DecimalValue(AfterLast('|', text))))
  }

  lemma Regroup(a: Bytes, b: Bytes, c: Bytes)
    ensures a <= a + b + c && (a + b + c)[|a|..] == b + c && (b + c)[..|b|] == b
  {
  }

  lemma HeadReadsBack(keyId: Bytes, kind: KeyKind)
    ensures ReadHead(DERIVATION_LABEL + keyId + KindName(kind)) == Some((keyId, kind))
  {
    var name := KindName(kind);
    Regroup(DERIVATION_LABEL, keyId, name);
    assert (keyId + name)[|keyId + name| - 1] == name[|name| - 1];
    assert EndsIn(keyId + name, name);
  }

  /** The hash input reads back parameter by parameter, with no condition on the
      key id although no separator follows it: no kind name is a suffix of
      another. */
  lemma DerivationReadsBack(keyId: Bytes, kind: KeyKind, version: u32, seed: u64, counter: u64)
    ensures ReadDerivation(DerivationInput(keyId, kind, version, seed, counter)) ==
      Some(DerivationReading(keyId, kind, version, seed, counter))
  {
    hide Decimal, DecimalValue, KindName, BeforeLast, AfterLast, ReadHead;
    var head := DERIVATION_LABEL + keyId + KindName(kind);
    var text1 := head + ['|'] + Decimal(version);
    var text2 := text1 + ['|'] + Decimal(seed);
    CutLast('|', text2, Decimal(counter));
    CutLast('|', text1, Decimal(seed));
    CutLast('|', head, Decimal(version));
    DecimalRoundTrip(counter);
    DecimalRoundTrip(seed);
    DecimalRoundTrip(version);
    HeadReadsBack(keyId, kind);
  }

  /** So the hash input determines every parameter. */
  lemma DerivationInjective(
    i: Bytes, k: KeyKind, v: u32, s: u64, c: u64, j: Bytes, l: KeyKind, w: u32, t: u64, d: u64)
    requires DerivationInput(i, k, v, s, c) == DerivationInput(j, l, w, t, d)
    ensures i == j && k == l && v == w && s == t && c == d
  {
    hide DerivationInput, ReadDerivation;
    DerivationReadsBack(i, k, v, s, c);
    DerivationReadsBack(j, l, w, t, d);
  }

  /** Keys derived from different parameters differ, or their derivation inputs
      collide under SHA-256. */
  lemma MaterialsDiffer(
    sha: Sha256, i: Bytes, k: KeyKind, v: u32, s: u64, j: Bytes, l: KeyKind, w: u32, t: u64)
    requires (i, k, v, s) != (j, l, w, t)
    requires Material(sha, i, k, v, s) == Material(sha, j, l, w, t)
    ensures Collision(sha, DerivationInput(i, k, v, s, 0), DerivationInput(j, l, w, t, 0))
  {
    var x, y := DerivationInput(i, k, v, s, 0), DerivationInput(j, l, w, t, 0);
    if x == y {
      DerivationInjective(i, k, v, s, 0, j, l, w, t, 0);
    }
  }

  // ---- The state and its operations ---------------------------------------

  datatype Store = Store(
    rotation: KeyRotationPolicy,
    keys: map<Bytes, seq<ManagedKey>>,
    policies: map<Bytes, KeyAccessPolicy>)

  predicate ByVersion(a: ManagedKey, b: ManagedKey) {
    a.reference.version <= b.reference.version
  }

  function Bucket(st: Store, keyId: Bytes): seq<ManagedKey> {
    if keyId in st.keys then st.keys[keyId] else []
  }

  /** The first index holding the version, or the length. */
  function FirstIndex(bucket: seq<ManagedKey>, version: u32): (i: nat)
    ensures i <= |bucket|
    ensures i < |bucket| ==> bucket[i].reference.version == version
    ensures forall j :: 0 <= j < i ==> bucket[j].reference.version != version
  {
    if bucket == [] || bucket[0].reference.version == version then 0
    else 1 + FirstIndex(bucket[1..], version)
  }

  function Find(bucket: seq<ManagedKey>, version: u32): Option<ManagedKey> {
    var i := FirstIndex(bucket, version);
    if i < |bucket| then Some(bucket[i]) else None
  }

  function Lookup(st: Store, keyId: Bytes, version: u32): Option<ManagedKey> {
    Find(Bucket(st, keyId), version)
  }

  function NewKey(env: Env, rotation: KeyRotationPolicy,
                  keyId: Bytes, kind: KeyKind, version: u32, day: u32, seed: u64): ManagedKey {
    ManagedKey(KeyMaterialRef(keyId, version, kind), Material(env.sha, keyId, kind, version, seed),
               day, Add32(day, rotation.rotateEveryDays), false)
  }

  function Generate(env: Env, st: Store, keyId: Bytes, kind: KeyKind, version: u32, day: u32, seed: u64)
    : (Store, Result<KeyMaterialRef>)
  {
    if env.blank(keyId) || version == 0 then (st, Err(InvalidInput))
    else
      var key := NewKey(env, st.rotation, keyId, kind, version, day, seed);
      (st.(keys := st.keys[keyId := Sort(Bucket(st, keyId) + [key], ByVersion)]), Ok(key.reference))
  }

  function Rotate(env: Env, st: Store, keyId: Bytes, day: u32, seed: u64): (Store, Result<KeyMaterialRef>) {
    var bucket := Bucket(st, keyId);
    if bucket == [] then (st, Err(KeyNotFound))
    else
      var latest := bucket[|bucket| - 1].reference;
      Generate(env, st, keyId, latest.kind, Add32(latest.version, 1), day, seed)
  }

  function RevokeFirst(bucket: seq<ManagedKey>, version: u32): seq<ManagedKey> {
    var i := FirstIndex(bucket, version);
    if i < |bucket| then bucket[i := bucket[i].(revoked := true)] else bucket
  }

  function Revoke(st: Store, keyId: Bytes, version: u32): (Store, Result<()>) {
    if Lookup(st, keyId, version).None? then (st, Err(KeyNotFound))
    else (st.(keys := st.keys[keyId := RevokeFirst(Bucket(st, keyId), version)]), Ok(()))
  }

  function AddPolicy(st: Store, policy: KeyAccessPolicy): Store {
    st.(policies := st.policies[policy.identity := policy])
  }

  predicate Authorized(st: Store, identity: Bytes, reference: KeyMaterialRef) {
    && identity in st.policies
    && reference.keyId in st.policies[identity].allowedKeyIds
    && reference.kind in st.policies[identity].allowedKinds
  }

  predicate InWindow(st: Store, key: ManagedKey, day: u32) {
    day <= Add32(key.expiresDay, st.rotation.overlapDays)
  }

  function Retrieve(st: Store, identity: Bytes, reference: KeyMaterialRef, day: u32): Result<Bytes> {
    if !Authorized(st, identity, reference) then Err(Unauthorized)
    else match Lookup(st, reference.keyId, reference.version)
      case None => Err(KeyNotFound)
      case Some(key) =>
        if key.revoked || !InWindow(st, key, day) then Err(KeyRevoked) else Ok(key.material)
  }

  // ---- Runs ----------------------------------------------------------------

  datatype Call =
    | GenerateCall(keyId: Bytes, kind: KeyKind, version: u32, day: u32, seed: u64)
    | RotateCall(keyId: Bytes, day: u32, seed: u64)
    | RevokeCall(keyId: Bytes, version: u32)
    | PolicyCall(policy: KeyAccessPolicy)

  function Step(env: Env, st: Store, call: Call): Store {
    match call
    case GenerateCall(keyId, kind, version, day, seed) => Generate(env, st, keyId, kind, version, day, seed).0
    case RotateCall(keyId, day, seed) => Rotate(env, st, keyId, day, seed).0
    case RevokeCall(keyId, version) => Revoke(st, keyId, version).0
    case PolicyCall(policy) => AddPolicy(st, policy)
  }

  function Run(env: Env, st: Store, calls: seq<Call>): Store {
    if calls == [] then st
    else Step(env, Run(env, st, calls[..|calls| - 1]), calls[|calls| - 1])
  }

  lemma VersionOrder()
    ensures TotalPreorder(ByVersion)
  {
  }

  /** The first match is the head of its version's class. */
  lemma {:induction false} ClassHead(s: seq<ManagedKey>, k: ManagedKey)
    ensures Find(s, k.reference.version) ==
      if Class(s, k, ByVersion) == [] then None else Some(Class(s, k, ByVersion)[0])
  {
    if s != [] {
      var p := s[..|s| - 1];
      ClassHead(p, k);
      Snoc(s);
      FindSnoc(p, s[|s| - 1], k.reference.version);
    }
  }

  lemma FindSnoc(s: seq<ManagedKey>, x: ManagedKey, version: u32)
    ensures Find(s + [x], version) ==
      if Find(s, version).Some? then Find(s, version)
      else if x.reference.version == version then Some(x) else None
  {
    var i, j := FirstIndex(s, version), FirstIndex(s + [x], version);
    assert forall m :: 0 <= m < |s| ==> (s + [x])[m] == s[m];
    assert (s + [x])[|s|] == x;
  }

  /** Sorting a bucket does not change which entry a lookup finds. */
  lemma FindSorted(s: seq<ManagedKey>, version: u32)
    ensures Find(Sort(s, ByVersion), version) == Find(s, version)
  {
    var probe := ManagedKey(KeyMaterialRef([], version, Tls), [], 0, 0, false);
    VersionOrder();
    SortStable(s, probe, ByVersion);
    ClassHead(s, probe);
    ClassHead(Sort(s, ByVersion), probe);
  }

  lemma FindRevoked(s: seq<ManagedKey>, version: u32, v: u32)
    requires Find(s, version).Some?
    ensures Find(RevokeFirst(s, version), v) ==
      if v == version then Some(Find(s, v).value.(revoked := true)) else Find(s, v)
  {
    var i, j := FirstIndex(s, v), FirstIndex(RevokeFirst(s, version), v);
    assert forall m :: 0 <= m < |s| ==>
      RevokeFirst(s, version)[m].reference.version == s[m].reference.version;
    assert i == j;
  }

  /** The entry a lookup finds, after revocation if there was one. */
  function Marked(key: ManagedKey, revoked: bool): ManagedKey {
    key.(revoked := key.revoked || revoked)
  }

  lemma GenerateKeepsEntry(env: Env, st: Store, g: Bytes, kind: KeyKind, version: u32, day: u32, seed: u64,
                           keyId: Bytes, v: u32)
    requires Lookup(st, keyId, v).Some?
    ensures Lookup(Generate(env, st, g, kind, version, day, seed).0, keyId, v) == Lookup(st, keyId, v)
  {
    if g == keyId {
      var key := NewKey(env, st.rotation, g, kind, version, day, seed);
      FindSorted(Bucket(st, g) + [key], v);
      FindSnoc(Bucket(st, g), key, v);
    }
  }

  /** Calls on other keys and policies leave a bucket as it is. */
  lemma OtherCall(env: Env, st: Store, call: Call, keyId: Bytes)
    requires call.PolicyCall? || call.keyId != keyId
    ensures Bucket(Step(env, st, call), keyId) == Bucket(st, keyId)
    ensures keyId in Step(env, st, call).keys <==> keyId in st.keys
    ensures Step(env, st, call).rotation == st.rotation
  {
    hide Material;
  }

  /** No call changes the entry found for a version, except that revoking it
      marks it. */
  lemma StepKeepsEntry(env: Env, st: Store, call: Call, keyId: Bytes, v: u32)
    requires Lookup(st, keyId, v).Some?
    ensures Lookup(Step(env, st, call), keyId, v) ==
      Some(Marked(Lookup(st, keyId, v).value, call == RevokeCall(keyId, v)))
  {
    match call
    case GenerateCall(g, kind, version, day, seed) =>
      GenerateKeepsEntry(env, st, g, kind, version, day, seed, keyId, v);
    case RotateCall(g, day, seed) =>
      if Bucket(st, g) != [] {
        var latest := Bucket(st, g)[|Bucket(st, g)| - 1].reference;
        GenerateKeepsEntry(env, st, g, latest.kind, Add32(latest.version, 1), day, seed, keyId, v);
      }
    case RevokeCall(g, version) =>
      if g == keyId && Lookup(st, g, version).Some? {
        FindRevoked(Bucket(st, g), version, v);
      }
    case PolicyCall(_) =>
  }

  /** Over every run, the entry found for a version stays what it was and is
      revoked exactly when it was before or the run revokes it; generating the
      same version again has no effect on it. */
  lemma {:induction false} RunKeepsEntry(env: Env, st: Store, calls: seq<Call>, keyId: Bytes, v: u32)
    requires Lookup(st, keyId, v).Some?
    ensures Lookup(Run(env, st, calls), keyId, v) ==
      Some(Marked(Lookup(st, keyId, v).value, RevokeCall(keyId, v) in calls))
  {
    if calls != [] {
      var before := calls[..|calls| - 1];
      RunKeepsEntry(env, st, before, keyId, v);
      StepKeepsEntry(env, Run(env, st, before), calls[|calls| - 1], keyId, v);
      Snoc(calls);
    }
  }

  /** Whoever retrieves a version, whenever, gets the same bytes. */
  lemma MaterialNeverChanges(env: Env, st: Store, calls: seq<Call>,
                             identity: Bytes, reference: KeyMaterialRef, day: u32,
                             identity': Bytes, reference': KeyMaterialRef, day': u32)
    requires reference'.keyId == reference.keyId && reference'.version == reference.version
    requires Retrieve(st, identity, reference, day).Ok?
    requires Retrieve(Run(env, st, calls), identity', reference', day').Ok?
    ensures Retrieve(Run(env, st, calls), identity', reference', day') == Retrieve(st, identity, reference, day)
  {
    RunKeepsEntry(env, st, calls, reference.keyId, reference.version);
  }

  /** A revoked version is never retrieved again, by anyone, on any day, even if
      its number is generated again. */
  lemma RevocationIsPermanent(env: Env, st: Store, keyId: Bytes, version: u32, calls: seq<Call>,
                              identity: Bytes, reference: KeyMaterialRef, day: u32)
    requires Revoke(st, keyId, version).1.Ok?
    requires reference.keyId == keyId && reference.version == version
    ensures Retrieve(Run(env, Revoke(st, keyId, version).0, calls), identity, reference, day).Err?
  {
    StepKeepsEntry(env, st, RevokeCall(keyId, version), keyId, version);
    RunKeepsEntry(env, Revoke(st, keyId, version).0, calls, keyId, version);
  }

  /** The access policy in force for an identity after the calls: the last one
      added, or the one there was. */
  function PolicyInForce(st: Store, calls: seq<Call>, identity: Bytes): Option<KeyAccessPolicy> {
    if calls == [] then (if identity in st.policies then Some(st.policies[identity]) else None)
    else
      var last := calls[|calls| - 1];
      if last.PolicyCall? && last.policy.identity == identity then Some(last.policy)
      else PolicyInForce(st, calls[..|calls| - 1], identity)
  }

  lemma StepPolicies(env: Env, st: Store, call: Call)
    ensures !call.PolicyCall? ==> Step(env, st, call).policies == st.policies
    ensures Step(env, st, call).rotation == st.rotation
  {
  }

  lemma {:induction false} PoliciesInForce(env: Env, st: Store, calls: seq<Call>, identity: Bytes)
    ensures Run(env, st, calls).rotation == st.rotation
    ensures identity in Run(env, st, calls).policies <==> PolicyInForce(st, calls, identity).Some?
    ensures PolicyInForce(st, calls, identity).Some? ==>
      Run(env, st, calls).policies[identity] == PolicyInForce(st, calls, identity).value
  {
    if calls != [] {
      PoliciesInForce(env, st, calls[..|calls| - 1], identity);
      StepPolicies(env, Run(env, st, calls[..|calls| - 1]), calls[|calls| - 1]);
    }
  }

  /** When a retrieval after a run succeeds, told from the history alone: the
      policy in force names the key id and the kind, the entry the version had
      was not revoked before or by the run, and the day is within its window;
      then the bytes are those of that entry. */
  lemma RetrieveAfterRun(env: Env, st: Store, calls: seq<Call>, identity: Bytes, reference: KeyMaterialRef, day: u32)
    requires Lookup(st, reference.keyId, reference.version).Some?
    ensures var key := Lookup(st, reference.keyId, reference.version).value;
      var outcome := Retrieve(Run(env, st, calls), identity, reference, day);
      var policy := PolicyInForce(st, calls, identity);
      && (outcome.Ok? ==> outcome.value == key.material)
      && (outcome.Ok? <==>
            && policy.Some? && reference.keyId in policy.value.allowedKeyIds
            && reference.kind in policy.value.allowedKinds
            && !key.revoked && RevokeCall(reference.keyId, reference.version) !in calls
            && day <= Add32(key.expiresDay, st.rotation.overlapDays))
  {
    RunKeepsEntry(env, st, calls, reference.keyId, reference.version);
    PoliciesInForce(env, st, calls, identity);
  }

  // ---- The invariant of every run -----------------------------------------

  ghost predicate WellFiled(env: Env, rotation: KeyRotationPolicy, keyId: Bytes, bucket: seq<ManagedKey>) {
    && bucket != [] && !env.blank(keyId) && Sorted(bucket, ByVersion)
    && forall k :: k in bucket ==>
         && k.reference.keyId == keyId && k.reference.version > 0 && Derived(env, k.reference, k.material)
         && k.expiresDay == Add32(k.activatedDay, rotation.rotateEveryDays)
  }

  /** The material was derived for the reference, from some seed. */
  ghost predicate Derived(env: Env, reference: KeyMaterialRef, material: Bytes) {
    exists seed: u64 :: material == Material(env.sha, reference.keyId, reference.kind, reference.version, seed)
  }

  /** Buckets are non-empty, ordered by version and filed under their own id;
      every key holds material derived for it and expires one rotation period
      after its activation. */
  ghost predicate Valid(env: Env, st: Store) {
    && st.rotation.IsValid()
    && forall keyId :: keyId in st.keys ==> WellFiled(env, st.rotation, keyId, st.keys[keyId])
  }

  lemma GenerateValid(env: Env, st: Store, keyId: Bytes, kind: KeyKind, version: u32, day: u32, seed: u64)
    requires Valid(env, st)
    ensures Valid(env, Generate(env, st, keyId, kind, version, day, seed).0)
  {
    hide Material;
    if !env.blank(keyId) && version != 0 {
      var key := NewKey(env, st.rotation, keyId, kind, version, day, seed);
      var pushed := Bucket(st, keyId) + [key];
      VersionOrder();
      SortIsSorted(pushed, ByVersion);
      SortElements(pushed, ByVersion);
      assert Derived(env, key.reference, key.material);
      assert WellFiled(env, st.rotation, keyId, Sort(pushed, ByVersion));
    }
  }

  lemma RevokeFiled(env: Env, rotation: KeyRotationPolicy, keyId: Bytes, b: seq<ManagedKey>, version: u32)
    requires WellFiled(env, rotation, keyId, b)
    ensures WellFiled(env, rotation, keyId, RevokeFirst(b, version))
  {
    hide Derived;
    var i := FirstIndex(b, version);
    if i < |b| { assert b[i] in b; }
  }

  lemma RevokeValid(env: Env, st: Store, keyId: Bytes, version: u32)
    requires Valid(env, st)
    ensures Valid(env, Revoke(st, keyId, version).0)
  {
    hide WellFiled, RevokeFirst;
    if Lookup(st, keyId, version).Some? {
      RevokeFiled(env, st.rotation, keyId, st.keys[keyId], version);
    }
  }

  lemma {:induction false} RunValid(env: Env, st: Store, calls: seq<Call>)
    requires Valid(env, st)
    ensures Valid(env, Run(env, st, calls))
    ensures Run(env, st, calls).rotation == st.rotation
  {
    if calls != [] {
      var before := Run(env, st, calls[..|calls| - 1]);
      RunValid(env, st, calls[..|calls| - 1]);
      match calls[|calls| - 1]
      case GenerateCall(keyId, kind, version, day, seed) => GenerateValid(env, before, keyId, kind, version, day, seed);
      case RotateCall(keyId, day, seed) =>
        if Bucket(before, keyId) != [] {
          var latest := Bucket(before, keyId)[|Bucket(before, keyId)| - 1].reference;
          GenerateValid(env, before, keyId, latest.kind, Add32(latest.version, 1), day, seed);
        }
      case RevokeCall(keyId, version) => RevokeValid(env, before, keyId, version);
      case PolicyCall(_) =>
    }
  }

  /** In every reachable store a rotation succeeds exactly when the id is known
      and its latest version is not the last `u32`; it then adds, at the end of
      the bucket, a key of the same kind with a strictly greatest version. */
  lemma RotateExtends(env: Env, st: Store, keyId: Bytes, day: u32, seed: u64)
    requires Valid(env, st)
    ensures Rotate(env, st, keyId, day, seed).1.Ok? <==>
      keyId in st.keys && st.keys[keyId][|st.keys[keyId]| - 1].reference.version < TWO32 - 1
    ensures Rotate(env, st, keyId, day, seed).1.Ok? ==>
      var (after, r) := Rotate(env, st, keyId, day, seed);
      var b := st.keys[keyId];
      var latest := b[|b| - 1].reference;
      && r.value == KeyMaterialRef(keyId, latest.version + 1, latest.kind)
      && keyId in after.keys
      && after.keys[keyId] == b + [NewKey(env, st.rotation, keyId, latest.kind, latest.version + 1, day, seed)]
      && forall k :: k in b ==> k.reference.version < r.value.version
  {
    hide Material, Valid, Rotate, NewKey, ByVersion;
    if keyId in st.keys {
      LatestEntry(env, st, keyId);
      RotateKnown(env, st, keyId, day, seed);
    } else {
      assert Rotate(env, st, keyId, day, seed).1.Err? by { RotateUnknown(env, st, keyId, day, seed); }
    }
  }

  lemma RotateUnknown(env: Env, st: Store, keyId: Bytes, day: u32, seed: u64)
    requires keyId !in st.keys
    ensures Rotate(env, st, keyId, day, seed) == (st, Err(KeyNotFound))
  {
  }

  lemma RotateKnown(env: Env, st: Store, keyId: Bytes, day: u32, seed: u64)
    requires keyId in st.keys && st.keys[keyId] != [] && !env.blank(keyId)
    requires Sorted(st.keys[keyId], ByVersion)
    requires var b := st.keys[keyId];
      forall k :: k in b ==> k.reference.version <= b[|b| - 1].reference.version
    ensures var b := st.keys[keyId];
      var latest := b[|b| - 1].reference;
      if latest.version == TWO32 - 1 then Rotate(env, st, keyId, day, seed) == (st, Err(InvalidInput))
      else
        var key := NewKey(env, st.rotation, keyId, latest.kind, latest.version + 1, day, seed);
        Rotate(env, st, keyId, day, seed) == (st.(keys := st.keys[keyId := b + [key]]), Ok(key.reference))
        && key.reference == KeyMaterialRef(keyId, latest.version + 1, latest.kind)
  {
    hide Material, Sorted;
    var b := st.keys[keyId];
    var latest := b[|b| - 1].reference;
    if latest.version < TWO32 - 1 {
      PushSorted(b, NewKey(env, st.rotation, keyId, latest.kind, latest.version + 1, day, seed));
    }
  }

  lemma LatestEntry(env: Env, st: Store, keyId: Bytes)
    requires Valid(env, st) && keyId in st.keys
    ensures var b := st.keys[keyId];
      && b != [] && !env.blank(keyId) && Sorted(b, ByVersion)
      && b[|b| - 1].reference.keyId == keyId && b[|b| - 1].reference.version > 0
      && forall k :: k in b ==> k.reference.version <= b[|b| - 1].reference.version
  {
    hide Derived;
    var b := st.keys[keyId];
    assert b[|b| - 1] in b;
    LatestIsGreatest(b);
  }

  lemma LatestIsGreatest(b: seq<ManagedKey>)
    requires b != [] && Sorted(b, ByVersion)
    ensures forall k :: k in b ==> k.reference.version <= b[|b| - 1].reference.version
  {
    forall k | k in b ensures k.reference.version <= b[|b| - 1].reference.version {
      var i :| 0 <= i < |b| && b[i] == k;
      assert i < |b| - 1 ==> ByVersion(b[i], b[|b| - 1]);
    }
  }

  lemma PushSorted(b: seq<ManagedKey>, key: ManagedKey)
    requires Sorted(b, ByVersion)
    requires forall k :: k in b ==> ByVersion(k, key)
    ensures Sort(b + [key], ByVersion) == b + [key]
  {
    VersionOrder();
    SortFixpoint(b + [key], ByVersion);
  }

  /** What can be retrieved from a reachable store was derived for the version
      asked for. */
  lemma RetrievedIsDerived(env: Env, st: Store, identity: Bytes, reference: KeyMaterialRef,
      day: u32) returns (stored: KeyMaterialRef)
    requires Valid(env, st) && Retrieve(st, identity, reference, day).Ok?
    ensures stored.keyId == reference.keyId && stored.version == reference.version
    ensures Derived(env, stored, Retrieve(st, identity, reference, day).value)
  {
    hide Derived;
    var b := st.keys[reference.keyId];
    var key := b[FirstIndex(b, reference.version)];
    assert key in b;
    stored := key.reference;
  }

  /** Where a scan for a version stops, and what marking its match gives. */
  lemma FirstMatch(bucket: seq<ManagedKey>, version: u32, i: nat)
    requires i <= |bucket|
    requires forall j :: 0 <= j < i ==> bucket[j].reference.version != version
    ensures i == |bucket| ==> Find(bucket, version).None?
    ensures i < |bucket| && bucket[i].reference.version == version ==>
      && Find(bucket, version) == Some(bucket[i])
      && RevokeFirst(bucket, version) == bucket[i := bucket[i].(revoked := true)]
  {
    var first := FirstIndex(bucket, version);
    if i < |bucket| && bucket[i].reference.version == version {
      assert first == i;
    }
  }

  // ---- The manager object --------------------------------------------------

  class KeyManager {
    const env: Env
    const rotation: KeyRotationPolicy
    var keys: map<Bytes, seq<ManagedKey>>
    var policies: map<Bytes, KeyAccessPolicy>

    function State(): Store
      reads this
    {
      Store(rotation, keys, policies)
    }

    constructor (env: Env, rotation: KeyRotationPolicy)
      requires rotation.IsValid()
      ensures this.env == env && State() == Store(rotation, map[], map[]) && Valid(env, State())
    {
      this.env := env;
      this.rotation := rotation;
      keys, policies := map[], map[];
    }

    static method New(env: Env, rotation: KeyRotationPolicy) returns (r: Result<KeyManager>)
      ensures r.Ok? <==> rotation.rotateEveryDays > 0 && rotation.overlapDays <= rotation.rotateEveryDays
      ensures r.Ok? ==> fresh(r.value) && r.value.env == env && r.value.State() == Store(rotation, map[], map[])
      ensures r.Err? ==> r.error == InvalidConfig
    {
      if !rotation.IsValid() { return Err(InvalidConfig); }
      var manager := new KeyManager(env, rotation);
      r := Ok(manager);
    }

    method AddAccessPolicy(policy: KeyAccessPolicy)
      modifies this
      ensures State() == AddPolicy(old(State()), policy)
    {
      policies := policies[policy.identity := policy];
    }

    method GenerateKey(keyId: Bytes, kind: KeyKind, version: u32, activatedDay: u32, seed: u64)
      returns (r: Result<KeyMaterialRef>)
      modifies this
      ensures (State(), r) == Generate(env, old(State()), keyId, kind, version, activatedDay, seed)
      ensures old(Valid(env, State())) ==> Valid(env, State())
    {
      if Valid(env, State()) { GenerateValid(env, State(), keyId, kind, version, activatedDay, seed); }
      if env.blank(keyId) { return Err(InvalidInput); }
      if version == 0 { return Err(InvalidInput); }
      var material := DeriveKeyMaterial(env.sha, keyId, kind, version, seed);
      var reference := KeyMaterialRef(keyId, version, kind);
      var managed := ManagedKey(reference, material, activatedDay,
                                Add32(activatedDay, rotation.rotateEveryDays), false);
      var bucket := if keyId in keys then keys[keyId] else [];
      bucket := bucket + [managed];
      bucket := Sort(bucket, ByVersion);
      keys := keys[keyId := bucket];
      r := Ok(reference);
    }

    method RotateKey(keyId: Bytes, day: u32, seed: u64) returns (r: Result<KeyMaterialRef>)
      modifies this
      ensures (State(), r) == Rotate(env, old(State()), keyId, day, seed)
      ensures old(Valid(env, State())) ==> Valid(env, State())
    {
      if keyId !in keys || keys[keyId] == [] { return Err(KeyNotFound); }
      var latest := keys[keyId][|keys[keyId]| - 1];
      r := GenerateKey(keyId, latest.reference.kind, Add32(latest.reference.version, 1), day, seed);
    }

    method RevokeKey(keyId: Bytes, version: u32) returns (r: Result<()>)
      modifies this
      ensures (State(), r) == Revoke(old(State()), keyId, version)
      ensures old(Valid(env, State())) ==> Valid(env, State())
    {
      hide Valid, RevokeFirst, FirstIndex;
      if keyId !in keys { return Err(KeyNotFound); }
      if Valid(env, State()) { RevokeValid(env, State(), keyId, version); }
      var bucket := keys[keyId];
      var versions := bucket;
      var found := false;
      var i := 0;
      while i < |bucket| && !found
        invariant 0 <= i <= |bucket|
        invariant forall j :: 0 <= j < i ==> bucket[j].reference.version != version
        invariant !found ==> versions == bucket
        invariant found ==> i < |bucket| && bucket[i].reference.version == version
        invariant found ==> versions == bucket[i := bucket[i].(revoked := true)]
        decreases |bucket| - i, !found
      {
        if versions[i].reference.version == version {
          versions := versions[i := versions[i].(revoked := true)];
          found := true;
        } else {
          i := i + 1;
        }
      }
      FirstMatch(bucket, version, i);
      if !found { return Err(KeyNotFound); }
      keys := keys[keyId := versions];
      r := Ok(());
    }

    method RetrieveKey(identity: Bytes, reference: KeyMaterialRef, day: u32) returns (r: Result<Bytes>)
      ensures r == Retrieve(State(), identity, reference, day)
    {
      if identity !in policies { return Err(Unauthorized); }
      var policy := policies[identity];
      if reference.keyId !in policy.allowedKeyIds { return Err(Unauthorized); }
      if reference.kind !in policy.allowedKinds { return Err(Unauthorized); }
      if reference.keyId !in keys { return Err(KeyNotFound); }
      var key := Find(keys[reference.keyId], reference.version);
      if key.None? { return Err(KeyNotFound); }
      if key.value.revoked { return Err(KeyRevoked); }
      if day > Add32(key.value.expiresDay, rotation.overlapDays) { return Err(KeyRevoked); }
      r := Ok(key.value.material);
    }
  }
}

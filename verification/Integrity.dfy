/**
 * Digest and signature verification and the secure loader of
 * `src/integrity.rs`: exactly what it accepts, that an honestly published
 * manifest always loads, and what two accepted loads with one hash share.
 */
module Integrity {
  import opened Octets
  import opened Platform
  import opened Sorting
  import opened Manifest
  import Hex

  /** The foreign primitives used here, and the test `trim().is_empty()`. */
  datatype Suite = Suite(sha256: Sha256, sha512: Sha512, signatures: SignatureScheme, blank: Bytes -> bool)

  const SHA256_ALGORITHM: Bytes := "sha256"
  const SHA512_ALGORITHM: Bytes := "sha512"

  // ---- Digests -------------------------------------------------------------

  function FromPayload(suite: Suite, payload: Bytes, algorithm: Bytes): Result<ArtifactDigest> {
    if algorithm == SHA256_ALGORITHM then Ok(ArtifactDigest(SHA256_ALGORITHM, HexDigest(suite.sha256, payload)))
    else if algorithm == SHA512_ALGORITHM then Ok(ArtifactDigest(SHA512_ALGORITHM, HexDigest512(suite.sha512, payload)))
    else Err(InvalidConfig)
  }

  function VerifyDigest(suite: Suite, payload: Bytes, expected: ArtifactDigest): Result<()> {
    match FromPayload(suite, payload, expected.algorithm)
    case Err(error) => Err(error)
    case Ok(actual) => if actual.hex == expected.hex then Ok(()) else Err(IntegrityViolation)
  }

  /** The digest names a supported algorithm and is that hash of the payload, in
      lower-case hexadecimal. */
  predicate DigestOk(suite: Suite, payload: Bytes, d: ArtifactDigest) {
    || (d.algorithm == "sha256" && d.hex == Hex.Encode(suite.sha256(payload)))
    || (d.algorithm == "sha512" && d.hex == Hex.Encode(suite.sha512(payload)))
  }

  lemma VerifyDigestExact(suite: Suite, payload: Bytes, d: ArtifactDigest)
    ensures VerifyDigest(suite, payload, d) ==
      if DigestOk(suite, payload, d) then Ok(())
      else if d.algorithm == "sha256" || d.algorithm == "sha512" then Err(IntegrityViolation)
      else Err(InvalidConfig)
    ensures var computed := FromPayload(suite, payload, d.algorithm);
      computed.Ok? ==> computed.value.algorithm == d.algorithm && DigestOk(suite, payload, computed.value)
  {
  }

  /** Two different payloads with the same digest under a supported algorithm. */
  predicate DigestCollision(suite: Suite, algorithm: Bytes, x: Bytes, y: Bytes) {
    || (algorithm == SHA256_ALGORITHM && Collision(suite.sha256, x, y))
    || (algorithm == SHA512_ALGORITHM && Collision(suite.sha512, x, y))
  }

  lemma DigestBinds(suite: Suite, x: Bytes, y: Bytes, d: ArtifactDigest)
    requires DigestOk(suite, x, d) && DigestOk(suite, y, d)
    ensures x == y || DigestCollision(suite, d.algorithm, x, y)
  {
    if d.algorithm == SHA256_ALGORITHM {
      EqualDigests(suite.sha256, x, y);
    } else {
      EqualDigests512(suite.sha512, x, y);
    }
  }

  /** A digest something verifies against holds no delimiter of the text. */
  lemma VerifiedDigestIsClean(suite: Suite, payload: Bytes, d: ArtifactDigest)
    requires DigestOk(suite, payload, d)
    ensures '\n' !in d.algorithm && '|' !in d.algorithm && '\n' !in d.hex && '|' !in d.hex
  {
  }

  // ---- Signatures ----------------------------------------------------------

  datatype KeyPair = KeyPair(signingKey: Bytes, keyId: Bytes)

  function Sign(suite: Suite, pair: KeyPair, message: Bytes): Bytes {
    Hex.Encode(suite.signatures.sign(pair.signingKey, message))
  }

  function VerifySignature(suite: Suite, publicKeys: map<Bytes, Bytes>, hashHex: Bytes, envelope: SignatureEnvelope)
    : Result<()>
  {
    if envelope.keyId !in publicKeys then Err(KeyNotFound)
    else
      var hash, signature := Hex.Decode(hashHex), Hex.Decode(envelope.signatureHex);
      if hash.None? || signature.None? || |signature.value| != 64 then Err(IntegrityViolation)
      else if suite.signatures.verify(publicKeys[envelope.keyId], hash.value, signature.value) then Ok(())
      else Err(SignatureInvalid)
  }

  function Signed(suite: Suite, m: Manifest, pair: KeyPair, signerId: Bytes): Manifest
    requires Hex.Decode(m.manifestHashHex).Some?
  {
    m.(signature := SignatureEnvelope(
         signerId, pair.keyId, Sign(suite, pair, Hex.Decode(m.manifestHashHex).value)))
  }

  /** The signature of the message, 64 bytes in hexadecimal, verifies under the
      key registered for the id the envelope names. */
  predicate SignatureOk(suite: Suite, publicKeys: map<Bytes, Bytes>, message: Bytes, envelope: SignatureEnvelope) {
    && envelope.keyId in publicKeys
    && SignatureShape(envelope)
    && suite.signatures.verify(publicKeys[envelope.keyId], message, Hex.Decode(envelope.signatureHex).value)
  }

  predicate SignatureShape(envelope: SignatureEnvelope) {
    Hex.Decode(envelope.signatureHex).Some? && |Hex.Decode(envelope.signatureHex).value| == 64
  }

  lemma VerifySignatureExact(suite: Suite, publicKeys: map<Bytes, Bytes>, message: Bytes, envelope: SignatureEnvelope)
    ensures VerifySignature(suite, publicKeys, Hex.Encode(message), envelope) ==
      if envelope.keyId !in publicKeys then Err(KeyNotFound)
      else if !SignatureShape(envelope) then Err(IntegrityViolation)
      else if SignatureOk(suite, publicKeys, message, envelope) then Ok(())
      else Err(SignatureInvalid)
  {
    Hex.DecodeEncode(message);
  }

  /** Signing replaces the envelope only, and names signer and key in it; a
      manifest signed by a registered key verifies. */
  lemma SignedVerifies(suite: Suite, publicKeys: map<Bytes, Bytes>, m: Manifest, pair: KeyPair, signerId: Bytes)
    requires Hex.Decode(m.manifestHashHex).Some?
    ensures var signed := Signed(suite, m, pair, signerId);
      && signed == m.(signature := signed.signature)
      && signed.signature.signerId == signerId && signed.signature.keyId == pair.keyId
      && Hex.Decode(signed.signature.signatureHex)
         == Some(suite.signatures.sign(pair.signingKey, Hex.Decode(m.manifestHashHex).value))
    ensures pair.keyId in publicKeys && publicKeys[pair.keyId] == suite.signatures.publicKey(pair.signingKey) ==>
      VerifySignature(suite, publicKeys, m.manifestHashHex, Signed(suite, m, pair, signerId).signature).Ok?
  {
    var hash := Hex.Decode(m.manifestHashHex).value;
    assert AcceptsHonestSignatures(suite.signatures);
    Hex.DecodeEncode(suite.signatures.sign(pair.signingKey, hash));
  }

  // ---- The loader ----------------------------------------------------------

  datatype Loader = Loader(publicKeys: map<Bytes, Bytes>, supportedMajor: u32, expectedTiers: set<u16>)

  datatype LoadedModel = LoadedModel(modelId: Bytes, loadedTiers: seq<u16>, verifiedShards: seq<Bytes>)

  predicate WellShaped(suite: Suite, m: Manifest) {
    && !suite.blank(m.modelId) && m.tiers != [] && m.shards != []
    && forall s :: s in m.shards ==> !suite.blank(s.path) && s.bytes != 0
  }

  function TierSet(m: Manifest): set<u16> { set t | t in m.tiers }

  function CheckShard(suite: Suite, tiers: set<u16>, store: map<Bytes, Bytes>, s: ManifestShard): Result<()> {
    if s.tier !in tiers then Err(IntegrityViolation)
    else if s.path !in store then Err(IntegrityViolation)
    else if |store[s.path]| != s.bytes then Err(IntegrityViolation)
    else VerifyDigest(suite, store[s.path], s.digest)
  }

  /** The outcome of the first shard that fails, if one does. */
  function CheckShards(suite: Suite, tiers: set<u16>, store: map<Bytes, Bytes>, shards: seq<ManifestShard>)
    : Result<()>
  {
    if shards == [] then Ok(())
    else
      match CheckShards(suite, tiers, store, shards[..|shards| - 1])
      case Err(error) => Err(error)
      case Ok(_) => CheckShard(suite, tiers, store, shards[|shards| - 1])
  }

  function Paths(shards: seq<ManifestShard>): (r: seq<Bytes>)
    ensures |r| == |shards|
  {
    seq(|shards|, i requires 0 <= i < |shards| => shards[i].path)
  }

  function Load(suite: Suite, loader: Loader, m: Manifest, store: map<Bytes, Bytes>): Result<LoadedModel> {
    if !WellShaped(suite, m) then Err(InvalidInput)
    else if m.versionMajor != loader.supportedMajor then Err(IntegrityViolation)
    else if TierSet(m) != loader.expectedTiers then Err(IntegrityViolation)
    else if RecomputeHash(suite.sha256, m) != m.manifestHashHex then Err(IntegrityViolation)
    else match VerifySignature(suite, loader.publicKeys, m.manifestHashHex, m.signature)
      case Err(error) => Err(error)
      case Ok(_) =>
        match CheckShards(suite, TierSet(m), store, m.shards)
        case Err(error) => Err(error)
        case Ok(_) => Ok(LoadedModel(m.modelId, m.tiers, Sort(Paths(m.shards), LexLeq)))
  }

  /** A shard has a known tier and is stored with its size. */
  predicate StoredRight(m: Manifest, store: map<Bytes, Bytes>, s: ManifestShard) {
    s.tier in m.tiers && s.path in store && |store[s.path]| == s.bytes
  }

  /** What must hold of a shard and the store. */
  predicate ShardOk(suite: Suite, m: Manifest, store: map<Bytes, Bytes>, s: ManifestShard) {
    StoredRight(m, store, s) && DigestOk(suite, store[s.path], s.digest)
  }

  /** The manifest carries its own hash and is one the loader is set up for. */
  ghost predicate Expected(suite: Suite, loader: Loader, m: Manifest) {
    && m.versionMajor == loader.supportedMajor
    && (forall t :: t in m.tiers <==> t in loader.expectedTiers)
    && m.manifestHashHex == Hex.Encode(suite.sha256(CanonicalPayload(m)))
  }

  ghost predicate Acceptable(suite: Suite, loader: Loader, m: Manifest, store: map<Bytes, Bytes>) {
    && WellShaped(suite, m)
    && Expected(suite, loader, m)
    && SignatureOk(suite, loader.publicKeys, suite.sha256(CanonicalPayload(m)), m.signature)
    && forall s :: s in m.shards ==> ShardOk(suite, m, store, s)
  }

  lemma {:induction false} CheckShardsExact(suite: Suite, tiers: set<u16>, store: map<Bytes, Bytes>,
      shards: seq<ManifestShard>)
    ensures CheckShards(suite, tiers, store, shards).Ok? <==>
      forall s :: s in shards ==> CheckShard(suite, tiers, store, s).Ok?
  {
    hide CheckShard;
    if shards != [] {
      CheckShardsExact(suite, tiers, store, shards[..|shards| - 1]);
      Snoc(shards);
    }
  }

  lemma CheckShardOk(suite: Suite, m: Manifest, store: map<Bytes, Bytes>, s: ManifestShard)
    ensures CheckShard(suite, TierSet(m), store, s) ==
      if ShardOk(suite, m, store, s) then Ok(())
      else if StoredRight(m, store, s) && s.digest.algorithm != "sha256" && s.digest.algorithm != "sha512"
      then Err(InvalidConfig)
      else Err(IntegrityViolation)
  {
    if StoredRight(m, store, s) { VerifyDigestExact(suite, store[s.path], s.digest); }
  }

  lemma TierSetsAgree(m: Manifest, tiers: set<u16>)
    ensures TierSet(m) == tiers <==> forall t :: t in m.tiers <==> t in tiers
  {
    if forall t :: t in m.tiers <==> t in tiers {
      assert forall t :: t in TierSet(m) <==> t in tiers;
    } else {
      var t :| !(t in m.tiers <==> t in tiers);
      assert !(t in TierSet(m) <==> t in tiers);
    }
  }

  /** `Load` told by its spelled-out conditions: shape, expectations, signature,
      and the check of the shards. */
  lemma LoadStages(suite: Suite, loader: Loader, m: Manifest, store: map<Bytes, Bytes>)
    ensures Load(suite, loader, m, store) ==
      if !WellShaped(suite, m) then Err(InvalidInput)
      else if !Expected(suite, loader, m) then Err(IntegrityViolation)
      else if m.signature.keyId !in loader.publicKeys then Err(KeyNotFound)
      else if !SignatureShape(m.signature) then Err(IntegrityViolation)
      else if !SignatureOk(suite, loader.publicKeys, suite.sha256(CanonicalPayload(m)), m.signature)
      then Err(SignatureInvalid)
      else match CheckShards(suite, TierSet(m), store, m.shards)
        case Err(error) => Err(error)
        case Ok(_) => Ok(LoadedModel(m.modelId, m.tiers, Sort(Paths(m.shards), LexLeq)))
  {
    hide CanonicalPayload, VerifySignature, SignatureOk, SignatureShape, CheckShards, WellShaped;
    TierSetsAgree(m, loader.expectedTiers);
    VerifySignatureExact(suite, loader.publicKeys, suite.sha256(CanonicalPayload(m)), m.signature);
    LoadUnfolds(suite, loader, m, store);
  }

  /** The loader accepts exactly the acceptable manifests, wherever in its
      sequence of checks a fault lies. */
  lemma LoadExact(suite: Suite, loader: Loader, m: Manifest, store: map<Bytes, Bytes>)
    ensures Load(suite, loader, m, store).Ok? <==> Acceptable(suite, loader, m, store)
    ensures Load(suite, loader, m, store).Ok? ==>
      var loaded := Load(suite, loader, m, store).value;
      loaded.modelId == m.modelId && loaded.loadedTiers == m.tiers
  {
    hide Load, Expected, SignatureShape, WellShaped, CheckShard, ShardOk;
    LoadStages(suite, loader, m, store);
    CheckShardsExact(suite, TierSet(m), store, m.shards);
    forall s | s in m.shards
      ensures CheckShard(suite, TierSet(m), store, s).Ok? <==> ShardOk(suite, m, store, s)
    {
      CheckShardOk(suite, m, store, s);
    }
  }

  /** The first shard out of order is in its place with its size, but its digest
      names an algorithm that is not supported. */
  ghost predicate FirstFaultIsAlgorithm(suite: Suite, m: Manifest, store: map<Bytes, Bytes>) {
    exists i :: 0 <= i < |m.shards| && UnsupportedAt(suite, m, store, i)
  }

  ghost predicate UnsupportedAt(suite: Suite, m: Manifest, store: map<Bytes, Bytes>, i: nat)
    requires i < |m.shards|
  {
    && (forall j :: 0 <= j < i ==> ShardOk(suite, m, store, m.shards[j]))
    && StoredRight(m, store, m.shards[i])
    && m.shards[i].digest.algorithm != "sha256" && m.shards[i].digest.algorithm != "sha512"
  }

  /** Where a check of the shards stops: at the first one out of order. */
  lemma ShardsOutcome(suite: Suite, m: Manifest, store: map<Bytes, Bytes>)
    ensures var r := CheckShards(suite, TierSet(m), store, m.shards);
      r.Err? ==> r.error == if FirstFaultIsAlgorithm(suite, m, store) then InvalidConfig else IntegrityViolation
    ensures FirstFaultIsAlgorithm(suite, m, store) ==> CheckShards(suite, TierSet(m), store, m.shards).Err?
  {
    hide CheckShard, CheckShards, ShardOk, StoredRight;
    CheckShardsExact(suite, TierSet(m), store, m.shards);
    forall s ensures CheckShard(suite, TierSet(m), store, s) ==
      if ShardOk(suite, m, store, s) then Ok(())
      else if StoredRight(m, store, s) && s.digest.algorithm != "sha256" && s.digest.algorithm != "sha512"
      then Err(InvalidConfig)
      else Err(IntegrityViolation)
    {
      CheckShardOk(suite, m, store, s);
    }
    if i :| 0 <= i < |m.shards| && UnsupportedAt(suite, m, store, i) {
      UnsupportedIsNotOk(suite, m, store, m.shards[i]);
    }
    if CheckShards(suite, TierSet(m), store, m.shards).Err? {
      var i := FirstFault(suite, m, store);
      assert ShardOk(suite, m, store, m.shards[i]) == false;
      if k :| 0 <= k < |m.shards| && UnsupportedAt(suite, m, store, k) {
        UnsupportedIsNotOk(suite, m, store, m.shards[k]);
        assert k == i;
      }
      var a := m.shards[i].digest.algorithm;
      assert (StoredRight(m, store, m.shards[i]) && a != "sha256" && a != "sha512")
        ==> UnsupportedAt(suite, m, store, i);
    }
  }

  lemma UnsupportedIsNotOk(suite: Suite, m: Manifest, store: map<Bytes, Bytes>, s: ManifestShard)
    requires s.digest.algorithm != "sha256" && s.digest.algorithm != "sha512"
    ensures !ShardOk(suite, m, store, s)
  {
  }

  lemma FirstFault(suite: Suite, m: Manifest, store: map<Bytes, Bytes>) returns (i: nat)
    requires CheckShards(suite, TierSet(m), store, m.shards).Err?
    ensures i < |m.shards| && forall j :: 0 <= j < i ==> ShardOk(suite, m, store, m.shards[j])
    ensures CheckShard(suite, TierSet(m), store, m.shards[i]).Err?
    ensures CheckShards(suite, TierSet(m), store, m.shards) == CheckShard(suite, TierSet(m), store, m.shards[i])
  {
    hide CheckShard, ShardOk;
    i := 0;
    assert m.shards[..|m.shards|] == m.shards;
    while i < |m.shards| && CheckShard(suite, TierSet(m), store, m.shards[i]).Ok?
      invariant i <= |m.shards|
      invariant CheckShards(suite, TierSet(m), store, m.shards[..i]).Ok?
      invariant forall j :: 0 <= j < i ==> ShardOk(suite, m, store, m.shards[j])
    {
      CheckShardsStep(suite, TierSet(m), store, m.shards, i);
      CheckShardOk(suite, m, store, m.shards[i]);
      i := i + 1;
    }
    CheckShardsStep(suite, TierSet(m), store, m.shards, i);
  }

  /** Every refusal, told by what is wrong with the manifest or the store. */
  lemma LoadRefuses(suite: Suite, loader: Loader, m: Manifest, store: map<Bytes, Bytes>)
    ensures Load(suite, loader, m, store) == Err(InvalidInput) <==>
      || suite.blank(m.modelId) || m.tiers == [] || m.shards == []
      || exists s :: s in m.shards && (suite.blank(s.path) || s.bytes == 0)
    ensures Load(suite, loader, m, store) == Err(KeyNotFound) <==>
      WellShaped(suite, m) && Expected(suite, loader, m) && m.signature.keyId !in loader.publicKeys
    ensures Load(suite, loader, m, store) == Err(SignatureInvalid) <==>
      && WellShaped(suite, m) && Expected(suite, loader, m)
      && m.signature.keyId in loader.publicKeys && SignatureShape(m.signature)
      && !suite.signatures.verify(loader.publicKeys[m.signature.keyId], suite.sha256(CanonicalPayload(m)),
                                  Hex.Decode(m.signature.signatureHex).value)
    ensures Load(suite, loader, m, store) == Err(InvalidConfig) <==>
      && WellShaped(suite, m) && Expected(suite, loader, m)
      && SignatureOk(suite, loader.publicKeys, suite.sha256(CanonicalPayload(m)), m.signature)
      && FirstFaultIsAlgorithm(suite, m, store)
    ensures Load(suite, loader, m, store).Err? ==>
      Load(suite, loader, m, store).error in
        {InvalidInput, KeyNotFound, SignatureInvalid, InvalidConfig, IntegrityViolation}
  {
    hide Load, Expected, CanonicalPayload, CheckShards, FirstFaultIsAlgorithm;
    LoadStages(suite, loader, m, store);
    ShardsOutcome(suite, m, store);
  }

  // ---- Verified shards -----------------------------------------------------

  lemma LexOrderTotal()
    ensures TotalPreorder(LexLeq)
  {
    forall x: Bytes, y: Bytes ensures LexLeq(x, y) || LexLeq(y, x) { LexTotal(x, y); }
    forall x: Bytes, y: Bytes, z: Bytes | LexLeq(x, y) && LexLeq(y, z) ensures LexLeq(x, z) {
      LexTransitive(x, y, z);
    }
  }

  /** Sorted texts: of any two, the earlier is a prefix of the later or has the
      smaller octet where they first differ. */
  lemma SortedTexts(texts: seq<Bytes>)
    ensures var v := Sort(texts, LexLeq);
      multiset(v) == multiset(texts) && forall i, j :: 0 <= i < j < |v| ==> Precedes(v[i], v[j])
  {
    hide Precedes, LexLeq;
    LexOrderTotal();
    SortIsSorted(texts, LexLeq);
    SortMultiset(texts, LexLeq);
    var v := Sort(texts, LexLeq);
    forall i, j | 0 <= i < j < |v| ensures Precedes(v[i], v[j]) {
      assert LexLeq(v[i], v[j]);
      LexIsOctetOrder(v[i], v[j]);
    }
  }

  /** The reported paths are the paths of all shards, with multiplicity, in
      ascending octet order. */
  lemma VerifiedShardsSorted(suite: Suite, loader: Loader, m: Manifest, store: map<Bytes, Bytes>)
    requires Load(suite, loader, m, store).Ok?
    ensures var v := Load(suite, loader, m, store).value.verifiedShards;
      && multiset(v) == multiset(seq(|m.shards|, i requires 0 <= i < |m.shards| => m.shards[i].path))
      && forall i, j :: 0 <= i < j < |v| ==> Precedes(v[i], v[j])
  {
    hide Load, CheckShards, WellShaped, Precedes, LexLeq, Expected, SignatureOk, CanonicalPayload;
    LoadStages(suite, loader, m, store);
    SortedTexts(Paths(m.shards));
    assert Paths(m.shards) == seq(|m.shards|, i requires 0 <= i < |m.shards| => m.shards[i].path);
  }

  lemma PathsInit(shards: seq<ManifestShard>)
    requires shards != []
    ensures Paths(shards)[..|shards| - 1] == Paths(shards[..|shards| - 1])
  {
  }

  lemma PathsSnoc(shards: seq<ManifestShard>, s: ManifestShard)
    ensures Paths(shards + [s]) == Paths(shards) + [s.path]
  {
  }

  lemma {:induction false} InsertPath(shards: seq<ManifestShard>, s: ManifestShard)
    ensures Paths(Insert(shards, s, PathOrder)) == Insert(Paths(shards), s.path, LexLeq)
  {
    PathsSnoc(shards, s);
    if shards != [] && !PathOrder(shards[|shards| - 1], s) {
      var p := shards[..|shards| - 1];
      InsertPath(p, s);
      PathsInit(shards);
      PathsSnoc(Insert(p, s, PathOrder), shards[|shards| - 1]);
    }
  }

  /** Sorting the paths gives the paths of the sorted shards. */
  lemma {:induction false} SortPaths(shards: seq<ManifestShard>)
    ensures Sort(Paths(shards), LexLeq) == Paths(Sort(shards, PathOrder))
  {
    if shards != [] {
      var p := shards[..|shards| - 1];
      SortPaths(p);
      PathsInit(shards);
      InsertPath(Sort(p, PathOrder), shards[|shards| - 1]);
    }
  }

  // ---- Permuting a manifest ------------------------------------------------

  lemma AcceptablePermuted(suite: Suite, loader: Loader, m: Manifest, n: Manifest, store: map<Bytes, Bytes>)
    requires SameContent(m, n) && PathsIdentify(m)
    requires m.manifestHashHex == n.manifestHashHex && m.signature == n.signature
    requires Acceptable(suite, loader, m, store)
    ensures Acceptable(suite, loader, n, store)
  {
    hide RecomputeHash, CanonicalPayload, VerifySignature, DigestOk;
    PermutationKeepsPayload(m, n, suite.sha256);
    InSameMultiset(m.tiers, n.tiers);
    InSameMultiset(m.shards, n.shards);
    forall s | s in n.shards ensures ShardOk(suite, n, store, s) {
      assert ShardOk(suite, m, store, s);
    }
  }

  /** Permuting the tiers, and shards identified by their paths, changes neither
      acceptance nor the reported shards. */
  lemma PermutationKeepsLoad(suite: Suite, loader: Loader, m: Manifest, n: Manifest, store: map<Bytes, Bytes>)
    requires SameContent(m, n) && PathsIdentify(m)
    requires m.manifestHashHex == n.manifestHashHex && m.signature == n.signature
    ensures Load(suite, loader, m, store).Ok? <==> Load(suite, loader, n, store).Ok?
    ensures Load(suite, loader, m, store).Ok? ==>
      Load(suite, loader, m, store).value.verifiedShards == Load(suite, loader, n, store).value.verifiedShards
  {
    hide Acceptable, RecomputeHash, VerifySignature, CheckShards, WellShaped;
    LoadExact(suite, loader, m, store);
    LoadExact(suite, loader, n, store);
    InSameMultiset(m.shards, n.shards);
    if Acceptable(suite, loader, m, store) { AcceptablePermuted(suite, loader, m, n, store); }
    if Acceptable(suite, loader, n, store) { AcceptablePermuted(suite, loader, n, m, store); }
    PermutedShardsSortAlike(m, n);
    SortPaths(m.shards);
    SortPaths(n.shards);
  }

  /** In particular for shards with distinct paths. */
  lemma DistinctPathPermutationLoads(suite: Suite, loader: Loader, m: Manifest, n: Manifest, store: map<Bytes, Bytes>)
    requires SameContent(m, n) && DistinctPaths(m)
    requires m.manifestHashHex == n.manifestHashHex && m.signature == n.signature
    requires Load(suite, loader, m, store).Ok?
    ensures Load(suite, loader, n, store) == Ok(LoadedModel(
      m.modelId, n.tiers, Load(suite, loader, m, store).value.verifiedShards))
  {
    hide Acceptable, RecomputeHash, VerifySignature, CheckShards, WellShaped, SameContent;
    DistinctPathsIdentify(m);
    PermutationKeepsLoad(suite, loader, m, n, store);
    assert m.modelId == n.modelId by { SameModel(m, n); }
  }

  lemma SameModel(m: Manifest, n: Manifest)
    requires SameContent(m, n)
    ensures m.modelId == n.modelId
  {
  }

  // ---- Completeness --------------------------------------------------------

  lemma HashIsHex(sha: Sha256, m: Manifest)
    ensures Hex.Decode(RecomputeHash(sha, m)) == Some(sha(CanonicalPayload(m)))
  {
    hide CanonicalPayload;
    Hex.DecodeEncode(sha(CanonicalPayload(m)));
  }

  /** The manifest a publisher distributes: its hash recomputed, then signed. */
  function Published(suite: Suite, m: Manifest, pair: KeyPair, signerId: Bytes): Manifest {
    var hashed := m.(manifestHashHex := RecomputeHash(suite.sha256, m));
    HashIsHex(suite.sha256, m);
    Signed(suite, hashed, pair, signerId)
  }

  /** An honestly published manifest loads wherever its key is registered, the
      version and tiers are the expected ones and the store holds its shards. */
  lemma PublishedLoads(suite: Suite, loader: Loader, m: Manifest, pair: KeyPair, signerId: Bytes,
      store: map<Bytes, Bytes>)
    requires WellShaped(suite, m) && m.versionMajor == loader.supportedMajor
    requires forall t :: t in m.tiers <==> t in loader.expectedTiers
    requires pair.keyId in loader.publicKeys
      && loader.publicKeys[pair.keyId] == suite.signatures.publicKey(pair.signingKey)
    requires forall s :: s in m.shards ==> ShardOk(suite, m, store, s)
    ensures Load(suite, loader, Published(suite, m, pair, signerId), store) ==
      Ok(LoadedModel(m.modelId, m.tiers, Sort(Paths(m.shards), LexLeq)))
  {
    hide VerifySignature, Sign, DigestOk, CheckShards, CanonicalPayload;
    var hashed := m.(manifestHashHex := RecomputeHash(suite.sha256, m));
    HashIsHex(suite.sha256, m);
    SignedVerifies(suite, loader.publicKeys, hashed, pair, signerId);
    var p := Published(suite, m, pair, signerId);
    SamePayload(m, p);
    forall s | s in p.shards ensures ShardOk(suite, p, store, s) {
      assert ShardOk(suite, m, store, s);
    }
    LoadExact(suite, loader, p, store);
  }

  lemma SamePayload(m: Manifest, n: Manifest)
    requires n == m.(manifestHashHex := n.manifestHashHex, signature := n.signature)
    ensures CanonicalPayload(m) == CanonicalPayload(n)
  {
    assert SortedTiers(m) == SortedTiers(n) && SortedShards(m) == SortedShards(n);
  }

  // ---- Two loads with one hash --------------------------------------------

  /** Model id and paths hold no line feed. */
  predicate SingleLine(m: Manifest) {
    '\n' !in m.modelId && forall s :: s in m.shards ==> '\n' !in s.path
  }

  lemma AcceptedIsClean(suite: Suite, loader: Loader, m: Manifest, store: map<Bytes, Bytes>)
    requires SingleLine(m)
    ensures Load(suite, loader, m, store).Ok? ==> Clean(m)
  {
    hide Load, RecomputeHash, VerifySignature, DigestOk;
    LoadExact(suite, loader, m, store);
    if Load(suite, loader, m, store).Ok? {
      forall s | s in m.shards ensures CleanShard(s) {
        assert ShardOk(suite, m, store, s);
        VerifiedDigestIsClean(suite, store[s.path], s.digest);
      }
    }
  }

  /** The first shard whose stored bytes differ: its algorithm and both contents. */
  function FirstDifference(shards: seq<ManifestShard>, a: map<Bytes, Bytes>, b: map<Bytes, Bytes>)
    : Option<(Bytes, Bytes, Bytes)>
    requires forall s :: s in shards ==> s.path in a && s.path in b
  {
    if shards == [] then None
    else
      var s := shards[0];
      if a[s.path] != b[s.path] then Some((s.digest.algorithm, a[s.path], b[s.path]))
      else FirstDifference(shards[1..], a, b)
  }

  lemma {:induction false} FirstDifferenceExact(suite: Suite, shards: seq<ManifestShard>, a: map<Bytes, Bytes>,
      b: map<Bytes, Bytes>)
    requires forall s :: s in shards ==> s.path in a && DigestOk(suite, a[s.path], s.digest)
    requires forall s :: s in shards ==> s.path in b && DigestOk(suite, b[s.path], s.digest)
    ensures FirstDifference(shards, a, b).None? <==> forall s :: s in shards ==> a[s.path] == b[s.path]
    ensures FirstDifference(shards, a, b).Some? ==>
      var (algorithm, x, y) := FirstDifference(shards, a, b).value;
      DigestCollision(suite, algorithm, x, y)
  {
    hide DigestOk, DigestCollision;
    if shards != [] {
      assert shards == [shards[0]] + shards[1..];
      FirstDifferenceExact(suite, shards[1..], a, b);
      DigestBinds(suite, a[shards[0].path], b[shards[0].path], shards[0].digest);
    }
  }

  /** A digest collision behind two accepted loads with one manifest hash:
      different canonical texts, or different bytes stored for one shard. */
  function LoadCollision(m: Manifest, a: map<Bytes, Bytes>, n: Manifest, b: map<Bytes, Bytes>)
    : Option<(Bytes, Bytes, Bytes)>
    requires forall s :: s in m.shards ==> s.path in a && s.path in b
  {
    if CanonicalPayload(m) != CanonicalPayload(n)
    then Some((SHA256_ALGORITHM, CanonicalPayload(m), CanonicalPayload(n)))
    else FirstDifference(m.shards, a, b)
  }

  lemma AcceptedShards(suite: Suite, loader: Loader, m: Manifest, store: map<Bytes, Bytes>, shards: seq<ManifestShard>)
    requires Load(suite, loader, m, store).Ok? && multiset(shards) == multiset(m.shards)
    ensures forall s :: s in shards ==> s.path in store && DigestOk(suite, store[s.path], s.digest)
  {
    hide Load, RecomputeHash, VerifySignature, DigestOk;
    LoadExact(suite, loader, m, store);
    InSameMultiset(shards, m.shards);
    forall s | s in shards ensures s.path in store && DigestOk(suite, store[s.path], s.digest) {
      assert ShardOk(suite, m, store, s);
    }
  }

  lemma LoadedTextsHash(suite: Suite, loader: Loader, m: Manifest, store: map<Bytes, Bytes>)
    requires Load(suite, loader, m, store).Ok?
    ensures m.manifestHashHex == HexDigest(suite.sha256, CanonicalPayload(m))
  {
    hide CanonicalPayload, VerifySignature, CheckShards, WellShaped;
  }

  /** Two manifests accepted with the same manifest hash, by whatever loaders
      from whatever stores: they list the same model, tiers and shards, report
      the same paths and their stores agree on every shard; or a digest
      collision is at hand. */
  lemma OneHashOneModel(suite: Suite, l: Loader, m: Manifest, a: map<Bytes, Bytes>,
                        k: Loader, n: Manifest, b: map<Bytes, Bytes>)
    requires Load(suite, l, m, a).Ok? && Load(suite, k, n, b).Ok?
    requires m.manifestHashHex == n.manifestHashHex
    requires SingleLine(m) && SingleLine(n)
    ensures CanonicalPayload(m) != CanonicalPayload(n) ==>
      DigestCollision(suite, SHA256_ALGORITHM, CanonicalPayload(m), CanonicalPayload(n))
    ensures CanonicalPayload(m) == CanonicalPayload(n) ==>
      && SameContent(m, n)
      && (forall s :: s in m.shards ==> s.path in a && s.path in b)
      && match LoadCollision(m, a, n, b)
         case None =>
           && (forall s :: s in m.shards ==> a[s.path] == b[s.path])
           && Load(suite, l, m, a).value.verifiedShards == Load(suite, k, n, b).value.verifiedShards
         case Some((algorithm, x, y)) => DigestCollision(suite, algorithm, x, y)
  {
    hide CanonicalPayload, Load, DigestOk, SameContent;
    LoadedTextsHash(suite, l, m, a);
    LoadedTextsHash(suite, k, n, b);
    EqualDigests(suite.sha256, CanonicalPayload(m), CanonicalPayload(n));
    if CanonicalPayload(m) == CanonicalPayload(n) {
      AcceptedIsClean(suite, l, m, a);
      AcceptedIsClean(suite, k, n, b);
      PayloadDeterminesContent(m, n);
      SameShards(m, n);
      AcceptedShards(suite, l, m, a, m.shards);
      AcceptedShards(suite, k, n, b, m.shards);
      FirstDifferenceExact(suite, m.shards, a, b);
      SameReport(suite, l, m, a, k, n, b);
    }
  }

  lemma SameShards(m: Manifest, n: Manifest)
    requires SameContent(m, n)
    ensures multiset(m.shards) == multiset(n.shards)
  {
  }

  lemma SameReport(suite: Suite, l: Loader, m: Manifest, a: map<Bytes, Bytes>, k: Loader, n: Manifest,
      b: map<Bytes, Bytes>)
    requires Load(suite, l, m, a).Ok? && Load(suite, k, n, b).Ok?
    requires SortedShards(m) == SortedShards(n)
    ensures Load(suite, l, m, a).value.verifiedShards == Load(suite, k, n, b).value.verifiedShards
  {
    hide RecomputeHash, VerifySignature, CheckShards, WellShaped;
    SortPaths(m.shards);
    SortPaths(n.shards);
  }

  // ---- What the text alone determines -------------------------------------

  /** The store that serves the folded shard. */
  function FoldedStore(m: Manifest, store: map<Bytes, Bytes>): map<Bytes, Bytes>
    requires |m.shards| >= 2
    requires forall s :: s in m.shards ==> s.path in store
  {
    SortElements(m.shards, PathOrder);
    var s := SortedShards(m);
    assert s[|s| - 1] in s;
    store[Fold(s[|s| - 2], s[|s| - 1]).path := store[s[|s| - 1].path]]
  }

  /** The loader does not refuse line feeds: from every accepted manifest with
      two shards or more there is another, with the same hash and signature and
      one shard fewer, that is accepted too. */
  lemma FoldedLoads(suite: Suite, loader: Loader, m: Manifest, store: map<Bytes, Bytes>)
    requires Load(suite, loader, m, store).Ok? && |m.shards| >= 2
    requires !suite.blank(Folded(m).shards[|Folded(m).shards| - 1].path)
    ensures forall s :: s in m.shards ==> s.path in store
    ensures Load(suite, loader, Folded(m), FoldedStore(m, store)).Ok?
    ensures Folded(m).manifestHashHex == m.manifestHashHex && Folded(m).signature == m.signature
    ensures !SameContent(m, Folded(m))
  {
    hide Load, RecomputeHash, CanonicalPayload, VerifySignature, DigestOk, Fold;
    LoadExact(suite, loader, m, store);
    forall s | s in m.shards ensures s.path in store { assert ShardOk(suite, m, store, s); }
    LineFeedIsAmbiguous(m);
    SameHash(suite.sha256, m, Folded(m));
    forall t | t in Folded(m).shards
      ensures ShardOk(suite, Folded(m), FoldedStore(m, store), t)
      ensures !suite.blank(t.path) && t.bytes != 0
    {
      FoldedShardOk(suite, m, store, t);
    }
    LoadExact(suite, loader, Folded(m), FoldedStore(m, store));
  }

  lemma SameHash(sha: Sha256, m: Manifest, n: Manifest)
    requires CanonicalPayload(m) == CanonicalPayload(n)
    ensures RecomputeHash(sha, m) == RecomputeHash(sha, n)
  {
  }

  lemma FoldedShardOk(suite: Suite, m: Manifest, store: map<Bytes, Bytes>, t: ManifestShard)
    requires |m.shards| >= 2 && WellShaped(suite, m)
    requires forall s :: s in m.shards ==> ShardOk(suite, m, store, s)
    requires !suite.blank(Folded(m).shards[|Folded(m).shards| - 1].path)
    requires t in Folded(m).shards
    ensures forall s :: s in m.shards ==> s.path in store
    ensures ShardOk(suite, Folded(m), FoldedStore(m, store), t)
    ensures !suite.blank(t.path) && t.bytes != 0
  {
    hide Fold, WellShaped, ShardOk, FoldedStore;
    forall s | s in m.shards ensures s.path in store {
      OkIsStored(suite, m, store, s);
    }
    SortElements(m.shards, PathOrder);
    var s := SortedShards(m);
    var i :| 0 <= i < |Folded(m).shards| && Folded(m).shards[i] == t;
    if i < |s| - 2 {
      assert t == s[i] && s[i] in s;
      EarlierShardOk(suite, m, store, i);
    } else {
      LastShardOk(suite, m, store);
    }
  }

  lemma EarlierShardOk(suite: Suite, m: Manifest, store: map<Bytes, Bytes>, i: nat)
    requires |m.shards| >= 2 && WellShaped(suite, m)
    requires i < |SortedShards(m)| - 2 && SortedShards(m)[i] in m.shards
    requires forall s :: s in m.shards ==> s.path in store
    requires forall s :: s in m.shards ==> ShardOk(suite, m, store, s)
    ensures var t := SortedShards(m)[i];
      ShardOk(suite, Folded(m), FoldedStore(m, store), t) && !suite.blank(t.path) && t.bytes != 0
  {
    hide WellShaped, ShardOk, Fold;
    SortElements(m.shards, PathOrder);
    var t := SortedShards(m)[i];
    OkIsStored(suite, m, store, t);
    EarlierPathDiffers(m, i);
    KeptShardOk(suite, m, Folded(m), store, FoldedStore(m, store), t, t);
  }

  lemma LastShardOk(suite: Suite, m: Manifest, store: map<Bytes, Bytes>)
    requires |m.shards| >= 2 && WellShaped(suite, m)
    requires forall s :: s in m.shards ==> s.path in store
    requires forall s :: s in m.shards ==> ShardOk(suite, m, store, s)
    requires !suite.blank(Folded(m).shards[|Folded(m).shards| - 1].path)
    ensures var t := Folded(m).shards[|Folded(m).shards| - 1];
      ShardOk(suite, Folded(m), FoldedStore(m, store), t) && !suite.blank(t.path) && t.bytes != 0
  {
    hide WellShaped, ShardOk, Fold;
    SortElements(m.shards, PathOrder);
    var s := SortedShards(m);
    var last := s[|s| - 1];
    assert last in s;
    OkIsStored(suite, m, store, last);
    FoldKeepsRest(s[|s| - 2], last);
    KeptShardOk(suite, m, Folded(m), store, FoldedStore(m, store), last, Fold(s[|s| - 2], last));
  }

  lemma OkIsStored(suite: Suite, m: Manifest, store: map<Bytes, Bytes>, s: ManifestShard)
    requires WellShaped(suite, m) && s in m.shards && ShardOk(suite, m, store, s)
    ensures s.path in store && !suite.blank(s.path) && s.bytes != 0
  {
  }

  /** A shard whose tier, size, digest and stored bytes are those of another is
      in order if that is. */
  lemma KeptShardOk(suite: Suite, m: Manifest, n: Manifest, store: map<Bytes, Bytes>, served: map<Bytes, Bytes>,
                    s: ManifestShard, t: ManifestShard)
    requires ShardOk(suite, m, store, s) && n.tiers == m.tiers
    requires t.tier == s.tier && t.digest == s.digest && t.bytes == s.bytes
    requires t.path in served && s.path in store && served[t.path] == store[s.path]
    ensures ShardOk(suite, n, served, t)
  {
    hide DigestOk;
  }

  lemma FoldKeepsRest(a: ManifestShard, b: ManifestShard)
    ensures Fold(a, b).tier == b.tier && Fold(a, b).digest == b.digest && Fold(a, b).bytes == b.bytes
  {
  }

  lemma EarlierPathDiffers(m: Manifest, i: nat)
    requires |m.shards| >= 2 && i < |SortedShards(m)| - 2
    ensures var s := SortedShards(m);
      s[i].path != Fold(s[|s| - 2], s[|s| - 1]).path
  {
    hide Fold;
    var s := SortedShards(m);
    PathOrderTotal();
    SortIsSorted(m.shards, PathOrder);
    FoldedPath(s[|s| - 2], s[|s| - 1]);
    assert PathOrder(s[i], s[|s| - 2]);
    LexTotal(s[i].path, s[|s| - 2].path);
  }

  /** The text of an accepted manifest determines the content among all manifests
      the loader accepts, line feeds or not, exactly when it has one shard; a
      lone shard comes with an id and a path without line feeds. */
  lemma TextDeterminesContent(suite: Suite, loader: Loader, m: Manifest, store: map<Bytes, Bytes>)
    requires Load(suite, loader, m, store).Ok?
    requires |m.shards| == 1 ==> SingleLine(m)
    requires |m.shards| >= 2 ==> !suite.blank(Folded(m).shards[|Folded(m).shards| - 1].path)
    ensures (forall n, b :: Load(suite, loader, n, b).Ok? && CanonicalPayload(n) == CanonicalPayload(m)
               ==> SameContent(m, n)) <==> |m.shards| == 1
  {
    hide Load, CanonicalPayload, SameContent, FoldedStore, Folded;
    AcceptedHasShards(suite, loader, m, store);
    if |m.shards| == 1 {
      AcceptedIsClean(suite, loader, m, store);
      forall n, b | Load(suite, loader, n, b).Ok? && CanonicalPayload(n) == CanonicalPayload(m)
        ensures SameContent(m, n)
      {
        AcceptedHasShards(suite, loader, n, b);
        OneShardText(m, n);
        AcceptedIsClean(suite, loader, n, b);
        PayloadDeterminesContent(m, n);
      }
    } else {
      FoldedLoads(suite, loader, m, store);
      LineFeedIsAmbiguous(m);
      assert Load(suite, loader, Folded(m), FoldedStore(m, store)).Ok?;
    }
  }

  lemma AcceptedHasShards(suite: Suite, loader: Loader, m: Manifest, store: map<Bytes, Bytes>)
    requires Load(suite, loader, m, store).Ok?
    ensures m.shards != []
  {
    hide CanonicalPayload, VerifySignature, CheckShards, RecomputeHash;
  }

  // ---- The objects ---------------------------------------------------------

  class SecureModelManifest {
    var value: Manifest

    constructor (m: Manifest)
      ensures value == m
    {
      value := m;
    }

    method ValidateShape(suite: Suite) returns (r: Result<()>)
      ensures r == if WellShaped(suite, value) then Ok(()) else Err(InvalidInput)
    {
      if suite.blank(value.modelId) { return Err(InvalidInput); }
      if value.tiers == [] { return Err(InvalidInput); }
      if value.shards == [] { return Err(InvalidInput); }
      for i := 0 to |value.shards|
        invariant forall j :: 0 <= j < i ==> !suite.blank(value.shards[j].path) && value.shards[j].bytes != 0
      {
        if suite.blank(value.shards[i].path) { return Err(InvalidInput); }
        if value.shards[i].bytes == 0 { return Err(InvalidInput); }
      }
      r := Ok(());
    }

    /** The caller must have stored a hexadecimal hash. */
    method SignWith(suite: Suite, pair: KeyPair, signerId: Bytes)
      requires Hex.Decode(value.manifestHashHex).Some?
      modifies this
      ensures value == Signed(suite, old(value), pair, signerId)
    {
      var decoded := Hex.HexDecode(value.manifestHashHex);
      var signature := Sign(suite, pair, decoded.value);
      value := value.(signature := SignatureEnvelope(signerId, pair.keyId, signature));
    }
  }

  class SignatureVerifier {
    var publicKeys: map<Bytes, Bytes>

    constructor ()
      ensures publicKeys == map[]
    {
      publicKeys := map[];
    }

    method RegisterKey(keyId: Bytes, publicKey: Bytes)
      modifies this
      ensures publicKeys == old(publicKeys)[keyId := publicKey]
    {
      publicKeys := publicKeys[keyId := publicKey];
    }
  }

  class InMemoryArtifactStore {
    var objects: map<Bytes, Bytes>

    constructor ()
      ensures objects == map[]
    {
      objects := map[];
    }

    method Insert(path: Bytes, payload: Bytes)
      modifies this
      ensures objects == old(objects)[path := payload]
    {
      objects := objects[path := payload];
    }

    method Read(path: Bytes) returns (r: Option<Bytes>)
      ensures r == if path in objects then Some(objects[path]) else None
    {
      r := if path in objects then Some(objects[path]) else None;
    }
  }

  class SecureModelLoader {
    const suite: Suite
    const signatureVerifier: SignatureVerifier
    const supportedMajor: u32
    const expectedTiers: set<u16>

    constructor (suite: Suite, verifier: SignatureVerifier, supportedMajor: u32, expectedTiers: set<u16>)
      ensures this.suite == suite && signatureVerifier == verifier
      ensures this.supportedMajor == supportedMajor && this.expectedTiers == expectedTiers
    {
      this.suite, signatureVerifier := suite, verifier;
      this.supportedMajor, this.expectedTiers := supportedMajor, expectedTiers;
    }

    function View(): Loader
      reads signatureVerifier
    {
      Loader(signatureVerifier.publicKeys, supportedMajor, expectedTiers)
    }

    method LoadModel(manifest: SecureModelManifest, store: InMemoryArtifactStore) returns (r: Result<LoadedModel>)
      ensures r == Load(suite, View(), manifest.value, store.objects)
    {
      hide Load, RecomputeHash, VerifySignature, WellShaped, VerifyDigest;
      var m := manifest.value;
      LoadUnfolds(suite, View(), m, store.objects);
      var shape := manifest.ValidateShape(suite);
      if shape.Err? { return Err(shape.error); }
      if m.versionMajor != supportedMajor { return Err(IntegrityViolation); }
      var actualTiers := set t | t in m.tiers;
      if actualTiers != expectedTiers { return Err(IntegrityViolation); }
      if RecomputeHash(suite.sha256, m) != m.manifestHashHex { return Err(IntegrityViolation); }
      var signed := VerifySignature(suite, signatureVerifier.publicKeys, m.manifestHashHex, m.signature);
      if signed.Err? { return Err(signed.error); }
      var verified: seq<Bytes> := [];
      for i := 0 to |m.shards|
        invariant verified == Paths(m.shards[..i])
        invariant CheckShards(suite, actualTiers, store.objects, m.shards[..i]).Ok?
      {
        var shard := m.shards[i];
        CheckShardsStep(suite, actualTiers, store.objects, m.shards, i);
        if shard.tier !in actualTiers { return Err(IntegrityViolation); }
        var payload := store.Read(shard.path);
        if payload.None? { return Err(IntegrityViolation); }
        if |payload.value| != shard.bytes { return Err(IntegrityViolation); }
        var digest := VerifyDigest(suite, payload.value, shard.digest);
        if digest.Err? { return Err(digest.error); }
        verified := verified + [shard.path];
        PathsStep(m.shards, i);
      }
      assert m.shards[..|m.shards|] == m.shards;
      r := Ok(LoadedModel(m.modelId, m.tiers, Sort(verified, LexLeq)));
    }
  }

  /** The documented use of these objects: store the shards, hash and sign the
      manifest, register the key and load. Whatever the manifest, if it is well
      shaped and its shards have distinct paths, known tiers and the sizes and
      digests of their contents, the load succeeds. */
  method PublishAndLoad(suite: Suite, m: Manifest, contents: seq<Bytes>, pair: KeyPair, signerId: Bytes)
    returns (r: Result<LoadedModel>)
    requires WellShaped(suite, m) && DistinctPaths(m) && |contents| == |m.shards|
    requires forall i :: 0 <= i < |m.shards| ==> ContentFits(suite, m, m.shards[i], contents[i])
    ensures r == Ok(LoadedModel(m.modelId, m.tiers, Sort(Paths(m.shards), LexLeq)))
  {
    hide Load, WellShaped, Sign, RecomputeHash, ContentFits, ShardOk;
    var store := StoreShards(m, contents);
    var verifier := new SignatureVerifier();
    verifier.RegisterKey(pair.keyId, suite.signatures.publicKey(pair.signingKey));
    HashIsHex(suite.sha256, m);
    var manifest := new SecureModelManifest(m.(manifestHashHex := RecomputeHash(suite.sha256, m)));
    manifest.SignWith(suite, pair, signerId);
    var loader := new SecureModelLoader(suite, verifier, m.versionMajor, TierSet(m));
    r := loader.LoadModel(manifest, store);
    StoredShardsOk(suite, m, contents, store.objects);
    PublishedLoads(suite, loader.View(), m, pair, signerId, store.objects);
  }

  method StoreShards(m: Manifest, contents: seq<Bytes>) returns (store: InMemoryArtifactStore)
    requires DistinctPaths(m) && |contents| == |m.shards|
    ensures fresh(store)
    ensures forall i :: 0 <= i < |m.shards| ==>
      m.shards[i].path in store.objects && store.objects[m.shards[i].path] == contents[i]
  {
    store := new InMemoryArtifactStore();
    for i := 0 to |m.shards|
      invariant fresh(store)
      invariant forall j :: 0 <= j < i ==> m.shards[j].path in store.objects
      invariant forall j :: 0 <= j < i ==> store.objects[m.shards[j].path] == contents[j]
    {
      store.Insert(m.shards[i].path, contents[i]);
    }
  }

  /** The bytes of a shard of a known tier have its size and digest. */
  predicate ContentFits(suite: Suite, m: Manifest, s: ManifestShard, content: Bytes) {
    s.tier in m.tiers && |content| == s.bytes && DigestOk(suite, content, s.digest)
  }

  lemma StoredShardsOk(suite: Suite, m: Manifest, contents: seq<Bytes>, store: map<Bytes, Bytes>)
    requires |contents| == |m.shards|
    requires forall i :: 0 <= i < |m.shards| ==> ContentFits(suite, m, m.shards[i], contents[i])
    requires forall i :: 0 <= i < |m.shards| ==>
      m.shards[i].path in store && store[m.shards[i].path] == contents[i]
    ensures forall s :: s in m.shards ==> ShardOk(suite, m, store, s)
  {
    hide DigestOk;
    forall s | s in m.shards ensures ShardOk(suite, m, store, s) {
      var i :| 0 <= i < |m.shards| && m.shards[i] == s;
      assert ContentFits(suite, m, m.shards[i], contents[i]);
    }
  }

  /** `Load` with its checks in order, each hidden function left folded. */
  lemma LoadUnfolds(suite: Suite, loader: Loader, m: Manifest, store: map<Bytes, Bytes>)
    ensures Load(suite, loader, m, store) ==
      if !WellShaped(suite, m) then Err(InvalidInput)
      else if m.versionMajor != loader.supportedMajor || TierSet(m) != loader.expectedTiers
        || RecomputeHash(suite.sha256, m) != m.manifestHashHex then Err(IntegrityViolation)
      else if VerifySignature(suite, loader.publicKeys, m.manifestHashHex, m.signature).Err?
        then Err(VerifySignature(suite, loader.publicKeys, m.manifestHashHex, m.signature).error)
      else if CheckShards(suite, TierSet(m), store, m.shards).Err?
        then Err(CheckShards(suite, TierSet(m), store, m.shards).error)
      else Ok(LoadedModel(m.modelId, m.tiers, Sort(Paths(m.shards), LexLeq)))
  {
  }

  /** One more shard after a prefix without faults decides the whole check when
      it fails. */
  lemma CheckShardsStep(suite: Suite, tiers: set<u16>, store: map<Bytes, Bytes>, shards: seq<ManifestShard>, i: nat)
    requires i < |shards| && CheckShards(suite, tiers, store, shards[..i]).Ok?
    ensures CheckShards(suite, tiers, store, shards[..i + 1]) == CheckShard(suite, tiers, store, shards[i])
    ensures CheckShard(suite, tiers, store, shards[i]).Err? ==>
      CheckShards(suite, tiers, store, shards) == CheckShard(suite, tiers, store, shards[i])
  {
    hide CheckShard;
    assert shards[..i + 1][..i] == shards[..i];
    if CheckShard(suite, tiers, store, shards[i]).Err? {
      FaultStays(suite, tiers, store, shards, i + 1);
    }
  }

  lemma {:induction false} FaultStays(suite: Suite, tiers: set<u16>, store: map<Bytes, Bytes>,
      shards: seq<ManifestShard>, i: nat)
    requires i <= |shards| && CheckShards(suite, tiers, store, shards[..i]).Err?
    ensures CheckShards(suite, tiers, store, shards) == CheckShards(suite, tiers, store, shards[..i])
  {
    hide CheckShard;
    if i == |shards| {
      assert shards[..i] == shards;
    } else {
      assert shards[..|shards| - 1][..i] == shards[..i];
      FaultStays(suite, tiers, store, shards[..|shards| - 1], i);
    }
  }

  lemma PathsStep(shards: seq<ManifestShard>, i: nat)
    requires i < |shards|
    ensures Paths(shards[..i + 1]) == Paths(shards[..i]) + [shards[i].path]
  {
  }
}

/**
 * Shard encryption of `src/encryption.rs`: the seed travels in the nonce and is
 * read back to derive the key again.  Composed with the key manager, a shard
 * stays readable over every run in which its key can still be retrieved.
 */
module Encryption {
  import opened Octets
  import opened Platform
  import opened KeyManagement
  import Hex

  const AES_256_GCM_ALGORITHM: Bytes := "aes-256-gcm-v1"
  const NONCE_SIZE: nat := 12
  /** 0x4C, 0x4C, 0x4D, 0x4B. */
  const NONCE_PREFIX: Bytes := "LLMK"
  const DERIVATION_IKM: Bytes := "lite-llm-derivation"

  /** The foreign primitives used here. */
  datatype Suite = Suite(hkdf: Hkdf, aead: AeadScheme)

  datatype EncryptionMetadata = EncryptionMetadata(
    algorithm: Bytes, tier: u16, keyId: Bytes, keyVersion: u32, nonceHex: Bytes, authTagHex: Bytes)

  datatype EncryptedShard = EncryptedShard(ciphertext: Bytes, metadata: EncryptionMetadata)

  // ---- Big-endian numbers --------------------------------------------------

  function Pow256(k: nat): nat {
    if k == 0 then 1 else 256 * Pow256(k - 1)
  }

  /** The last `k` bytes of `n`, most significant first. */
  function BigEndian(n: nat, k: nat): (r: Bytes)
    ensures |r| == k
  {
    if k == 0 then [] else BigEndian(n / 256, k - 1) + [(n % 256) as char]
  }

  function FromBigEndian(s: Bytes): (n: nat)
    ensures n < Pow256(|s|)
  {
    if s == [] then 0 else 256 * FromBigEndian(s[..|s| - 1]) + s[|s| - 1] as int
  }

  lemma {:induction false} BigEndianRoundTrip(n: nat, k: nat)
    requires n < Pow256(k)
    ensures FromBigEndian(BigEndian(n, k)) == n
  {
    if k > 0 {
      BigEndianRoundTrip(n / 256, k - 1);
      assert BigEndian(n, k)[..k - 1] == BigEndian(n / 256, k - 1);
    }
  }

  lemma {:induction false} FromBigEndianRoundTrip(s: Bytes)
    ensures BigEndian(FromBigEndian(s), |s|) == s
  {
    if s != [] {
      FromBigEndianRoundTrip(s[..|s| - 1]);
      Snoc(s);
    }
  }

  /** What is left of `n` without its last `i` bytes. */
  function Shift256(n: nat, i: nat): nat {
    if i == 0 then n else Shift256(n / 256, i - 1)
  }

  /** Counted from the right, each byte is the digit to base 256 of its place:
      the most significant comes first. */
  lemma {:induction false} BigEndianDigits(n: nat, k: nat, i: nat)
    requires i < k
    ensures BigEndian(n, k)[k - 1 - i] as int == Shift256(n, i) % 256
  {
    if i > 0 {
      BigEndianDigits(n / 256, k - 1, i - 1);
      assert BigEndian(n, k)[..k - 1] == BigEndian(n / 256, k - 1);
    }
  }

  lemma EightBytes()
    ensures Pow256(8) == TWO64
  {
    assert Pow256(4) == TWO32;
  }

  // ---- Derived key and nonce ----------------------------------------------

  function DerivationInfo(tier: u16, seed: u64): Bytes {
    Decimal(tier) + [':'] + Decimal(seed)
  }

  function DerivedKey(hkdf: Hkdf, master: Bytes, tier: u16, seed: u64): (r: Bytes)
    ensures |r| == 32
  {
    hkdf(master, DERIVATION_IKM, DerivationInfo(tier, seed))
  }

  function NonceFor(seed: u64): (r: Bytes)
    ensures |r| == NONCE_SIZE
  {
    NONCE_PREFIX + BigEndian(seed, 8)
  }

  /** Tier and seed can be told from the text that separates derived keys. */
  lemma InfoInjective(tier: u16, seed: u64, tier': u16, seed': u64)
    requires DerivationInfo(tier, seed) == DerivationInfo(tier', seed')
    ensures tier == tier' && seed == seed'
  {
    SplitFirst(':', Decimal(tier), Decimal(seed), Decimal(tier'), Decimal(seed'));
    DecimalInjective(tier, tier');
    DecimalInjective(seed, seed');
  }

  /** Under one master key, equal derived keys for different tiers or seeds are
      two different HKDF infos with one output. */
  lemma DerivedKeysDiffer(hkdf: Hkdf, master: Bytes, tier: u16, seed: u64, tier': u16, seed': u64)
    requires (tier, seed) != (tier', seed')
    requires DerivedKey(hkdf, master, tier, seed) == DerivedKey(hkdf, master, tier', seed')
    ensures var (x, y) := (DerivationInfo(tier, seed), DerivationInfo(tier', seed'));
      x != y && hkdf(master, DERIVATION_IKM, x) == hkdf(master, DERIVATION_IKM, y)
  {
    if DerivationInfo(tier, seed) == DerivationInfo(tier', seed') {
      InfoInjective(tier, seed, tier', seed');
    }
  }

  method Derive(hkdf: Hkdf, master: Bytes, tier: u16, seed: u64) returns (bytes: array<byte>, nonce: array<byte>)
    ensures fresh(bytes) && fresh(nonce)
    ensures bytes[..] == DerivedKey(hkdf, master, tier, seed)
    ensures nonce[..] == NonceFor(seed)
  {
    var expanded := DerivedKey(hkdf, master, tier, seed);
    bytes := new byte[32](_ => '\0');
    forall i | 0 <= i < 32 { bytes[i] := expanded[i]; }
    assert bytes[..] == expanded;
    nonce := new byte[12](_ => '\0');
    forall i | 0 <= i < 4 { nonce[i] := NONCE_PREFIX[i]; }
    assert nonce[..4] == NONCE_PREFIX;
    var seedBytes := BigEndian(seed, 8);
    forall i | 4 <= i < 12 { nonce[i] := seedBytes[i - 4]; }
    assert nonce[..4] == NONCE_PREFIX && nonce[4..] == seedBytes;
    assert nonce[..] == nonce[..4] + nonce[4..];
  }

  /** The seed in a printed nonce. */
  function ExtractSeed(nonceHex: Bytes): Result<u64> {
    match Hex.Decode(nonceHex)
    case None => Err(DecryptionFailed)
    case Some(nonce) =>
      if |nonce| != NONCE_SIZE then Err(DecryptionFailed)
      else
        EightBytes();
        Ok(FromBigEndian(nonce[4..12]))
  }

  method ExtractSeedFromNonce(nonceHex: Bytes) returns (r: Result<u64>)
    ensures r == ExtractSeed(nonceHex)
  {
    var decoded := Hex.HexDecode(nonceHex);
    if decoded.None? { return Err(DecryptionFailed); }
    var nonce := decoded.value;
    if |nonce| != NONCE_SIZE { return Err(DecryptionFailed); }
    var seedBytes := new byte[8](_ => '\0');
    forall i | 0 <= i < 8 { seedBytes[i] := nonce[4 + i]; }
    assert seedBytes[..] == nonce[4..12];
    EightBytes();
    var seed: int := 0;
    for i := 0 to 8
      invariant seed == FromBigEndian(seedBytes[..i])
    {
      seed := 256 * seed + seedBytes[i] as int;
      assert seedBytes[..i + 1][..i] == seedBytes[..i];
    }
    assert seedBytes[..8] == seedBytes[..];
    r := Ok(seed);
  }

  /** A seed is extracted exactly from the hexadecimal forms of twelve bytes
      that end in its big-endian form; so from the nonce derived for it. */
  lemma ExtractSeedExact(nonceHex: Bytes, seed: u64)
    ensures ExtractSeed(nonceHex) == Ok(seed) <==>
      Hex.Decode(nonceHex).Some? && |Hex.Decode(nonceHex).value| == NONCE_SIZE
      && Hex.Decode(nonceHex).value[4..] == BigEndian(seed, 8)
    ensures ExtractSeed(Hex.Encode(NonceFor(seed))) == Ok(seed)
  {
    EightBytes();
    BigEndianRoundTrip(seed, 8);
    Hex.DecodeEncode(NonceFor(seed));
    assert NonceFor(seed)[4..12] == BigEndian(seed, 8);
    if Hex.Decode(nonceHex).Some? && |Hex.Decode(nonceHex).value| == NONCE_SIZE {
      var nonce := Hex.Decode(nonceHex).value;
      assert nonce[4..12] == nonce[4..];
      FromBigEndianRoundTrip(nonce[4..]);
    }
  }

  // ---- Encryption at rest --------------------------------------------------

  function Encrypt(suite: Suite, plaintext: Bytes, tier: u16, keyRef: KeyMaterialRef, key: Bytes, seed: u64)
    : Result<EncryptedShard>
  {
    if key == [] then Err(EncryptionFailed)
    else match suite.aead.seal(DerivedKey(suite.hkdf, key, tier, seed), NonceFor(seed), plaintext)
      case None => Err(EncryptionFailed)
      case Some(sealed) =>
        var tagStart := if |sealed| < 16 then 0 else |sealed| - 16;
        Ok(EncryptedShard(sealed, EncryptionMetadata(
          AES_256_GCM_ALGORITHM, tier, keyRef.keyId, keyRef.version,
          Hex.Encode(NonceFor(seed)), Hex.Encode(sealed[tagStart..]))))
  }

  function Decrypt(suite: Suite, shard: EncryptedShard, keyRef: KeyMaterialRef, key: Bytes): Result<Bytes> {
    if shard.metadata.keyId != keyRef.keyId || shard.metadata.keyVersion != keyRef.version
    then Err(DecryptionFailed)
    else match ExtractSeed(shard.metadata.nonceHex)
      case Err(error) => Err(error)
      case Ok(seed) =>
        match suite.aead.open(DerivedKey(suite.hkdf, key, shard.metadata.tier, seed), NonceFor(seed), shard.ciphertext)
        case None => Err(IntegrityViolation)
        case Some(plaintext) => Ok(plaintext)
  }

  /** What was encrypted decrypts under the same material and the same key id
      and version, and under no other key id or version. */
  lemma DecryptEncrypt(suite: Suite, plaintext: Bytes, tier: u16, keyRef: KeyMaterialRef, key: Bytes, seed: u64,
                       keyRef': KeyMaterialRef)
    requires Encrypt(suite, plaintext, tier, keyRef, key, seed).Ok?
    ensures var shard := Encrypt(suite, plaintext, tier, keyRef, key, seed).value;
      Decrypt(suite, shard, keyRef', key) ==
        if keyRef'.keyId == keyRef.keyId && keyRef'.version == keyRef.version then Ok(plaintext)
        else Err(DecryptionFailed)
  {
    ExtractSeedExact([], seed);
    assert OpensWhatItSeals(suite.aead);
  }

  /** What decryption makes of any shard: a foreign reference or a nonce that is
      not twelve bytes in hexadecimal is a decryption failure; otherwise the
      seed is the big-endian tail of the nonce, and what the cipher refuses
      under the key derived for it is an integrity violation. */
  lemma DecryptExact(suite: Suite, shard: EncryptedShard, keyRef: KeyMaterialRef, key: Bytes)
    ensures var meta := shard.metadata;
      var nonce := Hex.Decode(meta.nonceHex);
      Decrypt(suite, shard, keyRef, key) ==
        if meta.keyId != keyRef.keyId || meta.keyVersion != keyRef.version then Err(DecryptionFailed)
        else if nonce.None? || |nonce.value| != 12 then Err(DecryptionFailed)
        else
          var tail := nonce.value[4..];
          var info := Decimal(meta.tier) + ":" + Decimal(FromBigEndian(tail));
          match suite.aead.open(suite.hkdf(key, "lite-llm-derivation", info), "LLMK" + tail, shard.ciphertext)
          case None => Err(IntegrityViolation)
          case Some(plaintext) => Ok(plaintext)
  {
    var nonce := Hex.Decode(shard.metadata.nonceHex);
    if nonce.Some? && |nonce.value| == 12 {
      var tail := nonce.value[4..];
      assert nonce.value[4..12] == tail;
      FromBigEndianRoundTrip(tail);
    }
  }

  /** Encryption fails exactly on an empty key or when the cipher refuses; the
      ciphertext is the cipher's, under the derived key and the nonce that ends
      in the seed. */
  lemma EncryptExact(suite: Suite, plaintext: Bytes, tier: u16, keyRef: KeyMaterialRef, key: Bytes, seed: u64)
    ensures var r := Encrypt(suite, plaintext, tier, keyRef, key, seed);
      var sealed := suite.aead.seal(
        suite.hkdf(key, "lite-llm-derivation", Decimal(tier) + ":" + Decimal(seed)),
        "LLMK" + BigEndian(seed, 8), plaintext);
      && (r.Ok? <==> key != [] && sealed.Some?)
      && (r.Ok? ==> r.value.ciphertext == sealed.value)
      && (r.Err? ==> r.error == EncryptionFailed)
  {
  }

  /** The metadata names algorithm, key and tier, and holds in hexadecimal the
      nonce and the last 16 bytes of the ciphertext, all of it if shorter. */
  lemma MetadataDescribesCiphertext(suite: Suite, plaintext: Bytes, tier: u16, keyRef: KeyMaterialRef,
      key: Bytes, seed: u64)
    requires Encrypt(suite, plaintext, tier, keyRef, key, seed).Ok?
    ensures var EncryptedShard(c, meta) := Encrypt(suite, plaintext, tier, keyRef, key, seed).value;
      && meta.algorithm == "aes-256-gcm-v1" && meta.tier == tier
      && meta.keyId == keyRef.keyId && meta.keyVersion == keyRef.version
      && meta.nonceHex == Hex.Encode("LLMK" + BigEndian(seed, 8))
      && Hex.Decode(meta.authTagHex) == Some(if |c| >= 16 then c[|c| - 16..] else c)
  {
    var c := Encrypt(suite, plaintext, tier, keyRef, key, seed).value.ciphertext;
    assert c[0..] == c;
    Hex.DecodeEncode(if |c| >= 16 then c[|c| - 16..] else c);
  }

  /** A shard encrypted with material retrieved for a reference decrypts to the
      original plaintext with material retrieved for the same key id and version
      after any calls to the key manager, whenever that retrieval succeeds. */
  lemma ShardSurvivesRuns(suite: Suite, env: Env, st: Store, calls: seq<Call>,
                          identity: Bytes, keyRef: KeyMaterialRef, day: u32,
                          identity': Bytes, keyRef': KeyMaterialRef, day': u32,
                          plaintext: Bytes, tier: u16, seed: u64)
    requires keyRef'.keyId == keyRef.keyId && keyRef'.version == keyRef.version
    ensures var key := Retrieve(st, identity, keyRef, day);
      var key' := Retrieve(Run(env, st, calls), identity', keyRef', day');
      key.Ok? && key'.Ok? ==>
      var shard := Encrypt(suite, plaintext, tier, keyRef, key.value, seed);
      shard.Ok? ==> Decrypt(suite, shard.value, keyRef', key'.value) == Ok(plaintext)
  {
    var key := Retrieve(st, identity, keyRef, day);
    if key.Ok? && Retrieve(Run(env, st, calls), identity', keyRef', day').Ok? {
      MaterialNeverChanges(env, st, calls, identity, keyRef, day, identity', keyRef', day');
      if Encrypt(suite, plaintext, tier, keyRef, key.value, seed).Ok? {
        DecryptEncrypt(suite, plaintext, tier, keyRef, key.value, seed, keyRef');
      }
    }
  }

  /** In a reachable store, encryption with retrieved material fails only when
      the cipher itself refuses the plaintext. */
  lemma RetrievedMaterialEncrypts(suite: Suite, env: Env, st: Store, identity: Bytes, keyRef: KeyMaterialRef, day: u32,
                                  plaintext: Bytes, tier: u16, seed: u64)
    requires Valid(env, st) && Retrieve(st, identity, keyRef, day).Ok?
    ensures var key := Retrieve(st, identity, keyRef, day).value;
      Encrypt(suite, plaintext, tier, keyRef, key, seed).Ok? <==>
        suite.aead.seal(DerivedKey(suite.hkdf, key, tier, seed), NonceFor(seed), plaintext).Some?
  {
    hide Valid, Retrieve;
    var stored := RetrievedIsDerived(env, st, identity, keyRef, day);
    assert |Retrieve(st, identity, keyRef, day).value| == 32;
  }
}

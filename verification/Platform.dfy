/**
 * What the crate takes from elsewhere: its error type and the cryptographic
 * primitives of foreign crates, which stay arbitrary functions constrained only
 * by the laws their standards state.  No hash is assumed to be injective; a
 * result that would need it yields an explicit collision instead.
 */
module Platform {
  import opened Octets
  import Hex

  /** `SecurityError` without the message texts. */
  datatype SecurityError =
    | InvalidConfig | InvalidInput | InvalidState | Unauthorized
    | IntegrityViolation | SignatureInvalid | EncryptionFailed | DecryptionFailed
    | KeyNotFound | KeyRevoked | SandboxDenied | TamperDetected

  datatype Result<+T> = Ok(value: T) | Err(error: SecurityError)

  // ---- Hashes (sections 6.2 and 6.4 of FIPS 180-4) ------------------------

  type Octets32 = d: Bytes | |d| == 32 witness seq(32, _ => '\0')
  type Octets64 = d: Bytes | |d| == 64 witness seq(64, _ => '\0')

  type Sha256 = Bytes -> Octets32
  type Sha512 = Bytes -> Octets64

  function HexDigest(h: Sha256, x: Bytes): Bytes { Hex.Encode(h(x)) }

  function HexDigest512(h: Sha512, x: Bytes): Bytes { Hex.Encode(h(x)) }

  predicate Collision<D(==)>(h: Bytes -> D, x: Bytes, y: Bytes) {
    x != y && h(x) == h(y)
  }

  /** Equal printed digests come from equal inputs or from a collision. */
  lemma EqualDigests(h: Sha256, x: Bytes, y: Bytes)
    requires HexDigest(h, x) == HexDigest(h, y)
    ensures x == y || Collision(h, x, y)
  {
    Hex.EncodeInjective(h(x), h(y));
  }

  lemma EqualDigests512(h: Sha512, x: Bytes, y: Bytes)
    requires HexDigest512(h, x) == HexDigest512(h, y)
    ensures x == y || Collision(h, x, y)
  {
    Hex.EncodeInjective(h(x), h(y));
  }

  // ---- Key derivation, authenticated encryption, signatures ---------------

  /** HKDF-SHA256 with salt, input keying material and info, producing 32
      bytes (sections 2.2 and 2.3 of RFC 5869). */
  type Hkdf = (Bytes, Bytes, Bytes) -> Octets32

  /** AES-256-GCM; `seal` returns the ciphertext with the tag appended. */
  datatype AeadFunctions = Aead(
    seal: (Bytes, Bytes, Bytes) -> Option<Bytes>,
    open: (Bytes, Bytes, Bytes) -> Option<Bytes>)

  /** Opening what was sealed under the same key and nonce gives the plaintext
      (sections 7.1 and 7.2 of NIST SP 800-38D). */
  ghost predicate OpensWhatItSeals(a: AeadFunctions) {
    forall k, n, p :: a.seal(k, n, p).Some? ==> a.open(k, n, a.seal(k, n, p).value) == Some(p)
  }

  type AeadScheme = a: AeadFunctions | OpensWhatItSeals(a)
    witness Aead((k: Bytes, n: Bytes, p: Bytes) => Some(p), (k: Bytes, n: Bytes, c: Bytes) => Some(c))

  /** Ed25519: public key of a signing key, signing, verification. */
  datatype SignatureFunctions = Ed25519(
    publicKey: Bytes -> Bytes,
    sign: (Bytes, Bytes) -> Octets64,
    verify: (Bytes, Bytes, Bytes) -> bool)

  /** An honest signature verifies (sections 5.1.6 and 5.1.7 of RFC 8032). */
  ghost predicate AcceptsHonestSignatures(s: SignatureFunctions) {
    forall k, m :: s.verify(s.publicKey(k), m, s.sign(k, m))
  }

  type SignatureScheme = s: SignatureFunctions | AcceptsHonestSignatures(s)
    witness Ed25519((k: Bytes) => k, (k: Bytes, m: Bytes) => seq(64, i => '\0'),
                    (k: Bytes, m: Bytes, g: Bytes) => true)
}

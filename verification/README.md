# Verified model of lite-llm-security

A Dafny 4.11 model of the deterministic state machines and canonical encodings
of the `lite-llm-security` crate, and proofs of what they guarantee.
`dafny verify dfyconfig.toml` checks everything.

| file | models |
|---|---|
| `Octets.dfy` | octet strings, delimiters, decimal printing, lexicographic order |
| `Sorting.dfy` | the stable sort behind `sort_by`, `sort_by_key`, `sort_unstable` |
| `Hex.dfy`, `Fnv.dfy` | the hexadecimal codec and FNV-1a of `src/types.rs` |
| `Platform.dfy` | errors, and the cryptographic primitives of foreign crates |
| `Audit.dfy` | the hash-chained audit log |
| `KeyManagement.dfy`, `KeyHistory.dfy`, `RotationWindow.dfy` | key derivation, the key manager and its history, rotation windows |
| `Encryption.dfy` | shard encryption, composed with the key manager |
| `Manifest.dfy`, `Integrity.dfy` | the canonical manifest, signatures, the secure loader |
| `Sandbox.dfy`, `AccessControl.dfy` | capability tokens, tier decisions |

## How the code is rendered

- A `String` is its UTF-8 octets: text and binary data are both `Bytes`, a
  sequence of octets, and an octet is a `char` below U+0100 so that ASCII
  literals can be written as such. `as_bytes` is then the identity and `Ord` of
  strings is lexicographic order of octets.
- The structs whose methods update their fields (`DeterministicAuditLog`,
  `KeyManager`, `SandboxRuntime`, `AccessController`, `SecureModelManifest`,
  `SignatureVerifier`, `InMemoryArtifactStore`) are classes; loops are loops.
  Each method is proved equal to a function of the old state, and the theorems
  are about those functions and about runs of them.
- SHA-256, SHA-512, HKDF, AES-GCM and Ed25519 are arbitrary functions, bound
  only by output lengths, by "opening what was sealed gives the plaintext" and
  by "an honest signature verifies". No hash is taken to be injective: where
  injectivity would be needed, the theorem names two different inputs with the
  same hash. `trim().is_empty()` is an arbitrary predicate `blank`.
- The genesis constant of the audit log, the SHA-256 of the empty string
  (section 6.2 of FIPS 180-4), is written `HexDigest(sha, [])`. `hex::encode`
  and `hex::decode` are the codec of `src/types.rs`.
- `u32` and `u64` sums wrap, which is what a release build does; a debug build
  stops at the first sum that would wrap. `RotationWindow.NoOverflow` and
  `Sandbox.StoredTokens` say when none does.
- Where a promise fails without a condition, an input shows it and a theorem
  says exactly when it holds. An event's text is its own exactly under
  `Audit.TextIsUnique` (`SeparatorInActorIsAmbiguous` fails it). More than two
  versions are live exactly under `RotationWindow.AtMostTwoLive` (`ThreeLive` is
  a run). A manifest's text determines its content, among all manifests the
  loader accepts, exactly under `Integrity.TextDeterminesContent` (`FoldedLoads`
  gives the other manifest); between two manifests without line feeds it always
  does, up to a collision (`OneHashOneModel`). A listed tier is allowed exactly
  under `AccessControl.AllowIffListed` (`ListedButDenied` fails it).

## Model

| member | source | states |
|---|---|---|
| Octets.CutFirst | src/audit.rs:158-169 | a text printed before a separator it does not contain can be cut off again at the first separator |
| Octets.CutLast | src/integrity.rs:179-183 | likewise from the right, whatever precedes |
| Octets.DecimalRoundTrip | src/integrity.rs:165-177 | a printed unsigned number reads back as itself |
| Octets.DecimalDigits | src/integrity.rs:165-177 | every printed character is the decimal digit of its place, and no number starts with a zero unless it is a single digit |
| Octets.LexIsOctetOrder | src/integrity.rs:160-161 | the order of texts holds exactly when one is a prefix of the other or has the smaller octet where they first differ |
| Sorting.SortStable | src/key_management.rs:105-112 | the sort keeps the order of elements that compare equal |
| Sorting.SortCanonical | src/integrity.rs:160-161 | two lists sort to the same list exactly when elements that compare equal occur in the same order in both |
| Sorting.PermutationSort | src/integrity.rs:157-161 | without distinct elements that compare equal, permutations sort to the same list |
| Hex.DecodeEncode | src/types.rs:31-54 | decoding an encoded byte string gives it back |
| Hex.EncodeDigits | src/types.rs:31-37 | every octet is printed as its high digit then its low digit, in lower case |
| Hex.EncodeDecode | src/types.rs:31-54 | encoding what was decoded gives the lower-cased input |
| Hex.DecodeDomain | src/types.rs:39-54 | decoding succeeds exactly on strings of even length of digits 0-9, a-f and A-F, and halves the length |
| Hex.HexEncode | src/types.rs:31-37 | the encoding loop computes the encoding |
| Hex.HexDecode | src/types.rs:39-54 | the decoding loop with its early returns computes the decoding |
| Hex.PaddedInjective | src/types.rs:9 | sixteen padded digits determine the 64-bit hash |
| Hex.PaddedDigits | src/types.rs:9 | every character of the padded form is the hexadecimal digit of its place |
| Fnv.StepInvertible | src/types.rs:6-7 | every xor-then-multiply step is a bijection of the 64-bit state, with an inverse on both sides |
| Fnv.XorBits | src/types.rs:6 | a bit of the exclusive or is set exactly when the bits of its operands differ |
| Fnv.KnownHashes | src/types.rs:3-10 | the hash of the empty text is the offset basis, and that of "a" the published value |
| Fnv.HashDigits | src/types.rs:9 | the printed hash shows the sixteen digits of the state, the most significant first |
| Fnv.OneByteSeparation | src/types.rs:3-10 | inputs of one length that differ in exactly one byte never have the same hash |
| Fnv.Fnv64Hex | src/types.rs:3-10 | the hashing loop computes the hash |
| Fnv.PseudoSha256Hex | src/types.rs:12-21 | the four blocks are the hashes of the four salted inputs and are pairwise different for every input |
| Audit.DeterministicAuditLog.Append | src/audit.rs:130-155 | refuses a sequence gap and changes nothing, otherwise adds one record at the end; keeps the chain verifiable |
| Audit.DeterministicAuditLog.CheckRecord | src/audit.rs:79-119 | passes exactly the records that continue the chain |
| Audit.DeterministicAuditLog.VerifyChain | src/audit.rs:75-126 | succeeds exactly when every record continues the chain of those before it |
| Audit.ReachableAccepted | src/audit.rs:129-155 | every log reached by any attempts to append verifies |
| Audit.AcceptedLayout | src/audit.rs:75-126 | a log is accepted exactly when every record, wherever it stands, has its number, the chain hash before it (the hash of the empty text at the start), and the hashes of its event text, its link and its signed text |
| Audit.AcceptedPrefix | src/audit.rs:75-126 | every prefix of a log that verifies verifies |
| Audit.AcceptedIffReplayed | src/audit.rs:75-155 | a log verifies exactly when a fresh log with the same node, signer and secret builds it from the same events |
| Audit.ChainCommits | src/audit.rs:66-73 | chains over payload lists of any lengths end in the same hash only if the lists are equal or walking back yields a collision |
| Audit.RootCommits | src/audit.rs:66-126 | two verified logs, whatever their lengths and identities, have one root only if they hold the same canonical payload at every index or a collision is found; and equal payloads give equal roots |
| Audit.SignedTextReadsBack | src/audit.rs:171-175 | chain hash and, without '\|' in it, signer id are read back from the signed text; what is left is the secret |
| Audit.SignatureCommits | src/audit.rs:109-117 | two verified logs whose last records carry one signature hold the same payloads, and were signed by one signer with one secret if neither signer id holds '\|'; or a collision is found |
| Audit.CanonicalEventEquality | src/audit.rs:158-169 | two events of a node print alike exactly when numbers and category agree and the three free texts run together alike: ambiguity is confined to the free texts |
| Audit.EventReadsBack | src/audit.rs:158-169 | an event whose actor and action hold no '\|' reads back field by field with its node id and category, whatever its payload holds |
| Audit.NodesPrintApart | src/audit.rs:158-169 | events of two nodes whose ids hold no '\|' print alike exactly when node, numbers and category agree and the free texts run together alike |
| Audit.RootNamesNode | src/audit.rs:66-169 | verified non-empty logs with one root, of node ids without '\|', are logs of one node and of one length, or a collision is found |
| Audit.EventInjective | src/audit.rs:158-169 | under that condition the text determines the event |
| Audit.SeparatorInActorIsAmbiguous | src/audit.rs:158-169 | two different events print alike for every node id |
| Audit.TextIsUnique | src/audit.rs:158-169 | an event's text is the text of no other event exactly when none of actor, action and payload holds '\|' |
| Audit.EqualRootsEqualLogs | src/audit.rs:66-169 | verified logs of one identity with one root are the same log, record by record, or a collision is found |
| KeyManagement.DeriveKeyMaterial | src/key_management.rs:223-239 | the loop ends after one digest and yields it |
| KeyManagement.DerivationReadsBack | src/key_management.rs:228-231 | a reader recovers key id, kind, version, seed and counter from the derivation input, whatever the key id holds |
| KeyManagement.DerivationInjective | src/key_management.rs:223-239 | the derivation input determines key id, kind, version, seed and counter, for every key id |
| KeyManagement.MaterialsDiffer | src/key_management.rs:223-239 | equal materials of different parameters are a SHA-256 collision of their derivation inputs |
| KeyManagement.KeyManager.New | src/key_management.rs:57-67 | a manager exists exactly for valid rotation policies |
| KeyManagement.KeyManager.AddAccessPolicy | src/key_management.rs:69-71 | replaces the policy of one identity |
| KeyManagement.KeyManager.GenerateKey | src/key_management.rs:73-115 | pushes and stably sorts; keeps the store invariant |
| KeyManagement.KeyManager.RotateKey | src/key_management.rs:117-138 | generates the version after the last entry; keeps the store invariant |
| KeyManagement.KeyManager.RevokeKey | src/key_management.rs:140-163 | the loop marks exactly the first entry of the version, or reports that there is none |
| KeyManagement.KeyManager.RetrieveKey | src/key_management.rs:165-220 | returns the material of the first entry of the version to an authorized identity within the window |
| KeyManagement.FindSorted | src/key_management.rs:105-112 | sorting a bucket does not change which entry a lookup finds |
| KeyManagement.RunKeepsEntry | src/key_management.rs:69-163 | over every run the entry a version's lookup finds stays what it was and is revoked exactly when it was before or the run revoked it |
| KeyManagement.MaterialNeverChanges | src/key_management.rs:165-199 | retrievals of a version before and after any run return the same bytes |
| KeyManagement.RevocationIsPermanent | src/key_management.rs:140-199 | after a successful revocation no run makes the version retrievable again, even if its number is generated again |
| KeyManagement.RetrieveAfterRun | src/key_management.rs:165-220 | a retrieval after a run succeeds exactly when the policy last added allows it, the version was never revoked and the day is in its window |
| KeyManagement.RunValid | src/key_management.rs:73-163 | in every run buckets stay non-empty, ordered by version and filed under their id, and keys hold derived material and expire one period after activation |
| KeyManagement.RotateExtends | src/key_management.rs:117-138 | a rotation succeeds exactly when the id is known and its latest version is not the last `u32`; it appends a key of the same kind with a strictly greatest version |
| KeyHistory.LatestIsMade | src/key_management.rs:73-138 | after any calls on a new manager, the last entry of a bucket is the greatest version made so far, the newest among equals |
| KeyHistory.LookupIsEntryMade | src/key_management.rs:73-163 | after any calls on a new manager, the entry found for a version is the one its first successful generation or rotation made, revoked exactly when it was revoked since |
| KeyHistory.RetrieveIsHistory | src/key_management.rs:165-220 | after any calls on a new manager, the full answer to a retrieval, refusals included, told from the policies added, the first making of the version and its revocations; and the hash input the bytes come from |
| KeyHistory.AnswersAreHistory | src/key_management.rs:117-163 | after any calls on a new manager, a rotation answers with the successor of the greatest version made, and a revocation finds exactly the versions made |
| KeyHistory.GenerateAnswer | src/key_management.rs:81-89 | generation is refused exactly for a blank id or version zero |
| KeyHistory.VersionsHaveOwnMaterial | src/key_management.rs:165-239 | two versions, of one key or of two, never yield the same bytes unless the two derivation inputs their histories name collide under SHA-256 |
| RotationWindow.ChainRun | src/key_management.rs:117-138 | a key rotated no earlier than its latest expiry stays a chain of consecutive versions of one kind, whatever happens to other keys, revocations and policies |
| RotationWindow.LiveVersion | src/key_management.rs:191-196 | from the latest activation on, the live versions are exactly the latest two that have not outlived their overlap, and a third exactly when overlap equals period, the last two rotations fell on their predecessors' expiry days and the day is the activation day |
| RotationWindow.AtMostTwoLive | src/key_management.rs:28-30 | over whole disciplined runs never more than three versions are within their window, and more than two exactly in that case; so at most two if overlap is below the period or the day is past the activation |
| RotationWindow.RetrievedIsLive | src/key_management.rs:177-198 | what can be retrieved is within its window |
| RotationWindow.ThreeLive | src/key_management.rs:191-196 | with overlap equal to the period three versions do occur |
| RotationWindow.NoOverflow | src/key_management.rs:101-134 | if the first version plus the rotations of a run fits `u32`, and twice the period fits after every rotation day, then at every point of the run expiries and window bounds are exact, the latest version is the first plus the rotations so far, and the next rotation succeeds, on whatever days |
| RotationWindow.FirstKeyIsExact | src/key_management.rs:89-102 | a key generated once, on a day that leaves twice the period, starts such a run |
| Encryption.BigEndianRoundTrip | src/encryption.rs:50 | a number below 256^k survives its k big-endian bytes |
| Encryption.BigEndianDigits | src/encryption.rs:50 | each byte is the digit to base 256 of its place, the most significant first |
| Encryption.Derive | src/encryption.rs:36-53 | fills a 32-byte key and the 12-byte nonce of prefix and big-endian seed |
| Encryption.InfoInjective | src/encryption.rs:42 | the HKDF info text determines tier and seed |
| Encryption.DerivedKeysDiffer | src/encryption.rs:36-44 | under one master key, equal derived keys for different tiers or seeds are two different HKDF infos with one output |
| Encryption.ExtractSeedFromNonce | src/encryption.rs:184-196 | the extraction loop computes the seed or the error |
| Encryption.ExtractSeedExact | src/encryption.rs:46-50 | a seed is extracted exactly from hexadecimal twelve-byte nonces that end in it, so from the nonce derived for it |
| Encryption.DecryptEncrypt | src/encryption.rs:96-174 | a shard decrypts to its plaintext under the same material and the same key id and version, and is refused under any other id or version |
| Encryption.DecryptExact | src/encryption.rs:143-196 | for every shard: a foreign reference or malformed nonce is a decryption failure, a ciphertext the cipher refuses under the key and nonce derived again is an integrity violation, and otherwise the plaintext is what the cipher opens |
| Encryption.EncryptExact | src/encryption.rs:96-136 | encryption fails exactly on an empty key or when the cipher refuses; the ciphertext is sealed under the derived key and the nonce that ends in the seed |
| Encryption.MetadataDescribesCiphertext | src/encryption.rs:122-136 | the metadata names algorithm, key and tier and holds the nonce and the last 16 bytes of the ciphertext in hexadecimal |
| Encryption.ShardSurvivesRuns | src/encryption.rs:96-196 | a shard encrypted with retrieved material decrypts to its plaintext with material retrieved after any run of the key manager |
| Encryption.RetrievedMaterialEncrypts | src/encryption.rs:103-120 | with retrieved material, encryption fails only if the cipher refuses the plaintext |
| Manifest.BuildCanonicalPayload | src/integrity.rs:156-186 | appending line after line builds the canonical text |
| Manifest.CanonicalOrder | src/integrity.rs:157-161 | the tiers of the text ascend, and of any two shards the earlier path is a prefix of the other or has the smaller octet where they first differ; nothing is lost or added |
| Manifest.ReadBack | src/integrity.rs:156-186 | a reader that demands the label of every line recovers model id, version, ascending tiers and path-ordered shards from the text, even when paths hold '\|' |
| Manifest.PayloadDeterminesContent | src/integrity.rs:156-186 | clean manifests with one text agree on id, version, tier multiset and shard multiset |
| Manifest.PayloadEquality | src/integrity.rs:156-186 | clean manifests have one text exactly when they agree on id, version and tiers and list the shards of each path in the same order |
| Manifest.PermutationKeepsPayload | src/integrity.rs:156-193 | permuting tiers, and shards identified by their paths, keeps text and hash |
| Manifest.LineFeedIsAmbiguous | src/integrity.rs:178-183 | every manifest with two shards or more has the text of another with one shard fewer, whose last path holds a line feed |
| Manifest.OneShardText | src/integrity.rs:156-186 | a clean manifest with one shard shares its text with no manifest that holds a line feed in its id or paths |
| Integrity.DigestBinds | src/integrity.rs:73-89 | two payloads that verify against one digest are equal or collide under its algorithm |
| Integrity.VerifyDigestExact | src/integrity.rs:54-89 | a digest verifies exactly when it names SHA-256 or SHA-512 and is that hash of the payload in lower-case hexadecimal; another hash is an integrity violation, another algorithm a configuration error |
| Integrity.SignedVerifies | src/integrity.rs:220-295 | signing replaces only the envelope, by signer, key id and the signature of the decoded hash; it passes verification under the registered key |
| Integrity.VerifySignatureExact | src/integrity.rs:262-295 | for every envelope: an unregistered key id, a malformed signature, and one the registered key does not verify are told apart |
| Integrity.SecureModelManifest.ValidateShape | src/integrity.rs:196-217 | the loop accepts exactly the populated manifests |
| Integrity.SecureModelManifest.SignWith | src/integrity.rs:220-230 | replaces only the signature envelope, by a signature of the decoded hash |
| Integrity.SecureModelLoader.LoadModel | src/integrity.rs:339-405 | the sequence of checks and the shard loop with early exits compute the outcome, with the first error met |
| Integrity.LoadExact | src/integrity.rs:339-405 | a manifest loads exactly when it is populated, of the supported version and expected tiers, carries the SHA-256 of its own text, its 64-byte signature verifies that hash under the registered key it names, and every shard has a known tier, its size and its digest in the store |
| Integrity.LoadRefuses | src/integrity.rs:339-405 | exactly which manifests and stores are refused for their shape, for an unregistered key, for an unverifying signature and for an unsupported digest algorithm at the first faulty shard; every other refusal is an integrity violation |
| Integrity.VerifiedShardsSorted | src/integrity.rs:395-404 | the reported paths are all shard paths, with multiplicity; of any two, the earlier is a prefix of the other or has the smaller octet where they first differ |
| Integrity.PermutationKeepsLoad | src/integrity.rs:352-404 | permuting tiers, and shards identified by their paths, changes neither acceptance nor the reported paths |
| Integrity.DistinctPathPermutationLoads | src/integrity.rs:352-404 | permuting tiers and shards with distinct paths, an accepted manifest is still accepted, with the same model id and paths |
| Integrity.PublishedLoads | src/integrity.rs:189-405 | a well-shaped manifest with its hash recomputed and signed under a registered key loads wherever version, tiers and store match |
| Integrity.AcceptedIsClean | src/integrity.rs:54-89 | acceptance forces algorithms and digests to be free of delimiters |
| Integrity.OneHashOneModel | src/integrity.rs:339-405 | two accepted loads with one manifest hash list the same model, tiers and shards, report the same paths and hold the same bytes at each, or a digest collision is exhibited |
| Integrity.FoldedLoads | src/integrity.rs:339-405 | line feeds are not refused: from every accepted manifest with two shards or more there is another with the same hash and signature and different content that is accepted |
| Integrity.TextDeterminesContent | src/integrity.rs:339-405 | of an accepted manifest, unless it has one shard and a line feed, the text determines the content among all accepted manifests exactly when it has one shard |
| Integrity.PublishAndLoad | README.md:66-109 | storing the shards, hashing, signing, registering the key and loading succeeds for every well-shaped manifest whose shards have distinct paths, known tiers and fitting contents |
| Sandbox.SandboxRuntime.ConfigureSandbox | src/sandbox.rs:46-54 | refuses zero limits, otherwise replaces the configuration only |
| Sandbox.SandboxRuntime.GrantCapabilities | src/sandbox.rs:56-86 | refuses a blank plugin or no time to live, otherwise files the token under its id |
| Sandbox.SandboxRuntime.ValidateCapability | src/sandbox.rs:88-118 | the checks in order compute the decision and change nothing |
| Sandbox.SandboxRuntime.Record | src/sandbox.rs:136-155 | records only reports within the limits |
| Sandbox.SandboxRuntime.RevokeToken | src/sandbox.rs:157-159 | removes one token |
| Sandbox.TokensAreGrantsInForce | src/sandbox.rs:56-159 | after every run the token map holds exactly the tokens of the grants still in force |
| Sandbox.ValidateExact | src/sandbox.rs:88-118 | a capability validates exactly when the last successful grant or revocation of the id was a grant to that plugin with that capability that has not expired |
| Sandbox.AnswersAreHistory | src/sandbox.rs:46-155 | after any run, what configuring, granting and reporting answer: refusals by limits, blank plugin or no time to live, and reports judged by the configuration in force |
| Sandbox.GrantThenValidate | src/sandbox.rs:56-118 | a token just granted validates exactly for its plugin and capabilities up to its expiry; every refusal is a denial |
| Sandbox.StoredTokens | src/sandbox.rs:76-84 | stored tokens are filed under their own id and expire strictly after issue exactly when the sum did not wrap |
| Sandbox.UsageIsLastAccepted | src/sandbox.rs:136-155 | the usage recorded for a plugin is its last report within the limits then in force |
| Sandbox.TokenTextInjective | src/sandbox.rs:73-74 | the text hashed into a token id determines plugin, step, time to live and seed |
| Sandbox.TokenTextReadsBack | src/sandbox.rs:73-74 | plugin, step, time to live and seed are read back from the right of the text hashed into a token id |
| Sandbox.SeedDigitSeparatesTokens | src/sandbox.rs:73-74 | grants whose seeds differ in one digit never share a token id |
| AccessControl.AccessController.AuthorizeRequest | src/access_control.rs:54-125 | the nested checks compute the decision |
| AccessControl.AccessController.AuthorizedTiers | src/access_control.rs:127-143 | lists, strictly ascending, exactly the tiers whose policy names the tenant and shares a role with the principal |
| AccessControl.AllowIffListed | src/access_control.rs:54-143 | a tier is allowed under an action exactly when the action's role test passes and the tier is listed |
| AccessControl.AuthorizeExact | src/access_control.rs:54-125 | every answer by its conditions: blank names are invalid input, a failed role test denies whatever the tier, without a tier a passed role test allows, and a tier allows, downgrades or denies by tenant and role |
| AccessControl.ListedButDenied | src/access_control.rs:66-79 | a principal may be listed for a tier and denied it under every action |
| AccessControl.RolesAreMonotone | src/access_control.rs:54-143 | more roles never make an answer less favourable, never redirect a downgrade and never lose a listed tier |
| AccessControl.AscendingUnique | src/access_control.rs:141-142 | a strictly ascending list is determined by its members |

## Left out

- Integrity.TextDeterminesContent: says nothing of accepted manifests that hold a line feed themselves and have one shard; with two or more shards `FoldedLoads` covers them.
- The internals of SHA-2, AES-GCM, HKDF and Ed25519, key generation from OS randomness, and constant-time comparison, which is plain equality here.
- Whether a build panics or wraps on overflow: sums wrap in the model, and the conditions under which none does are proved.
- Exact error and reason texts; error variants are kept.
- `deterministic_hash_hex` (a choice between the two modelled hashes), `rollback_target`, `compute_shard_digest`, `validate_syscall`, `key_for_tier` and `requires_encryption`: single expressions or lookups.
- `register_key_from_hex`: decoding of curve points belongs to the library.
- `src/compliance.rs`, `src/hardening.rs`, `src/memory_safety.rs`: static tables and flat lists of independent checks.
- `src/zeroization.rs`: volatile writes and drop behaviour have no counterpart in the model.
- Lists of 2^64 or more elements: record counts and payload sizes are not truncated to `u64`.
- The `ArtifactStore` trait: loads read the in-memory store.

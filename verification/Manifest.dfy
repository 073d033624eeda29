/**
 * The signed manifest of `src/integrity.rs` and its canonical text: a reader
 * that recovers the manifest from the text, and what permuting a manifest
 * changes.
 */
module Manifest {
  import opened Octets
  import opened Platform
  import opened Sorting

  datatype ArtifactDigest = ArtifactDigest(algorithm: Bytes, hex: Bytes)

  datatype SignatureEnvelope = SignatureEnvelope(signerId: Bytes, keyId: Bytes, signatureHex: Bytes)

  datatype ManifestShard = ManifestShard(path: Bytes, tier: u16, digest: ArtifactDigest, bytes: u64)

  datatype Manifest = Manifest(
    modelId: Bytes, versionMajor: u32, versionMinor: u32, versionPatch: u32,
    tiers: seq<u16>, shards: seq<ManifestShard>,
    manifestHashHex: Bytes, signature: SignatureEnvelope)

  // ---- Orders --------------------------------------------------------------

  predicate PathOrder(a: ManifestShard, b: ManifestShard) { LexLeq(a.path, b.path) }

  lemma PathOrderTotal()
    ensures TotalPreorder(PathOrder)
  {
    forall x: ManifestShard, y: ManifestShard ensures PathOrder(x, y) || PathOrder(y, x) {
      LexTotal(x.path, y.path);
    }
    forall x: ManifestShard, y: ManifestShard, z: ManifestShard | PathOrder(x, y) && PathOrder(y, z)
      ensures PathOrder(x, z)
    {
      LexTransitive(x.path, y.path, z.path);
    }
  }

  function SortedTiers(m: Manifest): seq<u16> { Sort(m.tiers, TierOrder) }

  function SortedShards(m: Manifest): seq<ManifestShard> { Sort(m.shards, PathOrder) }

  /** The tiers ascend; of any two shards, the path of the earlier is a prefix of
      the other or has the smaller octet where they first differ. */
  lemma CanonicalOrder(m: Manifest)
    ensures multiset(SortedTiers(m)) == multiset(m.tiers) && multiset(SortedShards(m)) == multiset(m.shards)
    ensures forall i, j :: 0 <= i < j < |SortedTiers(m)| ==> SortedTiers(m)[i] <= SortedTiers(m)[j]
    ensures forall i, j :: 0 <= i < j < |SortedShards(m)| ==>
      Precedes(SortedShards(m)[i].path, SortedShards(m)[j].path)
  {
    hide LexLeq, Precedes;
    PathOrderTotal();
    assert TotalPreorder(TierOrder);
    SortIsSorted(m.tiers, TierOrder);
    SortMultiset(m.tiers, TierOrder);
    SortIsSorted(m.shards, PathOrder);
    SortMultiset(m.shards, PathOrder);
    forall i, j | 0 <= i < j < |SortedTiers(m)| ensures SortedTiers(m)[i] <= SortedTiers(m)[j] {
      assert TierOrder(SortedTiers(m)[i], SortedTiers(m)[j]);
    }
    var s := SortedShards(m);
    forall i, j | 0 <= i < j < |s| ensures Precedes(s[i].path, s[j].path) {
      assert PathOrder(s[i], s[j]);
      LexIsOctetOrder(s[i].path, s[j].path);
    }
  }

  // ---- The canonical text --------------------------------------------------

  /** The tiers in decimal, separated by commas. */
  function TierList(tiers: seq<u16>): Bytes {
    if tiers == [] then []
    else if |tiers| == 1 then Decimal(tiers[0])
    else TierList(tiers[..|tiers| - 1]) + [','] + Decimal(tiers[|tiers| - 1])
  }

  /** A shard line without its line feed. */
  function ShardLine(s: ManifestShard): Bytes {
    "shard|" + s.path + ['|'] + Decimal(s.tier) + ['|'] + s.digest.algorithm + ['|'] + s.digest.hex
      + ['|'] + Decimal(s.bytes)
  }

  function ShardLines(shards: seq<ManifestShard>): Bytes {
    if shards == [] then []
    else ShardLines(shards[..|shards| - 1]) + (ShardLine(shards[|shards| - 1]) + ['\n'])
  }

  function ModelLine(m: Manifest): Bytes { "model_id=" + m.modelId }

  function VersionLine(m: Manifest): Bytes {
    "version=" + (Decimal(m.versionMajor) + ['.'] + (Decimal(m.versionMinor) + ['.'] + Decimal(m.versionPatch)))
  }

  function TierLine(m: Manifest): Bytes { "tiers=" + TierList(SortedTiers(m)) }

  function CanonicalPayload(m: Manifest): Bytes {
    ModelLine(m) + ['\n'] + (VersionLine(m) + ['\n'] + (TierLine(m) + ['\n'] + ShardLines(SortedShards(m))))
  }

  function RecomputeHash(sha: Sha256, m: Manifest): Bytes {
    HexDigest(sha, CanonicalPayload(m))
  }

  method JoinTiers(tiers: seq<u16>) returns (joined: Bytes)
    ensures joined == TierList(tiers)
  {
    joined := [];
    for i := 0 to |tiers|
      invariant joined == TierList(tiers[..i])
    {
      joined := if i == 0 then Decimal(tiers[i]) else joined + [','] + Decimal(tiers[i]);
      assert tiers[..i + 1][..i] == tiers[..i];
    }
    assert tiers[..|tiers|] == tiers;
  }

  /** The text is built by appending line after line. */
  method BuildCanonicalPayload(m: Manifest) returns (out: Bytes)
    ensures out == CanonicalPayload(m)
  {
    hide ModelLine, VersionLine, ShardLine, Decimal;
    var tiers := Sort(m.tiers, TierOrder);
    var shards := Sort(m.shards, PathOrder);
    out := ModelLine(m) + ['\n'];
    out := out + (VersionLine(m) + ['\n']);
    var joined := JoinTiers(tiers);
    out := out + ("tiers=" + joined + ['\n']);
    ghost var head := out;
    for i := 0 to |shards|
      invariant out == head + ShardLines(shards[..i])
    {
      out := out + (ShardLine(shards[i]) + ['\n']);
      assert shards[..i + 1][..i] == shards[..i];
    }
    assert shards[..|shards|] == shards;
    Regroup(ModelLine(m), VersionLine(m), TierLine(m), ShardLines(shards));
  }

  lemma Regroup(a: Bytes, b: Bytes, c: Bytes, d: Bytes)
    ensures a + ['\n'] + (b + ['\n']) + (c + ['\n']) + d == a + ['\n'] + (b + ['\n'] + (c + ['\n'] + d))
  {
  }

  // ---- Reading the text back -----------------------------------------------

  /** What a reader recovers from the text. */
  datatype Reading = Reading(
    modelId: Bytes, major: int, minor: int, patch: int, tiers: seq<int>, shards: seq<ShardReading>)

  datatype ShardReading = ShardReading(path: Bytes, tier: int, algorithm: Bytes, hex: Bytes, bytes: int)

  /** What follows a tag, which must be there. */
  function Strip(tag: Bytes, s: Bytes): Bytes { if tag <= s then s[|tag|..] else [] }

  function ReadTiers(s: Bytes): seq<int>
    decreases |s|
  {
    if s == [] then []
    else if ',' !in s then [DecimalValue(s)]
    else
      LastCommaShortens(s);
      ReadTiers(BeforeLast(',', s)) + [DecimalValue(AfterLast(',', s))]
  }

  lemma {:induction false} LastCommaShortens(s: Bytes)
    requires s != []
    ensures |BeforeLast(',', s)| < |s|
  {
    if s[|s| - 1] != ',' && |s| > 1 { LastCommaShortens(s[..|s| - 1]); }
  }

  /** A shard line is read from the right, so its path may hold separators. */
  function ReadShard(line: Bytes): ShardReading {
    var r1 := BeforeLast('|', line);
    var r2 := BeforeLast('|', r1);
    var r3 := BeforeLast('|', r2);
    var r4 := BeforeLast('|', r3);
    ShardReading(Strip("shard|", r4), DecimalValue(AfterLast('|', r3)), AfterLast('|', r2), AfterLast('|', r1),
                 DecimalValue(AfterLast('|', line)))
  }

  function ReadShards(s: Bytes): seq<ShardReading>
    decreases |s|
  {
    if s == [] then [] else [ReadShard(Before('\n', s))] + ReadShards(After('\n', s))
  }

  function ReadPayload(s: Bytes): Reading {
    var s2 := After('\n', s);
    var s3 := After('\n', s2);
    var version := Strip("version=", Before('\n', s2));
    var minorPatch := After('.', version);
    Reading(Strip("model_id=", Before('\n', s)),
            DecimalValue(Before('.', version)), DecimalValue(Before('.', minorPatch)),
            DecimalValue(After('.', minorPatch)),
            ReadTiers(Strip("tiers=", Before('\n', s3))), ReadShards(After('\n', s3)))
  }

  predicate CleanShard(s: ManifestShard) {
    && '\n' !in s.path
    && '\n' !in s.digest.algorithm && '|' !in s.digest.algorithm
    && '\n' !in s.digest.hex && '|' !in s.digest.hex
  }

  /** The delimiters do not occur where the text cannot tell them apart; paths
      may still hold '|', and the model id anything but a line feed. */
  predicate Clean(m: Manifest) {
    '\n' !in m.modelId && forall s :: s in m.shards ==> CleanShard(s)
  }

  function ShardContent(s: ManifestShard): ShardReading {
    ShardReading(s.path, s.tier, s.digest.algorithm, s.digest.hex, s.bytes)
  }

  function ShardContents(shards: seq<ManifestShard>): seq<ShardReading> {
    seq(|shards|, i requires 0 <= i < |shards| => ShardContent(shards[i]))
  }

  function TierContents(tiers: seq<u16>): seq<int> {
    seq(|tiers|, i requires 0 <= i < |tiers| => tiers[i])
  }

  /** Four fields free of separators are read from the right, whatever the head. */
  lemma CutFields(head: Bytes, a: Bytes, b: Bytes, c: Bytes, d: Bytes)
    requires '|' !in a && '|' !in b && '|' !in c && '|' !in d
    ensures var line := head + ['|'] + a + ['|'] + b + ['|'] + c + ['|'] + d;
      var r1 := BeforeLast('|', line);
      var r2 := BeforeLast('|', r1);
      var r3 := BeforeLast('|', r2);
      && AfterLast('|', line) == d && AfterLast('|', r1) == c
      && AfterLast('|', r2) == b && AfterLast('|', r3) == a && BeforeLast('|', r3) == head
  {
    hide BeforeLast, AfterLast;
    var r3 := head + ['|'] + a;
    var r2 := r3 + ['|'] + b;
    var r1 := r2 + ['|'] + c;
    CutLast('|', r1, d);
    CutLast('|', r2, c);
    CutLast('|', r3, b);
    CutLast('|', head, a);
  }

  lemma ReadShardLine(s: ManifestShard)
    requires CleanShard(s)
    ensures ReadShard(ShardLine(s)) == ShardContent(s)
  {
    hide Decimal, DecimalValue, BeforeLast, AfterLast;
    var head: Bytes := "shard|" + s.path;
    CutFields(head, Decimal(s.tier), s.digest.algorithm, s.digest.hex, Decimal(s.bytes));
    DecimalRoundTrip(s.tier);
    DecimalRoundTrip(s.bytes);
    assert Strip("shard|", head) == s.path;
  }

  lemma ShardLineIsLine(s: ManifestShard)
    requires CleanShard(s)
    ensures '\n' !in ShardLine(s)
  {
    hide Decimal;
  }

  lemma {:induction false} ShardLinesCons(shards: seq<ManifestShard>)
    requires shards != []
    ensures ShardLines(shards) == ShardLine(shards[0]) + ['\n'] + ShardLines(shards[1..])
  {
    hide ShardLine;
    if |shards| == 1 {
      assert shards[..0] == [] && shards[1..] == [];
    } else {
      var p, rest := shards[..|shards| - 1], shards[1..];
      assert p[1..] == rest[..|rest| - 1];
      ShardLinesCons(p);
      AppendAssociates(ShardLine(p[0]) + ['\n'], ShardLines(p[1..]), ShardLine(shards[|shards| - 1]) + ['\n']);
    }
  }

  lemma AppendAssociates(a: Bytes, b: Bytes, c: Bytes)
    ensures (a + b) + c == a + (b + c)
  {
  }

  lemma {:induction false} ReadShardLines(shards: seq<ManifestShard>)
    requires forall s :: s in shards ==> CleanShard(s)
    ensures ReadShards(ShardLines(shards)) == ShardContents(shards)
  {
    hide ShardLine, ReadShard, Before, After, CleanShard;
    if shards != [] {
      var line, rest := ShardLine(shards[0]), ShardLines(shards[1..]);
      ShardLinesCons(shards);
      ReadShardLine(shards[0]);
      ShardLineIsLine(shards[0]);
      CutFirst('\n', line, rest);
      ReadShardLines(shards[1..]);
      ShardContentsCons(shards);
    }
  }

  lemma ShardContentsCons(shards: seq<ManifestShard>)
    requires shards != []
    ensures ShardContents(shards) == [ShardContent(shards[0])] + ShardContents(shards[1..])
  {
  }

  lemma {:induction false} ReadTierList(tiers: seq<u16>)
    ensures ReadTiers(TierList(tiers)) == TierContents(tiers)
    ensures '\n' !in TierList(tiers) && (tiers != [] ==> TierList(tiers) != [])
  {
    hide Decimal, DecimalValue, BeforeLast, AfterLast;
    if |tiers| == 1 {
      DecimalRoundTrip(tiers[0]);
    } else if tiers != [] {
      var p, t := tiers[..|tiers| - 1], tiers[|tiers| - 1];
      ReadTierList(p);
      CutLast(',', TierList(p), Decimal(t));
      DecimalRoundTrip(t);
      CommaInside(TierList(p), Decimal(t));
      TierContentsSnoc(tiers);
    }
  }

  lemma CommaInside(a: Bytes, b: Bytes)
    ensures ',' in a + [','] + b
  {
    assert (a + [','] + b)[|a|] == ',';
  }

  lemma TierContentsSnoc(tiers: seq<u16>)
    requires tiers != []
    ensures TierContents(tiers) == TierContents(tiers[..|tiers| - 1]) + [tiers[|tiers| - 1]]
  {
  }

  lemma ReadVersion(x: Bytes, y: Bytes, z: Bytes)
    requires '.' !in x && '.' !in y
    ensures var version := x + ['.'] + (y + ['.'] + z);
      && Before('.', version) == x && Before('.', After('.', version)) == y && After('.', After('.', version)) == z
  {
    hide Before, After;
    CutFirst('.', x, y + ['.'] + z);
    CutFirst('.', y, z);
  }

  lemma ReadVersionLine(m: Manifest)
    ensures var version := Strip("version=", VersionLine(m));
      && DecimalValue(Before('.', version)) == m.versionMajor
      && DecimalValue(Before('.', After('.', version))) == m.versionMinor
      && DecimalValue(After('.', After('.', version))) == m.versionPatch
  {
    hide Decimal, DecimalValue, Before, After;
    var x, y, z := Decimal(m.versionMajor), Decimal(m.versionMinor), Decimal(m.versionPatch);
    ReadVersion(x, y, z);
    assert Strip("version=", VersionLine(m)) == x + ['.'] + (y + ['.'] + z);
    DecimalRoundTrip(m.versionMajor);
    DecimalRoundTrip(m.versionMinor);
    DecimalRoundTrip(m.versionPatch);
  }

  /** Reading a clean manifest's canonical text gives back its model id and
      version, its tiers in ascending order and its shards in path order. */
  lemma ReadBack(m: Manifest)
    requires Clean(m)
    ensures ReadPayload(CanonicalPayload(m)) == Reading(
      m.modelId, m.versionMajor, m.versionMinor, m.versionPatch,
      TierContents(SortedTiers(m)), ShardContents(SortedShards(m)))
  {
    hide ModelLine, VersionLine, TierLine, ReadShard, ShardLine, SortedTiers, SortedShards;
    var shards := ShardLines(SortedShards(m));
    var rest3 := TierLine(m) + ['\n'] + shards;
    var rest2 := VersionLine(m) + ['\n'] + rest3;
    LinesAreLines(m);
    CutFirst('\n', ModelLine(m), rest2);
    CutFirst('\n', VersionLine(m), rest3);
    CutFirst('\n', TierLine(m), shards);
    ReadVersionLine(m);
    ReadTierList(SortedTiers(m));
    SortedShardsAreClean(m);
    ReadShardLines(SortedShards(m));
  }

  lemma LinesAreLines(m: Manifest)
    requires Clean(m)
    ensures '\n' !in ModelLine(m) && Strip("model_id=", ModelLine(m)) == m.modelId
    ensures '\n' !in VersionLine(m)
    ensures '\n' !in TierLine(m) && Strip("tiers=", TierLine(m)) == TierList(SortedTiers(m))
  {
    hide Decimal;
    ReadTierList(SortedTiers(m));
  }

  lemma SortedShardsAreClean(m: Manifest)
    requires Clean(m)
    ensures forall s :: s in SortedShards(m) ==> CleanShard(s)
  {
    SortElements(m.shards, PathOrder);
  }

  // ---- What the text determines --------------------------------------------

  /** The tiers and shards a manifest lists, regardless of order. */
  ghost predicate SameContent(m: Manifest, n: Manifest) {
    && m.modelId == n.modelId
    && m.versionMajor == n.versionMajor && m.versionMinor == n.versionMinor && m.versionPatch == n.versionPatch
    && multiset(m.tiers) == multiset(n.tiers)
    && multiset(m.shards) == multiset(n.shards)
  }

  lemma ContentsInjective(a: seq<ManifestShard>, b: seq<ManifestShard>, t: seq<u16>, u: seq<u16>)
    ensures ShardContents(a) == ShardContents(b) ==> a == b
    ensures TierContents(t) == TierContents(u) ==> t == u
  {
    if ShardContents(a) == ShardContents(b) {
      assert |a| == |ShardContents(a)| && |b| == |ShardContents(b)|;
      forall i | 0 <= i < |a| ensures a[i] == b[i] {
        assert ShardContents(a)[i] == ShardContents(b)[i];
      }
    }
    if TierContents(t) == TierContents(u) {
      assert |t| == |TierContents(t)| && |u| == |TierContents(u)|;
      forall i | 0 <= i < |t| ensures t[i] == u[i] {
        assert TierContents(t)[i] == TierContents(u)[i];
      }
    }
  }

  /** Clean manifests with the same text list the same tiers and shards. */
  lemma PayloadDeterminesContent(m: Manifest, n: Manifest)
    requires Clean(m) && Clean(n)
    requires CanonicalPayload(m) == CanonicalPayload(n)
    ensures SameContent(m, n)
    ensures SortedShards(m) == SortedShards(n)
  {
    hide CanonicalPayload;
    ReadBack(m);
    ReadBack(n);
    ContentsInjective(SortedShards(m), SortedShards(n), SortedTiers(m), SortedTiers(n));
    SortMultiset(m.tiers, TierOrder);
    SortMultiset(n.tiers, TierOrder);
    SortMultiset(m.shards, PathOrder);
    SortMultiset(n.shards, PathOrder);
  }

  /** Shards with the same path are the same shard; true of distinct paths. */
  ghost predicate PathsIdentify(m: Manifest) {
    forall s, t :: s in m.shards && t in m.shards && s.path == t.path ==> s == t
  }

  predicate DistinctPaths(m: Manifest) {
    forall i, j :: 0 <= i < j < |m.shards| ==> m.shards[i].path != m.shards[j].path
  }

  lemma DistinctPathsIdentify(m: Manifest)
    requires DistinctPaths(m)
    ensures PathsIdentify(m)
  {
  }

  lemma PermutedShardsSortAlike(m: Manifest, n: Manifest)
    requires multiset(m.shards) == multiset(n.shards) && PathsIdentify(m)
    ensures SortedShards(m) == SortedShards(n)
  {
    PathOrderTotal();
    forall x, y | x in m.shards && y in m.shards && PathOrder(x, y) && PathOrder(y, x) ensures x == y {
      LexTotal(x.path, y.path);
    }
    PermutationSort(m.shards, n.shards, PathOrder);
  }

  /** Permuting tiers, and shards whose paths identify them, leaves the text and
      the hash as they were. */
  lemma PermutationKeepsPayload(m: Manifest, n: Manifest, sha: Sha256)
    requires SameContent(m, n) && PathsIdentify(m)
    ensures CanonicalPayload(m) == CanonicalPayload(n)
    ensures RecomputeHash(sha, m) == RecomputeHash(sha, n)
  {
    assert TotalPreorder(TierOrder);
    PermutationSort(m.tiers, n.tiers, TierOrder);
    PermutedShardsSortAlike(m, n);
  }

  /** In general, clean manifests have the same text exactly when they agree on
      id, version and tiers and list the shards of each path in the same order. */
  lemma PayloadEquality(m: Manifest, n: Manifest)
    requires Clean(m) && Clean(n)
    ensures CanonicalPayload(m) == CanonicalPayload(n) <==>
      SameContent(m, n) && SameClasses(m.shards, n.shards, PathOrder)
  {
    PathOrderTotal();
    SortCanonical(m.shards, n.shards, PathOrder);
    if CanonicalPayload(m) == CanonicalPayload(n) {
      PayloadDeterminesContent(m, n);
    }
    if SameContent(m, n) && SameClasses(m.shards, n.shards, PathOrder) {
      assert TotalPreorder(TierOrder);
      PermutationSort(m.tiers, n.tiers, TierOrder);
    }
  }

  // ---- Line feeds ----------------------------------------------------------

  /** One shard whose line is the lines of two. */
  function Fold(a: ManifestShard, b: ManifestShard): ManifestShard {
    ManifestShard(Strip("shard|", ShardLine(a)) + ['\n'] + "shard|" + b.path, b.tier, b.digest, b.bytes)
  }

  /** The manifest with its last two shards in path order folded into one. */
  function Folded(m: Manifest): Manifest
    requires |m.shards| >= 2
  {
    SortElements(m.shards, PathOrder);
    var s := SortedShards(m);
    m.(shards := s[..|s| - 2] + [Fold(s[|s| - 2], s[|s| - 1])])
  }

  lemma FoldedLine(a: ManifestShard, b: ManifestShard)
    ensures ShardLine(Fold(a, b)) == ShardLine(a) + ['\n'] + ShardLine(b)
  {
    LineSplits(a);
    LineSplits(b);
    LineSplits(Fold(a, b));
    Glue("shard|", Strip("shard|", ShardLine(a)), b.path, LineTail(b));
  }

  lemma Glue(head: Bytes, x: Bytes, path: Bytes, tail: Bytes)
    ensures head + (x + ['\n'] + head + path) + tail == (head + x) + ['\n'] + (head + path + tail)
  {
  }

  /** What follows the path in a shard line. */
  function LineTail(s: ManifestShard): Bytes {
    ['|'] + Decimal(s.tier) + ['|'] + s.digest.algorithm + ['|'] + s.digest.hex + ['|'] + Decimal(s.bytes)
  }

  /** A shard line is its path between a label and the other fields. */
  lemma LineSplits(s: ManifestShard)
    ensures ShardLine(s) == "shard|" + s.path + LineTail(s)
    ensures Strip("shard|", ShardLine(s)) == s.path + LineTail(s)
    ensures "shard|" + Strip("shard|", ShardLine(s)) == ShardLine(s)
  {
    hide Decimal;
  }

  lemma {:induction false} PrefixIsLess(p: Bytes, q: Bytes)
    ensures LexLeq(p, p + q)
  {
    if p != [] {
      PrefixIsLess(p[1..], q);
      assert (p + q)[1..] == p[1..] + q;
    }
  }

  /** The folded path extends the path it starts from. */
  lemma FoldedPath(a: ManifestShard, b: ManifestShard)
    ensures LexLeq(a.path, Fold(a, b).path) && |a.path| < |Fold(a, b).path|
    ensures '\n' in Fold(a, b).path
  {
    hide ShardLine, LineTail;
    var tail, head: Bytes := LineTail(a), "shard|";
    LineSplits(a);
    Extended(a.path, tail, head + b.path);
    assert Fold(a, b).path == a.path + tail + ['\n'] + head + b.path;
    assert a.path + tail + ['\n'] + head + b.path == a.path + (tail + ['\n'] + (head + b.path));
  }

  lemma Extended(p: Bytes, tail: Bytes, rest: Bytes)
    ensures var q := p + (tail + ['\n'] + rest);
      LexLeq(p, q) && |p| < |q| && '\n' in q
  {
    PrefixIsLess(p, tail + ['\n'] + rest);
    assert (p + (tail + ['\n'] + rest))[|p| + |tail|] == '\n';
  }

  lemma FoldedIsSorted(s: seq<ManifestShard>)
    requires |s| >= 2 && Sorted(s, PathOrder)
    ensures var f := s[..|s| - 2] + [Fold(s[|s| - 2], s[|s| - 1])];
      Sort(f, PathOrder) == f
  {
    hide Fold;
    var n := |s|;
    var a, fold := s[n - 2], Fold(s[n - 2], s[n - 1]);
    FoldedPath(a, s[n - 1]);
    PathOrderTotal();
    forall i | 0 <= i < n - 2 ensures PathOrder(s[i], fold) {
      assert PathOrder(s[i], a);
      LexTransitive(s[i].path, a.path, fold.path);
    }
    SortFixpoint(s[..n - 2] + [fold], PathOrder);
  }

  lemma FoldedLines(s: seq<ManifestShard>)
    requires |s| >= 2
    ensures ShardLines(s[..|s| - 2] + [Fold(s[|s| - 2], s[|s| - 1])]) == ShardLines(s)
  {
    hide ShardLine, Fold;
    var n := |s|;
    var p, a, b := s[..n - 2], s[n - 2], s[n - 1];
    Init(p, Fold(a, b));
    FoldedLine(a, b);
    assert s[..n - 1][..n - 2] == p;
    assert ShardLines(s[..n - 1]) == ShardLines(p) + (ShardLine(a) + ['\n']);
    RegroupLines(ShardLines(p), ShardLine(a), ShardLine(b));
  }

  lemma RegroupLines(p: Bytes, a: Bytes, b: Bytes)
    ensures p + (a + ['\n'] + b + ['\n']) == p + (a + ['\n']) + (b + ['\n'])
  {
  }

  /** Every manifest with two shards or more has the text of another with one
      shard fewer, whose last path holds a line feed. */
  lemma LineFeedIsAmbiguous(m: Manifest)
    requires |m.shards| >= 2
    ensures CanonicalPayload(Folded(m)) == CanonicalPayload(m)
    ensures |Folded(m).shards| == |m.shards| - 1 && !SameContent(m, Folded(m))
    ensures '\n' in Folded(m).shards[|m.shards| - 2].path
  {
    hide Fold, ShardLine;
    SortElements(m.shards, PathOrder);
    PathOrderTotal();
    SortIsSorted(m.shards, PathOrder);
    FoldedIsSorted(SortedShards(m));
    FoldedLines(SortedShards(m));
    FoldedPath(SortedShards(m)[|m.shards| - 2], SortedShards(m)[|m.shards| - 1]);
    assert |multiset(Folded(m).shards)| != |multiset(m.shards)|;
  }

  /** The number of line feeds in a text. */
  function LineFeeds(s: Bytes): nat {
    multiset(s)['\n']
  }

  lemma LineFeedsAdd(a: Bytes, b: Bytes)
    ensures LineFeeds(a + b) == LineFeeds(a) + LineFeeds(b)
    ensures LineFeeds(a) == 0 <==> '\n' !in a
  {
    assert multiset(a + b) == multiset(a) + multiset(b);
    assert '\n' in a <==> '\n' in multiset(a);
  }

  lemma OneLineFeed(a: Bytes)
    ensures LineFeeds(a + ['\n']) == LineFeeds(a) + 1
  {
    LineFeedsAdd(a, ['\n']);
    var feed: Bytes := ['\n'];
    assert multiset(feed)['\n'] == 1;
  }

  /** The shard lines hold a line feed each, and no more only if no path does. */
  lemma {:induction false} ShardLinesFeeds(shards: seq<ManifestShard>)
    ensures LineFeeds(ShardLines(shards)) >= |shards|
    ensures LineFeeds(ShardLines(shards)) == |shards| ==> forall s :: s in shards ==> '\n' !in s.path
    ensures (forall s :: s in shards ==> CleanShard(s)) ==> LineFeeds(ShardLines(shards)) == |shards|
  {
    hide ShardLine, CleanShard, LineFeeds;
    if shards == [] {
      LineFeedsAdd([], []);
    } else {
      var p, s := shards[..|shards| - 1], shards[|shards| - 1];
      ShardLinesFeeds(p);
      LineFeedsAdd(ShardLines(p), ShardLine(s) + ['\n']);
      OneLineFeed(ShardLine(s));
      LineFeedsAdd(ShardLine(s), []);
      if CleanShard(s) { ShardLineIsLine(s); }
      PathInLine(s);
      Snoc(shards);
    }
  }

  lemma PathInLine(s: ManifestShard)
    ensures '\n' in s.path ==> '\n' in ShardLine(s)
  {
    hide Decimal;
    LineSplits(s);
  }

  lemma PayloadFeeds(m: Manifest)
    ensures LineFeeds(CanonicalPayload(m)) == LineFeeds(m.modelId) + 3 + LineFeeds(ShardLines(SortedShards(m)))
  {
    hide LineFeeds, SortedShards, SortedTiers, VersionLine, TierLine;
    var lines := ShardLines(SortedShards(m));
    var t := TierLine(m) + ['\n'] + lines;
    var v := VersionLine(m) + ['\n'] + t;
    HeadLinesAreLines(m);
    LineFeedsAdd(ModelLine(m) + ['\n'], v);
    LineFeedsAdd(VersionLine(m) + ['\n'], t);
    LineFeedsAdd(TierLine(m) + ['\n'], lines);
    OneLineFeed(ModelLine(m));
    OneLineFeed(VersionLine(m));
    OneLineFeed(TierLine(m));
    LineFeedsAdd("model_id=", m.modelId);
    LineFeedsAdd(VersionLine(m), []);
    LineFeedsAdd(TierLine(m), []);
  }

  lemma HeadLinesAreLines(m: Manifest)
    ensures '\n' !in VersionLine(m) && '\n' !in TierLine(m)
  {
    hide Decimal;
    ReadTierList(SortedTiers(m));
  }

  /** A clean manifest with one shard shares its text only with manifests that
      hold no line feeds either, as long as they have a shard at all. */
  lemma OneShardText(m: Manifest, n: Manifest)
    requires Clean(m) && |m.shards| == 1 && n.shards != []
    requires CanonicalPayload(m) == CanonicalPayload(n)
    ensures '\n' !in n.modelId && forall s :: s in n.shards ==> '\n' !in s.path
  {
    hide CanonicalPayload, LineFeeds, ShardLines, CleanShard;
    PayloadFeeds(m);
    PayloadFeeds(n);
    SortElements(m.shards, PathOrder);
    SortElements(n.shards, PathOrder);
    ShardLinesFeeds(SortedShards(m));
    ShardLinesFeeds(SortedShards(n));
    LineFeedsAdd(m.modelId, []);
    LineFeedsAdd(n.modelId, []);
  }
}

/**
 * The hash-chained audit log of `src/audit.rs`: what `verify_chain` accepts,
 * what `append` builds, and what the root hash commits to.
 */
module Audit {
  import opened Octets
  import opened Platform
  import Hex

  datatype AuditCategory =
    | ModelLoad | TierActivation | Routing | AccessControl | Cache | Error | Security

  datatype AuditEvent = AuditEvent(
    sequence: u64, timestampMs: u64, category: AuditCategory,
    actor: Bytes, action: Bytes, payload: Bytes)

  datatype AuditRecord = AuditRecord(
    event: AuditEvent, prevHash: Bytes, eventHash: Bytes, chainHash: Bytes, signatureHex: Bytes)

  /** The fixed part of a log. */
  datatype Identity = Identity(sha: Sha256, nodeId: Bytes, signerId: Bytes, secret: Bytes)

  // ---- Canonical texts -----------------------------------------------------

  function CategoryName(c: AuditCategory): Bytes {
    match c
    case ModelLoad => "ModelLoad"
    case TierActivation => "TierActivation"
    case Routing => "Routing"
    case AccessControl => "AccessControl"
    case Cache => "Cache"
    case Error => "Error"
    case Security => "Security"
  }

  /** The three free-text fields, in the order they are printed. */
  function FreeText(e: AuditEvent): Bytes {
    e.actor + ['|'] + (e.action + ['|'] + e.payload)
  }

  function CanonicalEvent(e: AuditEvent, nodeId: Bytes): (r: Bytes)
    ensures |nodeId| < |r|
  {
    nodeId + ['|'] + (Decimal(e.sequence) + ['|'] + (CategoryName(e.category) + ['|'] +
      (Decimal(e.timestampMs) + ['|'] + FreeText(e))))
  }

  function Genesis(sha: Sha256): Bytes {
    HexDigest(sha, [])
  }

  function ChainInput(prev: Bytes, eventHash: Bytes): Bytes {
    prev + ['|'] + eventHash
  }

  function SignedText(id: Identity, chainHash: Bytes): Bytes {
    id.secret + ['|'] + id.signerId + ['|'] + chainHash
  }

  function SignatureMaterial(id: Identity, chainHash: Bytes): Bytes {
    HexDigest(id.sha, SignedText(id, chainHash))
  }

  // ---- Appending -----------------------------------------------------------

  function Root(sha: Sha256, records: seq<AuditRecord>): Bytes {
    if records == [] then Genesis(sha) else records[|records| - 1].chainHash
  }

  function NewRecord(id: Identity, prev: Bytes, e: AuditEvent): AuditRecord {
    var eventHash := HexDigest(id.sha, CanonicalEvent(e, id.nodeId));
    var chainHash := HexDigest(id.sha, ChainInput(prev, eventHash));
    AuditRecord(e, prev, eventHash, chainHash, SignatureMaterial(id, chainHash))
  }

  /** The records after an attempt to append `e`; a gap in the sequence leaves
      the log as it was. */
  function Appended(id: Identity, records: seq<AuditRecord>, e: AuditEvent): seq<AuditRecord> {
    if e.sequence != |records| then records
    else records + [NewRecord(id, Root(id.sha, records), e)]
  }

  /** What a fresh log holds after the given attempts, in order. */
  function Replay(id: Identity, events: seq<AuditEvent>): seq<AuditRecord> {
    if events == [] then []
    else Appended(id, Replay(id, events[..|events| - 1]), events[|events| - 1])
  }

  function Events(records: seq<AuditRecord>): (r: seq<AuditEvent>)
    ensures |r| == |records|
  {
    seq(|records|, i requires 0 <= i < |records| => records[i].event)
  }

  lemma EventsInit(records: seq<AuditRecord>)
    requires records != []
    ensures Events(records)[..|records| - 1] == Events(records[..|records| - 1])
  {
  }

  // ---- Verification --------------------------------------------------------

  /** The checks `verify_chain` makes of the record at `idx`. */
  predicate RecordOk(id: Identity, idx: nat, prev: Bytes, r: AuditRecord) {
    && r.event.sequence == idx
    && r.prevHash == prev
    && r.eventHash == HexDigest(id.sha, CanonicalEvent(r.event, id.nodeId))
    && r.chainHash == HexDigest(id.sha, ChainInput(prev, r.eventHash))
    && r.signatureHex == SignatureMaterial(id, r.chainHash)
  }

  /** Every record passes, each checked against the chain before it. */
  predicate Accepted(id: Identity, records: seq<AuditRecord>) {
    records == [] ||
    var n := |records| - 1;
    Accepted(id, records[..n]) && RecordOk(id, n, Root(id.sha, records[..n]), records[n])
  }

  /** Record `i` is numbered `i`, starts from the hash that ends the chain before
      it, and carries the hashes of its event, of its link and of its signature. */
  ghost predicate InPlace(id: Identity, records: seq<AuditRecord>, i: nat)
    requires i < |records|
  {
    var r := records[i];
    && r.event.sequence == i
    && r.prevHash == (if i == 0 then Hex.Encode(id.sha("")) else records[i - 1].chainHash)
    && r.eventHash == Hex.Encode(id.sha(CanonicalEvent(r.event, id.nodeId)))
    && r.chainHash == Hex.Encode(id.sha(r.prevHash + "|" + r.eventHash))
    && r.signatureHex == Hex.Encode(id.sha(id.secret + "|" + id.signerId + "|" + r.chainHash))
  }

  /** A log is accepted exactly when each of its records is in its place. */
  lemma {:induction false} AcceptedLayout(id: Identity, records: seq<AuditRecord>)
    ensures Accepted(id, records) <==> forall i :: 0 <= i < |records| ==> InPlace(id, records, i)
  {
    hide InPlace, RecordOk;
    if records != [] {
      var n := |records| - 1;
      var p := records[..n];
      AcceptedLayout(id, p);
      forall i | 0 <= i < n ensures InPlace(id, p, i) == InPlace(id, records, i) {
        PrefixInPlace(id, records, n, i);
      }
      LastInPlace(id, records);
    }
  }

  lemma PrefixInPlace(id: Identity, records: seq<AuditRecord>, n: nat, i: nat)
    requires i < n <= |records|
    ensures InPlace(id, records[..n], i) == InPlace(id, records, i)
  {
    hide CanonicalEvent;
  }

  lemma LastInPlace(id: Identity, records: seq<AuditRecord>)
    requires records != []
    ensures var n := |records| - 1;
      RecordOk(id, n, Root(id.sha, records[..n]), records[n]) <==> InPlace(id, records, n)
  {
    hide CanonicalEvent;
  }

  lemma {:induction false} AcceptedPrefix(id: Identity, records: seq<AuditRecord>, n: nat)
    requires Accepted(id, records) && n <= |records|
    ensures Accepted(id, records[..n])
  {
    if n == |records| {
      assert records[..n] == records;
    } else {
      assert records[..|records| - 1][..n] == records[..n];
      AcceptedPrefix(id, records[..|records| - 1], n);
    }
  }

  /** One more record of an accepted prefix: what its check decides. */
  lemma AcceptedStep(id: Identity, records: seq<AuditRecord>, idx: nat)
    requires idx < |records| && Accepted(id, records[..idx])
    ensures Root(id.sha, records[..idx + 1]) == records[idx].chainHash
    ensures Accepted(id, records[..idx + 1]) <==>
      RecordOk(id, idx, Root(id.sha, records[..idx]), records[idx])
    ensures Accepted(id, records) ==> Accepted(id, records[..idx + 1])
  {
    assert records[..idx + 1][..idx] == records[..idx];
    if Accepted(id, records) { AcceptedPrefix(id, records, idx + 1); }
  }

  /** Every log reachable by appends, accepted or refused, verifies. */
  lemma {:induction false} ReachableAccepted(id: Identity, attempts: seq<AuditEvent>)
    ensures Accepted(id, Replay(id, attempts))
  {
    if attempts != [] {
      var before := Replay(id, attempts[..|attempts| - 1]);
      ReachableAccepted(id, attempts[..|attempts| - 1]);
      var e := attempts[|attempts| - 1];
      if e.sequence == |before| {
        var r := NewRecord(id, Root(id.sha, before), e);
        Init(before, r);
        RecordOkIffNew(id, |before|, Root(id.sha, before), r);
      }
    }
  }

  /** `verify_chain` accepts exactly the logs that a fresh log with the same
      identity builds from the same events. */
  lemma {:induction false} AcceptedIffReplayed(id: Identity, records: seq<AuditRecord>)
    ensures Accepted(id, records) <==> records == Replay(id, Events(records))
  {
    if Accepted(id, records) {
      AcceptedReplays(id, records);
    } else {
      ReachableAccepted(id, Events(records));
    }
  }

  /** The checks on a record say that it is the record `append` would build. */
  lemma RecordOkIffNew(id: Identity, idx: nat, prev: Bytes, r: AuditRecord)
    ensures RecordOk(id, idx, prev, r) <==> r.event.sequence == idx && r == NewRecord(id, prev, r.event)
  {
  }

  lemma {:induction false} AcceptedReplays(id: Identity, records: seq<AuditRecord>)
    requires Accepted(id, records)
    ensures records == Replay(id, Events(records))
  {
    if records != [] {
      var n := |records| - 1;
      var events := Events(records);
      AcceptedReplays(id, records[..n]);
      EventsInit(records);
      RecordOkIffNew(id, n, Root(id.sha, records[..n]), records[n]);
      assert Replay(id, events) == Appended(id, records[..n], records[n].event);
      Snoc(records);
    }
  }

  // ---- The root commits to the log ----------------------------------------

  /** The text whose hash ends the chain over `payloads`; the genesis hashes the
      empty text. */
  function ChainText(sha: Sha256, payloads: seq<Bytes>): Bytes {
    if payloads == [] then []
    else
      var n := |payloads| - 1;
      ChainInput(HexDigest(sha, ChainText(sha, payloads[..n])), HexDigest(sha, payloads[n]))
  }

  /** Walk two chains back from their ends to the first disagreement; the result
      is the pair of different hash inputs found there. */
  function WalkBack(sha: Sha256, p: seq<Bytes>, q: seq<Bytes>): Option<(Bytes, Bytes)> {
    var x, y := ChainText(sha, p), ChainText(sha, q);
    if x != y then Some((x, y))
    else if p == [] || q == [] then None
    else if p[|p| - 1] != q[|q| - 1] then Some((p[|p| - 1], q[|q| - 1]))
    else WalkBack(sha, p[..|p| - 1], q[..|q| - 1])
  }

  /** Payload lists of whatever lengths with the same final hash are equal, or
      walking the chains back yields a hash collision. */
  lemma {:induction false} ChainCommits(sha: Sha256, p: seq<Bytes>, q: seq<Bytes>)
    requires HexDigest(sha, ChainText(sha, p)) == HexDigest(sha, ChainText(sha, q))
    ensures WalkBack(sha, p, q).None? <==> p == q
    ensures WalkBack(sha, p, q).Some? ==>
      Collision(sha, WalkBack(sha, p, q).value.0, WalkBack(sha, p, q).value.1)
  {
    EqualDigests(sha, ChainText(sha, p), ChainText(sha, q));
    if p != [] && q != [] && ChainText(sha, p) == ChainText(sha, q) {
      var p', q', x, y := p[..|p| - 1], q[..|q| - 1], p[|p| - 1], q[|q| - 1];
      SplitFirst('|', HexDigest(sha, ChainText(sha, p')), HexDigest(sha, x),
                 HexDigest(sha, ChainText(sha, q')), HexDigest(sha, y));
      EqualDigests(sha, x, y);
      ChainCommits(sha, p', q');
      Snoc(p);
      Snoc(q);
    }
  }

  function Payloads(id: Identity, records: seq<AuditRecord>): (r: seq<Bytes>)
    ensures |r| == |records|
  {
    seq(|records|, i requires 0 <= i < |records| => CanonicalEvent(records[i].event, id.nodeId))
  }

  lemma PayloadsInit(id: Identity, records: seq<AuditRecord>)
    requires records != []
    ensures Payloads(id, records)[..|records| - 1] == Payloads(id, records[..|records| - 1])
  {
  }

  lemma {:induction false} RootIsChain(id: Identity, records: seq<AuditRecord>)
    requires Accepted(id, records)
    ensures Root(id.sha, records) == HexDigest(id.sha, ChainText(id.sha, Payloads(id, records)))
  {
    if records != [] {
      var n := |records| - 1;
      RootIsChain(id, records[..n]);
      PayloadsInit(id, records);
    }
  }

  /** Two accepted logs, of whatever lengths and identities, have the same root
      exactly when they hold the same canonical payload at every index, unless
      walking both chains back finds two different inputs with the same hash. */
  lemma RootCommits(a: Identity, p: seq<AuditRecord>, b: Identity, q: seq<AuditRecord>)
    requires a.sha == b.sha && Accepted(a, p) && Accepted(b, q)
    ensures Payloads(a, p) == Payloads(b, q) ==> Root(a.sha, p) == Root(b.sha, q)
    ensures Root(a.sha, p) == Root(b.sha, q) ==>
      match WalkBack(a.sha, Payloads(a, p), Payloads(b, q))
      case None => Payloads(a, p) == Payloads(b, q)
      case Some(pair) => Collision(a.sha, pair.0, pair.1)
  {
    RootIsChain(a, p);
    RootIsChain(b, q);
    if Root(a.sha, p) == Root(b.sha, q) {
      ChainCommits(a.sha, Payloads(a, p), Payloads(b, q));
    }
  }

  // ---- The signature commits to the log -----------------------------------

  /** The signed text reads back from the right: chain hash, then signer. */
  lemma SignedTextReadsBack(id: Identity, chainHash: Bytes)
    requires '|' !in chainHash
    ensures AfterLast('|', SignedText(id, chainHash)) == chainHash
    ensures '|' !in id.signerId ==>
      var rest := BeforeLast('|', SignedText(id, chainHash));
      AfterLast('|', rest) == id.signerId && BeforeLast('|', rest) == id.secret
  {
    hide AfterLast, BeforeLast;
    CutLast('|', id.secret + ['|'] + id.signerId, chainHash);
    if '|' !in id.signerId { CutLast('|', id.secret, id.signerId); }
  }

  lemma LastSignature(id: Identity, records: seq<AuditRecord>)
    requires Accepted(id, records) && records != []
    ensures records[|records| - 1].signatureHex == HexDigest(id.sha, SignedText(id, Root(id.sha, records)))
    ensures '|' !in Root(id.sha, records)
  {
  }

  /** Two verified non-empty logs whose last records carry one signature hold the
      same canonical payloads, and were signed by one signer with one secret when
      the signer ids hold no separator; or a collision is found, in the signed
      texts or by walking the chains back. */
  lemma SignatureCommits(a: Identity, p: seq<AuditRecord>, b: Identity, q: seq<AuditRecord>)
    requires a.sha == b.sha && Accepted(a, p) && Accepted(b, q) && p != [] && q != []
    ensures p[|p| - 1].signatureHex == q[|q| - 1].signatureHex ==>
      var x, y := SignedText(a, Root(a.sha, p)), SignedText(b, Root(b.sha, q));
      if x != y then Collision(a.sha, x, y)
      else
        && ('|' !in a.signerId && '|' !in b.signerId ==> a.signerId == b.signerId && a.secret == b.secret)
        && match WalkBack(a.sha, Payloads(a, p), Payloads(b, q))
           case None => Payloads(a, p) == Payloads(b, q)
           case Some(pair) => Collision(a.sha, pair.0, pair.1)
  {
    hide SignedText, Accepted, Payloads, Root;
    LastSignature(a, p);
    LastSignature(b, q);
    var x, y := SignedText(a, Root(a.sha, p)), SignedText(b, Root(b.sha, q));
    if HexDigest(a.sha, x) == HexDigest(b.sha, y) { EqualDigests(a.sha, x, y); }
    if x == y {
      SignedTextReadsBack(a, Root(a.sha, p));
      SignedTextReadsBack(b, Root(b.sha, q));
      RootCommits(a, p, b, q);
    }
  }

  // ---- The event text determines the event --------------------------------

  lemma CategoryNames(c: AuditCategory, d: AuditCategory)
    ensures '|' !in CategoryName(c)
    ensures CategoryName(c) == CategoryName(d) ==> c == d
  {
    assert |CategoryName(c)| == |CategoryName(d)| && c != d ==> CategoryName(c)[0] != CategoryName(d)[0];
  }

  /** For one node, two events print alike exactly when they agree on the
      numbers and the category and their free texts run together alike: the
      ambiguity is confined to the three free texts. */
  lemma CanonicalEventEquality(e: AuditEvent, f: AuditEvent, nodeId: Bytes)
    ensures CanonicalEvent(e, nodeId) == CanonicalEvent(f, nodeId) <==>
      && e.sequence == f.sequence && e.category == f.category
      && e.timestampMs == f.timestampMs && FreeText(e) == FreeText(f)
  {
    if CanonicalEvent(e, nodeId) == CanonicalEvent(f, nodeId) {
      var e1, f1 := AfterNode(e), AfterNode(f);
      assert e1 == CanonicalEvent(e, nodeId)[|nodeId| + 1..];
      assert f1 == CanonicalEvent(f, nodeId)[|nodeId| + 1..];
      AfterNodeInjective(e, f);
    }
  }

  function AfterCategory(e: AuditEvent): Bytes {
    Decimal(e.timestampMs) + ['|'] + FreeText(e)
  }

  function AfterNode(e: AuditEvent): Bytes {
    Decimal(e.sequence) + ['|'] + (CategoryName(e.category) + ['|'] + AfterCategory(e))
  }

  lemma AfterNodeInjective(e: AuditEvent, f: AuditEvent)
    requires AfterNode(e) == AfterNode(f)
    ensures e.sequence == f.sequence && e.category == f.category
    ensures e.timestampMs == f.timestampMs && FreeText(e) == FreeText(f)
  {
    CategoryNames(e.category, f.category);
    CategoryNames(f.category, e.category);
    SplitFirst('|', Decimal(e.sequence), CategoryName(e.category) + ['|'] + AfterCategory(e),
               Decimal(f.sequence), CategoryName(f.category) + ['|'] + AfterCategory(f));
    SplitFirst('|', CategoryName(e.category), AfterCategory(e), CategoryName(f.category), AfterCategory(f));
    SplitFirst('|', Decimal(e.timestampMs), FreeText(e), Decimal(f.timestampMs), FreeText(f));
    DecimalInjective(e.sequence, f.sequence);
    DecimalInjective(e.timestampMs, f.timestampMs);
  }

  predicate Unambiguous(e: AuditEvent) {
    '|' !in e.actor && '|' !in e.action
  }

  /** The category a printed name stands for. */
  function ParseCategory(name: Bytes): Option<AuditCategory> {
    if name == "ModelLoad" then Some(ModelLoad)
    else if name == "TierActivation" then Some(TierActivation)
    else if name == "Routing" then Some(Routing)
    else if name == "AccessControl" then Some(AccessControl)
    else if name == "Cache" then Some(Cache)
    else if name == "Error" then Some(Error)
    else if name == "Security" then Some(Security)
    else None
  }

  /** What a reader recovers from an event's text. */
  datatype EventReading = EventReading(
    nodeId: Bytes, sequence: int, category: Option<AuditCategory>, timestampMs: int,
    actor: Bytes, action: Bytes, payload: Bytes)

  /** Read a text that starts with a node id of the given length. */
  function ReadEvent(text: Bytes, nodeLength: nat): EventReading
    requires nodeLength < |text|
  {
    var t0 := text[nodeLength + 1..];
    var t1 := After('|', t0);
    var t2 := After('|', t1);
    var t3 := After('|', t2);
    var t4 := After('|', t3);
    EventReading(text[..nodeLength],
                 DecimalValue(Before('|', t0)), ParseCategory(Before('|', t1)),
                 DecimalValue(Before('|', t2)),
                 Before('|', t3), Before('|', t4), After('|', t4))
  }

  lemma CategoryParses(c: AuditCategory)
    ensures ParseCategory(CategoryName(c)) == Some(c)
  {
  }

  /** An event whose actor and action hold no separator reads back from its
      text field by field, node id included; its payload may hold anything. */
  lemma EventReadsBack(e: AuditEvent, nodeId: Bytes)
    requires Unambiguous(e)
    ensures ReadEvent(CanonicalEvent(e, nodeId), |nodeId|) ==
      EventReading(nodeId, e.sequence, Some(e.category), e.timestampMs, e.actor, e.action, e.payload)
  {
    hide Decimal, DecimalValue, CategoryName, ParseCategory, Before, After;
    CategoryNames(e.category, e.category);
    CategoryParses(e.category);
    assert CanonicalEvent(e, nodeId)[..|nodeId|] == nodeId;
    assert CanonicalEvent(e, nodeId)[|nodeId| + 1..] == AfterNode(e);
    CutFirst('|', Decimal(e.sequence), CategoryName(e.category) + ['|'] + AfterCategory(e));
    CutFirst('|', CategoryName(e.category), AfterCategory(e));
    CutFirst('|', Decimal(e.timestampMs), FreeText(e));
    CutFirst('|', e.actor, e.action + ['|'] + e.payload);
    CutFirst('|', e.action, e.payload);
    DecimalRoundTrip(e.sequence);
    DecimalRoundTrip(e.timestampMs);
  }

  lemma EventInjective(e: AuditEvent, f: AuditEvent, nodeId: Bytes)
    requires Unambiguous(e) && Unambiguous(f)
    requires CanonicalEvent(e, nodeId) == CanonicalEvent(f, nodeId)
    ensures e == f
  {
    hide CanonicalEvent, ReadEvent;
    EventReadsBack(e, nodeId);
    EventReadsBack(f, nodeId);
  }

  /** The texts of two nodes without separators in their ids agree only if the
      nodes, the numbers, the category and the free text do. */
  lemma NodesPrintApart(e: AuditEvent, n: Bytes, f: AuditEvent, o: Bytes)
    requires '|' !in n && '|' !in o
    ensures CanonicalEvent(e, n) == CanonicalEvent(f, o) <==>
      && n == o && e.sequence == f.sequence && e.category == f.category
      && e.timestampMs == f.timestampMs && FreeText(e) == FreeText(f)
  {
    hide FreeText;
    if CanonicalEvent(e, n) == CanonicalEvent(f, o) {
      SplitFirst('|', n, AfterNode(e), o, AfterNode(f));
      CanonicalEventEquality(e, f, n);
    }
  }

  /** Two verified non-empty logs with one root, whose node ids hold no separator,
      are logs of one node, or walking the chains back finds a collision. */
  lemma RootNamesNode(a: Identity, p: seq<AuditRecord>, b: Identity, q: seq<AuditRecord>)
    requires a.sha == b.sha && Accepted(a, p) && Accepted(b, q) && p != []
    requires '|' !in a.nodeId && '|' !in b.nodeId
    ensures Root(a.sha, p) == Root(b.sha, q) ==>
      match WalkBack(a.sha, Payloads(a, p), Payloads(b, q))
      case None => a.nodeId == b.nodeId && |p| == |q|
      case Some(pair) => Collision(a.sha, pair.0, pair.1)
  {
    hide WalkBack, Accepted, CanonicalEvent, Root;
    RootCommits(a, p, b, q);
    if Payloads(a, p) == Payloads(b, q) {
      assert |p| == |Payloads(a, p)| == |Payloads(b, q)| == |q|;
      assert Payloads(a, p)[0] == Payloads(b, q)[0];
      NodesPrintApart(p[0].event, a.nodeId, q[0].event, b.nodeId);
    }
  }

  /** Without the condition on actor and action the text is ambiguous. */
  lemma SeparatorInActorIsAmbiguous(nodeId: Bytes)
    ensures var e := AuditEvent(0, 0, Security, "a|b", "c", "");
      var f := AuditEvent(0, 0, Security, "a", "b|c", "");
      e != f && CanonicalEvent(e, nodeId) == CanonicalEvent(f, nodeId)
  {
    var e := AuditEvent(0, 0, Security, "a|b", "c", "");
    var f := AuditEvent(0, 0, Security, "a", "b|c", "");
    assert FreeText(e) == "a|b|c|" == FreeText(f);
    CanonicalEventEquality(e, f, nodeId);
  }

  lemma PayloadsDetermineEvents(id: Identity, p: seq<AuditRecord>, q: seq<AuditRecord>)
    requires Payloads(id, p) == Payloads(id, q)
    requires forall e :: e in Events(p) ==> Unambiguous(e)
    requires forall e :: e in Events(q) ==> Unambiguous(e)
    ensures Events(p) == Events(q)
  {
    assert |p| == |Payloads(id, p)| == |q|;
    forall i | 0 <= i < |p| ensures Events(p)[i] == Events(q)[i] {
      assert Payloads(id, p)[i] == Payloads(id, q)[i];
      assert Events(p)[i] in Events(p) && Events(q)[i] in Events(q);
      EventInjective(p[i].event, q[i].event, id.nodeId);
    }
  }

  /** The number of separators in a text. */
  function Separators(s: Bytes): nat {
    multiset(s)['|']
  }

  lemma FreeTextSeparators(e: AuditEvent)
    ensures Separators(FreeText(e)) == Separators(e.actor) + Separators(e.action) + Separators(e.payload) + 2
  {
    var bar: Bytes := ['|'];
    assert multiset(bar)['|'] == 1;
    assert multiset(FreeText(e)) ==
      multiset(e.actor) + multiset(bar) + (multiset(e.action) + multiset(bar) + multiset(e.payload));
  }

  lemma NoSeparators(s: Bytes)
    ensures Separators(s) == 0 <==> '|' !in s
  {
    assert '|' in s <==> '|' in multiset(s);
  }

  /** A different event with the same free text, when some field holds a
      separator: the texts are cut one separator earlier or later. */
  function Recut(e: AuditEvent): AuditEvent {
    if '|' in e.actor then
      e.(actor := Before('|', e.actor), action := After('|', e.actor), payload := e.action + ['|'] + e.payload)
    else if '|' in e.action then
      e.(action := Before('|', e.action), payload := After('|', e.action) + ['|'] + e.payload)
    else
      e.(actor := e.actor + ['|'] + e.action, action := Before('|', e.payload), payload := After('|', e.payload))
  }

  lemma RecutPrintsAlike(e: AuditEvent)
    requires '|' in e.actor || '|' in e.action || '|' in e.payload
    ensures Recut(e) != e && FreeText(Recut(e)) == FreeText(e)
  {
    hide Before, After;
    if '|' in e.actor {
      Rejoin('|', e.actor);
      assert |Recut(e).actor| < |e.actor|;
    } else if '|' in e.action {
      Rejoin('|', e.action);
      assert |Recut(e).action| < |e.action|;
    } else {
      Rejoin('|', e.payload);
      assert |Recut(e).actor| > |e.actor|;
    }
  }

  /** The text of an event is the text of no other event exactly when none of
      its actor, action and payload holds a separator. */
  lemma TextIsUnique(e: AuditEvent, nodeId: Bytes)
    ensures (forall f :: CanonicalEvent(f, nodeId) == CanonicalEvent(e, nodeId) ==> f == e) <==>
      '|' !in e.actor && '|' !in e.action && '|' !in e.payload
  {
    if '|' !in e.actor && '|' !in e.action && '|' !in e.payload {
      forall f | CanonicalEvent(f, nodeId) == CanonicalEvent(e, nodeId) ensures f == e {
        PlainTextIsUnique(e, f, nodeId);
      }
    } else {
      RecutPrintsAlike(e);
      CanonicalEventEquality(Recut(e), e, nodeId);
    }
  }

  lemma PlainTextIsUnique(e: AuditEvent, f: AuditEvent, nodeId: Bytes)
    requires '|' !in e.actor && '|' !in e.action && '|' !in e.payload
    requires CanonicalEvent(f, nodeId) == CanonicalEvent(e, nodeId)
    ensures f == e
  {
    hide CanonicalEvent, FreeText, Separators;
    CanonicalEventEquality(f, e, nodeId);
    FreeTextSeparators(e);
    FreeTextSeparators(f);
    NoSeparators(e.actor);
    NoSeparators(e.action);
    NoSeparators(e.payload);
    NoSeparators(f.actor);
    NoSeparators(f.action);
    EventInjective(f, e, nodeId);
  }

  /** Accepted logs of one identity with equal roots and unambiguous events are
      the same log, or their payloads yield a collision. */
  lemma EqualRootsEqualLogs(id: Identity, p: seq<AuditRecord>, q: seq<AuditRecord>)
    requires forall e :: e in Events(p) ==> Unambiguous(e)
    requires forall e :: e in Events(q) ==> Unambiguous(e)
    ensures Accepted(id, p) && Accepted(id, q) && Root(id.sha, p) == Root(id.sha, q) ==>
      match WalkBack(id.sha, Payloads(id, p), Payloads(id, q))
      case None => p == q
      case Some(pair) => Collision(id.sha, pair.0, pair.1)
  {
    if Accepted(id, p) && Accepted(id, q) && Root(id.sha, p) == Root(id.sha, q) {
      RootCommits(id, p, id, q);
      if Payloads(id, p) == Payloads(id, q) {
        PayloadsDetermineEvents(id, p, q);
        AcceptedReplays(id, p);
        AcceptedReplays(id, q);
      }
    }
  }

  // ---- The log object ------------------------------------------------------

  class DeterministicAuditLog {
    const id: Identity
    var records: seq<AuditRecord>

    constructor (sha: Sha256, nodeId: Bytes, signerId: Bytes, secret: Bytes)
      ensures id == Identity(sha, nodeId, signerId, secret) && records == []
    {
      id := Identity(sha, nodeId, signerId, secret);
      records := [];
    }

    /** One iteration of the verification loop. */
    method CheckRecord(idx: nat, previous: Bytes, record: AuditRecord) returns (r: Result<()>)
      ensures r == if RecordOk(id, idx, previous, record) then Ok(()) else Err(TamperDetected)
    {
      if record.event.sequence != idx { return Err(TamperDetected); }
      if record.prevHash != previous { return Err(TamperDetected); }
      var expectedEvent := HexDigest(id.sha, CanonicalEvent(record.event, id.nodeId));
      if expectedEvent != record.eventHash { return Err(TamperDetected); }
      var expectedChain := HexDigest(id.sha, ChainInput(previous, expectedEvent));
      if expectedChain != record.chainHash { return Err(TamperDetected); }
      var expectedSignature := SignatureMaterial(id, record.chainHash);
      if expectedSignature != record.signatureHex { return Err(TamperDetected); }
      r := Ok(());
    }

    method VerifyChain() returns (r: Result<()>)
      ensures r == if Accepted(id, records) then Ok(()) else Err(TamperDetected)
    {
      var previous := Genesis(id.sha);
      for idx := 0 to |records|
        invariant Accepted(id, records[..idx]) && previous == Root(id.sha, records[..idx])
      {
        var check := CheckRecord(idx, previous, records[idx]);
        AcceptedStep(id, records, idx);
        if check.Err? { return check; }
        previous := records[idx].chainHash;
      }
      assert records[..|records|] == records;
      r := Ok(());
    }

    method Append(e: AuditEvent) returns (r: Result<AuditRecord>)
      modifies this
      ensures records == Appended(id, old(records), e)
      ensures r.Ok? <==> e.sequence == |old(records)|
      ensures r.Ok? ==> records == old(records) + [r.value]
      ensures r.Err? ==> r.error == InvalidInput
      ensures old(Accepted(id, records)) ==> Accepted(id, records)
    {
      if e.sequence != |records| { return Err(InvalidInput); }
      var prev := if records == [] then Genesis(id.sha) else records[|records| - 1].chainHash;
      var eventHash := HexDigest(id.sha, CanonicalEvent(e, id.nodeId));
      var chainHash := HexDigest(id.sha, ChainInput(prev, eventHash));
      var record := AuditRecord(e, prev, eventHash, chainHash, SignatureMaterial(id, chainHash));
      Init(records, record);
      records := records + [record];
      r := Ok(record);
    }
  }
}

/**
 * How many versions of a key can be retrieved at once, and when the `u32` sums
 * of `src/key_management.rs` stay exact: a key that is generated once and then
 * only rotated, each time no earlier than its latest version expires.
 */
module RotationWindow {
  import opened Octets
  import opened Platform
  import opened KeyManagement
  import Sorting

  /** The versions of `keyId` whose retrieval window includes `day`. */
  ghost function Live(st: Store, keyId: Bytes, day: u32): set<u32> {
    set k | k in Bucket(st, keyId) && InWindow(st, k, day) :: k.reference.version
  }

  /** Consecutive versions of one kind, each activated no earlier than all before
      it have expired, with room for two periods after every activation. */
  ghost predicate Chain(bucket: seq<ManagedKey>, keyId: Bytes, kind: KeyKind, first: u32, period: u32) {
    && bucket != []
    && (forall i :: 0 <= i < |bucket| ==> ChainEntry(bucket[i], keyId, kind, first + i, period))
    && (forall i, j :: 0 <= i < j < |bucket| ==> bucket[i].expiresDay <= bucket[j].activatedDay)
  }

  ghost predicate ChainEntry(key: ManagedKey, keyId: Bytes, kind: KeyKind, version: int, period: u32) {
    && version < TWO32
    && key.reference.keyId == keyId && key.reference.version == version && key.reference.kind == kind
    && key.expiresDay == key.activatedDay + period
    && key.activatedDay + 2 * period < TWO32
  }

  /** What a caller must observe at one call: the key is not generated again,
      and it is rotated only from the day its latest version expires, while the
      next version number and twice the period after the day fit in `u32`. */
  predicate Disciplined(st: Store, keyId: Bytes, call: Call) {
    match call
    case GenerateCall(g, _, _, _, _) => g != keyId
    case RotateCall(g, day, _) => g == keyId ==>
      var b := Bucket(st, keyId);
      && b != [] && day >= b[|b| - 1].expiresDay
      && day + 2 * st.rotation.rotateEveryDays < TWO32
      && b[|b| - 1].reference.version + 1 < TWO32
    case _ => true
  }

  predicate DisciplinedRun(env: Env, st: Store, keyId: Bytes, calls: seq<Call>) {
    calls == [] ||
    var before := calls[..|calls| - 1];
    DisciplinedRun(env, st, keyId, before) && Disciplined(Run(env, st, before), keyId, calls[|calls| - 1])
  }

  lemma ChainRotate(env: Env, st: Store, keyId: Bytes, day: u32, seed: u64, kind: KeyKind, first: u32)
    requires Valid(env, st) && keyId in st.keys && Disciplined(st, keyId, RotateCall(keyId, day, seed))
    requires Chain(st.keys[keyId], keyId, kind, first, st.rotation.rotateEveryDays)
    ensures Rotate(env, st, keyId, day, seed).1 == Ok(KeyMaterialRef(keyId, first + |st.keys[keyId]|, kind))
    ensures Chain(Bucket(Rotate(env, st, keyId, day, seed).0, keyId), keyId, kind, first, st.rotation.rotateEveryDays)
  {
    hide Material, Rotate, Valid;
    RotateExtends(env, st, keyId, day, seed);
    var b := st.keys[keyId];
    assert ChainEntry(b[|b| - 1], keyId, kind, first + |b| - 1, st.rotation.rotateEveryDays);
    var key := NewKey(env, st.rotation, keyId, kind, first + |b|, day, seed);
    assert ChainEntry(key, keyId, kind, first + |b|, st.rotation.rotateEveryDays);
    ChainPush(b, key, keyId, kind, first, st.rotation.rotateEveryDays);
  }

  lemma ChainPush(b: seq<ManagedKey>, key: ManagedKey, keyId: Bytes, kind: KeyKind, first: u32, period: u32)
    requires Chain(b, keyId, kind, first, period)
    requires ChainEntry(key, keyId, kind, first + |b|, period)
    requires key.activatedDay >= b[|b| - 1].expiresDay
    ensures Chain(b + [key], keyId, kind, first, period)
  {
    assert ChainEntry(b[|b| - 1], keyId, kind, first + |b| - 1, period);
    forall i | 0 <= i < |b| ensures b[i].expiresDay <= key.activatedDay {
      assert i < |b| - 1 ==> b[i].expiresDay <= b[|b| - 1].activatedDay;
    }
  }

  lemma ChainRevoke(b: seq<ManagedKey>, version: u32, keyId: Bytes, kind: KeyKind, first: u32, period: u32)
    requires Chain(b, keyId, kind, first, period)
    ensures Chain(RevokeFirst(b, version), keyId, kind, first, period)
  {
    var r := RevokeFirst(b, version);
    forall i | 0 <= i < |b| ensures r[i] == b[i].(revoked := r[i].revoked) {}
    forall i | 0 <= i < |r| ensures ChainEntry(r[i], keyId, kind, first + i, period) {
      assert ChainEntry(b[i], keyId, kind, first + i, period);
    }
  }

  /** Any calls on other keys, revocations and policy changes included, leave
      the chain a chain. */
  lemma ChainStep(env: Env, st: Store, call: Call, keyId: Bytes, kind: KeyKind, first: u32)
    requires Valid(env, st) && keyId in st.keys && Disciplined(st, keyId, call)
    requires Chain(st.keys[keyId], keyId, kind, first, st.rotation.rotateEveryDays)
    ensures keyId in Step(env, st, call).keys
    ensures Chain(Step(env, st, call).keys[keyId], keyId, kind, first, st.rotation.rotateEveryDays)
  {
    hide Chain, Material, Valid;
    match call
    case GenerateCall(_, _, _, _, _) =>
    case RotateCall(g, day, seed) =>
      if g == keyId { ChainRotate(env, st, keyId, day, seed, kind, first); }
    case RevokeCall(g, version) =>
      if g == keyId { ChainRevoke(st.keys[keyId], version, keyId, kind, first, st.rotation.rotateEveryDays); }
    case PolicyCall(_) =>
  }

  lemma {:induction false} ChainRun(env: Env, st: Store, calls: seq<Call>, keyId: Bytes, kind: KeyKind, first: u32)
    requires Valid(env, st) && keyId in st.keys && DisciplinedRun(env, st, keyId, calls)
    requires Chain(st.keys[keyId], keyId, kind, first, st.rotation.rotateEveryDays)
    ensures var after := Run(env, st, calls);
      && Valid(env, after) && after.rotation == st.rotation && keyId in after.keys
      && Chain(after.keys[keyId], keyId, kind, first, st.rotation.rotateEveryDays)
  {
    RunValid(env, st, calls);
    if calls != [] {
      var before := calls[..|calls| - 1];
      ChainRun(env, st, before, keyId, kind, first);
      RunValid(env, st, before);
      ChainStep(env, Run(env, st, before), calls[|calls| - 1], keyId, kind, first);
    }
  }

  /** The one way three versions can be live at once: the overlap equals the
      period, the latest two rotations fell exactly on the days their
      predecessors expired, and the day is that of the latest rotation. */
  predicate BackToBack(b: seq<ManagedKey>, rotation: KeyRotationPolicy, day: u32) {
    var n := |b| - 1;
    && n >= 2 && rotation.overlapDays == rotation.rotateEveryDays && day == b[n].activatedDay
    && b[n].activatedDay == b[n - 1].expiresDay && b[n - 1].activatedDay == b[n - 2].expiresDay
  }

  /** Entry `i` of a chain is within its window on a day from the latest
      activation on exactly when it is one of the latest two and has not outlived
      its overlap, or it is the one before them in the back-to-back case. */
  lemma LiveEntry(b: seq<ManagedKey>, keyId: Bytes, kind: KeyKind, first: u32, rotation: KeyRotationPolicy,
                  day: u32, i: nat)
    requires rotation.IsValid() && Chain(b, keyId, kind, first, rotation.rotateEveryDays)
    requires i < |b| && b[|b| - 1].activatedDay <= day
    ensures day <= b[i].expiresDay + rotation.overlapDays <==>
      || (i >= |b| - 2 && day <= b[i].expiresDay + rotation.overlapDays)
      || (i == |b| - 3 && BackToBack(b, rotation, day))
  {
    var n := |b| - 1;
    assert ChainEntry(b[i], keyId, kind, first + i, rotation.rotateEveryDays);
    if i <= n - 2 {
      assert b[i].expiresDay <= b[i + 1].activatedDay && b[i + 1].expiresDay <= b[i + 2].activatedDay;
      assert ChainEntry(b[i + 1], keyId, kind, first + i + 1, rotation.rotateEveryDays);
      assert ChainEntry(b[i + 2], keyId, kind, first + i + 2, rotation.rotateEveryDays);
    }
  }

  lemma EntryAt(b: seq<ManagedKey>, keyId: Bytes, kind: KeyKind, first: u32, period: u32, i: nat)
    requires Chain(b, keyId, kind, first, period) && i < |b|
    ensures ChainEntry(b[i], keyId, kind, first + i, period)
  {
  }

  /** In a chain the window test of a retrieval is exact, and it is the test of
      the entry that holds the version. */
  lemma LiveIsEntry(st: Store, keyId: Bytes, kind: KeyKind, first: u32, day: u32, v: u32)
    requires st.rotation.IsValid() && keyId in st.keys
    requires Chain(st.keys[keyId], keyId, kind, first, st.rotation.rotateEveryDays)
    ensures var b := st.keys[keyId];
      v in Live(st, keyId, day) <==>
        first <= v < first + |b| && day <= b[v - first].expiresDay + st.rotation.overlapDays
  {
    hide Chain;
    var b, period := st.keys[keyId], st.rotation.rotateEveryDays;
    if v in Live(st, keyId, day) {
      var k :| k in b && InWindow(st, k, day) && k.reference.version == v;
      var i :| 0 <= i < |b| && b[i] == k;
      EntryAt(b, keyId, kind, first, period, i);
    }
    if first <= v < first + |b| {
      EntryAt(b, keyId, kind, first, period, v - first);
      assert b[v - first] in b;
    }
  }

  /** The live versions of a chain, from its latest activation on, exactly. */
  lemma LiveVersion(st: Store, keyId: Bytes, kind: KeyKind, first: u32, day: u32, v: u32)
    requires st.rotation.IsValid() && keyId in st.keys
    requires Chain(st.keys[keyId], keyId, kind, first, st.rotation.rotateEveryDays)
    requires st.keys[keyId][|st.keys[keyId]| - 1].activatedDay <= day
    ensures var b := st.keys[keyId];
      var latest := first + |b| - 1;
      v in Live(st, keyId, day) <==>
        || (first <= v && latest - 1 <= v <= latest && day <= b[v - first].expiresDay + st.rotation.overlapDays)
        || (v == latest - 2 && BackToBack(b, st.rotation, day))
  {
    hide Chain, Live;
    var b := st.keys[keyId];
    LiveIsEntry(st, keyId, kind, first, day, v);
    if first <= v < first + |b| {
      LiveEntry(b, keyId, kind, first, st.rotation, day, v - first);
    }
  }

  /** What can be retrieved is live. */
  lemma RetrievedIsLive(st: Store, identity: Bytes, reference: KeyMaterialRef, day: u32)
    requires Retrieve(st, identity, reference, day).Ok?
    ensures reference.version in Live(st, reference.keyId, day)
  {
    var b := Bucket(st, reference.keyId);
    assert b[FirstIndex(b, reference.version)] in b;
  }

  /** A key generated once in a reachable store and then rotated with
      discipline, whatever else happens: on any day from its latest activation
      on, at most three versions are within their window, three exactly in the
      back-to-back case; so at most two when the overlap is shorter than the
      period, and at most two after the activation day. */
  lemma AtMostTwoLive(env: Env, st: Store, keyId: Bytes, kind: KeyKind, first: u32, day0: u32, seed: u64,
                      calls: seq<Call>, day: u32)
    requires Valid(env, st) && keyId !in st.keys && !env.blank(keyId) && first > 0
    requires day0 + 2 * st.rotation.rotateEveryDays < TWO32
    requires DisciplinedRun(env, Step(env, st, GenerateCall(keyId, kind, first, day0, seed)), keyId, calls)
    ensures var after := Run(env, Step(env, st, GenerateCall(keyId, kind, first, day0, seed)), calls);
      keyId in after.keys && Chain(after.keys[keyId], keyId, kind, first, st.rotation.rotateEveryDays) &&
      var latest := after.keys[keyId][|after.keys[keyId]| - 1];
      day >= latest.activatedDay ==>
        && |Live(after, keyId, day)| <= 3
        && (|Live(after, keyId, day)| > 2 <==> BackToBack(after.keys[keyId], st.rotation, day))
        && (st.rotation.overlapDays < st.rotation.rotateEveryDays ==> |Live(after, keyId, day)| <= 2)
        && (day > latest.activatedDay ==> |Live(after, keyId, day)| <= 2)
  {
    hide Live, Chain, Step, Valid, DisciplinedRun;
    var start := Step(env, st, GenerateCall(keyId, kind, first, day0, seed));
    FirstKeyIsChain(env, st, keyId, kind, first, day0, seed);
    ChainRun(env, start, calls, keyId, kind, first);
    var after := Run(env, start, calls);
    var b := after.keys[keyId];
    ChainNonEmpty(b, keyId, kind, first, st.rotation.rotateEveryDays);
    if day >= b[|b| - 1].activatedDay {
      CountLive(env, after, keyId, kind, first, day);
    }
  }

  lemma ChainNonEmpty(b: seq<ManagedKey>, keyId: Bytes, kind: KeyKind, first: u32, period: u32)
    requires Chain(b, keyId, kind, first, period)
    ensures b != []
  {
  }

  lemma FirstKeyIsChain(env: Env, st: Store, keyId: Bytes, kind: KeyKind, first: u32, day: u32, seed: u64)
    requires Valid(env, st) && keyId !in st.keys && !env.blank(keyId) && first > 0
    requires day + 2 * st.rotation.rotateEveryDays < TWO32
    ensures var after := Step(env, st, GenerateCall(keyId, kind, first, day, seed));
      && Valid(env, after) && after.rotation == st.rotation && keyId in after.keys
      && Chain(after.keys[keyId], keyId, kind, first, st.rotation.rotateEveryDays)
  {
    hide Material, Valid, Chain;
    ValidRotation(env, st);
    GenerateValid(env, st, keyId, kind, first, day, seed);
    var key := NewKey(env, st.rotation, keyId, kind, first, day, seed);
    SortSingle(key);
    SingleIsChain(key, keyId, kind, first, st.rotation.rotateEveryDays);
  }

  lemma SingleIsChain(key: ManagedKey, keyId: Bytes, kind: KeyKind, first: u32, period: u32)
    requires ChainEntry(key, keyId, kind, first, period)
    ensures Chain([key], keyId, kind, first, period)
  {
  }

  lemma ValidRotation(env: Env, st: Store)
    requires Valid(env, st)
    ensures st.rotation.IsValid()
  {
  }

  lemma SortSingle(key: ManagedKey)
    ensures Sorting.Sort([] + [key], ByVersion) == [key]
  {
    Init([], key);
  }

  lemma CountLive(env: Env, st: Store, keyId: Bytes, kind: KeyKind, first: u32, day: u32)
    requires Valid(env, st) && keyId in st.keys
    requires Chain(st.keys[keyId], keyId, kind, first, st.rotation.rotateEveryDays)
    requires day >= st.keys[keyId][|st.keys[keyId]| - 1].activatedDay
    ensures |Live(st, keyId, day)| <= 3
    ensures |Live(st, keyId, day)| > 2 <==> BackToBack(st.keys[keyId], st.rotation, day)
  {
    hide Live, Chain, BackToBack;
    var b, live := st.keys[keyId], Live(st, keyId, day);
    var v: int := first + |b| - 1;
    forall w | w in live ensures w in {v, v - 1, v - 2} {
      LiveVersion(st, keyId, kind, first, day, w);
    }
    SubsetSize(live, {v, v - 1, v - 2});
    if BackToBack(b, st.rotation, day) {
      ThreeInBackToBack(st, keyId, kind, first, day);
      SubsetSize({v, v - 1, v - 2}, live);
      assert |{v, v - 1, v - 2}| == 3;
    } else {
      if v - 2 in live { LiveVersion(st, keyId, kind, first, day, v - 2); }
      SubsetSize(live, {v, v - 1});
    }
  }

  lemma ThreeInBackToBack(st: Store, keyId: Bytes, kind: KeyKind, first: u32, day: u32)
    requires st.rotation.IsValid() && keyId in st.keys
    requires Chain(st.keys[keyId], keyId, kind, first, st.rotation.rotateEveryDays)
    requires BackToBack(st.keys[keyId], st.rotation, day)
    ensures var v := first + |st.keys[keyId]| - 1;
      {v, v - 1, v - 2} <= Live(st, keyId, day)
  {
    hide Chain, Live;
    var b, period := st.keys[keyId], st.rotation.rotateEveryDays;
    var n := |b| - 1;
    EntryAt(b, keyId, kind, first, period, n);
    EntryAt(b, keyId, kind, first, period, n - 1);
    LiveVersion(st, keyId, kind, first, day, first + n);
    LiveVersion(st, keyId, kind, first, day, first + n - 1);
    LiveVersion(st, keyId, kind, first, day, first + n - 2);
  }

  lemma {:induction false} SubsetSize<T>(a: set<T>, b: set<T>)
    requires a <= b
    ensures |a| <= |b|
  {
    if a != {} {
      var x :| x in a;
      SubsetSize(a - {x}, b - {x});
    }
  }

  /** The bucket after generating a key and rotating it twice. */
  lemma TwoRotations(env: Env, st: Store, keyId: Bytes, day1: u32, day2: u32)
    requires Valid(env, st) && keyId !in st.keys && !env.blank(keyId)
    requires 2 * st.rotation.rotateEveryDays < TWO32
    ensures var calls := [GenerateCall(keyId, Tls, 1, 0, 0), RotateCall(keyId, day1, 0), RotateCall(keyId, day2, 0)];
      Bucket(Run(env, st, calls), keyId) ==
        [NewKey(env, st.rotation, keyId, Tls, 1, 0, 0), NewKey(env, st.rotation, keyId, Tls, 2, day1, 0),
         NewKey(env, st.rotation, keyId, Tls, 3, day2, 0)]
    ensures var calls := [GenerateCall(keyId, Tls, 1, 0, 0), RotateCall(keyId, day1, 0), RotateCall(keyId, day2, 0)];
      Run(env, st, calls).rotation == st.rotation
  {
    hide Material, Rotate, Generate, Valid;
    var c := [GenerateCall(keyId, Tls, 1, 0, 0), RotateCall(keyId, day1, 0), RotateCall(keyId, day2, 0)];
    var s1 := FirstStep(env, st, keyId);
    var s2 := RotateStep(env, s1, keyId, 1, day1);
    var s3 := RotateStep(env, s2, keyId, 2, day2);
    assert c[..2][..1] == c[..1] && c[..1][..0] == [];
    assert Run(env, st, c[..1]) == s1;
    assert Run(env, st, c[..2]) == s2;
    assert Run(env, st, c) == s3;
  }

  lemma FirstStep(env: Env, st: Store, keyId: Bytes) returns (after: Store)
    requires Valid(env, st) && keyId !in st.keys && !env.blank(keyId)
    requires 2 * st.rotation.rotateEveryDays < TWO32
    ensures after == Step(env, st, GenerateCall(keyId, Tls, 1, 0, 0))
    ensures Valid(env, after) && after.rotation == st.rotation
    ensures keyId in after.keys && after.keys[keyId] == [NewKey(env, st.rotation, keyId, Tls, 1, 0, 0)]
  {
    hide Material, Valid;
    after := Step(env, st, GenerateCall(keyId, Tls, 1, 0, 0));
    FirstKeyIsChain(env, st, keyId, Tls, 1, 0, 0);
    SortSingle(NewKey(env, st.rotation, keyId, Tls, 1, 0, 0));
  }

  lemma RotateStep(env: Env, st: Store, keyId: Bytes, v: u32, day: u32) returns (after: Store)
    requires Valid(env, st) && keyId in st.keys && v < TWO32 - 1
    requires var b := st.keys[keyId];
      b != [] && b[|b| - 1].reference == KeyMaterialRef(keyId, v, Tls)
    ensures after == Step(env, st, RotateCall(keyId, day, 0))
    ensures Valid(env, after) && after.rotation == st.rotation && keyId in after.keys
    ensures after.keys[keyId] == st.keys[keyId] + [NewKey(env, st.rotation, keyId, Tls, v + 1, day, 0)]
  {
    hide Material, Valid;
    RotateExtends(env, st, keyId, day, 0);
    ValidStep(env, st, RotateCall(keyId, day, 0));
    after := Rotate(env, st, keyId, day, 0).0;
  }

  lemma ValidStep(env: Env, st: Store, call: Call)
    requires Valid(env, st)
    ensures Valid(env, Step(env, st, call)) && Step(env, st, call).rotation == st.rotation
  {
    RunValid(env, st, [call]);
    Init([], call);
    assert Run(env, st, [call]) == Step(env, Run(env, st, [call][..0]), call);
  }

  /** Three live versions do occur when the overlap equals the period. */
  lemma ThreeLive(env: Env, keyId: Bytes)
    requires !env.blank(keyId)
    ensures var st := Store(KeyRotationPolicy(1, 1), map[], map[]);
      var calls := [GenerateCall(keyId, Tls, 1, 0, 0), RotateCall(keyId, 1, 0), RotateCall(keyId, 2, 0)];
      {1, 2, 3} <= Live(Run(env, st, calls), keyId, 2)
  {
    hide Material, Run;
    var st := Store(KeyRotationPolicy(1, 1), map[], map[]);
    TwoRotations(env, st, keyId, 1, 2);
    var calls := [GenerateCall(keyId, Tls, 1, 0, 0), RotateCall(keyId, 1, 0), RotateCall(keyId, 2, 0)];
    var after := Run(env, st, calls);
    var b := Bucket(after, keyId);
    assert b[0] in b && b[1] in b && b[2] in b;
    assert InWindow(after, b[0], 2) && InWindow(after, b[1], 2) && InWindow(after, b[2], 2);
  }

  // ---- When no sum wraps ---------------------------------------------------

  function Rotations(calls: seq<Call>, keyId: Bytes): nat {
    if calls == [] then 0
    else
      var last := calls[|calls| - 1];
      Rotations(calls[..|calls| - 1], keyId) + (if last.RotateCall? && last.keyId == keyId then 1 else 0)
  }

  /** The key is not generated again, and twice the period fits after every day
      it is rotated on. */
  predicate DaysFit(calls: seq<Call>, keyId: Bytes, period: u32) {
    forall c :: c in calls ==>
      && !(c.GenerateCall? && c.keyId == keyId)
      && (c.RotateCall? && c.keyId == keyId ==> c.day + 2 * period < TWO32)
  }

  /** Every stored expiry is the exact sum, and so is every window bound a
      retrieval computes from it. */
  ghost predicate SumsAreExact(st: Store, keyId: Bytes) {
    forall k :: k in Bucket(st, keyId) ==>
      && k.expiresDay == k.activatedDay + st.rotation.rotateEveryDays
      && k.activatedDay + 2 * st.rotation.rotateEveryDays < TWO32
      && Add32(k.expiresDay, st.rotation.overlapDays) == k.expiresDay + st.rotation.overlapDays
  }

  ghost predicate Latest(st: Store, keyId: Bytes, version: int, kind: KeyKind) {
    && keyId in st.keys && st.keys[keyId] != []
    && st.keys[keyId][|st.keys[keyId]| - 1].reference.version == version
    && st.keys[keyId][|st.keys[keyId]| - 1].reference.kind == kind
  }

  lemma RotateIsExact(env: Env, st: Store, keyId: Bytes, day: u32, seed: u64, v: u32, kind: KeyKind)
    requires Valid(env, st) && SumsAreExact(st, keyId) && Latest(st, keyId, v, kind)
    requires day + 2 * st.rotation.rotateEveryDays < TWO32 && v + 1 < TWO32
    ensures Rotate(env, st, keyId, day, seed).1 == Ok(KeyMaterialRef(keyId, v + 1, kind))
    ensures SumsAreExact(Rotate(env, st, keyId, day, seed).0, keyId)
    ensures Latest(Rotate(env, st, keyId, day, seed).0, keyId, v + 1, kind)
  {
    hide Material, Rotate, Valid;
    ValidRotation(env, st);
    RotateExtends(env, st, keyId, day, seed);
    ValidStep(env, st, RotateCall(keyId, day, seed));
    var key := NewKey(env, st.rotation, keyId, kind, v + 1, day, seed);
    var after := Rotate(env, st, keyId, day, seed).0;
    assert after.keys[keyId] == st.keys[keyId] + [key];
    forall k | k in after.keys[keyId] ensures k in Bucket(st, keyId) || k == key {}
  }

  lemma RevokeIsExact(st: Store, keyId: Bytes, version: u32, v: int, kind: KeyKind)
    requires SumsAreExact(st, keyId) && Latest(st, keyId, v, kind)
    ensures SumsAreExact(Revoke(st, keyId, version).0, keyId)
    ensures Latest(Revoke(st, keyId, version).0, keyId, v, kind)
  {
    if Lookup(st, keyId, version).Some? {
      var b, i := st.keys[keyId], FirstIndex(st.keys[keyId], version);
      assert b[i] in b;
      forall k | k in RevokeFirst(b, version) ensures k in b || k == b[i].(revoked := true) {}
    }
  }

  lemma {:induction false} RunIsExact(env: Env, st: Store, calls: seq<Call>, keyId: Bytes, v: nat, kind: KeyKind)
    requires Valid(env, st) && SumsAreExact(st, keyId) && Latest(st, keyId, v, kind)
    requires DaysFit(calls, keyId, st.rotation.rotateEveryDays) && v + Rotations(calls, keyId) < TWO32
    ensures SumsAreExact(Run(env, st, calls), keyId)
    ensures Latest(Run(env, st, calls), keyId, v + Rotations(calls, keyId), kind)
  {
    hide Valid, SumsAreExact, Latest, Step, DaysFit;
    if calls != [] {
      var earlier, last := calls[..|calls| - 1], calls[|calls| - 1];
      DaysFitSplits(calls, keyId, st.rotation.rotateEveryDays);
      RunIsExact(env, st, earlier, keyId, v, kind);
      RunValid(env, st, earlier);
      StepIsExact(env, Run(env, st, earlier), last, keyId, v + Rotations(earlier, keyId), kind);
    }
  }

  lemma DaysFitSplits(calls: seq<Call>, keyId: Bytes, period: u32)
    requires DaysFit(calls, keyId, period) && calls != []
    ensures DaysFit(calls[..|calls| - 1], keyId, period)
    ensures DaysFit([calls[|calls| - 1]], keyId, period)
  {
  }

  lemma StepIsExact(env: Env, st: Store, call: Call, keyId: Bytes, v: nat, kind: KeyKind)
    requires Valid(env, st) && SumsAreExact(st, keyId) && Latest(st, keyId, v, kind)
    requires DaysFit([call], keyId, st.rotation.rotateEveryDays)
    requires call.RotateCall? && call.keyId == keyId ==> v + 1 < TWO32
    ensures SumsAreExact(Step(env, st, call), keyId)
    ensures Latest(Step(env, st, call), keyId,
                   if call.RotateCall? && call.keyId == keyId then v + 1 else v, kind)
  {
    hide Valid, SumsAreExact, Latest, Rotate, Revoke;
    assert call in [call];
    if call.RotateCall? && call.keyId == keyId {
      RotateIsExact(env, st, keyId, call.day, call.seed, v, kind);
    } else if call.RevokeCall? && call.keyId == keyId {
      RevokeIsExact(st, keyId, call.version, v, kind);
    } else {
      OtherCall(env, st, call, keyId);
      assert keyId in st.keys by { LatestIsKnown(st, keyId, v, kind); }
      SameBucketIsExact(st, Step(env, st, call), keyId, v, kind);
    }
  }

  lemma LatestIsKnown(st: Store, keyId: Bytes, v: int, kind: KeyKind)
    requires Latest(st, keyId, v, kind)
    ensures keyId in st.keys
  {
  }

  lemma SameBucketIsExact(st: Store, after: Store, keyId: Bytes, v: int, kind: KeyKind)
    requires SumsAreExact(st, keyId) && Latest(st, keyId, v, kind)
    requires Bucket(after, keyId) == Bucket(st, keyId) && after.rotation == st.rotation
    requires keyId in after.keys
    ensures SumsAreExact(after, keyId) && Latest(after, keyId, v, kind)
  {
  }

  lemma {:induction false} RotationsOfPrefix(calls: seq<Call>, keyId: Bytes, i: nat)
    requires i <= |calls|
    ensures Rotations(calls[..i], keyId) <= Rotations(calls, keyId)
    ensures i < |calls| && calls[i].RotateCall? && calls[i].keyId == keyId ==>
      Rotations(calls[..i], keyId) < Rotations(calls, keyId)
  {
    if i == |calls| {
      assert calls[..i] == calls;
    } else {
      var earlier := calls[..|calls| - 1];
      assert earlier[..i] == calls[..i];
      RotationsOfPrefix(earlier, keyId, i);
    }
  }

  /** No `u32` sum wraps at any point of a run of rotations on whatever days, and
      no rotation fails, if at the start the stored sums are exact and the latest
      version plus the rotations to come fits, and twice the period fits after
      every rotation day: after each prefix the stored expiries and the window
      bounds are exact and the latest version is the first one plus the rotations
      so far, and a rotation that comes next yields the version after it. */
  lemma NoOverflow(env: Env, st: Store, calls: seq<Call>, keyId: Bytes, v: nat, kind: KeyKind, i: nat)
    requires Valid(env, st) && SumsAreExact(st, keyId) && Latest(st, keyId, v, kind)
    requires DaysFit(calls, keyId, st.rotation.rotateEveryDays) && v + Rotations(calls, keyId) < TWO32
    requires i <= |calls|
    ensures var now := Run(env, st, calls[..i]);
      && SumsAreExact(now, keyId)
      && Latest(now, keyId, v + Rotations(calls[..i], keyId), kind)
      && (i < |calls| && calls[i].RotateCall? && calls[i].keyId == keyId ==>
            var next := v + Rotations(calls[..i], keyId) + 1;
            && next < TWO32 && calls[i].day + st.rotation.rotateEveryDays < TWO32
            && Rotate(env, now, keyId, calls[i].day, calls[i].seed).1 == Ok(KeyMaterialRef(keyId, next, kind)))
  {
    hide Valid, SumsAreExact, Latest, Rotate, Run;
    RotationsOfPrefix(calls, keyId, i);
    RunIsExact(env, st, calls[..i], keyId, v, kind);
    RunValid(env, st, calls[..i]);
    if i < |calls| && calls[i].RotateCall? && calls[i].keyId == keyId {
      assert calls[i] in calls;
      RotateIsExact(env, Run(env, st, calls[..i]), keyId, calls[i].day, calls[i].seed,
                    v + Rotations(calls[..i], keyId), kind);
    }
  }

  /** The start of such a run: a key generated once, on a day that leaves room. */
  lemma FirstKeyIsExact(env: Env, st: Store, keyId: Bytes, kind: KeyKind, v: u32, day: u32, seed: u64)
    requires Valid(env, st) && keyId !in st.keys && !env.blank(keyId) && v > 0
    requires day + 2 * st.rotation.rotateEveryDays < TWO32
    ensures var after := Step(env, st, GenerateCall(keyId, kind, v, day, seed));
      Valid(env, after) && SumsAreExact(after, keyId) && Latest(after, keyId, v, kind)
  {
    hide Material, Valid;
    ValidRotation(env, st);
    GenerateValid(env, st, keyId, kind, v, day, seed);
    SortSingle(NewKey(env, st.rotation, keyId, kind, v, day, seed));
  }
}

/**
 * Capability tokens of `src/sandbox.rs`: at every point of a run the token map
 * says what the history of grants and revocations says.
 *
 * The `u64` sum of a grant wraps, as it does in a release build.
 */
module Sandbox {
  import opened Octets
  import opened Platform
  import Fnv

  datatype Capability = ReadTensor | RouteToken | AccessKvCache | LoadExpert | Filesystem | Network

  datatype CapabilityToken = CapabilityToken(
    tokenId: Bytes, pluginId: Bytes, capabilities: set<Capability>, issuedStep: u64, expiresStep: u64)

  datatype SandboxConfig = SandboxConfig(allowedSyscalls: set<Bytes>, maxMemoryBytes: u64, maxCpuMillis: u64)

  datatype ResourceUsage = ResourceUsage(memoryBytes: u64, cpuMillis: u64)

  datatype State = State(
    config: Option<SandboxConfig>, tokens: map<Bytes, CapabilityToken>, pluginUsage: map<Bytes, ResourceUsage>)

  const DEFAULT: State := State(None, map[], map[])

  /** The parameters of a grant. */
  datatype Request = Request(pluginId: Bytes, capabilities: set<Capability>, nowStep: u64, ttlSteps: u64, seed: u64)

  function Add64(a: u64, b: u64): u64 {
    if a + b < TWO64 then a + b else a + b - TWO64
  }

  function TokenText(g: Request): Bytes {
    g.pluginId + ['|'] + Decimal(g.nowStep) + ['|'] + Decimal(g.ttlSteps) + ['|'] + Decimal(g.seed)
  }

  function TokenId(g: Request): Bytes {
    Fnv.HashHex(TokenText(g))
  }

  function TokenOf(g: Request): CapabilityToken {
    CapabilityToken(TokenId(g), g.pluginId, g.capabilities, g.nowStep, Add64(g.nowStep, g.ttlSteps))
  }

  predicate Grantable(blank: Bytes -> bool, g: Request) {
    !blank(g.pluginId) && g.ttlSteps != 0
  }

  function Configure(st: State, config: SandboxConfig): (State, Result<()>) {
    if config.maxMemoryBytes == 0 || config.maxCpuMillis == 0 then (st, Err(InvalidConfig))
    else (st.(config := Some(config)), Ok(()))
  }

  function Grant(blank: Bytes -> bool, st: State, g: Request): (State, Result<CapabilityToken>) {
    if !Grantable(blank, g) then (st, Err(InvalidInput))
    else (st.(tokens := st.tokens[TokenId(g) := TokenOf(g)]), Ok(TokenOf(g)))
  }

  function RecordUsage(st: State, pluginId: Bytes, usage: ResourceUsage): (State, Result<()>) {
    if st.config.None? then (st, Err(InvalidState))
    else if usage.memoryBytes > st.config.value.maxMemoryBytes || usage.cpuMillis > st.config.value.maxCpuMillis
    then (st, Err(SandboxDenied))
    else (st.(pluginUsage := st.pluginUsage[pluginId := usage]), Ok(()))
  }

  function Revoke(st: State, tokenId: Bytes): State {
    st.(tokens := st.tokens - {tokenId})
  }

  function Validate(st: State, tokenId: Bytes, pluginId: Bytes, capability: Capability, nowStep: u64): Result<()> {
    if tokenId !in st.tokens then Err(SandboxDenied)
    else
      var token := st.tokens[tokenId];
      if token.pluginId != pluginId || nowStep > token.expiresStep || capability !in token.capabilities
      then Err(SandboxDenied) else Ok(())
  }

  // ---- Runs ----------------------------------------------------------------

  datatype Call =
    | ConfigureCall(config: SandboxConfig)
    | GrantCall(request: Request)
    | UsageCall(pluginId: Bytes, usage: ResourceUsage)
    | RevokeCall(tokenId: Bytes)

  function Step(blank: Bytes -> bool, st: State, call: Call): State {
    match call
    case ConfigureCall(config) => Configure(st, config).0
    case GrantCall(g) => Grant(blank, st, g).0
    case UsageCall(pluginId, usage) => RecordUsage(st, pluginId, usage).0
    case RevokeCall(tokenId) => Revoke(st, tokenId)
  }

  function Run(blank: Bytes -> bool, calls: seq<Call>): State {
    if calls == [] then DEFAULT else Step(blank, Run(blank, calls[..|calls| - 1]), calls[|calls| - 1])
  }

  /** The grant in force for a token id: the most recent successful grant or
      revocation of that id, if it is a grant. */
  function InForce(blank: Bytes -> bool, calls: seq<Call>, tokenId: Bytes): Option<Request> {
    if calls == [] then None
    else
      var earlier := InForce(blank, calls[..|calls| - 1], tokenId);
      match calls[|calls| - 1]
      case GrantCall(g) => if Grantable(blank, g) && TokenId(g) == tokenId then Some(g) else earlier
      case RevokeCall(t) => if t == tokenId then None else earlier
      case _ => earlier
  }

  /** The token map holds exactly the tokens of the grants in force. */
  lemma {:induction false} TokensAreGrantsInForce(blank: Bytes -> bool, calls: seq<Call>, tokenId: Bytes)
    ensures tokenId in Run(blank, calls).tokens <==> InForce(blank, calls, tokenId).Some?
    ensures InForce(blank, calls, tokenId).Some? ==>
      var g := InForce(blank, calls, tokenId).value;
      Grantable(blank, g) && TokenId(g) == tokenId && Run(blank, calls).tokens[tokenId] == TokenOf(g)
  {
    hide TokenId;
    if calls != [] {
      TokensAreGrantsInForce(blank, calls[..|calls| - 1], tokenId);
    }
  }

  /** At every point of a run, a capability validates exactly when the most
      recent successful grant or revocation of that token id was a grant to that
      plugin that includes the capability, and the step is at most the issue
      step plus the time to live. */
  lemma ValidateExact(blank: Bytes -> bool, calls: seq<Call>,
                      tokenId: Bytes, pluginId: Bytes, capability: Capability, nowStep: u64)
    ensures Validate(Run(blank, calls), tokenId, pluginId, capability, nowStep).Ok? <==>
      match InForce(blank, calls, tokenId)
      case None => false
      case Some(g) =>
        && g.pluginId == pluginId && capability in g.capabilities
        && nowStep <= (g.nowStep + g.ttlSteps) % 0x1_0000_0000_0000_0000
    ensures var r := Validate(Run(blank, calls), tokenId, pluginId, capability, nowStep);
      r.Err? ==> r.error == SandboxDenied
  {
    hide TokenId, InForce, Run, Grantable;
    TokensAreGrantsInForce(blank, calls, tokenId);
  }

  /** Every stored token is filed under its own id, and it expires strictly
      after its issue exactly when the sum did not wrap. */
  lemma StoredTokens(blank: Bytes -> bool, calls: seq<Call>, tokenId: Bytes)
    ensures tokenId in Run(blank, calls).tokens ==>
      InForce(blank, calls, tokenId).Some? &&
      var token := Run(blank, calls).tokens[tokenId];
      var g := InForce(blank, calls, tokenId).value;
      && token.tokenId == tokenId && token.issuedStep == g.nowStep
      && (token.issuedStep < token.expiresStep <==> g.nowStep + g.ttlSteps < TWO64)
  {
    TokensAreGrantsInForce(blank, calls, tokenId);
  }

  /** The last valid configuration of a run. */
  function ConfigInForce(calls: seq<Call>): Option<SandboxConfig> {
    if calls == [] then None
    else match calls[|calls| - 1]
      case ConfigureCall(c) =>
        if c.maxMemoryBytes > 0 && c.maxCpuMillis > 0 then Some(c) else ConfigInForce(calls[..|calls| - 1])
      case _ => ConfigInForce(calls[..|calls| - 1])
  }

  /** The last report of a plugin that was within the limits then in force. */
  function UsageInForce(calls: seq<Call>, pluginId: Bytes): Option<ResourceUsage> {
    if calls == [] then None
    else
      var earlier := calls[..|calls| - 1];
      match calls[|calls| - 1]
      case UsageCall(p, usage) =>
        if p == pluginId && ConfigInForce(earlier).Some?
          && usage.memoryBytes <= ConfigInForce(earlier).value.maxMemoryBytes
          && usage.cpuMillis <= ConfigInForce(earlier).value.maxCpuMillis
        then Some(usage) else UsageInForce(earlier, pluginId)
      case _ => UsageInForce(earlier, pluginId)
  }

  /** The recorded usage of a plugin is its last report that was within the
      limits in force when it was made. */
  lemma {:induction false} UsageIsLastAccepted(blank: Bytes -> bool, calls: seq<Call>, pluginId: Bytes)
    ensures Run(blank, calls).config == ConfigInForce(calls)
    ensures pluginId in Run(blank, calls).pluginUsage <==> UsageInForce(calls, pluginId).Some?
    ensures UsageInForce(calls, pluginId).Some? ==>
      Run(blank, calls).pluginUsage[pluginId] == UsageInForce(calls, pluginId).value
  {
    hide TokenId;
    if calls != [] {
      UsageIsLastAccepted(blank, calls[..|calls| - 1], pluginId);
    }
  }

  /** What the operations answer after a run. A refused configuration has a zero
      limit, a refused grant a blank plugin or no time to live, and a usage
      report is refused without a configuration or beyond the limits in force. */
  lemma AnswersAreHistory(blank: Bytes -> bool, calls: seq<Call>, c: SandboxConfig, g: Request,
                          pluginId: Bytes, usage: ResourceUsage)
    ensures Configure(Run(blank, calls), c).1 ==
      if c.maxMemoryBytes == 0 || c.maxCpuMillis == 0 then Err(InvalidConfig) else Ok(())
    ensures Grant(blank, Run(blank, calls), g).1 ==
      if blank(g.pluginId) || g.ttlSteps == 0 then Err(InvalidInput)
      else Ok(CapabilityToken(TokenId(g), g.pluginId, g.capabilities, g.nowStep,
                              (g.nowStep + g.ttlSteps) % 0x1_0000_0000_0000_0000))
    ensures RecordUsage(Run(blank, calls), pluginId, usage).1 ==
      match ConfigInForce(calls)
      case None => Err(InvalidState)
      case Some(limits) =>
        if usage.memoryBytes > limits.maxMemoryBytes || usage.cpuMillis > limits.maxCpuMillis
        then Err(SandboxDenied) else Ok(())
  {
    hide TokenId, ConfigInForce, UsageInForce;
    UsageIsLastAccepted(blank, calls, pluginId);
  }

  /** A token just granted validates for its plugin and its capabilities until it
      expires, and for nothing else; every refusal is a denial. */
  lemma GrantThenValidate(blank: Bytes -> bool, st: State, g: Request,
                          pluginId: Bytes, capability: Capability, nowStep: u64)
    requires !blank(g.pluginId) && g.ttlSteps != 0
    ensures Validate(Grant(blank, st, g).0, TokenId(g), pluginId, capability, nowStep) ==
      if pluginId == g.pluginId && capability in g.capabilities
        && nowStep <= (g.nowStep + g.ttlSteps) % 0x1_0000_0000_0000_0000
      then Ok(()) else Err(SandboxDenied)
  {
    hide TokenId;
  }

  /** The token id hashes a text that reads back from the right. */
  lemma TokenTextReadsBack(g: Request)
    ensures TokenId(g) == Fnv.HashHex(TokenText(g))
    ensures var text3 := TokenText(g);
      var text2 := BeforeLast('|', text3);
      var text1 := BeforeLast('|', text2);
      && DecimalValue(AfterLast('|', text3)) == g.seed
      && DecimalValue(AfterLast('|', text2)) == g.ttlSteps
      && DecimalValue(AfterLast('|', text1)) == g.nowStep
      && BeforeLast('|', text1) == g.pluginId
  {
    hide Decimal, DecimalValue, BeforeLast, AfterLast;
    var text1 := g.pluginId + ['|'] + Decimal(g.nowStep);
    var text2 := text1 + ['|'] + Decimal(g.ttlSteps);
    CutLast('|', text2, Decimal(g.seed));
    CutLast('|', text1, Decimal(g.ttlSteps));
    CutLast('|', g.pluginId, Decimal(g.nowStep));
    DecimalRoundTrip(g.seed);
    DecimalRoundTrip(g.ttlSteps);
    DecimalRoundTrip(g.nowStep);
  }

  /** The text behind a token id determines plugin, step, time to live and seed,
      whatever characters the plugin id holds. */
  lemma TokenTextInjective(g: Request, h: Request)
    requires TokenText(g) == TokenText(h)
    ensures g == h.(capabilities := g.capabilities)
  {
    hide TokenText, BeforeLast, AfterLast, DecimalValue;
    TokenTextReadsBack(g);
    TokenTextReadsBack(h);
  }

  /** Grants that differ in one digit of the seed never share a token id. */
  lemma SeedDigitSeparatesTokens(g: Request, h: Request, i: nat)
    requires h == g.(seed := h.seed)
    requires |Decimal(g.seed)| == |Decimal(h.seed)| && i < |Decimal(g.seed)|
    requires Decimal(g.seed)[i] != Decimal(h.seed)[i]
    requires forall j :: 0 <= j < |Decimal(g.seed)| && j != i ==> Decimal(g.seed)[j] == Decimal(h.seed)[j]
    ensures TokenId(g) != TokenId(h)
  {
    hide Decimal;
    var head := g.pluginId + ['|'] + Decimal(g.nowStep) + ['|'] + Decimal(g.ttlSteps) + ['|'];
    assert TokenText(g) == head + Decimal(g.seed) && TokenText(h) == head + Decimal(h.seed);
    Fnv.OneByteSeparation(TokenText(g), TokenText(h), |head| + i);
  }

  // ---- The runtime object --------------------------------------------------

  class SandboxRuntime {
    const blank: Bytes -> bool
    var config: Option<SandboxConfig>
    var tokens: map<Bytes, CapabilityToken>
    var pluginUsage: map<Bytes, ResourceUsage>

    function View(): State
      reads this
    {
      State(config, tokens, pluginUsage)
    }

    constructor (blank: Bytes -> bool)
      ensures this.blank == blank && View() == DEFAULT
    {
      this.blank := blank;
      config, tokens, pluginUsage := None, map[], map[];
    }

    method ConfigureSandbox(c: SandboxConfig) returns (r: Result<()>)
      modifies this
      ensures (View(), r) == Configure(old(View()), c)
    {
      if c.maxMemoryBytes == 0 || c.maxCpuMillis == 0 { return Err(InvalidConfig); }
      config := Some(c);
      r := Ok(());
    }

    method GrantCapabilities(g: Request) returns (r: Result<CapabilityToken>)
      modifies this
      ensures (View(), r) == Grant(blank, old(View()), g)
    {
      if blank(g.pluginId) { return Err(InvalidInput); }
      if g.ttlSteps == 0 { return Err(InvalidInput); }
      var tokenId := Fnv.Fnv64Hex(TokenText(g));
      var token := CapabilityToken(tokenId, g.pluginId, g.capabilities, g.nowStep, Add64(g.nowStep, g.ttlSteps));
      tokens := tokens[tokenId := token];
      r := Ok(token);
    }

    method ValidateCapability(tokenId: Bytes, pluginId: Bytes, capability: Capability, nowStep: u64)
      returns (r: Result<()>)
      ensures r == Validate(View(), tokenId, pluginId, capability, nowStep)
    {
      if tokenId !in tokens { return Err(SandboxDenied); }
      var token := tokens[tokenId];
      if token.pluginId != pluginId { return Err(SandboxDenied); }
      if nowStep > token.expiresStep { return Err(SandboxDenied); }
      if capability !in token.capabilities { return Err(SandboxDenied); }
      r := Ok(());
    }

    method Record(pluginId: Bytes, usage: ResourceUsage) returns (r: Result<()>)
      modifies this
      ensures (View(), r) == RecordUsage(old(View()), pluginId, usage)
    {
      if config.None? { return Err(InvalidState); }
      if usage.memoryBytes > config.value.maxMemoryBytes { return Err(SandboxDenied); }
      if usage.cpuMillis > config.value.maxCpuMillis { return Err(SandboxDenied); }
      pluginUsage := pluginUsage[pluginId := usage];
      r := Ok(());
    }

    method RevokeToken(tokenId: Bytes)
      modifies this
      ensures View() == Revoke(old(View()), tokenId)
    {
      tokens := tokens - {tokenId};
    }
  }
}

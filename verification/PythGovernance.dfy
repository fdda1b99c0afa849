/** The governance contract: the parameters of the bridge, the nine updates that change them, and
    the check every contract of the execution plan makes on who is calling. */
module PythGovernance {
  import opened Bytes
  import opened Clarity
  import opened StrideScan
  import opened Vaa

  const ERR_UNEXPECTED_ACTION: nat := 4001
  const ERR_UNEXPECTED_ACTION_PAYLOAD: nat := 4002
  const ERR_INVALID_ACTION_PAYLOAD: nat := 4003
  const ERR_UNAUTHORIZED_ACCESS: nat := 4004
  const ERR_OUTDATED: nat := 4005
  const ERR_UNAUTHORIZED_UPDATE: nat := 4006
  const ERR_INVALID_PTGM: nat := 4007

  const PTGM_MAGIC: Buffer := [0x50, 0x54, 0x47, 0x4d]
  const EXPECTED_MODULE: Buffer := [3]
  const MAX_SOURCES: nat := 255

  datatype Fee = Fee(mantissa: nat, exponent: nat)

  datatype Plan = Plan(oracle: Principal, decoder: Principal, storage: Principal, wormhole: Principal)

  /** The execution plan a caller hands to the oracle. */
  datatype PlanArgument = PlanArgument(storage: Principal, decoder: Principal, wormhole: Principal)

  datatype GovState = GovState(
    governanceSource: Emitter, pricesSources: seq<Emitter>, fee: Fee, staleThreshold: nat,
    feeRecipient: Principal, lastSequence: nat, plan: Plan)

  /** The nine update-* entry points. */
  datatype Action =
    | UpdateOracle | UpdateGovernanceSource | UpdatePricesSources | UpdateFee | UpdateStaleThreshold
    | UpdateWormhole | UpdateRecipient | UpdateStore | UpdateDecoder
  {
    function Code(): Byte {
      match this
      case UpdateOracle => 0x00
      case UpdateGovernanceSource => 0x01
      case UpdatePricesSources => 0x02
      case UpdateFee => 0x03
      case UpdateStaleThreshold => 0x04
      case UpdateWormhole => 0x06
      case UpdateRecipient => 0xa0
      case UpdateStore => 0xa1
      case UpdateDecoder => 0xa2
    }
  }

  // ---------- payloads ----------

  datatype Ptgm = Ptgm(action: Buffer, body: Buffer)

  /** parse-and-verify-ptgm up to the sequence check. */
  function ParsePtgm(chainId: Buffer, payload: Buffer): Outcome<Ptgm> {
    var magic :- ReadBuff(Cursor(payload, 0), 4).OrErr(ERR_INVALID_PTGM);
    var mod :- ReadBuff(magic.next, 1).OrErr(ERR_INVALID_PTGM);
    var action :- ReadBuff(mod.next, 1).OrErr(ERR_INVALID_PTGM);
    var target :- ReadBuff(action.next, 2).OrErr(ERR_INVALID_PTGM);
    var body :- ReadRest(target.next).OrErr(ERR_INVALID_PTGM);
    :- Require(magic.value == PTGM_MAGIC, ERR_INVALID_PTGM);
    :- Require(target.value == chainId, ERR_INVALID_PTGM);
    :- Require(mod.value == EXPECTED_MODULE, ERR_INVALID_PTGM);
    Ok(Ptgm(action.value, body.value))
  }

  function ParseFee(body: Buffer): Outcome<Fee> {
    var mantissa :- ReadUint(Cursor(body, 0), 8).OrErr(ERR_INVALID_ACTION_PAYLOAD);
    var exponent :- ReadUint(mantissa.next, 8).OrErr(ERR_INVALID_ACTION_PAYLOAD);
    Ok(Fee(mantissa.value, exponent.value))
  }

  function ParseThreshold(body: Buffer): Outcome<nat> {
    var threshold :- ReadUint(Cursor(body, 0), 8).OrErr(ERR_INVALID_ACTION_PAYLOAD);
    Ok(threshold.value)
  }

  function ParseGovernanceSource(body: Buffer): Outcome<Emitter> {
    var chain :- ReadUint(Cursor(body, 0), 2).OrErr(ERR_INVALID_ACTION_PAYLOAD);
    var address :- ReadBuff(chain.next, 32).OrErr(ERR_INVALID_ACTION_PAYLOAD);
    Ok(Emitter(chain.value, address.value))
  }

  function ParsePrincipal(host: Host, body: Buffer): Outcome<Principal> {
    var len :- ReadUint(Cursor(body, 0), 1).OrErr(ERR_CURSOR);
    host.principal(Slice(len.next, len.value)).OrErr(ERR_UNEXPECTED_ACTION_PAYLOAD)
  }

  /** parse-data-source at one of its stops: chain and address, 34 bytes. */
  function ReadSource(bytes: Buffer, i: nat): Outcome<Item<Emitter>> {
    var chain :- ReadUint(Cursor(bytes, i), 2).OrAbort();
    var address :- ReadBuff(chain.next, 32).OrAbort();
    Ok(Item(Emitter(chain.value, address.value), 34))
  }

  function SourceReader(bytes: Buffer): Reader<Emitter> {
    (i: nat) => ReadSource(bytes, i)
  }

  /** parse-and-verify-prices-data-sources */
  function ParseSources(body: Buffer): Outcome<seq<Emitter>> {
    var count :- ReadUint(Cursor(body, 0), 1).OrErr(ERR_CURSOR);
    var bytes := SliceRest(count.next);
    ScanSources(bytes, count.value)
  }

  function ScanSources(bytes: Buffer, count: nat): Outcome<seq<Emitter>> {
    Scan(SourceReader(bytes), count, MAX_SOURCES, |bytes|)
  }

  function SourceBytes(e: Emitter): Buffer {
    FromUint(e.chain, 2) + e.address
  }

  function SourcesBytes(sources: seq<Emitter>): Buffer {
    if sources == [] then [] else SourceBytes(sources[0]) + SourcesBytes(sources[1..])
  }

  predicate SourceInRange(e: Emitter) {
    e.chain < Pow256(2) && |e.address| == 32
  }

  lemma {:induction false} SourcesBytesAppend(sources: seq<Emitter>, e: Emitter)
    ensures SourcesBytes(sources + [e]) == SourcesBytes(sources) + SourceBytes(e)
  {
    if sources == [] {
      assert SourcesBytes([e]) == SourceBytes(e) + SourcesBytes([]);
    } else {
      SourcesBytesAppend(sources[1..], e);
      assert (sources + [e])[1..] == sources[1..] + [e];
    }
  }

  /** The part of serializePtgmVaaPayloadToBuffer that lists data sources; a list or a chain too big
      for its bytes throws. */
  method SerializeSources(sources: seq<Emitter>) returns (out: Outcome<Buffer>)
    ensures out.Ok? <==> |sources| < 256 && forall e :: e in sources ==> e.chain < Pow256(2)
    ensures out.Ok? ==> out.value == FromUint(|sources|, 1) + SourcesBytes(sources)
  {
    if |sources| >= 256 {
      return Abort;
    }
    var components := [FromUint(|sources|, 1)];
    var i := 0;
    while i < |sources|
      invariant i <= |sources|
      invariant Concat(components) == FromUint(|sources|, 1) + SourcesBytes(sources[..i])
      invariant forall e :: e in sources[..i] ==> e.chain < Pow256(2)
    {
      if sources[i].chain >= Pow256(2) {
        return Abort;
      }
      assert sources[..i + 1] == sources[..i] + [sources[i]];
      SourcesBytesAppend(sources[..i], sources[i]);
      ConcatAppend(components, [FromUint(sources[i].chain, 2), sources[i].address]);
      assert Concat([FromUint(sources[i].chain, 2), sources[i].address]) == SourceBytes(sources[i]) by {
        assert Concat([sources[i].address]) == sources[i].address;
        assert [FromUint(sources[i].chain, 2), sources[i].address][1..] == [sources[i].address];
      }
      components := components + [FromUint(sources[i].chain, 2), sources[i].address];
      i := i + 1;
    }
    assert sources[..i] == sources;
    out := Ok(Concat(components));
  }

  lemma SourceRoundTrip(bytes: Buffer, p: nat, e: Emitter, rest: Buffer)
    requires SourceInRange(e) && Holds(Cursor(bytes, p), SourceBytes(e) + rest)
    ensures p < |bytes| && ReadSource(bytes, p) == Ok(Item(e, 34))
    ensures Holds(Cursor(bytes, p + 34), rest)
  {
    hide FromUint, ToUint;
    assert SourceBytes(e) + rest == FromUint(e.chain, 2) + (e.address + rest);
    ReadsUint(Cursor(bytes, p), e.chain, 2, e.address + rest);
    ReadsBuff(Cursor(bytes, p + 2), e.address, rest);
  }

  lemma {:induction false} SourcesLaidOut(bytes: Buffer, p: nat, sources: seq<Emitter>)
      returns (items: seq<Item<Emitter>>)
    requires forall e :: e in sources ==> SourceInRange(e)
    requires Holds(Cursor(bytes, p), SourcesBytes(sources))
    ensures LaidOut(SourceReader(bytes), |bytes|, p, items) && Values(items) == sources
    decreases |sources|
  {
    items := [];
    if sources == [] {
    } else {
      hide ReadSource, SourceBytes, Holds, SourceInRange;
      SourceRoundTrip(bytes, p, sources[0], SourcesBytes(sources[1..]));
      var rest := SourcesLaidOut(bytes, p + 34, sources[1..]);
      items := [Item(sources[0], 34)] + rest;
      assert items[1..] == rest;
    }
  }

  lemma SourceReaderAdvances(bytes: Buffer)
    ensures Advances(SourceReader(bytes))
  {
  }

  lemma ScanSourcesRoundTrip(sources: seq<Emitter>)
    requires |sources| <= MAX_SOURCES && forall e :: e in sources ==> SourceInRange(e)
    ensures ScanSources(SourcesBytes(sources), |sources|) == Ok(sources)
  {
    SourceReaderAdvances(SourcesBytes(sources));
    hide ReadSource, SourceInRange, SourcesBytes, Advances;
    var bytes := SourcesBytes(sources);
    var items := SourcesLaidOut(bytes, 0, sources);
    ScanRefinesRecords(SourceReader(bytes), |sources|, MAX_SOURCES, |bytes|);
    RecordsOfLaidOut(SourceReader(bytes), |sources|, MAX_SOURCES, |bytes|, 0, items);
    assert Values(items)[..|sources|] == sources;
  }

  /** The 34-byte-stride fold inverts the serializer for every list of up to 255 sources. */
  lemma SourcesRoundTrip(sources: seq<Emitter>)
    requires |sources| <= 255 && forall e :: e in sources ==> SourceInRange(e)
    ensures ParseSources(FromUint(|sources|, 1) + SourcesBytes(sources)) == Ok(sources)
  {
    hide ScanSources, SourcesBytes, SourceInRange, FromUint, ToUint;
    var body := FromUint(|sources|, 1) + SourcesBytes(sources);
    assert Pow256(1) == 256;
    ReadsUint(Cursor(body, 0), |sources|, 1, SourcesBytes(sources));
    ScanSourcesRoundTrip(sources);
  }

  // ---------- the execution flow ----------

  /** check-execution-flow, called by contractCaller, which passes who called it. */
  function CheckFlow(plan: Plan, contractCaller: Principal, former: Principal, argument: Option<PlanArgument>): Check {
    if contractCaller == plan.storage then Require(former == plan.oracle, ERR_UNAUTHORIZED_ACCESS)
    else if contractCaller == plan.decoder then Require(former == plan.oracle, ERR_UNAUTHORIZED_ACCESS)
    else if contractCaller == plan.oracle then
      if argument.None? then Fail(ERR_UNAUTHORIZED_ACCESS)
      else
        Require(argument.value == PlanArgument(plan.storage, plan.decoder, plan.wormhole), ERR_UNAUTHORIZED_ACCESS)
    else Fail(ERR_UNAUTHORIZED_ACCESS)
  }

  /** Under any plan: a contract in the role of store or decoder passes exactly for calls from the plan's
      oracle, any other contract exactly as the plan's oracle with the plan's own three contracts. */
  lemma FlowPassesIff(plan: Plan, contractCaller: Principal, former: Principal, argument: Option<PlanArgument>)
    ensures var flow := CheckFlow(plan, contractCaller, former, argument);
            && (flow == Pass || flow == Fail(4004))
            && (flow == Pass <==>
                  if contractCaller in {plan.storage, plan.decoder} then former == plan.oracle
                  else contractCaller == plan.oracle
                       && argument == Some(PlanArgument(plan.storage, plan.decoder, plan.wormhole)))
  {
  }

  // ---------- updates ----------

  /** The new state an action's body asks for. */
  function Apply(host: Host, g: GovState, action: Action, body: Buffer): Outcome<GovState> {
    match action
    case UpdateFee => var fee :- ParseFee(body); Ok(g.(fee := fee))
    case UpdateStaleThreshold => var threshold :- ParseThreshold(body); Ok(g.(staleThreshold := threshold))
    case UpdateRecipient => var p :- ParsePrincipal(host, body); Ok(g.(feeRecipient := p))
    case UpdateWormhole => var p :- ParsePrincipal(host, body); Ok(g.(plan := g.plan.(wormhole := p)))
    case UpdateOracle => var p :- ParsePrincipal(host, body); Ok(g.(plan := g.plan.(oracle := p)))
    case UpdateDecoder => var p :- ParsePrincipal(host, body); Ok(g.(plan := g.plan.(decoder := p)))
    case UpdateStore => var p :- ParsePrincipal(host, body); Ok(g.(plan := g.plan.(storage := p)))
    case UpdatePricesSources => var sources :- ParseSources(body); Ok(g.(pricesSources := sources))
    case UpdateGovernanceSource => var source :- ParseGovernanceSource(body); Ok(g.(governanceSource := source))
  }

  /** One update-* call, given what the wormhole contract it was passed answered. */
  function Govern(host: Host, chainId: Buffer, g: GovState, action: Action, verified: Outcome<Message>,
                  wormhole: Principal): Outcome<GovState>
  {
    var vaa :- verified;
    var ptgm :- ParsePtgm(chainId, vaa.body.payload);
    :- Require(vaa.body.sequence > g.lastSequence, ERR_OUTDATED);
    var g' := g.(lastSequence := vaa.body.sequence);
    :- Require(ptgm.action == [action.Code()], ERR_UNEXPECTED_ACTION);
    :- Require(g'.governanceSource == vaa.Source(), ERR_UNAUTHORIZED_UPDATE);
    :- Require(wormhole == g'.plan.wormhole, ERR_UNAUTHORIZED_ACCESS);
    Apply(host, g', action, ptgm.body)
  }

  /** The field an action may change, put back to what it was. */
  function Except(g: GovState, g': GovState, action: Action): GovState {
    match action
    case UpdateFee => g'.(fee := g.fee)
    case UpdateStaleThreshold => g'.(staleThreshold := g.staleThreshold)
    case UpdateRecipient => g'.(feeRecipient := g.feeRecipient)
    case UpdateWormhole => g'.(plan := g'.plan.(wormhole := g.plan.wormhole))
    case UpdateOracle => g'.(plan := g'.plan.(oracle := g.plan.oracle))
    case UpdateDecoder => g'.(plan := g'.plan.(decoder := g.plan.decoder))
    case UpdateStore => g'.(plan := g'.plan.(storage := g.plan.storage))
    case UpdatePricesSources => g'.(pricesSources := g.pricesSources)
    case UpdateGovernanceSource => g'.(governanceSource := g.governanceSource)
  }

  /** Chain of authority: an update commits only for a message with a greater sequence number, of
      this action, emitted by the governance source in force before it and verified by the plan's
      wormhole contract; it changes its own field and the sequence number, nothing else. */
  lemma AuthorityStep(host: Host, chainId: Buffer, g: GovState, action: Action, verified: Outcome<Message>,
                      wormhole: Principal)
    requires Govern(host, chainId, g, action, verified, wormhole).Ok?
    ensures var g' := Govern(host, chainId, g, action, verified, wormhole).value;
            && verified.Ok?
            && g.lastSequence < verified.value.body.sequence == g'.lastSequence
            && verified.value.Source() == g.governanceSource
            && wormhole == g.plan.wormhole
            && ParsePtgm(chainId, verified.value.body.payload).Ok?
            && ParsePtgm(chainId, verified.value.body.payload).value.action == [action.Code()]
            && Except(g, g', action) == g.(lastSequence := g'.lastSequence)
            && (action != UpdateFee ==> g'.fee == g.fee)
            && (action != UpdateStaleThreshold ==> g'.staleThreshold == g.staleThreshold)
            && (action != UpdateRecipient ==> g'.feeRecipient == g.feeRecipient)
            && (action != UpdatePricesSources ==> g'.pricesSources == g.pricesSources)
            && (action != UpdateGovernanceSource ==> g'.governanceSource == g.governanceSource)
            && (action != UpdateOracle ==> g'.plan.oracle == g.plan.oracle)
            && (action != UpdateDecoder ==> g'.plan.decoder == g.plan.decoder)
            && (action != UpdateStore ==> g'.plan.storage == g.plan.storage)
            && (action != UpdateWormhole ==> g'.plan.wormhole == g.plan.wormhole)
  {
    hide ParsePtgm, ParseSources, ParsePrincipal, ParseFee, ParseThreshold, ParseGovernanceSource;
  }

  /** No message is accepted by two of the nine entry points. */
  lemma ActionsDiffer(a: Action, b: Action)
    requires a.Code() == b.Code()
    ensures a == b
  {
  }

  // ---------- the contract ----------

  /** What an update-* call returns: the new value, or the whole plan when a contract of it changed. */
  datatype Updated =
    | FeeReport(fee: Fee)
    | ThresholdReport(threshold: nat)
    | RecipientReport(recipient: Principal)
    | PlanReport(plan: Plan)
    | PricesSourcesReport(sources: seq<Emitter>)
    | GovernanceSourceReport(source: Emitter)

  /** The part of the state an action reports. */
  function Reported(g: GovState, action: Action): Updated {
    match action
    case UpdateFee => FeeReport(g.fee)
    case UpdateStaleThreshold => ThresholdReport(g.staleThreshold)
    case UpdateRecipient => RecipientReport(g.feeRecipient)
    case UpdateWormhole => PlanReport(g.plan)
    case UpdateOracle => PlanReport(g.plan)
    case UpdateDecoder => PlanReport(g.plan)
    case UpdateStore => PlanReport(g.plan)
    case UpdatePricesSources => PricesSourcesReport(g.pricesSources)
    case UpdateGovernanceSource => GovernanceSourceReport(g.governanceSource)
  }

  class GovernanceContract {
    var governanceSource: Emitter
    var pricesSources: seq<Emitter>
    var fee: Fee
    var staleThreshold: nat
    var feeRecipient: Principal
    var lastSequence: nat
    var plan: Plan

    constructor (g: GovState)
      ensures State() == g
    {
      governanceSource, pricesSources, fee := g.governanceSource, g.pricesSources, g.fee;
      staleThreshold, feeRecipient, lastSequence, plan := g.staleThreshold, g.feeRecipient, g.lastSequence, g.plan;
    }

    function State(): GovState
      reads this
    {
      GovState(governanceSource, pricesSources, fee, staleThreshold, feeRecipient, lastSequence, plan)
    }

    /** parse-and-verify-ptgm : the sequence number is written here, before the later checks. */
    method ParseAndVerifyPtgm(chainId: Buffer, payload: Buffer, sequence: nat) returns (r: Outcome<Ptgm>)
      modifies this`lastSequence
      ensures r == (match ParsePtgm(chainId, payload)
                    case Ok(ptgm) => if sequence > old(lastSequence) then Ok(ptgm) else Err(ERR_OUTDATED)
                    case Err(code) => Err(code)
                    case Abort => Abort)
      ensures lastSequence == if r.Ok? then sequence else old(lastSequence)
    {
      hide ParsePtgm;
      var ptgm :- ParsePtgm(chainId, payload);
      if sequence <= lastSequence {
        return Err(ERR_OUTDATED);
      }
      lastSequence := sequence;
      r := Ok(ptgm);
    }

    /** Any of the nine calls; a failure after the sequence number was written rolls it back. */
    method Update(host: Host, chainId: Buffer, action: Action, verified: Outcome<Message>, wormhole: Principal)
        returns (r: Outcome<Updated>)
      modifies this
      ensures r.Ok? ==> Govern(host, chainId, old(State()), action, verified, wormhole) == Ok(State())
      ensures r.Ok? ==> r.value == Reported(State(), action)
      ensures !r.Ok? ==> State() == old(State())
      ensures !r.Ok? ==>
                r.PropagateFailure<GovState>() == Govern(host, chainId, old(State()), action, verified, wormhole)
    {
      hide ParsePtgm, ParseSources, ParsePrincipal, ParseFee, ParseThreshold, ParseGovernanceSource;
      var before := lastSequence;
      var vaa :- verified;
      var ptgm :- ParseAndVerifyPtgm(chainId, vaa.body.payload, vaa.body.sequence);
      if ptgm.action != [action.Code()] {
        lastSequence := before;
        return Err(ERR_UNEXPECTED_ACTION);
      }
      if governanceSource != vaa.Source() {
        lastSequence := before;
        return Err(ERR_UNAUTHORIZED_UPDATE);
      }
      if wormhole != plan.wormhole {
        lastSequence := before;
        return Err(ERR_UNAUTHORIZED_ACCESS);
      }
      r := SetField(host, action, ptgm.body);
      if !r.Ok? {
        lastSequence := before;
      }
    }

    method SetField(host: Host, action: Action, body: Buffer) returns (r: Outcome<Updated>)
      modifies this
      ensures r.Ok? ==> Apply(host, old(State()), action, body) == Ok(State()) && r.value == Reported(State(), action)
      ensures !r.Ok? ==> State() == old(State())
      ensures !r.Ok? ==> r.PropagateFailure<GovState>() == Apply(host, old(State()), action, body)
    {
      hide ParseSources, ParsePrincipal, ParseFee, ParseThreshold, ParseGovernanceSource;
      match action {
        case UpdateFee =>
          fee :- ParseFee(body);
          r := Ok(FeeReport(fee));
        case UpdateStaleThreshold =>
          staleThreshold :- ParseThreshold(body);
          r := Ok(ThresholdReport(staleThreshold));
        case UpdateRecipient =>
          feeRecipient :- ParsePrincipal(host, body);
          r := Ok(RecipientReport(feeRecipient));
        case UpdateWormhole =>
          var p :- ParsePrincipal(host, body);
          plan := plan.(wormhole := p);
          r := Ok(PlanReport(plan));
        case UpdateOracle =>
          var p :- ParsePrincipal(host, body);
          plan := plan.(oracle := p);
          r := Ok(PlanReport(plan));
        case UpdateDecoder =>
          var p :- ParsePrincipal(host, body);
          plan := plan.(decoder := p);
          r := Ok(PlanReport(plan));
        case UpdateStore =>
          var p :- ParsePrincipal(host, body);
          plan := plan.(storage := p);
          r := Ok(PlanReport(plan));
        case UpdatePricesSources =>
          pricesSources :- ParseSources(body);
          r := Ok(PricesSourcesReport(pricesSources));
        case UpdateGovernanceSource =>
          governanceSource :- ParseGovernanceSource(body);
          r := Ok(GovernanceSourceReport(governanceSource));
      }
    }
  }
}

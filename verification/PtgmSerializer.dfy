/** The governance messages the helpers serialize, and what they do once they are executed. */
module PtgmSerializer {
  import opened Bytes
  import opened Clarity
  import opened Vaa
  import opened PythGovernance

  /** What a governance message asks for. A principal travels in its consensus encoding. */
  datatype Change =
    | NewFee(fee: Fee)
    | NewThreshold(threshold: nat)
    | NewGovernanceSource(source: Emitter)
    | NewPricesSources(sources: seq<Emitter>)
    | NewRecipient(principal: Principal, encoded: Buffer)
    | NewOracle(principal: Principal, encoded: Buffer)
    | NewDecoder(principal: Principal, encoded: Buffer)
    | NewStore(principal: Principal, encoded: Buffer)
    | NewWormhole(principal: Principal, encoded: Buffer)
  {
    /** The entry point that executes it. */
    function Action(): PythGovernance.Action {
      match this
      case NewFee(_) => UpdateFee
      case NewThreshold(_) => UpdateStaleThreshold
      case NewGovernanceSource(_) => UpdateGovernanceSource
      case NewPricesSources(_) => UpdatePricesSources
      case NewRecipient(_, _) => UpdateRecipient
      case NewOracle(_, _) => UpdateOracle
      case NewDecoder(_, _) => UpdateDecoder
      case NewStore(_, _) => UpdateStore
      case NewWormhole(_, _) => UpdateWormhole
    }

    /** The action code buildPtgmVaaPayload picks for it. */
    function Code(): Byte {
      match this
      case NewFee(_) => 0x03
      case NewRecipient(_, _) => 0xa0
      case NewOracle(_, _) => 0x00
      case NewWormhole(_, _) => 0x06
      case NewThreshold(_) => 0x04
      case NewDecoder(_, _) => 0xa2
      case NewStore(_, _) => 0xa1
      case NewPricesSources(_) => 0x02
      case NewGovernanceSource(_) => 0x01
    }

    /** What the call that executes it returns. */
    function Answer(g: GovState): Updated {
      match this
      case NewFee(fee) => FeeReport(fee)
      case NewThreshold(threshold) => ThresholdReport(threshold)
      case NewGovernanceSource(source) => GovernanceSourceReport(source)
      case NewPricesSources(sources) => PricesSourcesReport(sources)
      case NewRecipient(p, _) => RecipientReport(p)
      case NewOracle(p, _) => PlanReport(g.plan.(oracle := p))
      case NewDecoder(p, _) => PlanReport(g.plan.(decoder := p))
      case NewStore(p, _) => PlanReport(g.plan.(storage := p))
      case NewWormhole(p, _) => PlanReport(g.plan.(wormhole := p))
    }

    predicate InRange(host: Host) {
      match this
      case NewFee(fee) => fee.mantissa < Pow256(8) && fee.exponent < Pow256(8)
      case NewThreshold(threshold) => threshold < Pow256(8)
      case NewGovernanceSource(source) => SourceInRange(source)
      case NewPricesSources(sources) => |sources| <= MAX_SOURCES && forall e :: e in sources ==> SourceInRange(e)
      case NewRecipient(p, encoded) => Encodes(host, p, encoded)
      case NewOracle(p, encoded) => Encodes(host, p, encoded)
      case NewDecoder(p, encoded) => Encodes(host, p, encoded)
      case NewStore(p, encoded) => Encodes(host, p, encoded)
      case NewWormhole(p, encoded) => Encodes(host, p, encoded)
    }

    /** The body serializePtgmVaaPayloadToBuffer writes. */
    function Body(): Buffer {
      match this
      case NewFee(fee) => FromUint(fee.mantissa, 8) + FromUint(fee.exponent, 8)
      case NewThreshold(threshold) => FromUint(threshold, 8)
      case NewGovernanceSource(source) => SourceBytes(source)
      case NewPricesSources(sources) => FromUint(|sources|, 1) + SourcesBytes(sources)
      case NewRecipient(_, encoded) => FromUint(|encoded|, 1) + encoded
      case NewOracle(_, encoded) => FromUint(|encoded|, 1) + encoded
      case NewDecoder(_, encoded) => FromUint(|encoded|, 1) + encoded
      case NewStore(_, encoded) => FromUint(|encoded|, 1) + encoded
      case NewWormhole(_, encoded) => FromUint(|encoded|, 1) + encoded
    }

    /** The state it asks for. */
    function Applied(g: GovState): GovState {
      match this
      case NewFee(fee) => g.(fee := fee)
      case NewThreshold(threshold) => g.(staleThreshold := threshold)
      case NewGovernanceSource(source) => g.(governanceSource := source)
      case NewPricesSources(sources) => g.(pricesSources := sources)
      case NewRecipient(p, _) => g.(feeRecipient := p)
      case NewOracle(p, _) => g.(plan := g.plan.(oracle := p))
      case NewDecoder(p, _) => g.(plan := g.plan.(decoder := p))
      case NewStore(p, _) => g.(plan := g.plan.(storage := p))
      case NewWormhole(p, _) => g.(plan := g.plan.(wormhole := p))
    }
  }

  predicate Encodes(host: Host, p: Principal, encoded: Buffer) {
    |encoded| < 256 && host.principal(encoded) == Some(p)
  }

  /** serializePtgmVaaPayloadToBuffer */
  function PtgmBytes(magic: Buffer, mod: Byte, action: Byte, chainId: nat, body: Buffer): Buffer {
    magic + ([mod] + ([action] + (FromUint(chainId, 2) + body)))
  }

  /** The envelope is taken back, or rejected when magic, module or chain is another. */
  lemma PtgmRoundTrip(expected: Buffer, magic: Buffer, mod: Byte, action: Byte, chainId: nat, body: Buffer)
    requires |magic| == 4
    ensures ParsePtgm(expected, PtgmBytes(magic, mod, action, chainId, body))
            == if magic == PTGM_MAGIC && FromUint(chainId, 2) == expected && mod == 3 then Ok(Ptgm([action], body))
               else Err(ERR_INVALID_PTGM)
  {
    hide FromUint;
    var c := Cursor(PtgmBytes(magic, mod, action, chainId, body), 0);
    var r2 := FromUint(chainId, 2) + body;
    var r1 := [action] + r2;
    ReadsBuff(c, magic, [mod] + r1);
    ReadsBuff(Skip(c, 4), [mod], r1);
    ReadsBuff(Skip(c, 5), [action], r2);
    ReadsBuff(Skip(c, 6), FromUint(chainId, 2), body);
  }

  lemma PrincipalRoundTrip(host: Host, p: Principal, encoded: Buffer)
    requires Encodes(host, p, encoded)
    ensures ParsePrincipal(host, FromUint(|encoded|, 1) + encoded) == Ok(p)
  {
    hide FromUint, ToUint;
    assert Pow256(1) == 256;
    var c := Cursor(FromUint(|encoded|, 1) + encoded, 0);
    assert encoded + [] == encoded;
    ReadsUint(c, |encoded|, 1, encoded);
    ReadsBuff(Skip(c, 1), encoded, []);
  }

  /** Each of the nine bodies, serialized and parsed back, makes exactly the change it was made for. */
  lemma ChangeRoundTrip(host: Host, g: GovState, change: Change)
    requires change.InRange(host)
    ensures Apply(host, g, change.Action(), change.Body()) == Ok(change.Applied(g))
  {
    hide FromUint, ToUint, SourcesBytes, ParseSources, ParsePrincipal, Encodes;
    match change
    case NewFee(fee) =>
      var c := Cursor(change.Body(), 0);
      assert FromUint(fee.exponent, 8) + [] == FromUint(fee.exponent, 8);
      ReadsUint(c, fee.mantissa, 8, FromUint(fee.exponent, 8));
      ReadsUint(Skip(c, 8), fee.exponent, 8, []);
    case NewThreshold(threshold) =>
      assert FromUint(threshold, 8) + [] == FromUint(threshold, 8);
      ReadsUint(Cursor(change.Body(), 0), threshold, 8, []);
    case NewGovernanceSource(source) =>
      var c := Cursor(change.Body(), 0);
      assert source.address + [] == source.address;
      ReadsUint(c, source.chain, 2, source.address);
      ReadsBuff(Skip(c, 2), source.address, []);
    case NewPricesSources(sources) => SourcesRoundTrip(sources);
    case NewRecipient(p, encoded) => PrincipalRoundTrip(host, p, encoded);
    case NewOracle(p, encoded) => PrincipalRoundTrip(host, p, encoded);
    case NewDecoder(p, encoded) => PrincipalRoundTrip(host, p, encoded);
    case NewStore(p, encoded) => PrincipalRoundTrip(host, p, encoded);
    case NewWormhole(p, encoded) => PrincipalRoundTrip(host, p, encoded);
  }

  /** What the entry point of an action answers to a verified message serialized by the helpers, in the
      order of its checks; if it executes the message it makes exactly its change and reports it. */
  lemma GovernExecutesIff(host: Host, chain: Buffer, g: GovState, action: PythGovernance.Action, vaa: Message,
                          wormhole: Principal, magic: Buffer, mod: Byte, chainId: nat, change: Change)
    requires change.InRange(host) && |magic| == 4
    requires vaa.body.payload == PtgmBytes(magic, mod, change.Code(), chainId, change.Body())
    ensures Govern(host, chain, g, action, Ok(vaa), wormhole)
            == if magic != [0x50, 0x54, 0x47, 0x4d] || FromUint(chainId, 2) != chain || mod != 3 then Err(4007)
               else if vaa.body.sequence <= g.lastSequence then Err(4005)
               else if action != change.Action() then Err(4001)
               else if Emitter(vaa.body.emitterChain, vaa.body.emitterAddress) != g.governanceSource then Err(4006)
               else if wormhole != g.plan.wormhole then Err(4004)
               else Ok(change.Applied(g.(lastSequence := vaa.body.sequence)))
    ensures Reported(change.Applied(g), change.Action()) == change.Answer(g)
  {
    hide FromUint, ParsePtgm, Apply;
    PtgmRoundTrip(chain, magic, mod, change.Code(), chainId, change.Body());
    ChangeRoundTrip(host, g.(lastSequence := vaa.body.sequence), change);
    if action != change.Action() && action.Code() == change.Code() {
      ActionsDiffer(action, change.Action());
    }
  }

  /** Truncated envelopes and bodies. */
  lemma TruncatedMessages(host: Host, chain: Buffer, b: Buffer)
    ensures |b| < 8 ==> ParsePtgm(chain, b) == Err(4007)
    ensures ParseFee(b) == if |b| < 16 then Err(4003) else Ok(Fee(ToUint(b[0..8]), ToUint(b[8..16])))
    ensures ParseThreshold(b) == if |b| < 8 then Err(4003) else Ok(ToUint(b[0..8]))
    ensures ParseGovernanceSource(b) == if |b| < 34 then Err(4003) else Ok(Emitter(ToUint(b[0..2]), b[2..34]))
    ensures b == [] ==> ParsePrincipal(host, b) == Err(1) && ParseSources(b) == Err(1)
    ensures b != [] ==>
              ParsePrincipal(host, b)
              == var p := host.principal(if 1 + b[0] <= |b| then b[1..1 + b[0]] else []);
                 if p.Some? then Ok(p.value) else Err(4002)
  {
    hide ToUint, ScanSources;
    if b != [] {
      assert b[0..1] == [b[0]];
      OneByte(b[0]);
    }
  }
}

/** A price update from the batch of its publisher to the store of the chain. */
module BridgeEndToEnd {
  import opened Bytes
  import opened Clarity
  import opened StrideScan
  import opened PriceMessage
  import opened Merkle
  import opened PriceRecords
  import opened Vaa
  import opened WormholeCore
  import opened PnauDecoder
  import opened PnauSerializer
  import opened PythGovernance
  import opened PythStore
  import opened StoreOrder
  import opened PythOracle
  import opened BridgeFees
  import opened BridgeRuns
  import opened PtgmSerializer

  const OWN_ARGUMENT: PlanArgument := PlanArgument(STORE, DECODER, WORMHOLE)

  /** The message the helpers serialize for a VAA and a choice of updates. */
  function Submission(h: Header, body: Body, batch: seq<BatchItem>, submit: seq<nat>): Buffer {
    PnauBytes(GOOD_HEADER, VaaBytes(h, body), |submit|, Entries(Submitted(batch, submit)))
  }

  /** The updates that come back: the chosen ones, at most as many as announced. */
  function Chosen(batch: seq<BatchItem>, submit: seq<nat>): seq<PriceUpdate> {
    var chosen := Submitted(batch, submit);
    Updates(chosen)[..Min(|submit|, |chosen|)]
  }

  /** What fits the one-, two- and eight-byte fields of the message. */
  ghost predicate Sendable(keccak: Keccak, h: Header, body: Body, batch: seq<BatchItem>, submit: seq<nat>,
                           slot: nat, ringSize: nat)
  {
    && |batch| > 0 && WellBuilt(keccak, batch) && Height(|batch|) <= MAX_PROOF
    && h.InRange() && BodyInRange(body) && |VaaBytes(h, body)| < 65536
    && |submit| < 256
    && slot < Pow256(8) && ringSize < 65536
    && body.payload == AuwvBytes(AUWV_MAGIC, 0, slot, ringSize, Root(keccak, HashLeaves(keccak, Serialized(batch))))
  }

  /** The decoder returns the chosen updates exactly when they are at most 64, the verifier accepts the
      VAA and its source is authorised. */
  lemma SubmissionDecodes(host: Host, w: WormholeState, foreign: Foreign, sources: seq<Emitter>, h: Header, body: Body,
                          batch: seq<BatchItem>, submit: seq<nat>, slot: nat, ringSize: nat)
    requires Sendable(host.keccak256, h, body, batch, submit, slot, ringSize)
    ensures var decoded := DecodePnau(host.keccak256, VerifierAt(host, w, WORMHOLE, foreign), sources,
                                      Submission(h, body, batch, submit));
            && (decoded.Ok? <==>
                  && |Chosen(batch, submit)| <= MAX_UPDATES
                  && QuorumSigned(host, w, h, body) && Emitter(body.emitterChain, body.emitterAddress) in sources)
            && (decoded.Ok? ==> decoded.value == Chosen(batch, submit))
  {
    hide Verify, VaaBytes, QuorumSigned, WellBuilt, ParsePnau, PnauPrefix, RecordsBytes, ParseMerkleRoot, AuwvBytes,
         ParseAndVerifyUpdates, Root, FromUint;
    var verify := VerifierAt(host, w, WORMHOLE, foreign);
    var vaa := VaaBytes(h, body);
    SerializedVerifiesIff(host, w, h, body);
    PnauRoundTrip(GOOD_HEADER, vaa, |submit|, RecordsBytes(Entries(Submitted(batch, submit))));
    if verify(vaa).Ok? && verify(vaa).value.Source() in sources {
      EndToEnd(host.keccak256, verify, sources, batch, submit, vaa, slot, ringSize);
    }
  }

  /** Every update in range can be sent, alone, under any header and body in range, and then fits. */
  lemma AnyUpdateIsSendable(keccak: Keccak, h: Header, base: Body, u: PriceUpdate, ref: nat)
      returns (batch: seq<BatchItem>, body: Body)
    requires h.InRange() && BodyInRange(base) && u.InRange()
    ensures Sendable(keccak, h, body, batch, [ref], 0, 0)
    ensures Chosen(batch, [ref]) == [u] && |Submission(h, body, batch, [ref])| <= MAX_INPUT
  {
    hide FieldBytes, LeafBytes, FromUint;
    var leaf := LeafBytes(u);
    batch := [BatchItem(ref, u, leaf, [])];
    var root := Root(keccak, HashLeaves(keccak, Serialized(batch)));
    body := base.(payload := AuwvBytes(AUWV_MAGIC, 0, 0, 0, root));
    assert Submitted(batch[1..], [ref]) == [];
    assert Submitted(batch, [ref]) == batch;
    ConcatWidth(h.signatures, 66);
    assert |VaaBytes(h, body)| <= 57 + 66 * MAX_GUARDIANS + 37;
    SingleFits(h, body, batch[0], ref);
  }

  lemma SingleFits(h: Header, body: Body, item: BatchItem, ref: nat)
    requires item.ref == ref && |item.serialized| == MESSAGE_SIZE && item.proof == []
    ensures |Submission(h, body, [item], [ref])| == 99 + |VaaBytes(h, body)|
  {
    hide FromUint, VaaBytes;
    assert Submitted([item][1..], [ref]) == [];
    assert Submitted([item], [ref]) == [item];
    var entries := Entries([item]);
    assert entries[0] == item.Entry() && entries[1..] == [];
    assert |RecordsBytes(entries)| == |item.Entry().Record()| + |RecordsBytes(entries[1..])| == 88;
  }

  /** The update is not older than the threshold in force allows and newer than what the store has. */
  ghost predicate Storable(b: Bridge, ctx: Context, u: PriceUpdate) {
    && ctx.latestBlock.Some?
    && u.publishTime + b.gov.staleThreshold >= ctx.latestBlock.value
    && u.publishTime > (if u.priceIdentifier in b.store.timestamps then b.store.timestamps[u.priceIdentifier] else 0)
  }

  lemma StorableIsEligible(b: Bridge, ctx: Context, u: PriceUpdate)
    ensures Storable(b, ctx, u) <==> Eligible(b.store, Clock(ctx.latestBlock, b.gov.staleThreshold), u)
  {
  }

  /** Under the plan of this repository, an update call with a serialized batch commits exactly when it
      fits the input buffer, at most 64 records come back, a quorum of the active guardian set signed
      it, its source is authorised, one of its updates is storable, the threshold does not reach before
      time zero and the fee of what gets accepted can be paid. Then it returns exactly the updates that
      are storable and newer than every storable one of their feed before them, in the next state each
      feed holds the storable update with the greatest time, and a call that fails leaves the state as
      it was. */
  lemma UpdateCommitsIff(cfg: Config, b: Bridge, ctx: Context, h: Header, body: Body,
                         batch: seq<BatchItem>, submit: seq<nat>, slot: nat, ringSize: nat)
    requires b.gov.plan == OWN_PLAN
    requires Sendable(cfg.host.keccak256, h, body, batch, submit, slot, ringSize)
    ensures var bytes, updates := Submission(h, body, batch, submit), Chosen(batch, submit);
            var tx := Transaction(ctx, UpdatePrices(bytes, PlanArgument(STORE, DECODER, WORMHOLE)));
            var effect, b' := Execute(cfg, b, tx), Next(cfg, b, tx);
            var clock := Clock(ctx.latestBlock, b.gov.staleThreshold);
            && (effect.Ok? <==>
                  && |bytes| <= 8192 && |updates| <= 64
                  && QuorumSigned(cfg.host, b.wormhole, h, body)
                  && Emitter(body.emitterChain, body.emitterAddress) in b.gov.pricesSources
                  && (exists u :: u in updates && Storable(b, ctx, u))
                  && 0 <= ctx.latestBlock.value - b.gov.staleThreshold < U128_LIMIT
                  && Payable(b, ctx, AcceptedCount(b.store, clock, updates)))
            && (effect.Ok? ==>
                  && effect.value.returned == TakenOf(b.store, clock, updates, |updates|)
                  && forall id :: FinalFor(b.store, clock, updates, id, b'.store))
            && (!effect.Ok? ==> b' == b)
  {
    hide DecodePnau, Submission, Chosen, Sendable, QuorumSigned, WriteAll, Eligible, FinalFor, FeeFor, Transfer,
         Payable, TakenOf, Storable;
    var clock := Clock(ctx.latestBlock, b.gov.staleThreshold);
    SubmissionDecodes(cfg.host, b.wormhole, ctx.foreign, b.gov.pricesSources, h, body, batch, submit, slot, ringSize);
    WriteCommitsIff(b.store, clock, Chosen(batch, submit));
    ChargedIff(b, ctx, AcceptedCount(b.store, clock, Chosen(batch, submit)));
    forall u: PriceUpdate
      ensures Storable(b, ctx, u) <==> Eligible(b.store, clock, u)
    {
      StorableIsEligible(b, ctx, u);
    }
  }

  /** In a run, the state right after a serialized update has committed holds, for each feed, the newest
      storable one of its updates. */
  lemma UpdateReached(cfg: Config, b0: Bridge, txs: seq<Transaction>, ctx: Context, h: Header, body: Body,
                      batch: seq<BatchItem>, submit: seq<nat>, slot: nat, ringSize: nat)
    requires Reached(cfg, b0, txs).gov.plan == OWN_PLAN
    requires Sendable(cfg.host.keccak256, h, body, batch, submit, slot, ringSize)
    ensures var b := Reached(cfg, b0, txs);
            var tx := Transaction(ctx, UpdatePrices(Submission(h, body, batch, submit), OWN_ARGUMENT));
            Execute(cfg, b, tx).Ok? ==>
              forall id :: FinalFor(b.store, Clock(ctx.latestBlock, b.gov.staleThreshold), Chosen(batch, submit), id,
                                    Reached(cfg, b0, txs + [tx]).store)
  {
    var b := Reached(cfg, b0, txs);
    var tx := Transaction(ctx, UpdatePrices(Submission(h, body, batch, submit), OWN_ARGUMENT));
    assert Reached(cfg, b0, txs + [tx]) == Next(cfg, b, tx) by {
      assert (txs + [tx])[..|txs + [tx]| - 1] == txs;
    }
    hide Sendable, Submission, Chosen, Execute, QuorumSigned, Payable, Storable, TakenOf, FinalFor, Reached, Next;
    UpdateCommitsIff(cfg, b, ctx, h, body, batch, submit, slot, ringSize);
  }

  /** Under the plan of this repository, what an update call answers to any bytes, in the order of its
      steps: the argument, the flow, the decoder, the store, the fee. */
  lemma UpdateOutcome(cfg: Config, b: Bridge, ctx: Context, bytes: Buffer, plan: PlanArgument)
    requires b.gov.plan == OWN_PLAN
    ensures var r := Execute(cfg, b, Transaction(ctx, UpdatePrices(bytes, plan)));
            var decoded := DecodePnau(cfg.host.keccak256, VerifierAt(cfg.host, b.wormhole, WORMHOLE, ctx.foreign),
                                      b.gov.pricesSources, bytes);
            var clock := Clock(ctx.latestBlock, b.gov.staleThreshold);
            if |bytes| > 8192 then r == Abort
            else if plan != PlanArgument(STORE, DECODER, WORMHOLE) then r == Err(4004)
            else if !decoded.Ok? then r == decoded.PropagateFailure()
            else
              var written := WriteAll(b.store, clock, decoded.value);
              if written.Abort? then r == Abort
              else if forall u :: u in decoded.value ==> !Storable(b, ctx, u) then r == Err(5003)
              else if FeeFor(b.gov.fee, AcceptedCount(b.store, clock, decoded.value)).Abort? then r == Abort
              else if !Payable(b, ctx, AcceptedCount(b.store, clock, decoded.value)) then r == Err(402)
              else r.Ok?
  {
    hide DecodePnau, WriteAll, FeeFor, Payable, Storable, Eligible, TakenOf;
    var clock := Clock(ctx.latestBlock, b.gov.staleThreshold);
    var decoded := DecodePnau(cfg.host.keccak256, VerifierAt(cfg.host, b.wormhole, WORMHOLE, ctx.foreign),
                              b.gov.pricesSources, bytes);
    if decoded.Ok? {
      WriteOutcome(b.store, clock, Pass, decoded.value);
      forall u: PriceUpdate
        ensures Storable(b, ctx, u) <==> Eligible(b.store, clock, u)
      {
        StorableIsEligible(b, ctx, u);
      }
      if WriteAll(b.store, clock, decoded.value).Ok? {
        AcceptedAreTaken(b.store, clock, decoded.value);
      } else {
        AbortsIff(b.store, clock, decoded.value);
      }
      ChargedIff(b, ctx, AcceptedCount(b.store, clock, decoded.value));
      FeeNeverErr(b.gov.fee, AcceptedCount(b.store, clock, decoded.value));
    }
  }

  lemma FeeNeverErr(fee: Fee, count: nat)
    ensures !FeeFor(fee, count).Err?
  {
  }

  /** A write sent straight to the store, under whatever plan: it is answered by its size, then by the
      writes, then by who sent it, then by whether anything was accepted; and it commits for the plan's
      oracle alone, with the threshold in force. */
  lemma DirectWriteOutcome(cfg: Config, b: Bridge, ctx: Context, batch: seq<PriceUpdate>)
    ensures var tx := Transaction(ctx, WritePrices(batch));
            var r, b' := Execute(cfg, b, tx), Next(cfg, b, tx);
            var clock := Clock(ctx.latestBlock, b.gov.staleThreshold);
            if |batch| > 64 || WriteAll(b.store, clock, batch).Abort? then r == Abort && b' == b
            else if STORE !in {b.gov.plan.storage, b.gov.plan.decoder} || ctx.caller != b.gov.plan.oracle then
              r == Err(4004) && b' == b
            else if forall u :: u in batch ==> !Storable(b, ctx, u) then r == Err(5003) && b' == b
            else
              && r.Ok? && r.value.returned == TakenOf(b.store, clock, batch, |batch|)
              && b' == b.(store := b'.store)
              && forall id :: FinalFor(b.store, clock, batch, id, b'.store)
  {
    hide WriteAll, Storable, Eligible, TakenOf, FinalFor, CheckFlow;
    var clock := Clock(ctx.latestBlock, b.gov.staleThreshold);
    var flow := CheckFlow(b.gov.plan, STORE, ctx.caller, None);
    FlowPassesIff(b.gov.plan, STORE, ctx.caller, None);
    WriteOutcome(b.store, clock, flow, batch);
    WriteCommitsIff(b.store, clock, batch);
    WriteOutcome(b.store, clock, Pass, batch);
    AbortsIff(b.store, clock, batch);
    forall u: PriceUpdate
      ensures Storable(b, ctx, u) <==> Eligible(b.store, clock, u)
    {
      StorableIsEligible(b, ctx, u);
    }
  }

  /** Right after deployment: ten units of fee for each update returned, two hours of threshold on mainnet
      and five years elsewhere, any sequence number but 0 is new, and the plan is the repository's. */
  lemma AtDeployment(cfg: Config, count: nat)
    ensures var g := cfg.InitialGovernance();
            && FeeAmount(g.fee, count) == 10 * count
            && g.staleThreshold == (if cfg.mainnet then 7200 else 157680000)
            && g.lastSequence == 0
            && g.plan == Plan(ORACLE, DECODER, STORE, WORMHOLE)
            && |g.pricesSources| == 3 && g.governanceSource !in g.pricesSources
  {
    assert Pow10(1) == 10 * Pow10(0);
    var g := cfg.InitialGovernance();
    assert g.governanceSource.address[0] == 0x56;
    assert g.pricesSources[0].address[0] == 0x6b && g.pricesSources[1].chain == 26 && g.pricesSources[2].chain == 26;
  }

  /** decode-price-feeds with a serialized batch commits exactly when it fits the input buffer, at most 64
      records come back, a quorum signed it, its source is authorised and the fee for all of them can
      be paid. Then it returns the chosen updates and changes balances alone. */
  lemma DecodeCommitsIff(cfg: Config, b: Bridge, ctx: Context, h: Header, body: Body,
                         batch: seq<BatchItem>, submit: seq<nat>, slot: nat, ringSize: nat)
    requires b.gov.plan == OWN_PLAN
    requires Sendable(cfg.host.keccak256, h, body, batch, submit, slot, ringSize)
    ensures var bytes, updates := Submission(h, body, batch, submit), Chosen(batch, submit);
            var tx := Transaction(ctx, DecodePrices(bytes, PlanArgument(STORE, DECODER, WORMHOLE)));
            var effect, b' := Execute(cfg, b, tx), Next(cfg, b, tx);
            && (effect.Ok? <==>
                  && |bytes| <= 8192 && |updates| <= 64
                  && QuorumSigned(cfg.host, b.wormhole, h, body)
                  && Emitter(body.emitterChain, body.emitterAddress) in b.gov.pricesSources
                  && Payable(b, ctx, |updates|))
            && (effect.Ok? ==> effect.value.returned == updates && b' == b.(stx := b'.stx))
            && (!effect.Ok? ==> b' == b)
  {
    hide DecodePnau, Submission, Chosen, Sendable, QuorumSigned, FeeFor, Transfer, Payable;
    SubmissionDecodes(cfg.host, b.wormhole, ctx.foreign, b.gov.pricesSources, h, body, batch, submit, slot, ringSize);
    ChargedIff(b, ctx, |Chosen(batch, submit)|);
  }

  /** What a batch gets accepted and leaves in the store, and when it commits at all, said of the
      batch and the state before it. */
  lemma WriteCommitsIff(s: StoreState, clock: Clock, updates: seq<PriceUpdate>)
    ensures Write(s, clock, Pass, updates).Ok? <==>
              (exists u :: u in updates && Eligible(s, clock, u))
              && 0 <= clock.latest.value - clock.staleThreshold < U128_LIMIT
    ensures Write(s, clock, Pass, updates).Ok? ==>
              && Write(s, clock, Pass, updates).value.accepted == TakenOf(s, clock, updates, |updates|)
              && forall id :: FinalFor(s, clock, updates, id, Write(s, clock, Pass, updates).value.store)
  {
    hide WriteAll, FinalFor, TakenOf;
    AbortsIff(s, clock, updates);
    if WriteAll(s, clock, updates).Ok? {
      AcceptsIff(s, clock, updates);
      AcceptedAreTaken(s, clock, updates);
      forall id: Buffer
        ensures FinalFor(s, clock, updates, id, WriteAll(s, clock, updates).value.store)
      {
        FinalState(s, clock, updates, id);
      }
    }
  }

  /** A guardian rotation as a transaction: besides what the contract checks, the VAA must fit its
      2048-byte argument. */
  lemma RotationCommitsIff(cfg: Config, b: Bridge, ctx: Context, h: Header, body: Body, keys: seq<KeyArgument>,
                           mod: Buffer, action: nat, chain: nat, setId: nat, addresses: seq<Hash160>)
    requires h.InRange() && BodyInRange(body)
    requires |mod| == 32 && action < 256 && chain < 65536 && setId < Pow256(4) && |addresses| < 256
    requires body.payload == GuardianPayload(mod, action, chain, setId, addresses)
    ensures var tx := Transaction(ctx, RotateGuardians(VaaBytes(h, body), keys));
            var effect, b' := Execute(cfg, b, tx), Next(cfg, b, tx);
            && (effect.Ok? <==>
                  && |VaaBytes(h, body)| <= 2048
                  && (b.wormhole.initialized ==> QuorumSigned(cfg.host, b.wormhole, h, body))
                  && ToUint(mod) == 0x436f7265 && action == 2 && chain == 0 && setId > b.wormhole.activeId
                  && ToUint(body.emitterAddress) == 4 && body.emitterChain == 1
                  && |keys| == |addresses| <= 19 && (forall k :: k in keys ==> |k| == 0 || |k| == 64))
            && (effect.Ok? ==> b'.wormhole.initialized && b'.wormhole.activeId == setId && setId in b'.wormhole.sets)
            && b' == b.(wormhole := b'.wormhole)
            && (!effect.Ok? ==> b' == b)
  {
    assert Pow256(1) == 256 && Pow256(2) == 65536;
    hide Rotate, QuorumSigned, VaaBytes, GuardianPayload, FromUint, ToUint, Execute, Next;
    CoreConstants(mod);
    CoreConstants(body.emitterAddress);
    RotateCommitsIff(cfg.host, b.wormhole, h, body, keys, mod, action, chain, setId, addresses);
    RotationSetsId(cfg.host, b.wormhole, VaaBytes(h, body), keys);
    RotationRuns(cfg, b, ctx, VaaBytes(h, body), keys);
  }

  lemma RotationRuns(cfg: Config, b: Bridge, ctx: Context, vaa: Buffer, keys: seq<KeyArgument>)
    ensures var tx := Transaction(ctx, RotateGuardians(vaa, keys));
            var r := Rotate(cfg.host, b.wormhole, vaa, keys);
            && (Execute(cfg, b, tx).Ok? <==> |vaa| <= 2048 && |keys| <= 19 && r.Ok?)
            && Next(cfg, b, tx) == if |vaa| <= 2048 && |keys| <= 19 && r.Ok? then b.(wormhole := r.value) else b
  {
    hide Rotate;
  }

  lemma RotationSetsId(host: Host, w: WormholeState, bytes: Buffer, keys: seq<KeyArgument>)
    ensures Rotate(host, w, bytes, keys).Ok? ==>
              var w' := Rotate(host, w, bytes, keys).value; w'.initialized && w'.activeId in w'.sets
  {
    hide Verify, ParseVaa, ParseGuardiansSet, Consolidate;
  }

  /** A governance message as a transaction: it commits exactly when it fits its argument, a quorum of the
      active guardian set signed it, magic, module and chain id are the expected ones (60038 on
      mainnet, 50039 elsewhere), its sequence number is new, the entry point is the one of its action,
      the governance source in force emitted it and the plan has the modelled wormhole contract. Then
      the state changes by exactly its change and the sequence number. */
  lemma GovernanceCommitsIff(cfg: Config, b: Bridge, ctx: Context, h: Header, body: Body,
                             action: PythGovernance.Action, magic: Buffer, mod: Byte, chainId: nat, change: Change)
    requires h.InRange() && BodyInRange(body) && change.InRange(cfg.host) && |magic| == 4 && chainId < 65536
    requires body.payload == PtgmBytes(magic, mod, change.Code(), chainId, change.Body())
    ensures var tx := Transaction(ctx, Governance(action, VaaBytes(h, body), WORMHOLE));
            var effect, b' := Execute(cfg, b, tx), Next(cfg, b, tx);
            && (effect.Ok? <==>
                  && |VaaBytes(h, body)| <= 8192
                  && QuorumSigned(cfg.host, b.wormhole, h, body)
                  && magic == [0x50, 0x54, 0x47, 0x4d] && mod == 3 && chainId == (if cfg.mainnet then 60038 else 50039)
                  && body.sequence > b.gov.lastSequence && action == change.Action()
                  && Emitter(body.emitterChain, body.emitterAddress) == b.gov.governanceSource
                  && b.gov.plan.wormhole == WORMHOLE)
            && (effect.Ok? ==> b' == b.(gov := change.Applied(b.gov.(lastSequence := body.sequence))))
            && (!effect.Ok? ==> b' == b)
  {
    ChainIds(cfg, chainId);
    SerializedVerifiesIff(cfg.host, b.wormhole, h, body);
    hide Verify, VaaBytes, QuorumSigned, PtgmBytes, Config.ChainId, FromUint, Change.Applied, Govern, Execute, Next,
         Change.InRange, Change.Body, Change.Code, Change.Action;
    GovernanceRuns(cfg, b, ctx, action, VaaBytes(h, body));
    var verified := Verify(cfg.host, b.wormhole, VaaBytes(h, body));
    if verified.Ok? {
      ExecutesIff(cfg, b.gov, action, verified.value, magic, mod, chainId, change);
    } else {
      UnverifiedFails(cfg, b.gov, action, verified);
    }
  }

  lemma GovernanceRuns(cfg: Config, b: Bridge, ctx: Context, action: PythGovernance.Action, vaa: Buffer)
    ensures var tx := Transaction(ctx, Governance(action, vaa, WORMHOLE));
            var r := Govern(cfg.host, cfg.ChainId(), b.gov, action, Verify(cfg.host, b.wormhole, vaa), WORMHOLE);
            && (Execute(cfg, b, tx).Ok? <==> |vaa| <= 8192 && r.Ok?)
            && Next(cfg, b, tx) == if |vaa| <= 8192 && r.Ok? then b.(gov := r.value) else b
  {
    hide Verify, Govern, Config.ChainId;
  }

  lemma UnverifiedFails(cfg: Config, g: GovState, action: PythGovernance.Action, verified: Outcome<Message>)
    requires !verified.Ok?
    ensures !Govern(cfg.host, cfg.ChainId(), g, action, verified, WORMHOLE).Ok?
  {
  }

  lemma ExecutesIff(cfg: Config, g: GovState, action: PythGovernance.Action, vaa: Message,
                    magic: Buffer, mod: Byte, chainId: nat, change: Change)
    requires change.InRange(cfg.host) && |magic| == 4 && chainId < 65536
    requires vaa.body.payload == PtgmBytes(magic, mod, change.Code(), chainId, change.Body())
    ensures var r := Govern(cfg.host, cfg.ChainId(), g, action, Ok(vaa), WORMHOLE);
            && (r.Ok? <==>
                  && magic == [0x50, 0x54, 0x47, 0x4d] && mod == 3 && FromUint(chainId, 2) == cfg.ChainId()
                  && vaa.body.sequence > g.lastSequence && action == change.Action()
                  && Emitter(vaa.body.emitterChain, vaa.body.emitterAddress) == g.governanceSource
                  && g.plan.wormhole == WORMHOLE)
            && (r.Ok? ==> r.value == change.Applied(g.(lastSequence := vaa.body.sequence)))
  {
    hide FromUint, Govern, PtgmBytes, Change.Applied, Change.Body, Config.ChainId, Change.Action, Change.Code;
    GovernExecutesIff(cfg.host, cfg.ChainId(), g, action, vaa, WORMHOLE, magic, mod, chainId, change);
  }

  lemma ChainIds(cfg: Config, chainId: nat)
    requires chainId < 65536
    ensures FromUint(chainId, 2) == cfg.ChainId() <==> chainId == (if cfg.mainnet then 60038 else 50039)
  {
    assert Pow256(2) == 65536;
    UintRoundTrip(chainId, 2);
    assert ToUint([0xea]) == 0xea && ToUint([0xc3]) == 0xc3 by {
      OneByte(0xea);
      OneByte(0xc3);
    }
    ToUintAppend([0xea], 0x86);
    ToUintAppend([0xc3], 0x77);
    assert [0xea] + [0x86] == [0xea, 0x86] && [0xc3] + [0x77] == [0xc3, 0x77];
    BufferRoundTrip(cfg.ChainId());
  }
}

/** Theorems over whole runs of the bridge: any sequence of public calls from deployment on. */
module BridgeRuns {
  import opened Bytes
  import opened Clarity
  import opened PriceMessage
  import opened StrideScan
  import opened Merkle
  import opened PriceRecords
  import opened Vaa
  import opened WormholeCore
  import opened PnauDecoder
  import opened PythGovernance
  import opened PythStore
  import opened PythOracle

  /** The state after a run. */
  function Reached(cfg: Config, b0: Bridge, txs: seq<Transaction>): Bridge {
    if txs == [] then b0 else Next(cfg, Reached(cfg, b0, txs[..|txs| - 1]), txs[|txs| - 1])
  }

  /** The state in which transaction i of a run is executed. */
  function Before(cfg: Config, b0: Bridge, txs: seq<Transaction>, i: nat): Bridge
    requires i <= |txs|
  {
    Reached(cfg, b0, txs[..i])
  }

  function EffectOf(cfg: Config, b0: Bridge, txs: seq<Transaction>, i: nat): Outcome<Effect>
    requires i < |txs|
  {
    Execute(cfg, Before(cfg, b0, txs, i), txs[i])
  }

  predicate Deployed(cfg: Config, b: Bridge) {
    b.wormhole == EMPTY_WORMHOLE && b.gov == cfg.InitialGovernance() && b.store == EMPTY_STORE
  }

  lemma BeforeStep(cfg: Config, b0: Bridge, txs: seq<Transaction>, i: nat)
    requires i < |txs|
    ensures Before(cfg, b0, txs, i + 1) == Next(cfg, Before(cfg, b0, txs, i), txs[i])
  {
    assert txs[..i + 1][..i] == txs[..i];
  }

  // ---------- what one step keeps ----------

  ghost predicate Valid(b: Bridge) {
    ValidWormhole(b.wormhole) && ValidStore(b.store)
  }

  /** What never goes back: guardian ids and sets, the governance sequence, publish times. */
  ghost predicate Advanced(b: Bridge, b': Bridge) {
    && b.wormhole.activeId <= b'.wormhole.activeId
    && (b.wormhole.initialized ==> b'.wormhole.initialized)
    && (forall id :: id in b.wormhole.sets ==> id in b'.wormhole.sets && b'.wormhole.sets[id] == b.wormhole.sets[id])
    && b.gov.lastSequence <= b'.gov.lastSequence
    && TimesKept(b.store, b'.store)
  }

  lemma WriteKeeps(s: StoreState, clock: Clock, flow: Check, batch: seq<PriceUpdate>)
    requires ValidStore(s) && Write(s, clock, flow, batch).Ok?
    ensures KeptBy(s, clock, batch, Write(s, clock, flow, batch).value)
  {
    hide WriteAll, KeptBy;
    BatchKeepsStore(s, clock, batch);
  }

  /** Which parts of the state a call can reach, and that the accepted updates are the only source of
      what it stores. */
  lemma StepFrame(cfg: Config, b: Bridge, tx: Transaction)
    requires Valid(b) && Execute(cfg, b, tx).Ok?
    ensures var effect := Execute(cfg, b, tx).value; var b' := effect.bridge;
            && (!tx.call.RotateGuardians? ==> b'.wormhole == b.wormhole)
            && (!tx.call.Governance? ==> b'.gov == b.gov)
            && (!tx.call.UpdatePrices? && !tx.call.WritePrices? ==> b'.store == b.store)
            && ValidStore(b'.store) && TimesKept(b.store, b'.store)
            && PricesFrom(b.store, effect.returned, b'.store)
  {
    hide Rotate, Govern, Decode, Write, FeeFor, Transfer, ValidStore, ValidWormhole, KeptBy;
    var clock := Clock(tx.ctx.latestBlock, b.gov.staleThreshold);
    match tx.call
    case UpdatePrices(bytes, plan) =>
      var decoded := Decode(cfg.host, b, tx.ctx, bytes, plan).value;
      if plan.storage == STORE {
        WriteKeeps(b.store, clock, CheckFlow(b.gov.plan, STORE, ORACLE, None), decoded);
        KeptParts(b.store, clock, decoded, WriteTo(b, tx.ctx, plan, decoded).value);
      }
    case WritePrices(batch) =>
      var flow := CheckFlow(b.gov.plan, STORE, tx.ctx.caller, None);
      WriteKeeps(b.store, clock, flow, batch);
      KeptParts(b.store, clock, batch, Write(b.store, clock, flow, batch).value);
    case _ =>
  }

  lemma KeptParts(s: StoreState, clock: Clock, batch: seq<PriceUpdate>, written: Written)
    requires KeptBy(s, clock, batch, written)
    ensures ValidStore(written.store) && TimesKept(s, written.store) && PricesFrom(s, written.accepted, written.store)
  {
  }

  lemma StepAdvances(cfg: Config, b: Bridge, tx: Transaction)
    requires Valid(b)
    ensures Valid(Next(cfg, b, tx)) && Advanced(b, Next(cfg, b, tx))
  {
    hide Execute, ValidStore, ValidWormhole;
    if Execute(cfg, b, tx).Ok? {
      StepFrame(cfg, b, tx);
      match tx.call
      case RotateGuardians(vaa, keys) =>
        RotateStep(cfg, b, tx);
        RotationStep(cfg.host, b.wormhole, vaa, keys);
      case Governance(action, vaa, wormhole) => GovernanceStep(cfg, b, tx);
      case _ =>
    }
  }

  lemma RotateStep(cfg: Config, b: Bridge, tx: Transaction)
    requires tx.call.RotateGuardians? && Execute(cfg, b, tx).Ok?
    ensures Rotate(cfg.host, b.wormhole, tx.call.vaa, tx.call.keys) == Ok(Execute(cfg, b, tx).value.bridge.wormhole)
  {
  }

  /** What the wormhole contract passed to a governance call answered. */
  function Answer(cfg: Config, b: Bridge, tx: Transaction): Outcome<Message>
    requires tx.call.Governance?
  {
    VerifierAt(cfg.host, b.wormhole, tx.call.wormhole, tx.ctx.foreign)(tx.call.vaa)
  }

  /** A committed governance call was emitted by the governance source in force just before it and
      verified by the wormhole contract of the plan in force; its sequence number is greater than
      any before and becomes the last one; only its own field changes besides. */
  lemma GovernanceStep(cfg: Config, b: Bridge, tx: Transaction)
    requires tx.call.Governance? && Execute(cfg, b, tx).Ok?
    ensures var verified := Answer(cfg, b, tx); var g' := Execute(cfg, b, tx).value.bridge.gov;
            && verified.Ok?
            && b.gov.lastSequence < verified.value.body.sequence == g'.lastSequence
            && verified.value.Source() == b.gov.governanceSource
            && tx.call.wormhole == b.gov.plan.wormhole
            && Except(b.gov, g', tx.call.action) == b.gov.(lastSequence := g'.lastSequence)
            && (tx.call.wormhole == WORMHOLE ==> Approved(cfg.host, b.wormhole, tx.call.vaa))
  {
    hide Govern, Verify, Approved, Except;
    AuthorityStep(cfg.host, cfg.ChainId(), b.gov, tx.call.action, Answer(cfg, b, tx), tx.call.wormhole);
    VerifiesIffApproved(cfg.host, b.wormhole, tx.call.vaa);
  }

  // ---------- invariants of every run ----------

  lemma {:induction false} RunKeepsValid(cfg: Config, b0: Bridge, txs: seq<Transaction>)
    requires Deployed(cfg, b0)
    ensures Valid(Reached(cfg, b0, txs))
    decreases |txs|
  {
    if txs == [] {
    } else {
      hide Next, Valid, Deployed;
      RunKeepsValid(cfg, b0, txs[..|txs| - 1]);
      StepAdvances(cfg, Reached(cfg, b0, txs[..|txs| - 1]), txs[|txs| - 1]);
    }
  }

  /** From any point of a run to any later one guardian ids only grow, no past guardian set is ever
      overwritten, the governance sequence and every publish time only grow. */
  lemma {:induction false} RunAdvances(cfg: Config, b0: Bridge, txs: seq<Transaction>, i: nat, j: nat)
    requires Deployed(cfg, b0) && i <= j <= |txs|
    ensures Advanced(Before(cfg, b0, txs, i), Before(cfg, b0, txs, j))
    decreases j - i
  {
    if i < j {
      hide Next, Valid, Advanced, Deployed, Reached;
      RunAdvances(cfg, b0, txs, i, j - 1);
      RunKeepsValid(cfg, b0, txs[..j - 1]);
      StepAdvances(cfg, Before(cfg, b0, txs, j - 1), txs[j - 1]);
      BeforeStep(cfg, b0, txs, j - 1);
      AdvancedTransitive(Before(cfg, b0, txs, i), Before(cfg, b0, txs, j - 1), Before(cfg, b0, txs, j));
    } else {
      hide Before;
    }
  }

  lemma AdvancedTransitive(a: Bridge, b: Bridge, c: Bridge)
    requires Advanced(a, b) && Advanced(b, c)
    ensures Advanced(a, c)
  {
    forall id: Buffer
      ensures LastTime(a.store, id) <= LastTime(c.store, id)
    {
      assert LastTime(a.store, id) <= LastTime(b.store, id) <= LastTime(c.store, id);
    }
  }

  /** Guardian rotation over a run: at every rotation the active id strictly grows to one never used
      before, and once there is a set the rotation carries a quorum of the set it replaces. */
  lemma EveryRotationApproved(cfg: Config, b0: Bridge, txs: seq<Transaction>, i: nat)
    requires Deployed(cfg, b0) && i < |txs| && txs[i].call.RotateGuardians? && EffectOf(cfg, b0, txs, i).Ok?
    ensures var b, b' := Before(cfg, b0, txs, i), Before(cfg, b0, txs, i + 1);
            && b'.wormhole.initialized && b.wormhole.activeId < b'.wormhole.activeId
            && b'.wormhole.activeId !in b.wormhole.sets && b'.wormhole.activeId in b'.wormhole.sets
            && (b.wormhole.initialized ==> Approved(cfg.host, b.wormhole, txs[i].call.vaa))
  {
    hide Rotate, Approved, Reached;
    var b := Before(cfg, b0, txs, i);
    RunKeepsValid(cfg, b0, txs[..i]);
    BeforeStep(cfg, b0, txs, i);
    RotateStep(cfg, b, txs[i]);
    RotationStep(cfg.host, b.wormhole, txs[i].call.vaa, txs[i].call.keys);
  }

  // ---------- governance ----------

  /** Replay safety: of two committed governance calls of a run, through whatever entry points, the
      later one carries the greater sequence number. */
  lemma SequencesIncrease(cfg: Config, b0: Bridge, txs: seq<Transaction>, i: nat, j: nat)
    requires Deployed(cfg, b0) && i < j < |txs|
    requires txs[i].call.Governance? && EffectOf(cfg, b0, txs, i).Ok?
    requires txs[j].call.Governance? && EffectOf(cfg, b0, txs, j).Ok?
    ensures var first := Answer(cfg, Before(cfg, b0, txs, i), txs[i]);
            var second := Answer(cfg, Before(cfg, b0, txs, j), txs[j]);
            first.Ok? && second.Ok? && first.value.body.sequence < second.value.body.sequence
  {
    hide Answer, Except, Approved, Reached, Execute;
    GovernanceStep(cfg, Before(cfg, b0, txs, i), txs[i]);
    GovernanceStep(cfg, Before(cfg, b0, txs, j), txs[j]);
    BeforeStep(cfg, b0, txs, i);
    RunAdvances(cfg, b0, txs, i + 1, j);
  }

  /** No message body is executed twice, under whatever signatures, through the same or another entry
      point, even after the governance source or the wormhole contract has changed. The same bytes
      could commit again only through a wormhole contract that answers them with another body; the
      modelled one never does. */
  lemma NoReplay(cfg: Config, b0: Bridge, txs: seq<Transaction>, i: nat, j: nat)
    requires Deployed(cfg, b0) && i < j < |txs|
    requires txs[i].call.Governance? && EffectOf(cfg, b0, txs, i).Ok?
    requires txs[j].call.Governance? && EffectOf(cfg, b0, txs, j).Ok?
    ensures var first := Answer(cfg, Before(cfg, b0, txs, i), txs[i]);
            var second := Answer(cfg, Before(cfg, b0, txs, j), txs[j]);
            first.Ok? && second.Ok? && first.value.body != second.value.body
    ensures txs[i].call.wormhole == txs[j].call.wormhole == WORMHOLE ==> txs[i].call.vaa != txs[j].call.vaa
  {
    hide Verify, Approved, Reached, Execute, ParseVaa;
    SequencesIncrease(cfg, b0, txs, i, j);
    VerifiesIffApproved(cfg.host, Before(cfg, b0, txs, i).wormhole, txs[i].call.vaa);
    VerifiesIffApproved(cfg.host, Before(cfg, b0, txs, j).wormhole, txs[j].call.vaa);
  }

  // ---------- provenance ----------

  /** In state b, under the plan of this repository, this message proves the update: its VAA reached
      quorum in the active guardian set and came from an authorised source, its payload commits to
      a root, and the update is that of a record of the message whose own leaf and proof check
      against that root; the fields are those of the leaf when the leaf is a whole message. */
  ghost predicate Proven(host: Host, b: Bridge, bytes: Buffer, update: PriceUpdate) {
    var parts := ParsePnau(bytes);
    && parts.Ok?
    && Approved(host, b.wormhole, parts.value.vaa)
    && ParseVaa(host, parts.value.vaa).value.vaa.Source() in b.gov.pricesSources
    && var root := ParseMerkleRoot(ParseVaa(host, parts.value.vaa).value.vaa.body.payload);
       && root.Ok?
       && exists i: nat, d :: Carries(bytes, i, d) && CheckProof(host.keccak256, root.value.hash, d.leafBytes, d.proof)
                              && d.update == update && FieldsFromLeaf(d)
  }

  lemma CertifiedIsProven(host: Host, b: Bridge, foreign: Foreign, bytes: Buffer, update: PriceUpdate)
    requires var verify := VerifierAt(host, b.wormhole, WORMHOLE, foreign);
             Certified(host.keccak256, verify, b.gov.pricesSources, bytes, update)
    ensures Proven(host, b, bytes, update)
  {
    hide ParsePnau, ParseVaa, ParseMerkleRoot, Approved, Verify, CheckProof, FieldsFromLeaf, StopsAt, ReadRecord;
    var i: nat, d :|
      && Attests(host.keccak256, VerifierAt(host, b.wormhole, WORMHOLE, foreign), b.gov.pricesSources, bytes, i, d)
      && d.update == update && FieldsFromLeaf(d);
    VerifiesIffApproved(host, b.wormhole, ParsePnau(bytes).value.vaa);
  }

  /** The call stored this price for this feed; under the plan of this repository only an update call
      can, and only with a proof. */
  ghost predicate StoredBy(cfg: Config, b: Bridge, tx: Transaction, id: Buffer, price: Price) {
    var effect := Execute(cfg, b, tx);
    && effect.Ok?
    && exists u :: u in effect.value.returned && u.priceIdentifier == id && PriceOf(u) == price
         && (b.gov.plan == OWN_PLAN ==> tx.call.UpdatePrices? && Proven(cfg.host, b, tx.call.bytes, u))
  }

  lemma AcceptedAreProven(cfg: Config, b: Bridge, tx: Transaction, u: PriceUpdate)
    requires Valid(b) && tx.call.UpdatePrices? && b.gov.plan == OWN_PLAN
    requires Execute(cfg, b, tx).Ok? && u in Execute(cfg, b, tx).value.returned
    ensures Proven(cfg.host, b, tx.call.bytes, u)
  {
    hide DecodePnau, Write, FeeFor, Transfer, Proven, Certified, ValidWormhole, ValidStore, KeptBy;
    var bytes, plan := tx.call.bytes, tx.call.plan;
    assert plan == PlanArgument(STORE, DECODER, WORMHOLE);
    var verify := VerifierAt(cfg.host, b.wormhole, WORMHOLE, tx.ctx.foreign);
    var decoded := DecodePnau(cfg.host.keccak256, verify, b.gov.pricesSources, bytes).value;
    var flow := CheckFlow(b.gov.plan, STORE, ORACLE, None);
    var clock := Clock(tx.ctx.latestBlock, b.gov.staleThreshold);
    var written := Write(b.store, clock, flow, decoded).value;
    WriteKeeps(b.store, clock, flow, decoded);
    AcceptedInBatch(b.store, clock, decoded, written);
    var k :| 0 <= k < |decoded| && decoded[k] == u;
    DecodeCertifies(cfg.host.keccak256, verify, b.gov.pricesSources, bytes, k);
    CertifiedIsProven(cfg.host, b, tx.ctx.foreign, bytes, u);
  }

  lemma AcceptedInBatch(s: StoreState, clock: Clock, batch: seq<PriceUpdate>, written: Written)
    requires KeptBy(s, clock, batch, written)
    ensures forall u :: u in written.accepted ==> u in batch
  {
    TakenInBatch(s, clock, batch, |batch|);
  }

  /** Under the plan of this repository, nobody but the oracle writes to the store. */
  lemma DirectWriteFails(cfg: Config, b: Bridge, tx: Transaction)
    requires tx.call.WritePrices? && Possible(tx) && b.gov.plan == OWN_PLAN
    ensures !Execute(cfg, b, tx).Ok?
  {
    hide WriteAll;
  }

  /** Whatever plan governance has put in force, a committed call was made under it: the store accepts
      writes from the plan's oracle alone, the oracle runs with the plan's own contracts alone, and its
      answers are those of the contracts in it. */
  lemma PlanEnforced(cfg: Config, b: Bridge, tx: Transaction)
    requires Execute(cfg, b, tx).Ok?
    ensures var plan, effect := b.gov.plan, Execute(cfg, b, tx).value;
            match tx.call
            case WritePrices(_) => STORE in {plan.storage, plan.decoder} && tx.ctx.caller == plan.oracle
            case UpdatePrices(_, argument) =>
              && RunsAsPlanned(plan, tx.ctx.caller, argument)
              && (argument.storage != STORE ==>
                    effect.bridge.store == b.store && tx.ctx.foreign.written == Ok(effect.returned))
              && (argument.storage == STORE ==> STORE in {plan.storage, plan.decoder} && plan.oracle == ORACLE)
              && (argument.decoder == DECODER ==> DECODER in {plan.storage, plan.decoder} && plan.oracle == ORACLE)
              && (argument.decoder == DECODER && argument.wormhole != WORMHOLE ==> tx.ctx.foreign.vaa.Ok?)
            case DecodePrices(_, argument) =>
              && RunsAsPlanned(plan, tx.ctx.caller, argument)
              && (argument.decoder != DECODER ==> tx.ctx.foreign.decoded == Ok(effect.returned))
              && (argument.decoder == DECODER ==> DECODER in {plan.storage, plan.decoder} && plan.oracle == ORACLE)
              && (argument.decoder == DECODER && argument.wormhole != WORMHOLE ==> tx.ctx.foreign.vaa.Ok?)
            case Governance(action, _, wormhole) =>
              && wormhole == plan.wormhole
              && (wormhole != WORMHOLE ==>
                    && tx.ctx.foreign.vaa.Ok?
                    && effect.bridge.gov.lastSequence == tx.ctx.foreign.vaa.value.body.sequence)
            case RotateGuardians(_, _) => true
  {
    hide DecodePnau, WriteAll, FeeFor, Transfer, Rotate, Govern, Verify, Answer, Except, Approved;
    if tx.call.Governance? {
      GovernanceStep(cfg, b, tx);
      if tx.call.wormhole != WORMHOLE {
        AnsweredByForeign(cfg, b, tx);
      }
    } else if tx.call.UpdatePrices? {
      DecodedIsVerified(cfg.host, b, tx.ctx, tx.call.bytes, tx.call.plan);
    } else if tx.call.DecodePrices? {
      DecodedIsVerified(cfg.host, b, tx.ctx, tx.call.bytes, tx.call.plan);
    }
  }

  lemma DecodedIsVerified(host: Host, b: Bridge, ctx: Context, bytes: Buffer, plan: PlanArgument)
    ensures plan.decoder == DECODER && plan.wormhole != WORMHOLE && Decode(host, b, ctx, bytes, plan).Ok? ==>
              ctx.foreign.vaa.Ok?
  {
    hide ParsePnau, ParseMerkleRoot, ParseAndVerifyUpdates, Verify, CheckFlow;
  }

  lemma AnsweredByForeign(cfg: Config, b: Bridge, tx: Transaction)
    requires tx.call.Governance? && tx.call.wormhole != WORMHOLE
    ensures Answer(cfg, b, tx) == tx.ctx.foreign.vaa
  {
  }

  /** The oracle is the plan's and was given the plan's store, decoder and wormhole contract; a plan that
      names it as its own store or decoder asks for calls from the plan's oracle instead. */
  predicate RunsAsPlanned(plan: Plan, caller: Principal, argument: PlanArgument) {
    if ORACLE !in {plan.storage, plan.decoder} then
      plan.oracle == ORACLE && argument == PlanArgument(plan.storage, plan.decoder, plan.wormhole)
    else caller == plan.oracle
  }

  /** The prices of the store change only while the plan names it, and only by its oracle. */
  lemma StoreChangedByPlan(cfg: Config, b: Bridge, tx: Transaction)
    requires Next(cfg, b, tx).store != b.store
    ensures STORE in {b.gov.plan.storage, b.gov.plan.decoder}
    ensures tx.call.WritePrices? || tx.call.UpdatePrices?
    ensures tx.call.WritePrices? ==> tx.ctx.caller == b.gov.plan.oracle
    ensures tx.call.UpdatePrices? ==> b.gov.plan.oracle == ORACLE
  {
    PlanEnforced(cfg, b, tx);
    hide Decode, WriteTo, Write, FeeFor, Transfer, Rotate, Govern;
  }

  /** A step leaves the price of a feed as it was, or stored it. */
  lemma StepStores(cfg: Config, b: Bridge, tx: Transaction, id: Buffer)
    requires Valid(b) && Possible(tx) && id in Next(cfg, b, tx).store.prices
    ensures || (id in b.store.prices && Next(cfg, b, tx).store.prices[id] == b.store.prices[id])
            || StoredBy(cfg, b, tx, id, Next(cfg, b, tx).store.prices[id])
  {
    hide Execute, Proven, Valid;
    if Execute(cfg, b, tx).Ok? {
      StepFrame(cfg, b, tx);
      var effect := Execute(cfg, b, tx).value;
      var price := effect.bridge.store.prices[id];
      if !(id in b.store.prices && price == b.store.prices[id]) {
        var u :| u in effect.returned && u.priceIdentifier == id && PriceOf(u) == price;
        if b.gov.plan == OWN_PLAN {
          if tx.call.WritePrices? {
            DirectWriteFails(cfg, b, tx);
          } else {
            assert tx.call.UpdatePrices?;
            AcceptedAreProven(cfg, b, tx, u);
          }
        }
      }
    }
  }

  /** Provenance: in every reachable state, every stored price was stored by some call of the run;
      and if at that call the plan in force was the one of this repository, it was decoded under a
      VAA that had reached quorum and came from a source authorised at that moment. */
  lemma {:induction false} Provenance(cfg: Config, b0: Bridge, txs: seq<Transaction>, id: Buffer) returns (i: nat)
    requires Deployed(cfg, b0) && forall tx :: tx in txs ==> Possible(tx)
    requires id in Reached(cfg, b0, txs).store.prices
    ensures i < |txs|
    ensures StoredBy(cfg, Before(cfg, b0, txs, i), txs[i], id, Reached(cfg, b0, txs).store.prices[id])
    decreases |txs|
  {
    hide Next, StoredBy, Valid, Possible;
    var front, last := txs[..|txs| - 1], txs[|txs| - 1];
    var b := Reached(cfg, b0, front);
    RunKeepsValid(cfg, b0, front);
    StepStores(cfg, b, last, id);
    if id in b.store.prices && Reached(cfg, b0, txs).store.prices[id] == b.store.prices[id] {
      i := Provenance(cfg, b0, front, id);
      assert front[..i] == txs[..i];
    } else {
      i := |txs| - 1;
    }
  }
}

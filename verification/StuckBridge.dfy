/** What a guardian set without a quorum of usable keys does to the bridge. */
module StuckBridge {
  import opened Clarity
  import opened Vaa
  import opened WormholeCore
  import opened PnauDecoder
  import opened PythGovernance
  import opened PythStore
  import opened PythOracle
  import opened BridgeRuns

  /** The plan is the one of this repository and the active set has fewer usable keys than its quorum. */
  ghost predicate Stuck(b: Bridge) {
    && b.gov.plan == OWN_PLAN
    && b.wormhole.initialized && b.wormhole.activeId in b.wormhole.sets
    && |Keys(b.wormhole.sets[b.wormhole.activeId])| < Quorum(|b.wormhole.sets[b.wormhole.activeId]|)
  }

  /** In such a state no call commits. */
  lemma NothingCommits(cfg: Config, b: Bridge, tx: Transaction)
    requires Stuck(b) && Possible(tx)
    ensures !Execute(cfg, b, tx).Ok?
  {
    hide Verify, Keys, ParsePnau, ParsePtgm, Apply, ParseMerkleRoot, ParseAndVerifyUpdates, ParseGuardiansSet,
         Consolidate, Write, FeeFor, Transfer;
    forall bytes
      ensures !Verify(cfg.host, b.wormhole, bytes).Ok?
    {
      UnusableSetApprovesNothing(cfg.host, b.wormhole, bytes);
    }
    match tx.call
    case RotateGuardians(vaa, keys) =>
    case Governance(action, vaa, wormhole) =>
    case UpdatePrices(bytes, plan) =>
    case DecodePrices(bytes, plan) =>
    case WritePrices(batch) => DirectWriteFails(cfg, b, tx);
  }

  /** And so none ever does again. */
  lemma {:induction false} StuckForever(cfg: Config, b: Bridge, txs: seq<Transaction>)
    requires Stuck(b) && forall tx :: tx in txs ==> Possible(tx)
    ensures Reached(cfg, b, txs) == b
    decreases |txs|
  {
    if txs == [] {
    } else {
      hide Execute, Stuck, Possible;
      StuckForever(cfg, b, txs[..|txs| - 1]);
      NothingCommits(cfg, b, txs[|txs| - 1]);
    }
  }

  lemma {:induction false} ReachedSplits(cfg: Config, b: Bridge, first: seq<Transaction>, more: seq<Transaction>)
    ensures Reached(cfg, b, first + more) == Reached(cfg, Reached(cfg, b, first), more)
    decreases |more|
  {
    if more == [] {
      assert first + more == first;
    } else {
      hide Next;
      ReachedSplits(cfg, b, first, more[..|more| - 1]);
      assert (first + more)[..|first + more| - 1] == first + more[..|more| - 1];
    }
  }

  /** A committed rotation under the plan of this repository, with fewer matching whole keys than the
      quorum, is the last call of the run that changes anything: a rotation with empty keys, for one. */
  lemma UnusableRotationIsFinal(cfg: Config, b0: Bridge, txs: seq<Transaction>, i: nat)
    requires Deployed(cfg, b0) && forall tx :: tx in txs ==> Possible(tx)
    requires i < |txs| && txs[i].call.RotateGuardians? && EffectOf(cfg, b0, txs, i).Ok?
    requires Before(cfg, b0, txs, i).gov.plan == OWN_PLAN
    ensures var w := Before(cfg, b0, txs, i).wormhole; var bytes, keys := txs[i].call.vaa, txs[i].call.keys;
            && ParseVaa(cfg.host, bytes).Ok?
            && ParseGuardiansSet(w.activeId, ParseVaa(cfg.host, bytes).value.vaa.body.payload).Ok?
            && |keys| == |AddressesOf(cfg.host, w, bytes)|
            && (|MatchingKeys(cfg.host, keys, AddressesOf(cfg.host, w, bytes))| < Quorum(|keys|) ==>
                  Reached(cfg, b0, txs) == Before(cfg, b0, txs, i + 1))
  {
    hide Rotate, ParseVaa, ParseGuardiansSet, Deployed, Possible, MatchingKeys, Keys, Verify, AddressesOf, Reached;
    var b := Before(cfg, b0, txs, i);
    RunKeepsValid(cfg, b0, txs[..i]);
    BeforeStep(cfg, b0, txs, i);
    RotateStep(cfg, b, txs[i]);
    RotatedSetNeedsKeys(cfg.host, b.wormhole, txs[i].call.vaa, txs[i].call.keys);
    RotationStep(cfg.host, b.wormhole, txs[i].call.vaa, txs[i].call.keys);
    StepFrame(cfg, b, txs[i]);
    if |MatchingKeys(cfg.host, txs[i].call.keys, AddressesOf(cfg.host, b.wormhole, txs[i].call.vaa))|
       < Quorum(|txs[i].call.keys|)
    {
      var after := Before(cfg, b0, txs, i + 1);
      assert Stuck(after);
      hide Stuck;
      assert forall tx :: tx in txs[i + 1..] ==> tx in txs;
      StuckForever(cfg, after, txs[i + 1..]);
      assert txs[..i + 1] + txs[i + 1..] == txs;
      ReachedSplits(cfg, b0, txs[..i + 1], txs[i + 1..]);
    }
  }
}

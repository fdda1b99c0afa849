/** Where the parameters of a reachable state come from. */
module GovernanceChain {
  import opened Clarity
  import opened Vaa
  import opened WormholeCore
  import opened PythGovernance
  import opened PythOracle
  import opened BridgeRuns

  /** The field of an action is the same in both states. */
  predicate SameField(g: GovState, g': GovState, action: Action) {
    Except(g, g', action) == g'
  }

  /** Transaction i is a committed call of this action: its message was emitted by the governance source
      in force, verified by the wormhole contract of the plan in force, and its body asks for exactly
      the state that follows. */
  ghost predicate SetBy(cfg: Config, b0: Bridge, txs: seq<Transaction>, i: nat, action: Action) {
    && i < |txs| && txs[i].call.Governance? && txs[i].call.action == action
    && EffectOf(cfg, b0, txs, i).Ok?
    && var b := Before(cfg, b0, txs, i); var verified := Answer(cfg, b, txs[i]);
       && verified.Ok?
       && verified.value.Source() == b.gov.governanceSource
       && txs[i].call.wormhole == b.gov.plan.wormhole
       && (txs[i].call.wormhole == WORMHOLE ==> Approved(cfg.host, b.wormhole, txs[i].call.vaa))
       && var ptgm := ParsePtgm(cfg.ChainId(), verified.value.body.payload);
          && ptgm.Ok? && ptgm.value.action == [action.Code()]
          && Apply(cfg.host, b.gov.(lastSequence := verified.value.body.sequence), action, ptgm.value.body)
             == Ok(Before(cfg, b0, txs, i + 1).gov)
  }

  lemma CommittedSets(cfg: Config, b0: Bridge, txs: seq<Transaction>, i: nat)
    requires i < |txs| && txs[i].call.Governance? && EffectOf(cfg, b0, txs, i).Ok?
    ensures SetBy(cfg, b0, txs, i, txs[i].call.action)
    ensures var b, b' := Before(cfg, b0, txs, i), Before(cfg, b0, txs, i + 1);
            Except(b.gov, b'.gov, txs[i].call.action) == b.gov.(lastSequence := b'.gov.lastSequence)
  {
    var b := Before(cfg, b0, txs, i);
    hide Govern, Approved, Except, Reached, Before, Answer, Verify;
    BeforeStep(cfg, b0, txs, i);
    GovernanceStep(cfg, b, txs[i]);
    GovernedBy(cfg, b, txs[i]);
  }

  lemma GovernedBy(cfg: Config, b: Bridge, tx: Transaction)
    requires tx.call.Governance? && Execute(cfg, b, tx).Ok?
    ensures var verified := Answer(cfg, b, tx);
            && verified.Ok?
            && var ptgm := ParsePtgm(cfg.ChainId(), verified.value.body.payload);
               && ptgm.Ok? && ptgm.value.action == [tx.call.action.Code()]
               && Apply(cfg.host, b.gov.(lastSequence := verified.value.body.sequence), tx.call.action, ptgm.value.body)
                  == Ok(Execute(cfg, b, tx).value.bridge.gov)
  {
    hide ParsePtgm, Apply, Verify;
  }

  lemma OtherFieldKept(g: GovState, g': GovState, action: Action, other: Action)
    requires Except(g, g', action) == g.(lastSequence := g'.lastSequence) && other != action
    ensures SameField(g, g', other)
  {
  }

  lemma SameFieldTransitive(a: GovState, b: GovState, c: GovState, action: Action)
    requires SameField(a, b, action) && SameField(b, c, action)
    ensures SameField(a, c, action)
  {
  }

  lemma SetEarlier(cfg: Config, b0: Bridge, txs: seq<Transaction>, more: seq<Transaction>, i: nat, action: Action)
    requires SetBy(cfg, b0, txs, i, action)
    ensures SetBy(cfg, b0, txs + more, i, action)
    ensures i < |txs| && (txs + more)[i] == txs[i]
    ensures Before(cfg, b0, txs + more, i) == Before(cfg, b0, txs, i)
    ensures Before(cfg, b0, txs + more, i + 1) == Before(cfg, b0, txs, i + 1)
  {
    assert (txs + more)[..i] == txs[..i] && (txs + more)[..i + 1] == txs[..i + 1];
    hide Reached, Execute, Approved, Answer, ParsePtgm, Apply;
  }

  /** What the last transaction of a run does to a field. */
  lemma LastStep(cfg: Config, b0: Bridge, txs: seq<Transaction>, action: Action)
    requires txs != []
    ensures var n := |txs| - 1; var g := Reached(cfg, b0, txs[..n]).gov;
            SetBy(cfg, b0, txs, n, action) || SameField(g, Reached(cfg, b0, txs).gov, action)
    ensures Before(cfg, b0, txs, |txs|) == Reached(cfg, b0, txs)
    ensures Before(cfg, b0, txs, |txs| - 1) == Reached(cfg, b0, txs[..|txs| - 1])
  {
    var n := |txs| - 1;
    assert txs[..n + 1] == txs;
    hide SameField, SetBy, Execute, Except;
    BeforeStep(cfg, b0, txs, n);
    var b := Before(cfg, b0, txs, n);
    if txs[n].call.Governance? && Execute(cfg, b, txs[n]).Ok? {
      CommittedSets(cfg, b0, txs, n);
      if action != txs[n].call.action {
        OtherFieldKept(b.gov, Before(cfg, b0, txs, n + 1).gov, txs[n].call.action, action);
      }
    } else {
      OtherCallsKeepGovernance(cfg, b, txs[n]);
      SameFieldReflexive(b.gov, action);
    }
  }

  lemma SameFieldReflexive(g: GovState, action: Action)
    ensures SameField(g, g, action)
  {
  }

  lemma OtherCallsKeepGovernance(cfg: Config, b: Bridge, tx: Transaction)
    requires !(tx.call.Governance? && Execute(cfg, b, tx).Ok?)
    ensures Next(cfg, b, tx).gov == b.gov
  {
    hide Rotate, Decode, WriteTo, FeeFor, Transfer;
  }

  /** In every reachable state each parameter is the initial one, or was set by a committed message of
      its own action, emitted by the governance source in force at that moment, and not changed since. */
  lemma {:induction false} FieldOrigin(cfg: Config, b0: Bridge, txs: seq<Transaction>, action: Action)
      returns (i: Option<nat>)
    requires Deployed(cfg, b0)
    ensures i.None? ==> SameField(cfg.InitialGovernance(), Reached(cfg, b0, txs).gov, action)
    ensures i.Some? ==> && i.value < |txs| && SetBy(cfg, b0, txs, i.value, action)
                        && SameField(Before(cfg, b0, txs, i.value + 1).gov, Reached(cfg, b0, txs).gov, action)
    decreases |txs|
  {
    hide SetBy, SameField, Next, Before;
    if txs == [] {
      SameFieldReflexive(b0.gov, action);
      i := None;
    } else {
      var front := txs[..|txs| - 1];
      var g, g' := Reached(cfg, b0, front).gov, Reached(cfg, b0, txs).gov;
      LastStep(cfg, b0, txs, action);
      if SetBy(cfg, b0, txs, |txs| - 1, action) {
        i := Some(|txs| - 1);
        SameFieldReflexive(g', action);
      } else {
        i := FieldOrigin(cfg, b0, front, action);
        if i.Some? {
          assert front + [txs[|txs| - 1]] == txs;
          SetEarlier(cfg, b0, front, [txs[|txs| - 1]], i.value, action);
          SameFieldTransitive(Before(cfg, b0, txs, i.value + 1).gov, g, g', action);
        } else {
          SameFieldTransitive(cfg.InitialGovernance(), g, g', action);
        }
      }
    }
  }

  /** These transactions, in this order, hand governance from each of the sources to the next. */
  ghost predicate HandedOver(cfg: Config, b0: Bridge, txs: seq<Transaction>, sources: seq<Emitter>, at: seq<nat>) {
    && |sources| == |at| + 1
    && (forall k :: 0 <= k < |at| ==> at[k] < |txs|)
    && (forall k, l :: 0 <= k < l < |at| ==> at[k] < at[l])
    && forall k :: 0 <= k < |at| ==> Hands(cfg, b0, txs, at[k], sources[k], sources[k + 1])
  }

  /** Transaction i commits a message of the source from that names the source to. */
  ghost predicate Hands(cfg: Config, b0: Bridge, txs: seq<Transaction>, i: nat, from: Emitter, to: Emitter) {
    && SetBy(cfg, b0, txs, i, UpdateGovernanceSource)
    && var message := Answer(cfg, Before(cfg, b0, txs, i), txs[i]).value;
       && message.Source() == from
       && ParseGovernanceSource(ParsePtgm(cfg.ChainId(), message.body.payload).value.body) == Ok(to)
  }

  lemma SetByHands(cfg: Config, b0: Bridge, txs: seq<Transaction>, i: nat)
    requires SetBy(cfg, b0, txs, i, UpdateGovernanceSource)
    ensures var before, after := Before(cfg, b0, txs, i).gov, Before(cfg, b0, txs, i + 1).gov;
            Hands(cfg, b0, txs, i, before.governanceSource, after.governanceSource)
  {
    hide Before, Execute, Answer, ParsePtgm, ParseGovernanceSource, Approved;
  }

  lemma HandsEarlier(cfg: Config, b0: Bridge, txs: seq<Transaction>, more: seq<Transaction>, i: nat, from: Emitter,
                     to: Emitter)
    requires Hands(cfg, b0, txs, i, from, to)
    ensures Hands(cfg, b0, txs + more, i, from, to)
  {
    hide SetBy, Reached, Answer, ParsePtgm, ParseGovernanceSource;
    SetEarlier(cfg, b0, txs, more, i, UpdateGovernanceSource);
  }

  /** The governance source of every reachable state is reached from the initial one by an unbroken
      chain of approvals: each link is a committed message in which a source, then in force, names the
      next. */
  lemma {:induction false} SourceChain(cfg: Config, b0: Bridge, txs: seq<Transaction>)
      returns (sources: seq<Emitter>, at: seq<nat>)
    requires Deployed(cfg, b0)
    ensures HandedOver(cfg, b0, txs, sources, at)
    ensures sources[0] == cfg.InitialGovernance().governanceSource
    ensures sources[|at|] == Reached(cfg, b0, txs).gov.governanceSource
    decreases |txs|
  {
    hide Next, Before, Hands, SetBy;
    if txs == [] {
      sources, at := [b0.gov.governanceSource], [];
    } else {
      var n := |txs| - 1;
      var front := txs[..n];
      sources, at := SourceChain(cfg, b0, front);
      LastStep(cfg, b0, txs, UpdateGovernanceSource);
      assert front + [txs[n]] == txs;
      forall k | 0 <= k < |at|
        ensures Hands(cfg, b0, txs, at[k], sources[k], sources[k + 1])
      {
        HandsEarlier(cfg, b0, front, [txs[n]], at[k], sources[k], sources[k + 1]);
      }
      if SetBy(cfg, b0, txs, n, UpdateGovernanceSource) {
        SetByHands(cfg, b0, txs, n);
        var next := Reached(cfg, b0, txs).gov.governanceSource;
        ExtendChain(cfg, b0, txs, sources, at, n, next);
        sources, at := sources + [next], at + [n];
      }
    }
  }

  lemma ExtendChain(cfg: Config, b0: Bridge, txs: seq<Transaction>, sources: seq<Emitter>, at: seq<nat>, n: nat,
                    next: Emitter)
    requires HandedOver(cfg, b0, txs, sources, at)
    requires n < |txs| && (forall k :: 0 <= k < |at| ==> at[k] < n) && Hands(cfg, b0, txs, n, sources[|at|], next)
    ensures HandedOver(cfg, b0, txs, sources + [next], at + [n])
  {
    hide Hands;
  }
}

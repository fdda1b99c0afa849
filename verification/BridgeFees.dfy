/** Where the fees of a run go. */
module BridgeFees {
  import opened Clarity
  import opened PriceMessage
  import opened PythGovernance
  import opened PythStore
  import opened StoreOrder
  import opened PythOracle
  import opened BridgeRuns

  /** The price of a call that returns count updates, before any bound on integers. */
  function FeeAmount(fee: Fee, count: nat): nat {
    count * (fee.mantissa * Pow10(fee.exponent))
  }

  lemma AtLeastFactor(a: nat, b: nat)
    requires a > 0
    ensures a * b >= b
  {
  }

  lemma PositiveFactors(a: nat, b: nat)
    requires a * b > 0
    ensures a > 0 && b > 0
  {
  }

  lemma {:induction false} Pow10Positive(e: nat)
    ensures Pow10(e) > 0
  {
    if e == 0 {
    } else {
      Pow10Positive(e - 1);
    }
  }

  /** The fee is positive, fits 128 bits, and is due from someone else than the recipient who can
      afford it. */
  predicate Payable(b: Bridge, ctx: Context, count: nat) {
    var price := FeeAmount(b.gov.fee, count);
    0 < price < U128_LIMIT && ctx.sender != b.gov.feeRecipient && price <= Balance(b.stx, ctx.sender)
  }

  /** A call is charged exactly when its fee is payable; then it is count * mantissa * 10 ^ exponent. */
  lemma ChargedIff(b: Bridge, ctx: Context, count: nat)
    ensures var charge := FeeFor(b.gov.fee, count);
            (charge.Ok? && Transfer(b.stx, charge.value, ctx.sender, b.gov.feeRecipient).Ok?) <==>
            Payable(b, ctx, count)
    ensures FeeFor(b.gov.fee, count).Ok? ==> FeeFor(b.gov.fee, count).value == FeeAmount(b.gov.fee, count)
  {
    var power := Pow10(b.gov.fee.exponent);
    var each := b.gov.fee.mantissa * power;
    Pow10Positive(b.gov.fee.exponent);
    hide Pow10;
    if 0 < FeeAmount(b.gov.fee, count) {
      PositiveFactors(count, each);
      PositiveFactors(b.gov.fee.mantissa, power);
      AtLeastFactor(count, each);
      AtLeastFactor(b.gov.fee.mantissa, power);
    }
  }

  /** The fee at exponent 0 is count * mantissa, and one more in the exponent makes it ten times as much. */
  lemma FeeByExponent(mantissa: nat, exponent: nat, count: nat)
    ensures FeeFor(Fee(mantissa, 0), count)
            == if mantissa < U128_LIMIT && count * mantissa < U128_LIMIT then Ok(count * mantissa) else Abort
    ensures FeeAmount(Fee(mantissa, 0), count) == count * mantissa
    ensures FeeAmount(Fee(mantissa, exponent + 1), count) == 10 * FeeAmount(Fee(mantissa, exponent), count)
    ensures FeeFor(Fee(mantissa, exponent), count).Ok? && FeeFor(Fee(mantissa, exponent + 1), count).Ok? ==>
              FeeFor(Fee(mantissa, exponent + 1), count).value == 10 * FeeFor(Fee(mantissa, exponent), count).value
  {
    var power := Pow10(exponent);
    TenTimes(mantissa, power, count);
  }

  lemma TenTimes(m: nat, p: nat, c: nat)
    ensures m * (10 * p) == 10 * (m * p)
    ensures c * (m * (10 * p)) == 10 * (c * (m * p))
  {
    assert c * (10 * (m * p)) == 10 * (c * (m * p));
  }

  // ---------- the order of a batch and its fee ----------

  lemma SameProduct(m: nat, n: nat, each: nat)
    requires m * each == n * each
    ensures m == n || each == 0
  {
    assert (m - n) * each == 0;
  }

  lemma FeeInjective(fee: Fee, m: nat, n: nat)
    ensures FeeAmount(fee, m) == FeeAmount(fee, n) <==> m == n || fee.mantissa == 0
  {
    Pow10Positive(fee.exponent);
    var each := fee.mantissa * Pow10(fee.exponent);
    if fee.mantissa > 0 {
      AtLeastFactor(fee.mantissa, Pow10(fee.exponent));
      hide Pow10;
      if m * each == n * each {
        SameProduct(m, n, each);
      }
    }
  }

  /** Every order of the batch costs the same. */
  ghost predicate FeeFixed(fee: Fee, s: StoreState, clock: Clock, batch: seq<PriceUpdate>) {
    forall b: seq<PriceUpdate> :: multiset(b) == multiset(batch) ==>
      && WriteAll(s, clock, b).Ok?
      && FeeAmount(fee, |WriteAll(s, clock, b).value.accepted|) == FeeAmount(fee, AcceptedCount(s, clock, batch))
  }

  /** The order of a batch does not matter to its fee exactly when updates cost nothing or no feed has two
      eligible entries with different publish times. */
  lemma FeeFixedIff(fee: Fee, s: StoreState, clock: Clock, batch: seq<PriceUpdate>)
    requires WriteAll(s, clock, batch).Ok?
    ensures FeeFixed(fee, s, clock, batch) <==> fee.mantissa == 0 || OneTimePerFeed(s, clock, batch)
  {
    hide WriteAll, FeeAmount, OneTimePerFeed, AcceptedCount;
    CountFixedIff(s, clock, batch);
    forall b: seq<PriceUpdate> | multiset(b) == multiset(batch)
      ensures WriteAll(s, clock, b).Ok?
      ensures FeeAmount(fee, |WriteAll(s, clock, b).value.accepted|) == FeeAmount(fee, AcceptedCount(s, clock, batch))
              <==> |WriteAll(s, clock, b).value.accepted| == AcceptedCount(s, clock, batch) || fee.mantissa == 0
    {
      PermutedCommits(s, clock, batch, b);
      FeeInjective(fee, |WriteAll(s, clock, b).value.accepted|, AcceptedCount(s, clock, batch));
    }
  }

  // ---------- conservation ----------

  ghost function Total(stx: Ledger): nat {
    if stx == map[] then 0
    else
      var p :| p in stx;
      stx[p] + Total(stx - {p})
  }

  lemma {:induction false} TotalWithout(stx: Ledger, p: Principal)
    requires p in stx
    ensures Total(stx) == stx[p] + Total(stx - {p})
    decreases |stx|
  {
    var q :| q in stx && Total(stx) == stx[q] + Total(stx - {q});
    if q != p {
      TotalWithout(stx - {q}, p);
      assert stx - {q} - {p} == stx - {p} - {q};
      TotalWithout(stx - {p}, q);
    }
  }

  lemma TotalUpdate(stx: Ledger, p: Principal, amount: nat)
    ensures Total(stx[p := amount]) + Balance(stx, p) == Total(stx) + amount
  {
    TotalWithout(stx[p := amount], p);
    assert stx[p := amount] - {p} == stx - {p};
    if p in stx {
      TotalWithout(stx, p);
    } else {
      assert stx - {p} == stx;
    }
  }

  lemma TransferConserves(stx: Ledger, amount: nat, from: Principal, to: Principal)
    requires Transfer(stx, amount, from, to).Ok?
    ensures Total(Transfer(stx, amount, from, to).value) == Total(stx)
  {
    hide Total;
    var taken := stx[from := Balance(stx, from) - amount];
    TotalUpdate(stx, from, Balance(stx, from) - amount);
    TotalUpdate(taken, to, Balance(stx, to) + amount);
  }

  /** What a transaction pays for itself: nothing when it fails or is not an oracle call. */
  function Paid(cfg: Config, b: Bridge, tx: Transaction): nat {
    var effect := Execute(cfg, b, tx);
    if effect.Ok? && (tx.call.UpdatePrices? || tx.call.DecodePrices?) then
      FeeAmount(b.gov.fee, |effect.value.returned|)
    else 0
  }

  lemma StepPays(cfg: Config, b: Bridge, tx: Transaction, p: Principal)
    ensures Total(Next(cfg, b, tx).stx) == Total(b.stx)
    ensures Balance(Next(cfg, b, tx).stx, p) + (if tx.ctx.sender == p then Paid(cfg, b, tx) else 0)
            == Balance(b.stx, p) + (if b.gov.feeRecipient == p then Paid(cfg, b, tx) else 0)
  {
    hide Decode, WriteTo, FeeFor, Total, CheckFlow;
    var effect := Execute(cfg, b, tx);
    if effect.Ok? && (tx.call.UpdatePrices? || tx.call.DecodePrices?) {
      var charge := FeeFor(b.gov.fee, |effect.value.returned|);
      ChargedIff(b, tx.ctx, |effect.value.returned|);
      TransferConserves(b.stx, charge.value, tx.ctx.sender, b.gov.feeRecipient);
    }
  }

  /** Over a run: what committed oracle calls paid to p, each at the fee and to the recipient in force
      when it was executed. */
  function Received(cfg: Config, b0: Bridge, txs: seq<Transaction>, p: Principal): nat {
    if txs == [] then 0
    else
      var front := txs[..|txs| - 1];
      var b := Reached(cfg, b0, front);
      Received(cfg, b0, front, p) + (if b.gov.feeRecipient == p then Paid(cfg, b, txs[|txs| - 1]) else 0)
  }

  /** And what p paid as the sender of them. */
  function Spent(cfg: Config, b0: Bridge, txs: seq<Transaction>, p: Principal): nat {
    if txs == [] then 0
    else
      var front := txs[..|txs| - 1];
      Spent(cfg, b0, front, p)
      + (if txs[|txs| - 1].ctx.sender == p then Paid(cfg, Reached(cfg, b0, front), txs[|txs| - 1]) else 0)
  }

  /** Over every run from any state the total is constant, and every balance is what it was, plus the
      fees received, minus the fees spent. */
  lemma {:induction false} FeesConserved(cfg: Config, b0: Bridge, txs: seq<Transaction>, p: Principal)
    ensures Total(Reached(cfg, b0, txs).stx) == Total(b0.stx)
    ensures Balance(Reached(cfg, b0, txs).stx, p) + Spent(cfg, b0, txs, p)
            == Balance(b0.stx, p) + Received(cfg, b0, txs, p)
    decreases |txs|
  {
    if txs == [] {
    } else {
      hide Next, Total, Paid;
      FeesConserved(cfg, b0, txs[..|txs| - 1], p);
      StepPays(cfg, Reached(cfg, b0, txs[..|txs| - 1]), txs[|txs| - 1], p);
    }
  }
}

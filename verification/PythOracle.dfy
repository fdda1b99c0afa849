/** The oracle contract and the bridge it ties together: decoding, writing and the fee are one
    public call, kept only when it ends in an ok response. */
module PythOracle {
  import opened Bytes
  import opened Clarity
  import opened PriceMessage
  import opened Vaa
  import opened WormholeCore
  import opened PnauDecoder
  import opened PythGovernance
  import opened PythStore

  const ERR_BALANCE_INSUFFICIENT: nat := 402

  // ---------- principals and configuration ----------

  const ORACLE: Principal := Principal("pyth-oracle-v2")
  const DECODER: Principal := Principal("pyth-pnau-decoder-v1")
  const STORE: Principal := Principal("pyth-store-v1")
  const WORMHOLE: Principal := Principal("wormhole-core-v2")

  const OWN_PLAN: Plan := Plan(ORACLE, DECODER, STORE, WORMHOLE)

  datatype Config = Config(host: Host, mainnet: bool) {
    function ChainId(): Buffer {
      if mainnet then [0xea, 0x86] else [0xc3, 0x77]
    }

    /** The data variables of the governance contract at deployment. */
    function InitialGovernance(): GovState {
      GovState(
        Emitter(1, [0x56, 0x35, 0x97, 0x9a, 0x22, 0x1c, 0x34, 0x93, 0x1e, 0x32, 0x62, 0x0b, 0x92, 0x93, 0xa4, 0x63,
           0x06, 0x55, 0x55, 0xea, 0x71, 0xfe, 0x97, 0xcd, 0x62, 0x37, 0xad, 0xe8, 0x75, 0xb1, 0x2e, 0x9e]),
        [ Emitter(1, [0x6b, 0xb1, 0x45, 0x09, 0xa6, 0x12, 0xf0, 0x1f, 0xbb, 0xc4, 0xcf, 0xfe, 0xeb, 0xd4, 0xbb, 0xfb,
           0x49, 0x2a, 0x86, 0xdf, 0x71, 0x7e, 0xbe, 0x92, 0xeb, 0x6d, 0xf4, 0x32, 0xa3, 0xf0, 0x0a, 0x25]),
          Emitter(26, [0xf8, 0xcd, 0x23, 0xc2, 0xab, 0x91, 0x23, 0x77, 0x30, 0x77, 0x0b, 0xbe, 0xa0, 0x8d, 0x61, 0x00,
           0x5c, 0xdd, 0xa0, 0x98, 0x43, 0x48, 0xf3, 0xf6, 0xee, 0xcb, 0x55, 0x96, 0x38, 0xc0, 0xbb, 0xa0]),
          Emitter(26, [0xe1, 0x01, 0xfa, 0xed, 0xac, 0x58, 0x51, 0xe3, 0x2b, 0x9b, 0x23, 0xb5, 0xf9, 0x41, 0x1a, 0x8c,
           0x2b, 0xac, 0x4a, 0xae, 0x3e, 0xd4, 0xdd, 0x7b, 0x81, 0x1d, 0xd1, 0xa7, 0x2e, 0xa4, 0xaa, 0x71]) ],
        Fee(1, 1),
        if mainnet then 2 * 60 * 60 else 5 * 365 * 24 * 60 * 60,
        if mainnet then Principal("SP3CRXBDXQ2N5P7E25Q39MEX1HSMRDSEAP3CFK2Z3")
        else Principal("ST3CRXBDXQ2N5P7E25Q39MEX1HSMRDSEAP1JST19D"),
        0,
        OWN_PLAN)
    }
  }

  /** What contracts other than the ones modelled answer when a call reaches them. */
  datatype Foreign = Foreign(
    vaa: Outcome<Message>, decoded: Outcome<seq<PriceUpdate>>, written: Outcome<seq<PriceUpdate>>)

  datatype Context = Context(caller: Principal, sender: Principal, latestBlock: Option<nat>, foreign: Foreign)

  type Ledger = map<Principal, nat>

  datatype Bridge = Bridge(wormhole: WormholeState, gov: GovState, store: StoreState, stx: Ledger)

  // ---------- fees ----------

  function Pow10(e: nat): nat {
    if e == 0 then 1 else 10 * Pow10(e - 1)
  }

  /** The fee of a call that returns count updates; every product and the power must fit 128 bits. */
  function FeeFor(fee: Fee, count: nat): Outcome<nat> {
    var power :- Uint128(Pow10(fee.exponent));
    var each :- Uint128(fee.mantissa * power);
    Uint128(count * each)
  }

  function Balance(stx: Ledger, p: Principal): nat {
    if p in stx then stx[p] else 0
  }

  /** stx-transfer? : no zero amount, no transfer to oneself, no overdraft. */
  function Transfer(stx: Ledger, amount: nat, from: Principal, to: Principal): Outcome<Ledger> {
    var allowed := amount > 0 && from != to && amount <= Balance(stx, from);
    :- Require(allowed, ERR_BALANCE_INSUFFICIENT);
    Ok(stx[from := Balance(stx, from) - amount][to := Balance(stx, to) + amount])
  }

  // ---------- the calls ----------

  /** The wormhole contract behind a principal. */
  function VerifierAt(host: Host, w: WormholeState, wormhole: Principal, foreign: Foreign): Verifier {
    (bytes: Buffer) => if wormhole == WORMHOLE then Verify(host, w, bytes) else foreign.vaa
  }

  /** decode-and-verify-price-feeds of the contract behind the plan's decoder, called by the oracle. */
  function Decode(host: Host, b: Bridge, ctx: Context, bytes: Buffer, plan: PlanArgument): Outcome<seq<PriceUpdate>> {
    if plan.decoder == DECODER then
      :- CheckFlow(b.gov.plan, DECODER, ORACLE, None);
      DecodePnau(host.keccak256, VerifierAt(host, b.wormhole, plan.wormhole, ctx.foreign), b.gov.pricesSources, bytes)
    else ctx.foreign.decoded
  }

  /** write of the contract behind the plan's store, called by the oracle. */
  function WriteTo(b: Bridge, ctx: Context, plan: PlanArgument, decoded: seq<PriceUpdate>): Outcome<Written> {
    if plan.storage == STORE then
      Write(b.store, Clock(ctx.latestBlock, b.gov.staleThreshold), CheckFlow(b.gov.plan, STORE, ORACLE, None), decoded)
    else
      var written :- ctx.foreign.written;
      Ok(Written(b.store, written))
  }

  /** A committed call: the new state and the updates returned. */
  datatype Effect = Effect(bridge: Bridge, returned: seq<PriceUpdate>)

  /** verify-and-update-price-feeds */
  function UpdatePriceFeeds(host: Host, b: Bridge, ctx: Context, bytes: Buffer, plan: PlanArgument): Outcome<Effect> {
    var flow := CheckFlow(b.gov.plan, ORACLE, ctx.caller, Some(plan));
    :- flow;
    var decoded :- Decode(host, b, ctx, bytes, plan);
    var written :- WriteTo(b, ctx, plan, decoded);
    var fee :- FeeFor(b.gov.fee, |written.accepted|);
    var stx :- Transfer(b.stx, fee, ctx.sender, b.gov.feeRecipient);
    Ok(Effect(b.(store := written.store, stx := stx), written.accepted))
  }

  /** decode-price-feeds : the same fee, no write. */
  function DecodePriceFeeds(host: Host, b: Bridge, ctx: Context, bytes: Buffer, plan: PlanArgument): Outcome<Effect> {
    var flow := CheckFlow(b.gov.plan, ORACLE, ctx.caller, Some(plan));
    :- flow;
    var decoded :- Decode(host, b, ctx, bytes, plan);
    var fee :- FeeFor(b.gov.fee, |decoded|);
    var stx :- Transfer(b.stx, fee, ctx.sender, b.gov.feeRecipient);
    Ok(Effect(b.(stx := stx), decoded))
  }

  /** A public call that can change the state of the bridge. */
  datatype Call =
    | RotateGuardians(vaa: Buffer, keys: seq<KeyArgument>)
    | Governance(action: Action, vaa: Buffer, wormhole: Principal)
    | UpdatePrices(bytes: Buffer, plan: PlanArgument)
    | DecodePrices(bytes: Buffer, plan: PlanArgument)
    | WritePrices(batch: seq<PriceUpdate>)

  datatype Transaction = Transaction(ctx: Context, call: Call)

  const MAX_INPUT: nat := 8192
  const MAX_ROTATION: nat := 2048
  const MAX_BATCH: nat := 64

  /** The declared argument types: (buff 8192), (buff 2048), (list 19 ...), (list 64 ...). The chain
      refuses a transaction whose arguments do not fit them. */
  predicate WellTyped(call: Call) {
    match call
    case RotateGuardians(vaa, keys) => |vaa| <= MAX_ROTATION && |keys| <= MAX_GUARDIANS
    case Governance(_, vaa, _) => |vaa| <= MAX_INPUT
    case UpdatePrices(bytes, _) => |bytes| <= MAX_INPUT
    case DecodePrices(bytes, _) => |bytes| <= MAX_INPUT
    case WritePrices(batch) => |batch| <= MAX_BATCH
  }

  /** Only the oracle's own code runs as the oracle, and that code calls the store within
      UpdatePrices alone. */
  predicate Possible(tx: Transaction) {
    tx.call.WritePrices? ==> tx.ctx.caller != ORACLE
  }

  function Execute(cfg: Config, b: Bridge, tx: Transaction): Outcome<Effect> {
    if !WellTyped(tx.call) then Abort
    else
      match tx.call
      case RotateGuardians(vaa, keys) =>
        var w :- Rotate(cfg.host, b.wormhole, vaa, keys);
        Ok(Effect(b.(wormhole := w), []))
      case Governance(action, vaa, wormhole) =>
        var verified := VerifierAt(cfg.host, b.wormhole, wormhole, tx.ctx.foreign)(vaa);
        var gov :- Govern(cfg.host, cfg.ChainId(), b.gov, action, verified, wormhole);
        Ok(Effect(b.(gov := gov), []))
      case UpdatePrices(bytes, plan) => UpdatePriceFeeds(cfg.host, b, tx.ctx, bytes, plan)
      case DecodePrices(bytes, plan) => DecodePriceFeeds(cfg.host, b, tx.ctx, bytes, plan)
      case WritePrices(batch) =>
        var flow := CheckFlow(b.gov.plan, STORE, tx.ctx.caller, None);
        var written :- Write(b.store, Clock(tx.ctx.latestBlock, b.gov.staleThreshold), flow, batch);
        Ok(Effect(b.(store := written.store), written.accepted))
  }

  /** A call that does not return ok leaves everything as it was. */
  function Next(cfg: Config, b: Bridge, tx: Transaction): Bridge {
    match Execute(cfg, b, tx)
    case Ok(effect) => effect.bridge
    case Err(_) => b
    case Abort => b
  }

  // ---------- the contract ----------

  /** The balances the chain keeps. */
  class StxLedger {
    var stx: Ledger

    constructor (initial: Ledger)
      ensures stx == initial
    {
      stx := initial;
    }

    method TransferStx(amount: nat, from: Principal, to: Principal) returns (r: Outcome<()>)
      modifies this
      ensures r.Ok? ==> Transfer(old(stx), amount, from, to) == Ok(stx)
      ensures !r.Ok? ==> stx == old(stx) && r.PropagateFailure<Ledger>() == Transfer(old(stx), amount, from, to)
    {
      if amount == 0 || from == to || amount > Balance(stx, from) {
        return Err(ERR_BALANCE_INSUFFICIENT);
      }
      stx := stx[from := Balance(stx, from) - amount];
      stx := stx[to := Balance(stx, to) + amount];
      r := Ok(());
    }
  }

  class OracleContract {
    const wormhole: WormholeContract
    const governance: GovernanceContract
    const store: StoreContract
    const ledger: StxLedger

    constructor (wormhole: WormholeContract, governance: GovernanceContract, store: StoreContract, ledger: StxLedger)
      ensures this.wormhole == wormhole && this.governance == governance && this.store == store && this.ledger == ledger
    {
      this.wormhole, this.governance, this.store, this.ledger := wormhole, governance, store, ledger;
    }

    function State(): Bridge
      reads wormhole, governance, store, ledger
    {
      Bridge(wormhole.State(), governance.State(), store.State(), ledger.stx)
    }

    /** The store is written before the fee is charged; a fee that cannot be charged undoes it. */
    method VerifyAndUpdatePriceFeeds(host: Host, ctx: Context, bytes: Buffer, plan: PlanArgument)
        returns (r: Outcome<seq<PriceUpdate>>)
      modifies store, ledger
      ensures var spec := UpdatePriceFeeds(host, old(State()), ctx, bytes, plan);
              if r.Ok? then spec.Ok? && spec.value.bridge == State() && spec.value.returned == r.value
              else r.PropagateFailure<Effect>() == spec && State() == old(State())
    {
      hide Decode, Write, FeeFor, Transfer;
      ghost var b := State();
      var pricesBefore, timestampsBefore := store.prices, store.timestamps;
      :- CheckFlow(governance.plan, ORACLE, ctx.caller, Some(plan));
      var decoded :- Decode(host, State(), ctx, bytes, plan);
      var accepted;
      if plan.storage == STORE {
        accepted :- store.WriteBatch(Clock(ctx.latestBlock, governance.staleThreshold),
                                     CheckFlow(governance.plan, STORE, ORACLE, None), decoded);
      } else {
        accepted :- ctx.foreign.written;
      }
      assert WriteTo(b, ctx, plan, decoded) == Ok(Written(store.State(), accepted));
      var fee := FeeFor(governance.fee, |accepted|);
      if !fee.Ok? {
        store.prices, store.timestamps := pricesBefore, timestampsBefore;
        return fee.PropagateFailure();
      }
      var paid := ledger.TransferStx(fee.value, ctx.sender, governance.feeRecipient);
      if !paid.Ok? {
        store.prices, store.timestamps := pricesBefore, timestampsBefore;
        return paid.PropagateFailure();
      }
      r := Ok(accepted);
    }

    /** decode-price-feeds */
    method DecodeForFee(host: Host, ctx: Context, bytes: Buffer, plan: PlanArgument)
        returns (r: Outcome<seq<PriceUpdate>>)
      modifies ledger
      ensures var spec := DecodePriceFeeds(host, old(State()), ctx, bytes, plan);
              if r.Ok? then spec.Ok? && spec.value.bridge == State() && spec.value.returned == r.value
              else r.PropagateFailure<Effect>() == spec && State() == old(State())
    {
      hide Decode, FeeFor, Transfer;
      :- CheckFlow(governance.plan, ORACLE, ctx.caller, Some(plan));
      var decoded :- Decode(host, State(), ctx, bytes, plan);
      var fee :- FeeFor(governance.fee, |decoded|);
      var paid :- ledger.TransferStx(fee, ctx.sender, governance.feeRecipient);
      r := Ok(decoded);
    }
  }
}

/** The price store: for each feed the last accepted update, by publish time. */
module PythStore {
  import opened Bytes
  import opened Clarity
  import opened PriceMessage

  const ERR_NOT_FOUND: nat := 404
  const ERR_NEWER_PRICE_AVAILABLE: nat := 5000
  const ERR_STALE_PRICE: nat := 5001
  const ERR_INVALID_UPDATES: nat := 5003

  /** A stored price: an update without its identifier. */
  datatype Price = Price(
    price: int, conf: nat, expo: int, emaPrice: int, emaConf: nat, publishTime: nat, prevPublishTime: nat)

  function PriceOf(u: PriceUpdate): Price {
    Price(u.price, u.conf, u.expo, u.emaPrice, u.emaConf, u.publishTime, u.prevPublishTime)
  }

  datatype StoreState = StoreState(prices: map<Buffer, Price>, timestamps: map<Buffer, nat>)

  const EMPTY_STORE: StoreState := StoreState(map[], map[])

  /** The time of the last bitcoin block, when the host knows it, and governance's threshold. */
  datatype Clock = Clock(latest: Option<nat>, staleThreshold: nat)

  function LastTime(s: StoreState, id: Buffer): nat {
    if id in s.timestamps then s.timestamps[id] else 0
  }

  /** write-batch-entry. The subtraction aborts when the threshold reaches before time zero, but is
      only evaluated for an entry newer than the stored one. */
  function WriteEntry(s: StoreState, clock: Clock, u: PriceUpdate): Outcome<StoreState> {
    var latest :- clock.latest.OrErr(ERR_STALE_PRICE);
    :- Require(u.publishTime > LastTime(s, u.priceIdentifier), ERR_NEWER_PRICE_AVAILABLE);
    var oldest :- Uint128(latest - clock.staleThreshold);
    :- Require(u.publishTime >= oldest, ERR_STALE_PRICE);
    Ok(StoreState(s.prices[u.priceIdentifier := PriceOf(u)], s.timestamps[u.priceIdentifier := u.publishTime]))
  }

  datatype Written = Written(store: StoreState, accepted: seq<PriceUpdate>)

  /** The batch in order, keeping the entries that were written. */
  function WriteAll(s: StoreState, clock: Clock, batch: seq<PriceUpdate>): Outcome<Written>
    decreases |batch|
  {
    if batch == [] then Ok(Written(s, []))
    else
      match WriteEntry(s, clock, batch[0])
      case Abort => Abort
      case Err(_) => WriteAll(s, clock, batch[1..])
      case Ok(s') =>
        var rest :- WriteAll(s', clock, batch[1..]);
        Ok(Written(rest.store, [batch[0]] + rest.accepted))
  }

  /** write : the flow check and the emptiness check come after the writes. */
  function Write(s: StoreState, clock: Clock, flow: Check, batch: seq<PriceUpdate>): Outcome<Written> {
    var written :- WriteAll(s, clock, batch);
    :- flow;
    :- Require(|written.accepted| > 0, ERR_INVALID_UPDATES);
    Ok(written)
  }

  // ---------- what a batch does ----------

  predicate Fresh(clock: Clock, u: PriceUpdate) {
    clock.latest.Some? && u.publishTime + clock.staleThreshold >= clock.latest.value
  }

  /** Fresh, and newer than what its feed had before the batch. */
  predicate Eligible(s: StoreState, clock: Clock, u: PriceUpdate) {
    Fresh(clock, u) && u.publishTime > LastTime(s, u.priceIdentifier)
  }

  /** The first entry of the batch for the feed that has the greatest time among the eligible ones. */
  ghost predicate Wins(s: StoreState, clock: Clock, batch: seq<PriceUpdate>, id: Buffer, k: int) {
    && 0 <= k < |batch| && batch[k].priceIdentifier == id && Eligible(s, clock, batch[k])
    && forall j :: 0 <= j < |batch| && batch[j].priceIdentifier == id && Eligible(s, clock, batch[j]) ==>
         batch[j].publishTime <= batch[k].publishTime && (j < k ==> batch[j].publishTime < batch[k].publishTime)
  }

  /** The maps after a batch, read off the batch and the state before it. */
  ghost predicate FinalFor(s: StoreState, clock: Clock, batch: seq<PriceUpdate>, id: Buffer, s': StoreState) {
    if exists u :: u in batch && u.priceIdentifier == id && Eligible(s, clock, u) then
      exists k :: Wins(s, clock, batch, id, k) && Stores(s', id, batch[k])
    else
      && (id in s'.prices <==> id in s.prices) && (id in s.prices ==> s'.prices[id] == s.prices[id])
      && (id in s'.timestamps <==> id in s.timestamps) && (id in s.timestamps ==> s'.timestamps[id] == s.timestamps[id])
  }

  predicate Stores(s: StoreState, id: Buffer, u: PriceUpdate) {
    && id in s.prices && s.prices[id] == PriceOf(u)
    && id in s.timestamps && s.timestamps[id] == u.publishTime
  }

  /** How one entry is answered, in the order of the checks. */
  lemma EntryOutcome(s: StoreState, clock: Clock, u: PriceUpdate)
    ensures var r := WriteEntry(s, clock, u);
            var last := if u.priceIdentifier in s.timestamps then s.timestamps[u.priceIdentifier] else 0;
            if clock.latest.None? then r == Err(5001)
            else if u.publishTime <= last then r == Err(5000)
            else if !(0 <= clock.latest.value - clock.staleThreshold < U128_LIMIT) then r == Abort
            else if u.publishTime + clock.staleThreshold < clock.latest.value then r == Err(5001)
            else r.Ok?
  {
  }

  lemma EntryWritten(s: StoreState, clock: Clock, u: PriceUpdate)
    ensures WriteEntry(s, clock, u).Ok? ==>
              Eligible(s, clock, u) && Stores(WriteEntry(s, clock, u).value, u.priceIdentifier, u)
    ensures WriteEntry(s, clock, u).Err? ==> !Eligible(s, clock, u)
  {
  }

  /** After a batch, each feed holds the first eligible entry with the greatest time, and a feed
      without one is untouched. */
  lemma {:induction false} FinalState(s: StoreState, clock: Clock, batch: seq<PriceUpdate>, id: Buffer)
    requires WriteAll(s, clock, batch).Ok?
    ensures FinalFor(s, clock, batch, id, WriteAll(s, clock, batch).value.store)
    decreases |batch|
  {
    if batch == [] {
    } else {
      hide WriteEntry, Eligible;
      var u, rest := batch[0], batch[1..];
      var s' := WriteAll(s, clock, batch).value.store;
      EntryWritten(s, clock, u);
      if WriteEntry(s, clock, u).Ok? {
        var s1 := WriteEntry(s, clock, u).value;
        FinalState(s1, clock, rest, id);
        FinalAfterWrite(s, clock, batch, id, s1, s');
      } else {
        FinalState(s, clock, rest, id);
        FinalAfterSkip(s, clock, batch, id, s');
      }
    }
  }

  /** A winner of the rest of a batch wins the whole batch when the head does not rival it. */
  lemma WinsShift(s: StoreState, s1: StoreState, clock: Clock, batch: seq<PriceUpdate>, id: Buffer, k: int)
    requires batch != [] && Wins(s1, clock, batch[1..], id, k)
    requires Eligible(s, clock, batch[1..][k])
    requires batch[0].priceIdentifier == id && Eligible(s, clock, batch[0]) ==>
               batch[0].publishTime < batch[1..][k].publishTime
    requires forall x :: x in batch[1..] && x.priceIdentifier == id && Eligible(s, clock, x) ==>
               Eligible(s1, clock, x) || x.publishTime < batch[1..][k].publishTime
    ensures Wins(s, clock, batch, id, k + 1)
  {
    hide Eligible;
    forall j | 0 <= j < |batch| && batch[j].priceIdentifier == id && Eligible(s, clock, batch[j])
      ensures batch[j].publishTime <= batch[k + 1].publishTime
      ensures j < k + 1 ==> batch[j].publishTime < batch[k + 1].publishTime
    {
      if j > 0 {
        assert batch[j] == batch[1..][j - 1] && batch[j] in batch[1..];
      }
    }
  }

  lemma FinalAfterSkip(s: StoreState, clock: Clock, batch: seq<PriceUpdate>, id: Buffer, s': StoreState)
    requires batch != [] && !Eligible(s, clock, batch[0]) && FinalFor(s, clock, batch[1..], id, s')
    ensures FinalFor(s, clock, batch, id, s')
  {
    hide Eligible;
    var rest := batch[1..];
    assert forall x :: x in batch <==> x == batch[0] || x in rest;
    if exists u :: u in batch && u.priceIdentifier == id && Eligible(s, clock, u) {
      var k :| Wins(s, clock, rest, id, k) && Stores(s', id, rest[k]);
      WinsShift(s, s, clock, batch, id, k);
    }
  }

  /** Writing an entry changes what is eligible for its own feed only, and there to what is newer. */
  lemma EligibleAfter(s: StoreState, clock: Clock, u: PriceUpdate, x: PriceUpdate)
    requires WriteEntry(s, clock, u).Ok?
    ensures x.priceIdentifier != u.priceIdentifier ==>
              Eligible(WriteEntry(s, clock, u).value, clock, x) == Eligible(s, clock, x)
    ensures x.priceIdentifier == u.priceIdentifier ==>
              Eligible(WriteEntry(s, clock, u).value, clock, x)
              == (Eligible(s, clock, x) && x.publishTime > u.publishTime)
  {
  }

  lemma HeadWins(s: StoreState, clock: Clock, batch: seq<PriceUpdate>, id: Buffer)
    requires batch != [] && batch[0].priceIdentifier == id && Eligible(s, clock, batch[0])
    requires forall x :: x in batch[1..] && x.priceIdentifier == id && Eligible(s, clock, x) ==>
               x.publishTime <= batch[0].publishTime
    ensures Wins(s, clock, batch, id, 0)
  {
    hide Eligible;
    forall j | 0 <= j < |batch| && batch[j].priceIdentifier == id && Eligible(s, clock, batch[j])
      ensures batch[j].publishTime <= batch[0].publishTime
    {
      if j > 0 {
        assert batch[j] == batch[1..][j - 1] && batch[j] in batch[1..];
      }
    }
  }

  lemma WriteElsewhere(s: StoreState, clock: Clock, u: PriceUpdate)
    requires WriteEntry(s, clock, u).Ok?
    ensures var s1 := WriteEntry(s, clock, u).value;
            forall id :: id != u.priceIdentifier ==>
              && (id in s1.prices <==> id in s.prices) && (id in s.prices ==> s1.prices[id] == s.prices[id])
              && (id in s1.timestamps <==> id in s.timestamps)
              && (id in s.timestamps ==> s1.timestamps[id] == s.timestamps[id])
  {
  }

  lemma FinalAfterWrite(s: StoreState, clock: Clock, batch: seq<PriceUpdate>, id: Buffer, s1: StoreState,
                        s': StoreState)
    requires batch != [] && WriteEntry(s, clock, batch[0]) == Ok(s1) && FinalFor(s1, clock, batch[1..], id, s')
    ensures FinalFor(s, clock, batch, id, s')
  {
    var u, rest := batch[0], batch[1..];
    assert forall x :: x in batch <==> x == u || x in rest;
    forall x: PriceUpdate
      ensures x.priceIdentifier != u.priceIdentifier ==> Eligible(s1, clock, x) == Eligible(s, clock, x)
      ensures x.priceIdentifier == u.priceIdentifier ==>
                Eligible(s1, clock, x) == (Eligible(s, clock, x) && x.publishTime > u.publishTime)
    {
      EligibleAfter(s, clock, u, x);
    }
    EntryWritten(s, clock, u);
    WriteElsewhere(s, clock, u);
    hide Eligible, WriteEntry;
    if exists x :: x in rest && x.priceIdentifier == id && Eligible(s1, clock, x) {
      var k :| Wins(s1, clock, rest, id, k) && Stores(s', id, rest[k]);
      WinsShift(s, s1, clock, batch, id, k);
    } else if u.priceIdentifier == id {
      assert Stores(s', id, u);
      HeadWins(s, clock, batch, id);
    }
  }

  /** The batch aborts exactly when the threshold reaches before time zero and some entry is newer
      than what its feed had. */
  lemma {:induction false} AbortsIff(s: StoreState, clock: Clock, batch: seq<PriceUpdate>)
    ensures !WriteAll(s, clock, batch).Err?
    ensures WriteAll(s, clock, batch) == Abort <==>
              && clock.latest.Some?
              && !(0 <= clock.latest.value - clock.staleThreshold < U128_LIMIT)
              && exists u :: u in batch && u.publishTime > LastTime(s, u.priceIdentifier)
    decreases |batch|
  {
    if batch == [] {
    } else {
      var u, rest := batch[0], batch[1..];
      assert forall x :: x in batch <==> x == u || x in rest;
      match WriteEntry(s, clock, u)
      case Ok(s') => AbortsIff(s', clock, rest);
      case Err(_) => AbortsIff(s, clock, rest);
      case Abort =>
    }
  }

  /** read */
  function Read(s: StoreState, id: Buffer): Outcome<Price> {
    if id in s.prices then Ok(s.prices[id]) else Err(ERR_NOT_FOUND)
  }

  /** A feed that had no price and got no eligible entry still has none. */
  lemma ReadNothing(s: StoreState, clock: Clock, batch: seq<PriceUpdate>, id: Buffer)
    requires WriteAll(s, clock, batch).Ok? && id !in s.prices
    requires forall u :: u in batch && u.priceIdentifier == id ==> !Eligible(s, clock, u)
    ensures Read(WriteAll(s, clock, batch).value.store, id) == Err(404)
  {
    hide WriteAll, Eligible;
    FinalState(s, clock, batch, id);
  }

  /** How write ends: the writes first, then who called, then whether anything was accepted. */
  lemma WriteOutcome(s: StoreState, clock: Clock, flow: Check, batch: seq<PriceUpdate>)
    ensures Write(s, clock, flow, batch)
            == if WriteAll(s, clock, batch).Abort? then Abort
               else if flow.Fail? then Err(flow.code)
               else if forall u :: u in batch ==> !Eligible(s, clock, u) then Err(5003)
               else WriteAll(s, clock, batch)
  {
    hide WriteAll, Eligible;
    AbortsIff(s, clock, batch);
    if WriteAll(s, clock, batch).Ok? {
      AcceptsIff(s, clock, batch);
    }
  }

  lemma OneWinner(s: StoreState, clock: Clock, batch: seq<PriceUpdate>, id: Buffer, k: int, l: int)
    requires Wins(s, clock, batch, id, k) && Wins(s, clock, batch, id, l)
    ensures k == l
  {
    hide Eligible;
  }

  /** Reading a feed after a batch gives the fields of the entry that won it. */
  lemma ReadAfterWrite(s: StoreState, clock: Clock, batch: seq<PriceUpdate>, id: Buffer, k: int)
    requires WriteAll(s, clock, batch).Ok? && Wins(s, clock, batch, id, k)
    ensures var r := Read(WriteAll(s, clock, batch).value.store, id); var u := batch[k];
            && r.Ok?
            && r.value.price == u.price && r.value.conf == u.conf && r.value.expo == u.expo
            && r.value.emaPrice == u.emaPrice && r.value.emaConf == u.emaConf
            && r.value.publishTime == u.publishTime && r.value.prevPublishTime == u.prevPublishTime
  {
    hide WriteAll, Eligible;
    FinalState(s, clock, batch, id);
    assert batch[k] in batch;
    var l :| Wins(s, clock, batch, id, l) && Stores(WriteAll(s, clock, batch).value.store, id, batch[l]);
    OneWinner(s, clock, batch, id, k, l);
  }

  // ---------- the order of a batch ----------

  /** The entry is eligible, and no eligible entry of its feed is newer. */
  ghost predicate Leads(s: StoreState, clock: Clock, batch: seq<PriceUpdate>, u: PriceUpdate) {
    && u in batch && Eligible(s, clock, u)
    && forall x | x in batch && x.priceIdentifier == u.priceIdentifier && Eligible(s, clock, x) ::
         x.publishTime <= u.publishTime
  }

  /** Leading entries of one feed carry the same price. */
  ghost predicate TiesAgree(s: StoreState, clock: Clock, batch: seq<PriceUpdate>) {
    forall u, v | Leads(s, clock, batch, u) && Leads(s, clock, batch, v) ::
      u.priceIdentifier == v.priceIdentifier ==> PriceOf(u) == PriceOf(v)
  }

  lemma FinalWinner(s: StoreState, clock: Clock, batch: seq<PriceUpdate>, id: Buffer, s': StoreState, u: PriceUpdate)
      returns (k: nat)
    requires FinalFor(s, clock, batch, id, s')
    requires u in batch && u.priceIdentifier == id && Eligible(s, clock, u)
    ensures k < |batch| && Stores(s', id, batch[k])
    ensures batch[k].priceIdentifier == id && Leads(s, clock, batch, batch[k])
  {
    hide Eligible;
    k :| Wins(s, clock, batch, id, k) && Stores(s', id, batch[k]);
  }

  lemma FinalAgree(s: StoreState, clock: Clock, a: seq<PriceUpdate>, b: seq<PriceUpdate>, id: Buffer,
                   s1: StoreState, s2: StoreState)
    requires (forall u :: u in a <==> u in b) && TiesAgree(s, clock, a)
    requires FinalFor(s, clock, a, id, s1) && FinalFor(s, clock, b, id, s2)
    ensures id in s1.prices <==> id in s2.prices
    ensures id in s1.prices ==> s1.prices[id] == s2.prices[id]
    ensures id in s1.timestamps <==> id in s2.timestamps
    ensures id in s1.timestamps ==> s1.timestamps[id] == s2.timestamps[id]
  {
    if exists u :: u in a && u.priceIdentifier == id && Eligible(s, clock, u) {
      hide Eligible, FinalFor;
      var u :| u in a && u.priceIdentifier == id && Eligible(s, clock, u);
      var i := FinalWinner(s, clock, a, id, s1, u);
      var j := FinalWinner(s, clock, b, id, s2, u);
      assert Leads(s, clock, a, b[j]);
      assert PriceOf(a[i]) == PriceOf(b[j]);
    }
  }

  /** Two orders of one batch succeed, fail or abort alike, and leave the same maps when the leading
      entries of each feed agree. */
  lemma OrderIndependence(s: StoreState, clock: Clock, flow: Check, a: seq<PriceUpdate>, b: seq<PriceUpdate>)
    requires multiset(a) == multiset(b)
    ensures Write(s, clock, flow, a).Ok? == Write(s, clock, flow, b).Ok?
    ensures Write(s, clock, flow, a).Ok? && TiesAgree(s, clock, a) ==>
              Write(s, clock, flow, a).value.store == Write(s, clock, flow, b).value.store
    ensures Write(s, clock, flow, a).Abort? == Write(s, clock, flow, b).Abort?
  {
    hide WriteEntry, WriteAll, FinalFor, Eligible, TiesAgree;
    assert forall u :: (u in a <==> u in b) by {
      assert forall u :: u in a <==> u in multiset(a);
      assert forall u :: u in b <==> u in multiset(b);
    }
    AbortsIff(s, clock, a);
    AbortsIff(s, clock, b);
    if WriteAll(s, clock, a).Ok? {
      AcceptsIff(s, clock, a);
      AcceptsIff(s, clock, b);
      if TiesAgree(s, clock, a) {
        SameMaps(s, clock, a, b);
      }
    }
  }

  lemma SameMaps(s: StoreState, clock: Clock, a: seq<PriceUpdate>, b: seq<PriceUpdate>)
    requires (forall u :: u in a <==> u in b) && TiesAgree(s, clock, a)
    requires WriteAll(s, clock, a).Ok? && WriteAll(s, clock, b).Ok?
    ensures WriteAll(s, clock, a).value.store == WriteAll(s, clock, b).value.store
  {
    hide WriteEntry, WriteAll, FinalFor, Eligible, TiesAgree;
    var s1, s2 := WriteAll(s, clock, a).value.store, WriteAll(s, clock, b).value.store;
    forall id: Buffer
      ensures id in s1.prices <==> id in s2.prices
      ensures id in s1.prices ==> s1.prices[id] == s2.prices[id]
      ensures id in s1.timestamps <==> id in s2.timestamps
      ensures id in s1.timestamps ==> s1.timestamps[id] == s2.timestamps[id]
    {
      FinalState(s, clock, a, id);
      FinalState(s, clock, b, id);
      FinalAgree(s, clock, a, b, id, s1, s2);
    }
    assert s1.prices == s2.prices && s1.timestamps == s2.timestamps;
  }

  /** Something is accepted exactly when something is eligible. */
  lemma {:induction false} AcceptsIff(s: StoreState, clock: Clock, batch: seq<PriceUpdate>)
    requires WriteAll(s, clock, batch).Ok?
    ensures WriteAll(s, clock, batch).value.accepted != [] <==> exists u :: u in batch && Eligible(s, clock, u)
    decreases |batch|
  {
    if batch == [] {
    } else {
      var u, rest := batch[0], batch[1..];
      assert forall x :: x in batch <==> x == u || x in rest;
      EntryWritten(s, clock, u);
      if WriteEntry(s, clock, u).Err? {
        AcceptsIff(s, clock, rest);
      }
    }
  }

  lemma OneEntry(s: StoreState, clock: Clock, u: PriceUpdate)
    requires !WriteEntry(s, clock, u).Abort?
    ensures WriteAll(s, clock, [u]).Ok?
    ensures WriteAll(s, clock, [u]).value.accepted == if WriteEntry(s, clock, u).Ok? then [u] else []
  {
    var w := WriteEntry(s, clock, u);
    assert [u][1..] == [];
    assert WriteAll(if w.Ok? then w.value else s, clock, []).Ok?;
  }

  /** Two orders that leave the same maps can get different numbers of entries accepted. */
  lemma AcceptedCountDependsOnOrder(id: Buffer)
    ensures exists a, b: seq<PriceUpdate>, clock ::
              && multiset(a) == multiset(b) && TiesAgree(EMPTY_STORE, clock, a)
              && WriteAll(EMPTY_STORE, clock, a).Ok? && WriteAll(EMPTY_STORE, clock, b).Ok?
              && |WriteAll(EMPTY_STORE, clock, a).value.accepted| != |WriteAll(EMPTY_STORE, clock, b).value.accepted|
  {
    var u := PriceUpdate(id, 0, 0, 0, 1, 0, 0, 0);
    var v := u.(publishTime := 2);
    var a, b, clock := [u, v], [v, u], Clock(Some(0), 0);
    var s1 := WriteEntry(EMPTY_STORE, clock, u).value;
    assert WriteEntry(s1, clock, v).Ok?;
    assert a[1..] == [v] && b[1..] == [u];
    OneEntry(s1, clock, v);
    var s2 := WriteEntry(EMPTY_STORE, clock, v).value;
    assert WriteEntry(s2, clock, u).Err?;
    OneEntry(s2, clock, u);
    assert |WriteAll(EMPTY_STORE, clock, a).value.accepted| == 2;
    assert |WriteAll(EMPTY_STORE, clock, b).value.accepted| == 1;
    assert TiesAgree(EMPTY_STORE, clock, a) by {
      assert v in a && Eligible(EMPTY_STORE, clock, v);
      assert forall x :: Leads(EMPTY_STORE, clock, a, x) ==> x == v;
    }
  }

  lemma {:induction false} WriteAllSplits(s: StoreState, clock: Clock, a: seq<PriceUpdate>, b: seq<PriceUpdate>)
    requires WriteAll(s, clock, a).Ok? && WriteAll(WriteAll(s, clock, a).value.store, clock, b).Ok?
    ensures var first := WriteAll(s, clock, a).value;
            var second := WriteAll(first.store, clock, b).value;
            WriteAll(s, clock, a + b) == Ok(Written(second.store, first.accepted + second.accepted))
    decreases |a|
  {
    if a == [] {
      assert a + b == b;
      var second := WriteAll(s, clock, b).value;
      assert [] + second.accepted == second.accepted;
    } else {
      hide WriteEntry;
      assert (a + b)[0] == a[0] && (a + b)[1..] == a[1..] + b;
      if WriteEntry(s, clock, a[0]).Ok? {
        var s1 := WriteEntry(s, clock, a[0]).value;
        WriteAllSplits(s1, clock, a[1..], b);
        var x, y := WriteAll(s1, clock, a[1..]).value, WriteAll(WriteAll(s, clock, a).value.store, clock, b).value;
        assert [a[0]] + (x.accepted + y.accepted) == ([a[0]] + x.accepted) + y.accepted;
      } else {
        WriteAllSplits(s, clock, a[1..], b);
      }
    }
  }

  /** Two committed batches in a row are the one batch of both. */
  lemma BatchesCompose(s: StoreState, clock: Clock, flow: Check, a: seq<PriceUpdate>, b: seq<PriceUpdate>)
    requires Write(s, clock, flow, a).Ok? && Write(Write(s, clock, flow, a).value.store, clock, flow, b).Ok?
    ensures var first := Write(s, clock, flow, a).value;
            var second := Write(first.store, clock, flow, b).value;
            Write(s, clock, flow, a + b) == Ok(Written(second.store, first.accepted + second.accepted))
  {
    hide WriteEntry, WriteAll;
    WriteAllSplits(s, clock, a, b);
  }

  // ---------- which entries are accepted ----------

  /** Entry k is taken: it is eligible, and newer than every eligible entry of its feed before it. */
  ghost predicate Taken(s: StoreState, clock: Clock, batch: seq<PriceUpdate>, k: nat)
    requires k < |batch|
  {
    && Eligible(s, clock, batch[k])
    && forall j | 0 <= j < k && batch[j].priceIdentifier == batch[k].priceIdentifier && Eligible(s, clock, batch[j]) ::
         batch[j].publishTime < batch[k].publishTime
  }

  /** The taken ones of the first n entries, in order. */
  ghost function TakenOf(s: StoreState, clock: Clock, batch: seq<PriceUpdate>, n: nat): seq<PriceUpdate>
    requires n <= |batch|
  {
    if n == 0 then []
    else TakenOf(s, clock, batch, n - 1) + (if Taken(s, clock, batch, n - 1) then [batch[n - 1]] else [])
  }

  lemma {:induction false} TakenOfPrefix(s: StoreState, clock: Clock, batch: seq<PriceUpdate>, m: nat, n: nat)
    requires n <= m <= |batch|
    ensures TakenOf(s, clock, batch[..m], n) == TakenOf(s, clock, batch, n)
  {
    if n == 0 {
    } else {
      hide Eligible;
      TakenOfPrefix(s, clock, batch, m, n - 1);
      assert Taken(s, clock, batch[..m], n - 1) == Taken(s, clock, batch, n - 1);
    }
  }

  /** Both halves of a batch that commits commit. */
  lemma {:induction false} HalvesCommit(s: StoreState, clock: Clock, a: seq<PriceUpdate>, b: seq<PriceUpdate>)
    requires WriteAll(s, clock, a + b).Ok?
    ensures WriteAll(s, clock, a).Ok? && WriteAll(WriteAll(s, clock, a).value.store, clock, b).Ok?
    decreases |a|
  {
    if a == [] {
      assert a + b == b;
    } else {
      hide WriteEntry;
      assert (a + b)[0] == a[0] && (a + b)[1..] == a[1..] + b;
      HalvesCommit(if WriteEntry(s, clock, a[0]).Ok? then WriteEntry(s, clock, a[0]).value else s, clock, a[1..], b);
    }
  }

  /** What the state after a prefix takes is what the state before the batch says. */
  lemma TakenNext(s: StoreState, clock: Clock, batch: seq<PriceUpdate>, n: nat, mid: StoreState)
    requires n < |batch| && FinalFor(s, clock, batch[..n], batch[n].priceIdentifier, mid)
    ensures Eligible(mid, clock, batch[n]) == Taken(s, clock, batch, n)
  {
    var u, front := batch[n], batch[..n];
    if exists x :: x in front && x.priceIdentifier == u.priceIdentifier && Eligible(s, clock, x) {
      var k :| Wins(s, clock, front, u.priceIdentifier, k) && Stores(mid, u.priceIdentifier, front[k]);
      assert front[k] == batch[k];
      assert LastTime(mid, u.priceIdentifier) == batch[k].publishTime > LastTime(s, u.priceIdentifier);
      hide Eligible;
      forall j | 0 <= j < n && batch[j].priceIdentifier == u.priceIdentifier && Eligible(s, clock, batch[j])
        ensures batch[j].publishTime <= batch[k].publishTime
      {
        assert front[j] == batch[j];
      }
    } else {
      assert LastTime(mid, u.priceIdentifier) == LastTime(s, u.priceIdentifier);
      hide Eligible;
      forall j | 0 <= j < n
        ensures !(batch[j].priceIdentifier == u.priceIdentifier && Eligible(s, clock, batch[j]))
      {
        assert batch[j] == front[j] && front[j] in front;
      }
    }
  }

  /** The accepted list is exactly the taken entries in batch order, said of the state before the
      batch alone. */
  lemma {:induction false} AcceptedAreTaken(s: StoreState, clock: Clock, batch: seq<PriceUpdate>)
    requires WriteAll(s, clock, batch).Ok?
    ensures WriteAll(s, clock, batch).value.accepted == TakenOf(s, clock, batch, |batch|)
    decreases |batch|
  {
    if batch == [] {
    } else {
      hide FinalFor, Taken, WriteEntry;
      var n := |batch| - 1;
      var front, u := batch[..n], batch[n];
      assert batch == front + [u];
      HalvesCommit(s, clock, front, [u]);
      AcceptedAreTaken(s, clock, front);
      TakenOfPrefix(s, clock, batch, n, n);
      var mid := WriteAll(s, clock, front).value.store;
      WriteAllSplits(s, clock, front, [u]);
      FinalState(s, clock, front, u.priceIdentifier);
      TakenNext(s, clock, batch, n, mid);
      EntryWritten(mid, clock, u);
      OneEntry(mid, clock, u);
    }
  }

  // ---------- the store invariant ----------

  /** Both maps have the same keys, each stored publish time is its timestamp and positive. */
  ghost predicate ValidStore(s: StoreState) {
    && s.prices.Keys == s.timestamps.Keys
    && forall id :: id in s.prices ==> s.prices[id].publishTime == s.timestamps[id] > 0
  }

  /** Every accepted write of a feed has a greater time than the ones before it, in the batch and in
      the store before it. */
  ghost predicate Grows(s: StoreState, accepted: seq<PriceUpdate>) {
    && (forall i :: 0 <= i < |accepted| ==> accepted[i].publishTime > LastTime(s, accepted[i].priceIdentifier))
    && forall i, j :: 0 <= i < j < |accepted| && accepted[i].priceIdentifier == accepted[j].priceIdentifier ==>
         accepted[i].publishTime < accepted[j].publishTime
  }

  /** No timestamp goes back. */
  ghost predicate TimesKept(s: StoreState, s': StoreState) {
    forall id :: LastTime(s, id) <= LastTime(s', id)
  }

  /** Every stored price was there before or is an accepted entry. */
  ghost predicate PricesFrom(s: StoreState, accepted: seq<PriceUpdate>, s': StoreState) {
    forall id :: id in s'.prices ==>
      || (id in s.prices && s'.prices[id] == s.prices[id])
      || exists u :: u in accepted && u.priceIdentifier == id && PriceOf(u) == s'.prices[id]
  }

  ghost predicate AllFresh(clock: Clock, accepted: seq<PriceUpdate>) {
    forall u :: u in accepted ==> Fresh(clock, u)
  }

  ghost predicate Kept(s: StoreState, clock: Clock, written: Written) {
    && ValidStore(written.store)
    && Grows(s, written.accepted)
    && TimesKept(s, written.store)
    && AllFresh(clock, written.accepted)
    && PricesFrom(s, written.accepted, written.store)
  }

  ghost predicate KeptBy(s: StoreState, clock: Clock, batch: seq<PriceUpdate>, written: Written) {
    written.accepted == TakenOf(s, clock, batch, |batch|) && Kept(s, clock, written)
  }

  lemma {:induction false} WritesKeep(s: StoreState, clock: Clock, batch: seq<PriceUpdate>)
    requires ValidStore(s) && WriteAll(s, clock, batch).Ok?
    ensures Kept(s, clock, WriteAll(s, clock, batch).value)
    decreases |batch|
  {
    if batch == [] {
    } else {
      hide WriteEntry, ValidStore, Grows, TimesKept, AllFresh, PricesFrom;
      var u, rest := batch[0], batch[1..];
      var entry := WriteEntry(s, clock, u);
      if entry.Ok? {
        EntryKeepsStore(s, clock, u);
        WritesKeep(entry.value, clock, rest);
        var more := WriteAll(entry.value, clock, rest).value;
        GrowsAfterWrite(s, clock, u, more.accepted);
        PricesAfterWrite(s, clock, u, more);
        FreshAfterWrite(clock, u, more.accepted);
      } else {
        WritesKeep(s, clock, rest);
      }
    }
  }

  /** A batch keeps the store invariant; what it returns is exactly the entries of the batch that are
      eligible and newer than every eligible entry of their feed before them, in batch order; their
      times grow per feed; a timestamp never goes back; every stored price was there before or is
      one of the accepted entries. */
  lemma BatchKeepsStore(s: StoreState, clock: Clock, batch: seq<PriceUpdate>)
    requires ValidStore(s) && WriteAll(s, clock, batch).Ok?
    ensures KeptBy(s, clock, batch, WriteAll(s, clock, batch).value)
  {
    hide WriteAll, Kept, TakenOf;
    WritesKeep(s, clock, batch);
    AcceptedAreTaken(s, clock, batch);
  }

  lemma {:induction false} TakenInBatch(s: StoreState, clock: Clock, batch: seq<PriceUpdate>, n: nat)
    requires n <= |batch|
    ensures forall u :: u in TakenOf(s, clock, batch, n) ==> u in batch
  {
    if n == 0 {
    } else {
      hide Taken;
      TakenInBatch(s, clock, batch, n - 1);
    }
  }

  lemma EntryKeepsStore(s: StoreState, clock: Clock, u: PriceUpdate)
    requires ValidStore(s) && WriteEntry(s, clock, u).Ok?
    ensures ValidStore(WriteEntry(s, clock, u).value) && Fresh(clock, u)
  {
  }

  lemma FreshAfterWrite(clock: Clock, u: PriceUpdate, more: seq<PriceUpdate>)
    requires Fresh(clock, u) && AllFresh(clock, more)
    ensures AllFresh(clock, [u] + more)
  {
  }

  lemma GrowsAfterWrite(s: StoreState, clock: Clock, u: PriceUpdate, more: seq<PriceUpdate>)
    requires WriteEntry(s, clock, u).Ok? && Grows(WriteEntry(s, clock, u).value, more)
    ensures Grows(s, [u] + more)
  {
    var s1 := WriteEntry(s, clock, u).value;
    var accepted := [u] + more;
    assert LastTime(s1, u.priceIdentifier) == u.publishTime > LastTime(s, u.priceIdentifier);
    assert forall id :: id != u.priceIdentifier ==> LastTime(s1, id) == LastTime(s, id);
    hide WriteEntry, LastTime;
    forall i, j | 0 <= i < j < |accepted| && accepted[i].priceIdentifier == accepted[j].priceIdentifier
      ensures accepted[i].publishTime < accepted[j].publishTime
    {
      assert accepted[j] == more[j - 1];
      if i > 0 {
        assert accepted[i] == more[i - 1];
      }
    }
    forall i | 0 <= i < |accepted|
      ensures accepted[i].publishTime > LastTime(s, accepted[i].priceIdentifier)
    {
      if i > 0 {
        assert accepted[i] == more[i - 1];
      }
    }
  }

  lemma PricesAfterWrite(s: StoreState, clock: Clock, u: PriceUpdate, more: Written)
    requires WriteEntry(s, clock, u).Ok?
    requires var s1 := WriteEntry(s, clock, u).value;
             TimesKept(s1, more.store) && PricesFrom(s1, more.accepted, more.store)
    ensures TimesKept(s, more.store) && PricesFrom(s, [u] + more.accepted, more.store)
  {
    var s1 := WriteEntry(s, clock, u).value;
    assert forall id :: LastTime(s, id) <= LastTime(s1, id);
    assert forall id :: id in s1.prices ==>
             || (id in s.prices && s1.prices[id] == s.prices[id])
             || (id == u.priceIdentifier && s1.prices[id] == PriceOf(u));
    assert u in [u] + more.accepted;
    hide WriteEntry, LastTime;
    forall id | id in more.store.prices
      ensures (id in s.prices && more.store.prices[id] == s.prices[id])
              || exists v :: v in [u] + more.accepted && v.priceIdentifier == id && PriceOf(v) == more.store.prices[id]
    {
      if !(id in s1.prices && more.store.prices[id] == s1.prices[id]) {
        var v :| v in more.accepted && v.priceIdentifier == id && PriceOf(v) == more.store.prices[id];
        assert v in [u] + more.accepted;
      }
    }
  }

  // ---------- the contract ----------

  class StoreContract {
    var prices: map<Buffer, Price>
    var timestamps: map<Buffer, nat>

    constructor ()
      ensures State() == EMPTY_STORE
    {
      prices := map[];
      timestamps := map[];
    }

    function State(): StoreState
      reads this
    {
      StoreState(prices, timestamps)
    }

    method WriteBatchEntry(clock: Clock, u: PriceUpdate) returns (r: Outcome<PriceUpdate>)
      modifies this
      ensures r.Ok? ==> r.value == u && Ok(State()) == WriteEntry(old(State()), clock, u)
      ensures !r.Ok? ==> State() == old(State())
      ensures !r.Ok? ==> r.PropagateFailure<StoreState>() == WriteEntry(old(State()), clock, u)
    {
      var latest :- clock.latest.OrErr(ERR_STALE_PRICE);
      if u.publishTime <= LastTime(State(), u.priceIdentifier) {
        return Err(ERR_NEWER_PRICE_AVAILABLE);
      }
      var oldest :- Uint128(latest - clock.staleThreshold);
      if u.publishTime < oldest {
        return Err(ERR_STALE_PRICE);
      }
      prices := prices[u.priceIdentifier := PriceOf(u)];
      timestamps := timestamps[u.priceIdentifier := u.publishTime];
      r := Ok(u);
    }

    /** write, with the rollback of a public call that does not return ok. */
    method WriteBatch(clock: Clock, flow: Check, batch: seq<PriceUpdate>) returns (r: Outcome<seq<PriceUpdate>>)
      modifies this
      ensures r.Ok? ==> Write(old(State()), clock, flow, batch) == Ok(Written(State(), r.value))
      ensures !r.Ok? ==> State() == old(State())
      ensures !r.Ok? ==> r.PropagateFailure<Written>() == Write(old(State()), clock, flow, batch)
    {
      hide WriteEntry;
      assert batch[0..] == batch;
      FollowingNothing(WriteAll(State(), clock, batch));
      var pricesBefore, timestampsBefore := prices, timestamps;
      var accepted: seq<PriceUpdate> := [];
      var i := 0;
      while i < |batch|
        invariant i <= |batch|
        invariant WriteAll(old(State()), clock, batch) == Following(accepted, WriteAll(State(), clock, batch[i..]))
      {
        ghost var rest := batch[i..];
        assert rest[0] == batch[i] && rest[1..] == batch[i + 1..];
        var entry := WriteBatchEntry(clock, batch[i]);
        if entry.Abort? {
          prices, timestamps := pricesBefore, timestampsBefore;
          return Abort;
        }
        if entry.Ok? {
          FollowingStep(accepted, batch[i], WriteAll(State(), clock, rest[1..]));
          accepted := accepted + [entry.value];
        }
        i := i + 1;
      }
      assert accepted + [] == accepted;
      if flow.Fail? || |accepted| == 0 {
        prices, timestamps := pricesBefore, timestampsBefore;
        return if flow.Fail? then Err(flow.code) else Err(ERR_INVALID_UPDATES);
      }
      r := Ok(accepted);
    }
  }

  function Following(done: seq<PriceUpdate>, rest: Outcome<Written>): Outcome<Written> {
    var written :- rest;
    Ok(Written(written.store, done + written.accepted))
  }

  lemma FollowingNothing(rest: Outcome<Written>)
    ensures Following([], rest) == rest
  {
    assert rest.Ok? ==> [] + rest.value.accepted == rest.value.accepted;
  }

  lemma FollowingStep(done: seq<PriceUpdate>, u: PriceUpdate, rest: Outcome<Written>)
    ensures Following(done, Following([u], rest)) == Following(done + [u], rest)
  {
    assert rest.Ok? ==> done + ([u] + rest.value.accepted) == done + [u] + rest.value.accepted;
  }
}

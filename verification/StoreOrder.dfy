/** When the order of a batch matters to how many of its entries the store accepts. */
module StoreOrder {
  import opened Bytes
  import opened Clarity
  import opened PriceMessage
  import opened PythStore

  /** No feed has two eligible entries with different publish times. */
  ghost predicate OneTimePerFeed(s: StoreState, clock: Clock, batch: seq<PriceUpdate>) {
    forall u, v | u in batch && v in batch && Eligible(s, clock, u) && Eligible(s, clock, v) ::
      u.priceIdentifier == v.priceIdentifier ==> u.publishTime == v.publishTime
  }

  /** How many entries a batch gets accepted, said of the state before it. */
  ghost function AcceptedCount(s: StoreState, clock: Clock, batch: seq<PriceUpdate>): nat {
    |TakenOf(s, clock, batch, |batch|)|
  }

  /** Every order of the batch commits its writes and gets as many of them accepted. */
  ghost predicate CountFixed(s: StoreState, clock: Clock, batch: seq<PriceUpdate>) {
    forall b: seq<PriceUpdate> :: multiset(b) == multiset(batch) ==>
      WriteAll(s, clock, b).Ok? && |WriteAll(s, clock, b).value.accepted| == AcceptedCount(s, clock, batch)
  }

  // ---------- one time per feed : one entry per feed is accepted ----------

  ghost function EligibleFeeds(s: StoreState, clock: Clock, batch: seq<PriceUpdate>): set<Buffer> {
    set u | u in batch && Eligible(s, clock, u) :: u.priceIdentifier
  }

  lemma FeedsGrow(s: StoreState, clock: Clock, front: seq<PriceUpdate>, u: PriceUpdate)
    ensures EligibleFeeds(s, clock, front + [u])
            == EligibleFeeds(s, clock, front) + (if Eligible(s, clock, u) then {u.priceIdentifier} else {})
  {
    hide Eligible;
    assert forall x :: x in front + [u] <==> x in front || x == u;
  }

  lemma OneMoreElement<T>(a: set<T>, x: T)
    ensures |a + {x}| == if x in a then |a| else |a| + 1
  {
    if x in a {
      assert a + {x} == a;
    }
  }

  lemma TakenIsFirst(s: StoreState, clock: Clock, batch: seq<PriceUpdate>, n: nat)
    requires n < |batch| && OneTimePerFeed(s, clock, batch)
    ensures Taken(s, clock, batch, n) <==>
              Eligible(s, clock, batch[n]) && batch[n].priceIdentifier !in EligibleFeeds(s, clock, batch[..n])
  {
    hide Eligible;
    assert batch[n] in batch;
    assert forall x :: x in batch[..n] ==> x in batch;
    forall j | 0 <= j < n
      ensures batch[j] in batch[..n]
    {
      assert batch[..n][j] == batch[j];
    }
  }

  lemma CountStep(s: StoreState, clock: Clock, batch: seq<PriceUpdate>, n: nat)
    requires n < |batch|
    requires Taken(s, clock, batch, n) <==>
               Eligible(s, clock, batch[n]) && batch[n].priceIdentifier !in EligibleFeeds(s, clock, batch[..n])
    requires |TakenOf(s, clock, batch, n)| == |EligibleFeeds(s, clock, batch[..n])|
    ensures |TakenOf(s, clock, batch, n + 1)| == |EligibleFeeds(s, clock, batch[..n + 1])|
  {
    hide Eligible, Taken, EligibleFeeds;
    var feeds, u := EligibleFeeds(s, clock, batch[..n]), batch[n];
    assert batch[..n + 1] == batch[..n] + [u];
    FeedsGrow(s, clock, batch[..n], u);
    if Eligible(s, clock, u) {
      OneMoreElement(feeds, u.priceIdentifier);
    } else {
      assert feeds + {} == feeds;
    }
  }

  lemma {:induction false} CountIsFeeds(s: StoreState, clock: Clock, batch: seq<PriceUpdate>, n: nat)
    requires n <= |batch| && OneTimePerFeed(s, clock, batch)
    ensures |TakenOf(s, clock, batch, n)| == |EligibleFeeds(s, clock, batch[..n])|
  {
    hide Eligible, Taken, OneTimePerFeed;
    if n == 0 {
      assert EligibleFeeds(s, clock, batch[..0]) == {};
    } else {
      hide EligibleFeeds, TakenOf;
      CountIsFeeds(s, clock, batch, n - 1);
      TakenIsFirst(s, clock, batch, n - 1);
      CountStep(s, clock, batch, n - 1);
    }
  }

  lemma SameEntries(a: seq<PriceUpdate>, b: seq<PriceUpdate>)
    requires multiset(a) == multiset(b)
    ensures forall u :: u in a <==> u in b
  {
    assert forall u :: u in a <==> u in multiset(a);
    assert forall u :: u in b <==> u in multiset(b);
  }

  /** Abort depends on which entries there are, not on their order. */
  lemma PermutedCommits(s: StoreState, clock: Clock, a: seq<PriceUpdate>, b: seq<PriceUpdate>)
    requires multiset(a) == multiset(b) && WriteAll(s, clock, a).Ok?
    ensures WriteAll(s, clock, b).Ok?
  {
    hide WriteAll;
    SameEntries(a, b);
    AbortsIff(s, clock, a);
    AbortsIff(s, clock, b);
  }

  lemma OneTimeFixesCount(s: StoreState, clock: Clock, a: seq<PriceUpdate>, b: seq<PriceUpdate>)
    requires multiset(a) == multiset(b) && WriteAll(s, clock, a).Ok? && OneTimePerFeed(s, clock, a)
    ensures WriteAll(s, clock, b).Ok? && |WriteAll(s, clock, b).value.accepted| == AcceptedCount(s, clock, a)
  {
    hide WriteAll, Eligible, TakenOf;
    PermutedCommits(s, clock, a, b);
    SameEntries(a, b);
    AcceptedAreTaken(s, clock, b);
    CountIsFeeds(s, clock, a, |a|);
    CountIsFeeds(s, clock, b, |b|);
    assert a[..|a|] == a && b[..|b|] == b;
    assert EligibleFeeds(s, clock, a) == EligibleFeeds(s, clock, b);
  }

  // ---------- two times in one feed : the order decides ----------

  lemma First(s: StoreState, clock: Clock, u: PriceUpdate, rest: seq<PriceUpdate>)
    requires !WriteEntry(s, clock, u).Abort?
    ensures WriteAll(s, clock, [u] + rest)
            == if WriteEntry(s, clock, u).Ok? then Following([u], WriteAll(WriteEntry(s, clock, u).value, clock, rest))
               else Following([], WriteAll(s, clock, rest))
  {
    hide WriteEntry;
    assert ([u] + rest)[1..] == rest;
    FollowingNothing(WriteAll(s, clock, rest));
  }

  lemma FirstTwo(s: StoreState, clock: Clock, u: PriceUpdate, v: PriceUpdate, rest: seq<PriceUpdate>)
    requires !WriteEntry(s, clock, u).Abort?
    requires var s1 := if WriteEntry(s, clock, u).Ok? then WriteEntry(s, clock, u).value else s;
             !WriteEntry(s1, clock, v).Abort?
    ensures var s1 := if WriteEntry(s, clock, u).Ok? then WriteEntry(s, clock, u).value else s;
            var s2 := if WriteEntry(s1, clock, v).Ok? then WriteEntry(s1, clock, v).value else s1;
            var first := (if WriteEntry(s, clock, u).Ok? then [u] else [])
            + (if WriteEntry(s1, clock, v).Ok? then [v] else []);
            WriteAll(s, clock, [u, v] + rest) == Following(first, WriteAll(s2, clock, rest))
  {
    hide WriteEntry, WriteAll;
    var s1 := if WriteEntry(s, clock, u).Ok? then WriteEntry(s, clock, u).value else s;
    assert [u, v] + rest == [u] + ([v] + rest);
    First(s, clock, u, [v] + rest);
    First(s1, clock, v, rest);
    var done := if WriteEntry(s, clock, u).Ok? then [u] else [];
    if WriteEntry(s1, clock, v).Ok? {
      FollowingStep(done, v, WriteAll(WriteEntry(s1, clock, v).value, clock, rest));
    } else {
      FollowingNothing(WriteAll(s1, clock, rest));
      assert done + [] == done;
    }
  }

  /** Of two eligible entries of one feed, older first gets one more entry accepted than newer first,
      whatever follows. */
  lemma OlderFirstAcceptsOneMore(s: StoreState, clock: Clock, u: PriceUpdate, v: PriceUpdate, rest: seq<PriceUpdate>)
    requires Eligible(s, clock, u) && Eligible(s, clock, v)
    requires u.priceIdentifier == v.priceIdentifier && u.publishTime < v.publishTime
    requires WriteAll(s, clock, [u, v] + rest).Ok?
    ensures var a, b := WriteAll(s, clock, [u, v] + rest), WriteAll(s, clock, [v, u] + rest);
            b.Ok? && |a.value.accepted| == |b.value.accepted| + 1 && a.value.store == b.value.store
  {
    HalvesCommit(s, clock, [u, v], rest);
    hide WriteAll;
    var s1 := WriteEntry(s, clock, u).value;
    var s2 := WriteEntry(s, clock, v).value;
    assert WriteEntry(s1, clock, v) == Ok(s2) by {
      assert s1.prices[v.priceIdentifier := PriceOf(v)] == s2.prices;
      assert s1.timestamps[v.priceIdentifier := v.publishTime] == s2.timestamps;
    }
    FirstTwo(s, clock, u, v, rest);
    FirstTwo(s, clock, v, u, rest);
  }

  lemma TakeOut(batch: seq<PriceUpdate>, u: PriceUpdate) returns (rest: seq<PriceUpdate>)
    requires u in batch
    ensures multiset([u] + rest) == multiset(batch)
  {
    var i :| 0 <= i < |batch| && batch[i] == u;
    rest := batch[..i] + batch[i + 1..];
    assert batch == batch[..i] + [u] + batch[i + 1..];
  }

  lemma TwoTimesMoveCount(s: StoreState, clock: Clock, batch: seq<PriceUpdate>, u: PriceUpdate, v: PriceUpdate)
    requires WriteAll(s, clock, batch).Ok? && u in batch && v in batch
    requires Eligible(s, clock, u) && Eligible(s, clock, v)
    requires u.priceIdentifier == v.priceIdentifier && u.publishTime < v.publishTime
    ensures !CountFixed(s, clock, batch)
  {
    hide WriteAll, Eligible, TakenOf;
    var others := TakeOut(batch, u);
    SameEntries([u] + others, batch);
    assert v in others;
    var rest := TakeOut(others, v);
    assert [u, v] + rest == [u] + ([v] + rest);
    assert [v, u] + rest == [v] + ([u] + rest);
    assert multiset([u, v] + rest) == multiset(batch);
    assert multiset([v, u] + rest) == multiset(batch);
    PermutedCommits(s, clock, batch, [u, v] + rest);
    OlderFirstAcceptsOneMore(s, clock, u, v, rest);
  }

  /** For a batch whose writes commit: every order of it gets the same number of entries accepted
      exactly when no feed has two eligible entries with different publish times. */
  lemma CountFixedIff(s: StoreState, clock: Clock, batch: seq<PriceUpdate>)
    requires WriteAll(s, clock, batch).Ok?
    ensures CountFixed(s, clock, batch) <==> OneTimePerFeed(s, clock, batch)
  {
    hide WriteAll, Eligible, TakenOf;
    if OneTimePerFeed(s, clock, batch) {
      forall b: seq<PriceUpdate> | multiset(b) == multiset(batch)
        ensures WriteAll(s, clock, b).Ok? && |WriteAll(s, clock, b).value.accepted| == AcceptedCount(s, clock, batch)
      {
        OneTimeFixesCount(s, clock, batch, b);
      }
    } else {
      var u, v :| u in batch && v in batch && u.priceIdentifier == v.priceIdentifier
                  && Eligible(s, clock, u) && Eligible(s, clock, v) && u.publishTime != v.publishTime;
      if u.publishTime < v.publishTime {
        TwoTimesMoveCount(s, clock, batch, u, v);
      } else {
        TwoTimesMoveCount(s, clock, batch, v, u);
      }
    }
  }

  // ---------- the order of a batch and the maps ----------

  /** Every order of the batch commits its writes and leaves the same maps. */
  ghost predicate MapsFixed(s: StoreState, clock: Clock, batch: seq<PriceUpdate>)
    requires WriteAll(s, clock, batch).Ok?
  {
    forall b: seq<PriceUpdate> :: multiset(b) == multiset(batch) ==>
      WriteAll(s, clock, b).Ok? && WriteAll(s, clock, b).value.store == WriteAll(s, clock, batch).value.store
  }

  lemma LeadsAnyOrder(s: StoreState, clock: Clock, a: seq<PriceUpdate>, b: seq<PriceUpdate>, u: PriceUpdate)
    requires multiset(a) == multiset(b) && Leads(s, clock, a, u)
    ensures Leads(s, clock, b, u)
  {
    hide Eligible;
    SameEntries(a, b);
  }

  /** A leading entry that comes first in the batch is what its feed holds afterwards. */
  lemma FirstLeaderStays(s: StoreState, clock: Clock, u: PriceUpdate, rest: seq<PriceUpdate>)
    requires WriteAll(s, clock, [u] + rest).Ok? && Leads(s, clock, [u] + rest, u)
    ensures Stores(WriteAll(s, clock, [u] + rest).value.store, u.priceIdentifier, u)
  {
    hide WriteAll, Eligible;
    var batch := [u] + rest;
    assert batch[0] == u;
    forall j | 0 <= j < |batch|
      ensures batch[j] in batch
    {
    }
    assert Wins(s, clock, batch, u.priceIdentifier, 0);
    FinalState(s, clock, batch, u.priceIdentifier);
    var k :| && Wins(s, clock, batch, u.priceIdentifier, k)
             && Stores(WriteAll(s, clock, batch).value.store, u.priceIdentifier, batch[k]);
    OneWinner(s, clock, batch, u.priceIdentifier, 0, k);
  }

  lemma LeaderFirst(s: StoreState, clock: Clock, batch: seq<PriceUpdate>, u: PriceUpdate) returns (b: seq<PriceUpdate>)
    requires WriteAll(s, clock, batch).Ok? && Leads(s, clock, batch, u)
    ensures multiset(b) == multiset(batch) && WriteAll(s, clock, b).Ok?
    ensures Stores(WriteAll(s, clock, b).value.store, u.priceIdentifier, u)
  {
    hide WriteAll, Eligible;
    var rest := TakeOut(batch, u);
    b := [u] + rest;
    PermutedCommits(s, clock, batch, b);
    LeadsAnyOrder(s, clock, batch, b, u);
    FirstLeaderStays(s, clock, u, rest);
  }

  /** For a batch whose writes commit: every order of it leaves the same maps exactly when any two
      eligible entries of one feed that share its greatest eligible time carry the same price. */
  lemma MapsFixedIff(s: StoreState, clock: Clock, batch: seq<PriceUpdate>)
    requires WriteAll(s, clock, batch).Ok?
    ensures MapsFixed(s, clock, batch) <==> TiesAgree(s, clock, batch)
  {
    hide WriteAll, Leads;
    if TiesAgree(s, clock, batch) {
      forall b: seq<PriceUpdate> | multiset(b) == multiset(batch)
        ensures WriteAll(s, clock, b).Ok?
        ensures WriteAll(s, clock, b).value.store == WriteAll(s, clock, batch).value.store
      {
        PermutedCommits(s, clock, batch, b);
        SameEntries(batch, b);
        SameMaps(s, clock, batch, b);
      }
    } else {
      var u, v :| && Leads(s, clock, batch, u) && Leads(s, clock, batch, v)
                  && u.priceIdentifier == v.priceIdentifier && PriceOf(u) != PriceOf(v);
      var a := LeaderFirst(s, clock, batch, u);
      var b := LeaderFirst(s, clock, batch, v);
      assert WriteAll(s, clock, a).value.store != WriteAll(s, clock, b).value.store;
    }
  }

  /** Two updates of one feed and time with different prices: both orders commit on an empty store, and
      the one that comes first stays. */
  lemma TieKeepsTheFirst(id: Buffer)
    ensures exists u, v, clock ::
              var a, b := WriteAll(EMPTY_STORE, clock, [u, v]), WriteAll(EMPTY_STORE, clock, [v, u]);
              && u.priceIdentifier == v.priceIdentifier == id && u.publishTime == v.publishTime
              && a.Ok? && b.Ok? && id in a.value.store.prices && id in b.value.store.prices
              && a.value.store.prices[id] == PriceOf(u) != PriceOf(v) == b.value.store.prices[id]
  {
    var u := PriceUpdate(id, 1, 0, 0, 1, 0, 0, 0);
    var v := u.(price := 2);
    var clock := Clock(Some(0), 0);
    AbortsIff(EMPTY_STORE, clock, [u, v]);
    AbortsIff(EMPTY_STORE, clock, [v, u]);
    assert [u] + [v] == [u, v] && [v] + [u] == [v, u];
    assert Leads(EMPTY_STORE, clock, [u, v], u) && Leads(EMPTY_STORE, clock, [v, u], v);
    FirstLeaderStays(EMPTY_STORE, clock, u, [v]);
    FirstLeaderStays(EMPTY_STORE, clock, v, [u]);
    hide WriteAll;
    var a, b := WriteAll(EMPTY_STORE, clock, [u, v]), WriteAll(EMPTY_STORE, clock, [v, u]);
    assert a.Ok? && b.Ok? && a.value.store.prices[id] == PriceOf(u) != PriceOf(v) == b.value.store.prices[id];
  }
}

/** The wormhole core contract: verification of a VAA against the active guardian set, and the
    rotation of that set. */
module WormholeCore {
  import opened Bytes
  import opened Clarity
  import opened Vaa

  const ERR_VAA_CHECKS_VERSION_UNSUPPORTED: nat := 1101
  const ERR_VAA_CHECKS_THRESHOLD_SIGNATURE: nat := 1102
  const ERR_VAA_CHECKS_GUARDIAN_SET_CONSISTENCY: nat := 1105
  const ERR_GSU_PARSING_MODULE: nat := 1201
  const ERR_GSU_PARSING_ACTION: nat := 1202
  const ERR_GSU_PARSING_CHAIN: nat := 1203
  const ERR_GSU_PARSING_INDEX: nat := 1204
  const ERR_GSU_PARSING_GUARDIAN_LEN: nat := 1205
  const ERR_GSU_PARSING_GUARDIANS_BYTES: nat := 1206
  const ERR_GSU_UNCOMPRESSED_PUBLIC_KEYS: nat := 1207
  const ERR_GSU_CHECK_MODULE: nat := 1301
  const ERR_GSU_CHECK_ACTION: nat := 1302
  const ERR_GSU_CHECK_CHAIN: nat := 1303
  const ERR_GSU_CHECK_INDEX: nat := 1304
  const ERR_GSU_CHECK_EMITTER: nat := 1305

  /** "Core" in 32 bytes, and the governance emitter of the core bridge. */
  const CORE_MODULE: Buffer := FromUint(0x436f7265, 32)
  const GSU_EMITTING_ADDRESS: Buffer := FromUint(4, 32)
  const GSU_EMITTING_CHAIN: nat := 1

  /** A guardian as stored; both buffers are empty when the key did not match its address. */
  datatype Guardian = Guardian(compressed: Buffer, uncompressed: Buffer)

  const BLANK: Guardian := Guardian([], [])

  datatype WormholeState = WormholeState(initialized: bool, activeId: nat, sets: map<nat, seq<Guardian>>)

  const EMPTY_WORMHOLE: WormholeState := WormholeState(false, 0, map[])

  // ---------- verification ----------

  function Quorum(n: nat): nat {
    n * 2 / 3 + 1
  }

  /** batch-check-active-public-keys, folded over the recovered keys. */
  function CheckKeys(guardians: seq<Guardian>, recovered: seq<Recovered>,
                     seen: seq<CompressedKey>): Outcome<seq<CompressedKey>>
    decreases |recovered|
  {
    if recovered == [] then Ok(seen)
    else
      var r := recovered[0];
      if r.guardianId >= |guardians| then Abort
      else if r.key == guardians[r.guardianId].compressed && r.key !in seen then
        if |seen| == MAX_GUARDIANS then Abort
        else CheckKeys(guardians, recovered[1..], seen + [r.key])
      else CheckKeys(guardians, recovered[1..], seen)
  }

  /** parse-and-verify-vaa */
  function Verify(host: Host, w: WormholeState, bytes: Buffer): Outcome<Message> {
    var parsed :- ParseVaa(host, bytes);
    :- Require(parsed.vaa.guardianSetId == w.activeId, ERR_VAA_CHECKS_GUARDIAN_SET_CONSISTENCY);
    :- Require(w.activeId in w.sets, ERR_VAA_CHECKS_GUARDIAN_SET_CONSISTENCY);
    var guardians := w.sets[w.activeId];
    var signers :- CheckKeys(guardians, parsed.recovered, []);
    :- Require(parsed.vaa.version == 1, ERR_VAA_CHECKS_VERSION_UNSUPPORTED);
    :- Require(|signers| >= Quorum(|guardians|), ERR_VAA_CHECKS_THRESHOLD_SIGNATURE);
    Ok(parsed.vaa)
  }

  // ---------- what a quorum is ----------

  predicate InRangeIds(guardians: seq<Guardian>, recovered: seq<Recovered>) {
    forall r :: r in recovered ==> r.guardianId < |guardians|
  }

  /** The key sits at the position its signer claims. */
  predicate SignedAt(guardians: seq<Guardian>, r: Recovered) {
    r.guardianId < |guardians| && guardians[r.guardianId].compressed == r.key
  }

  /** The distinct guardian keys behind a list of recovered keys. */
  ghost function Signers(guardians: seq<Guardian>, recovered: seq<Recovered>): set<CompressedKey> {
    set r | r in recovered && SignedAt(guardians, r) :: r.key
  }

  predicate Distinct<T(==)>(s: seq<T>) {
    forall i, j :: 0 <= i < j < |s| ==> s[i] != s[j]
  }

  ghost function Elements<T>(s: seq<T>): set<T> {
    set x | x in s
  }

  lemma {:induction false} DistinctCount<T>(s: seq<T>)
    requires Distinct(s)
    ensures |Elements(s)| == |s|
  {
    if s == [] {
    } else {
      var front := s[..|s| - 1];
      var last := s[|s| - 1];
      DistinctCount(front);
      assert s == front + [last];
      assert last !in front;
      assert Elements(s) == Elements(front) + {last};
      assert last !in Elements(front);
    }
  }

  lemma {:induction false} CheckKeysCounts(guardians: seq<Guardian>, recovered: seq<Recovered>,
                                           seen: seq<CompressedKey>)
    requires Distinct(seen) && |seen| + |recovered| <= MAX_GUARDIANS
    ensures var checked := CheckKeys(guardians, recovered, seen);
            if InRangeIds(guardians, recovered) then
              && checked.Ok? && Distinct(checked.value)
              && Elements(checked.value) == Elements(seen) + Signers(guardians, recovered)
            else checked == Abort
    decreases |recovered|
  {
    if recovered == [] {
    } else {
      var r, rest := recovered[0], recovered[1..];
      assert forall x :: x in recovered <==> x == r || x in rest;
      if r.guardianId < |guardians| {
        assert InRangeIds(guardians, recovered) == InRangeIds(guardians, rest);
        if r.key == guardians[r.guardianId].compressed {
          assert Signers(guardians, recovered) == {r.key} + Signers(guardians, rest);
        } else {
          assert Signers(guardians, recovered) == Signers(guardians, rest);
        }
        if r.key == guardians[r.guardianId].compressed && r.key !in seen {
          CheckKeysCounts(guardians, rest, seen + [r.key]);
          assert Elements(seen + [r.key]) == Elements(seen) + {r.key};
        } else {
          CheckKeysCounts(guardians, rest, seen);
        }
      }
    }
  }

  lemma {:induction false} SignaturesBounded(rounds: nat, acc: SignatureAcc)
    requires |acc.value| <= MAX_GUARDIANS
    ensures FoldSignatures(rounds, acc).Ok? ==> |FoldSignatures(rounds, acc).value.value| <= MAX_GUARDIANS
  {
    if rounds == 0 || !ReadSignature(acc).Ok? {
    } else {
      SignaturesBounded(rounds - 1, ReadSignature(acc).value);
    }
  }

  lemma RecoveredBounded(host: Host, bytes: Buffer)
    requires ParseVaa(host, bytes).Ok?
    ensures |ParseVaa(host, bytes).value.recovered| <= MAX_GUARDIANS
  {
    hide ReadBody, FoldSignatures;
    var version := ReadUint(Cursor(bytes, 0), 1).value;
    var setId := ReadUint(version.next, 4).value;
    var len := ReadUint(setId.next, 1).value;
    SignaturesBounded(MAX_GUARDIANS, SignatureAcc(len.next, len.value, []));
  }

  /** The bytes parse, name the active and stored set, claim only positions in it, have version 1,
      and at least floor(2n/3) + 1 distinct guardian keys signed them. */
  ghost predicate Approved(host: Host, w: WormholeState, bytes: Buffer) {
    var parsed := ParseVaa(host, bytes);
    && parsed.Ok?
    && parsed.value.vaa.guardianSetId == w.activeId
    && w.activeId in w.sets
    && parsed.value.vaa.version == 1
    && var guardians := w.sets[w.activeId];
       && InRangeIds(guardians, parsed.value.recovered)
       && |Signers(guardians, parsed.value.recovered)| >= |guardians| * 2 / 3 + 1
  }

  /** A VAA verifies exactly when it is approved, and then as what it parses to. */
  lemma VerifiesIffApproved(host: Host, w: WormholeState, bytes: Buffer)
    ensures Verify(host, w, bytes).Ok? <==> Approved(host, w, bytes)
    ensures Verify(host, w, bytes).Ok? ==> Verify(host, w, bytes).value == ParseVaa(host, bytes).value.vaa
  {
    hide ParseVaa;
    var parsed := ParseVaa(host, bytes);
    if parsed.Ok? && w.activeId in w.sets {
      RecoveredBounded(host, bytes);
      var guardians := w.sets[w.activeId];
      CheckKeysCounts(guardians, parsed.value.recovered, []);
      var checked := CheckKeys(guardians, parsed.value.recovered, []);
      if checked.Ok? {
        DistinctCount(checked.value);
        assert Elements(checked.value) == Signers(guardians, parsed.value.recovered);
      }
    }
  }

  /** The header names the active and stored set, has version 1, claims only positions in the set, and
      carries a quorum of signatures over this body. */
  ghost predicate QuorumSigned(host: Host, w: WormholeState, h: Header, b: Body)
    requires h.InRange()
  {
    && h.guardianSetId == w.activeId && w.activeId in w.sets && h.version == 1
    && var recovered := RecoverKeys(host, host.keccak256(host.keccak256(BodyBytes(b))), SplitAll(h.signatures));
       && InRangeIds(w.sets[w.activeId], recovered)
       && |Signers(w.sets[w.activeId], recovered)| >= Quorum(|w.sets[w.activeId]|)
  }

  /** What verification of a VAA that parses answers, in the order of its checks. */
  lemma VerifyOutcome(host: Host, w: WormholeState, bytes: Buffer)
    requires ParseVaa(host, bytes).Ok?
    ensures var parsed := ParseVaa(host, bytes).value;
            Verify(host, w, bytes)
            == if parsed.vaa.guardianSetId != w.activeId || w.activeId !in w.sets then Err(1105)
               else if exists r :: r in parsed.recovered && r.guardianId >= |w.sets[w.activeId]| then Abort
               else if parsed.vaa.version != 1 then Err(1101)
               else if |Signers(w.sets[w.activeId], parsed.recovered)| < |w.sets[w.activeId]| * 2 / 3 + 1 then Err(1102)
               else Ok(parsed.vaa)
  {
    hide ParseVaa;
    if w.activeId in w.sets {
      RecoveredBounded(host, bytes);
      var guardians, recovered := w.sets[w.activeId], ParseVaa(host, bytes).value.recovered;
      CheckKeysCounts(guardians, recovered, []);
      var checked := CheckKeys(guardians, recovered, []);
      if checked.Ok? {
        DistinctCount(checked.value);
        assert Elements(checked.value) == Signers(guardians, recovered);
      }
    }
  }

  /** A serialized VAA verifies exactly when a quorum of the active set signed its own body, and then
      as that body. */
  lemma SerializedVerifiesIff(host: Host, w: WormholeState, h: Header, b: Body)
    requires h.InRange() && BodyInRange(b)
    ensures Verify(host, w, VaaBytes(h, b)).Ok? <==> QuorumSigned(host, w, h, b)
    ensures Verify(host, w, VaaBytes(h, b)).Ok? ==> Verify(host, w, VaaBytes(h, b)).value.body == b
  {
    hide ParseVaa, VaaBytes, Verify, RecoverKeys;
    VaaRoundTrip(host, h, b);
    VerifiesIffApproved(host, w, VaaBytes(h, b));
  }

  /** The usable keys of a guardian set; blank entries have none. */
  ghost function Keys(guardians: seq<Guardian>): set<Buffer> {
    set g | g in guardians && |g.compressed| == 33 :: g.compressed
  }

  lemma {:induction false} KeysBounded(guardians: seq<Guardian>)
    ensures |Keys(guardians)| <= |guardians|
  {
    if guardians == [] {
    } else {
      var last := guardians[|guardians| - 1];
      var front := guardians[..|guardians| - 1];
      KeysBounded(front);
      assert guardians == front + [last];
      assert Keys(guardians) <= Keys(front) + {last.compressed};
      CardinalityMonotonic(Keys(guardians), Keys(front) + {last.compressed});
    }
  }

  lemma CardinalityMonotonic<T>(a: set<T>, b: set<T>)
    requires a <= b
    ensures |a| <= |b|
  {
    assert b == a + (b - a);
  }

  /** Only usable keys of the set ever count: a blank entry never does. */
  lemma SignersAreKeys(guardians: seq<Guardian>, recovered: seq<Recovered>)
    ensures Signers(guardians, recovered) <= Keys(guardians)
  {
  }

  /** Two VAAs approved by the same guardian set share more than a third of it. */
  lemma QuorumIntersection(host: Host, w: WormholeState, a: Buffer, b: Buffer)
    requires Verify(host, w, a).Ok? && Verify(host, w, b).Ok?
    ensures w.activeId in w.sets
    ensures var guardians := w.sets[w.activeId];
            |Signers(guardians, ParseVaa(host, a).value.recovered) * Signers(guardians, ParseVaa(host,
            b).value.recovered)|
            >= |guardians| / 3 + 1
  {
    hide ParseVaa, Verify;
    VerifiesIffApproved(host, w, a);
    VerifiesIffApproved(host, w, b);
    var guardians := w.sets[w.activeId];
    var s := Signers(guardians, ParseVaa(host, a).value.recovered);
    var t := Signers(guardians, ParseVaa(host, b).value.recovered);
    SignersAreKeys(guardians, ParseVaa(host, a).value.recovered);
    SignersAreKeys(guardians, ParseVaa(host, b).value.recovered);
    KeysBounded(guardians);
    CardinalityMonotonic(s + t, Keys(guardians));
  }

  /** A set with fewer usable keys than its quorum can approve nothing. */
  lemma UnusableSetApprovesNothing(host: Host, w: WormholeState, bytes: Buffer)
    requires w.activeId in w.sets && |Keys(w.sets[w.activeId])| < Quorum(|w.sets[w.activeId]|)
    ensures !Verify(host, w, bytes).Ok?
  {
    hide ParseVaa, Verify;
    VerifiesIffApproved(host, w, bytes);
    if Verify(host, w, bytes).Ok? {
      var guardians, recovered := w.sets[w.activeId], ParseVaa(host, bytes).value.recovered;
      SignersAreKeys(guardians, recovered);
      CardinalityMonotonic(Signers(guardians, recovered), Keys(guardians));
    }
  }

  // ---------- the guardian set update payload ----------

  /** is-guardian-cue, folded over n bytes: every twentieth position. */
  function Cues(n: nat, cursor: nat, result: seq<nat>): Outcome<seq<nat>>
    decreases n
  {
    if n == 0 then Ok(result)
    else if cursor % 20 == 0 then
      if |result| == MAX_GUARDIANS then Abort else Cues(n - 1, cursor + 1, result + [cursor])
    else Cues(n - 1, cursor + 1, result)
  }

  /** parse-guardian, folded over the cues. */
  function AddressesAt(bytes: Buffer, cues: seq<nat>, result: seq<Hash160>): Outcome<seq<Hash160>>
    decreases |cues|
  {
    if cues == [] then Ok(result)
    else
      var address :- ReadBuff(Cursor(bytes, cues[0]), 20).OrAbort();
      if |result| == MAX_GUARDIANS then Abort
      else AddressesAt(bytes, cues[1..], result + [address.value])
  }

  function Addresses(bytes: Buffer): Outcome<seq<Hash160>> {
    var cues :- Cues(|bytes|, 0, []);
    AddressesAt(bytes, cues, [])
  }

  function Multiples(n: nat): (m: seq<nat>)
    ensures |m| == n
  {
    seq(n, i => 20 * i)
  }

  lemma {:induction false} CuesAreMultiples(n: nat, cursor: nat, count: nat)
    requires cursor + n == 20 * count && (cursor + 19) / 20 <= MAX_GUARDIANS
    ensures Cues(n, cursor, Multiples((cursor + 19) / 20))
            == if count <= MAX_GUARDIANS then Ok(Multiples(count)) else Abort
    decreases n
  {
    var k := (cursor + 19) / 20;
    if n == 0 {
      assert k == count;
    } else if cursor % 20 == 0 {
      assert cursor == 20 * k && k < count;
      if k < MAX_GUARDIANS {
        CuesAreMultiples(n - 1, cursor + 1, count);
        assert Multiples(k) + [cursor] == Multiples(k + 1);
      }
    } else {
      assert (cursor + 20) / 20 == k;
      CuesAreMultiples(n - 1, cursor + 1, count);
    }
  }

  lemma {:induction false} ReadsChunks(bytes: Buffer, count: nat, k: nat)
    requires |bytes| == 20 * count && k <= count <= MAX_GUARDIANS
    ensures AddressesAt(bytes, Multiples(count)[k..], Chunks(bytes, count)[..k]) == Ok(Chunks(bytes, count))
    decreases count - k
  {
    if k < count {
      ChunkAt(bytes, count, k);
      ReadsChunks(bytes, count, k + 1);
      assert Multiples(count)[k..][1..] == Multiples(count)[k + 1..];
      assert Chunks(bytes, count)[..k] + [Chunks(bytes, count)[k]] == Chunks(bytes, count)[..k + 1];
    } else {
      assert Multiples(count)[k..] == [] && Chunks(bytes, count)[..k] == Chunks(bytes, count);
    }
  }

  /** The cue fold and the reads split up to 19 addresses into 20-byte chunks that lie end to end
      in the payload, and abort on more. */
  lemma AddressesAreChunks(bytes: Buffer, count: nat)
    requires |bytes| == 20 * count
    ensures Addresses(bytes) == if count <= MAX_GUARDIANS then Ok(Chunks(bytes, count)) else Abort
  {
    assert Multiples(0) == [];
    CuesAreMultiples(20 * count, 0, count);
    if count <= MAX_GUARDIANS {
      ReadsChunks(bytes, count, 0);
      assert Multiples(count)[0..] == Multiples(count) && Chunks(bytes, count)[..0] == [];
    }
  }

  datatype GuardianUpdate = GuardianUpdate(newIndex: nat, addresses: seq<Hash160>)

  /** parse-and-verify-guardians-set */
  function ParseGuardiansSet(activeId: nat, bytes: Buffer): Outcome<GuardianUpdate> {
    var mod :- ReadBuff(Cursor(bytes, 0), 32).OrErr(ERR_GSU_PARSING_MODULE);
    var action :- ReadUint(mod.next, 1).OrErr(ERR_GSU_PARSING_ACTION);
    var chain :- ReadUint(action.next, 2).OrErr(ERR_GSU_PARSING_CHAIN);
    var newIndex :- ReadUint(chain.next, 4).OrErr(ERR_GSU_PARSING_INDEX);
    var count :- ReadUint(newIndex.next, 1).OrErr(ERR_GSU_PARSING_GUARDIAN_LEN);
    var guardians :- ReadBuff(count.next, 20 * count.value).OrErr(ERR_GSU_PARSING_GUARDIANS_BYTES);
    var addresses :- Addresses(guardians.value);
    :- Require(mod.value == CORE_MODULE, ERR_GSU_CHECK_MODULE);
    :- Require(action.value == 2, ERR_GSU_CHECK_ACTION);
    :- Require(chain.value == 0, ERR_GSU_CHECK_CHAIN);
    :- Require(newIndex.value > activeId, ERR_GSU_CHECK_INDEX);
    Ok(GuardianUpdate(newIndex.value, addresses))
  }

  /** serializeGuardianUpdateVaaPayloadToBuffer */
  function GuardianPayload(mod: Buffer, action: nat, chain: nat, setId: nat, addresses: seq<Hash160>): Buffer {
    mod + (FromUint(action, 1) + (FromUint(chain, 2)
    + (FromUint(setId, 4) + (FromUint(|addresses|, 1) + Concat(addresses)))))
  }

  lemma ConcatFive(p: seq<Buffer>)
    requires |p| == 5
    ensures forall tail: Buffer :: Concat(p) + tail == p[0] + (p[1] + (p[2] + (p[3] + (p[4] + tail))))
  {
    assert Concat(p[4..]) == p[4] + [];
    assert Concat(p[3..]) == p[3] + Concat(p[4..]);
    assert Concat(p[2..]) == p[2] + Concat(p[3..]);
    assert Concat(p[1..]) == p[1] + Concat(p[2..]);
  }

  /** The helper's loop over the key chain; a field too wide for its bytes throws. */
  method SerializeGuardianPayload(mod: Buffer, action: nat, chain: nat, setId: nat, addresses: seq<Hash160>)
      returns (out: Outcome<Buffer>)
    ensures out.Ok? <==> action < Pow256(1) && chain < Pow256(2) && setId < Pow256(4) && |addresses| < Pow256(1)
    ensures out.Ok? ==> out.value == GuardianPayload(mod, action, chain, setId, addresses)
  {
    if action >= Pow256(1) || chain >= Pow256(2) || setId >= Pow256(4) || |addresses| >= Pow256(1) {
      return Abort;
    }
    var components := [mod, FromUint(action, 1), FromUint(chain, 2), FromUint(setId, 4), FromUint(|addresses|, 1)];
    ghost var head := components;
    var i := 0;
    while i < |addresses|
      invariant i <= |addresses|
      invariant components == head + addresses[..i]
    {
      components := components + [addresses[i]];
      i := i + 1;
    }
    assert addresses[..i] == addresses;
    ConcatAppend(head, addresses);
    ConcatFive(head);
    out := Ok(Concat(components));
  }

  /** Parsing a serialized payload aborts on more than 19 addresses, and else gives its addresses and
      index back, or the error of the first check it does not pass. */
  lemma GuardianPayloadRoundTrip(activeId: nat, mod: Buffer, action: nat, chain: nat, setId: nat,
                                 addresses: seq<Hash160>)
    requires |mod| == 32 && action < Pow256(1) && chain < Pow256(2) && setId < Pow256(4)
    requires |addresses| < Pow256(1)
    ensures ParseGuardiansSet(activeId, GuardianPayload(mod, action, chain, setId, addresses))
            == if |addresses| > MAX_GUARDIANS then Abort
               else if mod != CORE_MODULE then Err(ERR_GSU_CHECK_MODULE)
               else if action != 2 then Err(ERR_GSU_CHECK_ACTION)
               else if chain != 0 then Err(ERR_GSU_CHECK_CHAIN)
               else if setId <= activeId then Err(ERR_GSU_CHECK_INDEX)
               else Ok(GuardianUpdate(setId, addresses))
  {
    hide FromUint, ToUint, Addresses;
    var c := Cursor(GuardianPayload(mod, action, chain, setId, addresses), 0);
    var n := |addresses|;
    ChunksOfConcat(addresses);
    AddressesAreChunks(Concat(addresses), n);
    assert Pow256(1) == 256;
    var r4 := FromUint(n, 1) + Concat(addresses);
    var r3 := FromUint(setId, 4) + r4;
    var r2 := FromUint(chain, 2) + r3;
    var r1 := FromUint(action, 1) + r2;
    assert Concat(addresses) + [] == Concat(addresses);
    ReadsBuff(c, mod, r1);
    ReadsUint(Skip(c, 32), action, 1, r2);
    ReadsUint(Skip(c, 33), chain, 2, r3);
    ReadsUint(Skip(c, 35), setId, 4, r4);
    ReadsUint(Skip(c, 39), n, 1, Concat(addresses));
    ReadsBuff(Skip(c, 40), Concat(addresses), []);
  }

  /** How any payload is answered: by its length, then by its fields in order. */
  lemma GuardiansOutcome(activeId: nat, bytes: Buffer)
    ensures |bytes| < 32 ==> ParseGuardiansSet(activeId, bytes) == Err(1201)
    ensures |bytes| == 32 ==> ParseGuardiansSet(activeId, bytes) == Err(1202)
    ensures 33 <= |bytes| < 35 ==> ParseGuardiansSet(activeId, bytes) == Err(1203)
    ensures 35 <= |bytes| < 39 ==> ParseGuardiansSet(activeId, bytes) == Err(1204)
    ensures |bytes| == 39 ==> ParseGuardiansSet(activeId, bytes) == Err(1205)
    ensures |bytes| >= 40 ==>
              var n: nat := bytes[39];
              ParseGuardiansSet(activeId, bytes)
              == if |bytes| < 40 + 20 * n then Err(1206)
                 else if n > 19 then Abort
                 else if bytes[..32] != CORE_MODULE then Err(1301)
                 else if bytes[32] != 2 then Err(1302)
                 else if ToUint(bytes[33..35]) != 0 then Err(1303)
                 else if ToUint(bytes[35..39]) <= activeId then Err(1304)
                 else Ok(GuardianUpdate(ToUint(bytes[35..39]), Chunks(bytes[40..40 + 20 * n], n)))
  {
    hide ToUint, Addresses, FromUint, Chunks;
    if |bytes| >= 40 {
      assert bytes[32..33] == [bytes[32]] && bytes[39..40] == [bytes[39]];
      OneByte(bytes[32]);
      OneByte(bytes[39]);
      var n: nat := bytes[39];
      if |bytes| >= 40 + 20 * n {
        AddressesAreChunks(bytes[40..40 + 20 * n], n);
      }
    }
  }

  // ---------- rotation ----------

  type KeyArgument = b: Buffer | |b| <= 64

  /** compress-public-key, following section 2.3.3 of SEC 1. */
  function Compress(key: KeyArgument): Outcome<Buffer> {
    if key == [] then Ok([])
    else if |key| < 64 then Abort
    else Ok([if key[63] % 2 == 0 then 2 else 3] + key[..32])
  }

  lemma Parity(b: Buffer)
    requires b != []
    ensures ToUint(b) % 2 == b[|b| - 1] % 2
  {
    hide ToUint;
    var front, last := b[..|b| - 1], b[|b| - 1];
    assert b == front + [last];
    ToUintAppend(front, last);
    AddEven(128 * ToUint(front), last);
  }

  lemma AddEven(k: nat, x: nat)
    ensures (2 * k + x) % 2 == x % 2
  {
  }

  /** A whole key, two 32-byte coordinates, becomes 33 bytes: 2 before the first coordinate when the
      second is even, 3 when it is odd. */
  lemma CompressesPoint(x: Buffer, y: Buffer)
    requires |x| == 32 && |y| == 32
    ensures Compress(x + y) == Ok([2 + ToUint(y) % 2] + x)
  {
    hide ToUint;
    Parity(y);
    assert (x + y)[..32] == x && (x + y)[63] == y[31];
  }

  /** check-and-consolidate-public-keys, folded over the keys. */
  function Consolidate(host: Host, keys: seq<KeyArgument>, addresses: seq<Hash160>,
                       result: seq<Guardian>): Outcome<seq<Guardian>>
    decreases |keys|
  {
    if keys == [] then Ok(result)
    else if |result| >= |addresses| then Abort
    else
      var compressed :- Compress(keys[0]);
      var matches := host.keccak256(keys[0])[12..32] == addresses[|result|];
      var entry := if matches then Guardian(compressed, keys[0]) else BLANK;
      if |result| == MAX_GUARDIANS then Abort
      else Consolidate(host, keys[1..], addresses, result + [entry])
  }

  /** The entry a key deserves beside an address. */
  predicate EntryFor(host: Host, key: KeyArgument, address: Hash160, g: Guardian) {
    if host.keccak256(key)[12..32] == address then Compress(key) == Ok(g.compressed) && g.uncompressed == key
    else g == BLANK
  }

  lemma {:induction false} ConsolidateEntries(host: Host, keys: seq<KeyArgument>, addresses: seq<Hash160>,
                                              result: seq<Guardian>)
    requires Consolidate(host, keys, addresses, result).Ok?
    ensures var guardians := Consolidate(host, keys, addresses, result).value;
            && |guardians| == |result| + |keys| && guardians[..|result|] == result
            && (|result| <= MAX_GUARDIANS ==> |guardians| <= MAX_GUARDIANS)
            && |guardians| <= |addresses| + (if keys == [] then |result| else 0)
            && forall i :: 0 <= i < |keys| && |result| + i < |addresses| ==>
                 EntryFor(host, keys[i], addresses[|result| + i], guardians[|result| + i])
    decreases |keys|
  {
    if keys == [] {
    } else {
      var compressed := Compress(keys[0]).value;
      var matches := host.keccak256(keys[0])[12..32] == addresses[|result|];
      var entry := if matches then Guardian(compressed, keys[0]) else BLANK;
      var next := result + [entry];
      ConsolidateEntries(host, keys[1..], addresses, next);
      var guardians := Consolidate(host, keys[1..], addresses, next).value;
      assert guardians[..|result|] == guardians[..|next|][..|result|] == result;
      assert guardians[|result|] == guardians[..|next|][|result|] == entry;
      forall i | 0 <= i < |keys| && |result| + i < |addresses|
        ensures EntryFor(host, keys[i], addresses[|result| + i], guardians[|result| + i])
      {
        if i > 0 {
          assert keys[1..][i - 1] == keys[i] && |next| + (i - 1) == |result| + i;
        }
      }
    }
  }

  /** What update-guardians-set writes, or how it fails. */
  function Rotate(host: Host, w: WormholeState, bytes: Buffer, keys: seq<KeyArgument>): Outcome<WormholeState> {
    var vaa :- if w.initialized then Verify(host, w, bytes) else ParsedVaa(host, bytes);
    var update :- ParseGuardiansSet(w.activeId, vaa.body.payload);
    var guardians :- Consolidate(host, keys, update.addresses, []);
    :- Require(|keys| == |update.addresses|, ERR_GSU_UNCOMPRESSED_PUBLIC_KEYS);
    :- Require(vaa.body.emitterAddress == GSU_EMITTING_ADDRESS, ERR_GSU_CHECK_EMITTER);
    :- Require(vaa.body.emitterChain == GSU_EMITTING_CHAIN, ERR_GSU_CHECK_EMITTER);
    Ok(WormholeState(true, update.newIndex, w.sets[update.newIndex := guardians]))
  }

  function ParsedVaa(host: Host, bytes: Buffer): Outcome<Message> {
    var parsed :- ParseVaa(host, bytes);
    Ok(parsed.vaa)
  }

  /** Every stored guardian is blank or a key with its compression. */
  predicate WellFormedGuardian(g: Guardian) {
    g == BLANK || (|g.uncompressed| <= 64 && Compress(g.uncompressed) == Ok(g.compressed))
  }

  ghost predicate ValidWormhole(w: WormholeState) {
    && (w.initialized <==> w.activeId in w.sets)
    && (!w.initialized ==> w == EMPTY_WORMHOLE)
    && forall id :: id in w.sets ==>
         && id <= w.activeId
         && |w.sets[id]| <= MAX_GUARDIANS
         && forall g :: g in w.sets[id] ==> WellFormedGuardian(g)
  }

  /** Before the first rotation nothing verifies. */
  lemma NothingVerifiesUninitialized(host: Host, w: WormholeState, bytes: Buffer)
    requires ValidWormhole(w) && !w.initialized
    ensures !Verify(host, w, bytes).Ok?
  {
    hide ParseVaa;
  }

  /** A rotation moves to a strictly greater id that was never used, keeps every past set, stores
      the keys that match the addresses of the update and blanks for the others, and carries a
      quorum of the set it replaces once there is one. */
  lemma RotationStep(host: Host, w: WormholeState, bytes: Buffer, keys: seq<KeyArgument>)
    requires ValidWormhole(w) && Rotate(host, w, bytes, keys).Ok?
    ensures var w' := Rotate(host, w, bytes, keys).value;
            && ValidWormhole(w') && w'.initialized
            && w'.activeId > w.activeId && w'.activeId !in w.sets
            && w'.sets.Keys == w.sets.Keys + {w'.activeId}
            && (forall id :: id in w.sets ==> w'.sets[id] == w.sets[id])
            && (w.initialized ==> Approved(host, w, bytes))
            && ParseVaa(host, bytes).Ok?
            && var body := ParseVaa(host, bytes).value.vaa.body;
               && body.emitterAddress == GSU_EMITTING_ADDRESS && body.emitterChain == GSU_EMITTING_CHAIN
               && var update := ParseGuardiansSet(w.activeId, body.payload);
                  && update.Ok? && update.value.newIndex == w'.activeId
                  && |w'.sets[w'.activeId]| == |keys| == |update.value.addresses|
                  && forall i :: 0 <= i < |keys| ==>
                       EntryFor(host, keys[i], update.value.addresses[i], w'.sets[w'.activeId][i])
  {
    hide ParseVaa, Verify, ParseGuardiansSet, Consolidate;
    VerifiesIffApproved(host, w, bytes);
    var vaa := if w.initialized then Verify(host, w, bytes).value else ParsedVaa(host, bytes).value;
    var update := ParseGuardiansSet(w.activeId, vaa.body.payload).value;
    ParsedIndexIsNew(w.activeId, vaa.body.payload);
    ConsolidateEntries(host, keys, update.addresses, []);
    var w' := Rotate(host, w, bytes, keys).value;
    var guardians := w'.sets[w'.activeId];
    forall i | 0 <= i < |keys|
      ensures EntryFor(host, keys[i], update.addresses[i], guardians[i]) && WellFormedGuardian(guardians[i])
    {
      assert EntryFor(host, keys[0 + i], update.addresses[0 + i], guardians[0 + i]);
    }
  }

  predicate Compressible(keys: seq<KeyArgument>) {
    forall k :: k in keys ==> |k| == 0 || |k| == 64
  }

  lemma {:induction false} ConsolidateOkIff(host: Host, keys: seq<KeyArgument>, addresses: seq<Hash160>,
                                            result: seq<Guardian>)
    requires |addresses| <= MAX_GUARDIANS
    ensures Consolidate(host, keys, addresses, result).Ok? <==>
              keys == [] || (|result| + |keys| <= |addresses| && Compressible(keys))
    decreases |keys|
  {
    if keys == [] {
    } else {
      assert forall k :: k in keys <==> k == keys[0] || k in keys[1..];
      if |result| < |addresses| && Compress(keys[0]).Ok? {
        var whole := Guardian(Compress(keys[0]).value, keys[0]);
        var entry := if host.keccak256(keys[0])[12..32] == addresses[|result|] then whole else BLANK;
        ConsolidateOkIff(host, keys[1..], addresses, result + [entry]);
      }
    }
  }

  /** A serialized guardian update commits exactly when it is addressed to the core module of every
      chain, raises the set id, comes from the governance emitter, brings one key per address,
      each empty or whole, for at most 19 addresses, and, once there is a set, carries a quorum of
      it. */
  lemma RotateCommitsIff(host: Host, w: WormholeState, h: Header, b: Body, keys: seq<KeyArgument>,
                         mod: Buffer, action: nat, chain: nat, setId: nat, addresses: seq<Hash160>)
    requires h.InRange() && BodyInRange(b)
    requires |mod| == 32 && action < Pow256(1) && chain < Pow256(2) && setId < Pow256(4)
    requires |addresses| < Pow256(1)
    requires b.payload == GuardianPayload(mod, action, chain, setId, addresses)
    ensures Rotate(host, w, VaaBytes(h, b), keys).Ok? <==>
              && (w.initialized ==> QuorumSigned(host, w, h, b))
              && mod == CORE_MODULE && action == 2 && chain == 0 && setId > w.activeId
              && b.emitterAddress == GSU_EMITTING_ADDRESS && b.emitterChain == GSU_EMITTING_CHAIN
              && |keys| == |addresses| <= MAX_GUARDIANS && Compressible(keys)
    ensures Rotate(host, w, VaaBytes(h, b), keys).Ok? ==>
              Rotate(host, w, VaaBytes(h, b), keys).value.activeId == setId
  {
    hide ParseVaa, Verify, VaaBytes, QuorumSigned, ParseGuardiansSet, GuardianPayload, Consolidate, Compressible,
         FromUint;
    VaaRoundTrip(host, h, b);
    SerializedVerifiesIff(host, w, h, b);
    GuardianPayloadRoundTrip(w.activeId, mod, action, chain, setId, addresses);
    if |addresses| <= MAX_GUARDIANS {
      ConsolidateOkIff(host, keys, addresses, []);
    }
    assert keys == [] ==> Compressible(keys) by {
      EmptyCompressible();
    }
  }

  /** The order of the checks behind a VAA that is taken and a payload that parses: the keys must not be
      more than the addresses nor be cut short, then be as many, then the emitter must be the core one. */
  lemma RotateOutcome(host: Host, w: WormholeState, bytes: Buffer, keys: seq<KeyArgument>)
    requires if w.initialized then Verify(host, w, bytes).Ok? else ParseVaa(host, bytes).Ok?
    requires var vaa := if w.initialized then Verify(host, w, bytes).value else ParseVaa(host, bytes).value.vaa;
             ParseGuardiansSet(w.activeId, vaa.body.payload).Ok?
    ensures var vaa := if w.initialized then Verify(host, w, bytes).value else ParseVaa(host, bytes).value.vaa;
            var addresses := ParseGuardiansSet(w.activeId, vaa.body.payload).value.addresses;
            var r := Rotate(host, w, bytes, keys);
            if |keys| > |addresses| || (exists k :: k in keys && |k| != 0 && |k| != 64) then r == Abort
            else if |keys| != |addresses| then r == Err(1207)
            else if vaa.body.emitterAddress != GSU_EMITTING_ADDRESS || vaa.body.emitterChain != 1 then r == Err(1305)
            else r.Ok?
  {
    hide ParseVaa, Verify, ParseGuardiansSet, Consolidate, FromUint;
    var vaa := if w.initialized then Verify(host, w, bytes).value else ParseVaa(host, bytes).value.vaa;
    AddressesBounded(w.activeId, vaa.body.payload);
    var addresses := ParseGuardiansSet(w.activeId, vaa.body.payload).value.addresses;
    ConsolidateOkIff(host, keys, addresses, []);
    ConsolidateNeverErr(host, keys, addresses, []);
    var guardians := Consolidate(host, keys, addresses, []);
  }

  lemma {:induction false} ConsolidateNeverErr(host: Host, keys: seq<KeyArgument>, addresses: seq<Hash160>,
                                               result: seq<Guardian>)
    ensures !Consolidate(host, keys, addresses, result).Err?
    decreases |keys|
  {
    if keys == [] || |result| >= |addresses| || !Compress(keys[0]).Ok? {
    } else {
      var whole := Guardian(Compress(keys[0]).value, keys[0]);
      var entry := if host.keccak256(keys[0])[12..32] == addresses[|result|] then whole else BLANK;
      ConsolidateNeverErr(host, keys[1..], addresses, result + [entry]);
    }
  }

  /** The constants of the core bridge as numbers. */
  lemma CoreConstants(b: Buffer)
    requires |b| == 32
    ensures b == CORE_MODULE <==> ToUint(b) == 0x436f7265
    ensures b == GSU_EMITTING_ADDRESS <==> ToUint(b) == 4
  {
    assert 0x436f7265 < Pow256(4) <= Pow256(32);
    UintRoundTrip(0x436f7265, 32);
    UintRoundTrip(4, 32);
    BufferRoundTrip(b);
  }

  // ---------- the set a rotation leaves ----------

  predicate KeyMatches(host: Host, keys: seq<KeyArgument>, addresses: seq<Hash160>, i: nat)
    requires |keys| == |addresses|
  {
    i < |keys| && |keys[i]| == 64 && host.keccak256(keys[i])[12..32] == addresses[i]
  }

  /** The distinct whole keys passed to a rotation that match the address at their position. */
  ghost function MatchingKeys(host: Host, keys: seq<KeyArgument>, addresses: seq<Hash160>): set<Buffer>
    requires |keys| == |addresses|
  {
    set i | 0 <= i < |keys| && KeyMatches(host, keys, addresses, i) :: Compress(keys[i]).value
  }

  /** The distinct recovered keys that are such a key at the position they claim. */
  ghost function MatchingSigners(host: Host, keys: seq<KeyArgument>, addresses: seq<Hash160>, recovered: seq<Recovered>)
      : set<CompressedKey>
    requires |keys| == |addresses|
  {
    set r | r in recovered && KeyMatches(host, keys, addresses, r.guardianId)
            && Compress(keys[r.guardianId]) == Ok(r.key) :: r.key
  }

  /** The addresses a rotation is told. */
  function AddressesOf(host: Host, w: WormholeState, bytes: Buffer): seq<Hash160>
    requires ParseVaa(host, bytes).Ok?
    requires ParseGuardiansSet(w.activeId, ParseVaa(host, bytes).value.vaa.body.payload).Ok?
  {
    ParseGuardiansSet(w.activeId, ParseVaa(host, bytes).value.vaa.body.payload).value.addresses
  }

  /** Entries i and keys i, for one set. */
  ghost predicate Consolidated(host: Host, keys: seq<KeyArgument>, addresses: seq<Hash160>, guardians: seq<Guardian>) {
    && |guardians| == |keys| == |addresses|
    && forall i :: 0 <= i < |keys| ==> EntryFor(host, keys[i], addresses[i], guardians[i])
  }

  lemma EntryKey(host: Host, keys: seq<KeyArgument>, addresses: seq<Hash160>, guardians: seq<Guardian>, i: nat)
    requires Consolidated(host, keys, addresses, guardians) && i < |keys|
    ensures |guardians[i].compressed| == 33 <==> KeyMatches(host, keys, addresses, i)
    ensures KeyMatches(host, keys, addresses, i) ==> Compress(keys[i]) == Ok(guardians[i].compressed)
  {
  }

  lemma ConsolidatedKeys(host: Host, keys: seq<KeyArgument>, addresses: seq<Hash160>, guardians: seq<Guardian>)
    requires Consolidated(host, keys, addresses, guardians)
    ensures Keys(guardians) == MatchingKeys(host, keys, addresses)
  {
    forall i | 0 <= i < |keys|
      ensures |guardians[i].compressed| == 33 <==> KeyMatches(host, keys, addresses, i)
      ensures KeyMatches(host, keys, addresses, i) ==> Compress(keys[i]) == Ok(guardians[i].compressed)
    {
      EntryKey(host, keys, addresses, guardians, i);
    }
    hide Consolidated, KeyMatches, Compress;
    assert forall i :: 0 <= i < |keys| ==> guardians[i] in guardians;
  }

  lemma ConsolidatedSigners(host: Host, keys: seq<KeyArgument>, addresses: seq<Hash160>, guardians: seq<Guardian>,
                            recovered: seq<Recovered>)
    requires Consolidated(host, keys, addresses, guardians)
    ensures Signers(guardians, recovered) == MatchingSigners(host, keys, addresses, recovered)
  {
    forall i | 0 <= i < |keys|
      ensures |guardians[i].compressed| == 33 <==> KeyMatches(host, keys, addresses, i)
      ensures KeyMatches(host, keys, addresses, i) ==> Compress(keys[i]) == Ok(guardians[i].compressed)
    {
      EntryKey(host, keys, addresses, guardians, i);
    }
    assert forall i: nat :: KeyMatches(host, keys, addresses, i) ==> i < |keys|;
    assert |guardians| == |keys|;
    hide Consolidated, KeyMatches, Compress;
  }

  lemma RotationConsolidates(host: Host, w: WormholeState, bytes: Buffer, keys: seq<KeyArgument>)
    requires ValidWormhole(w) && Rotate(host, w, bytes, keys).Ok?
    ensures ParseVaa(host, bytes).Ok?
    ensures ParseGuardiansSet(w.activeId, ParseVaa(host, bytes).value.vaa.body.payload).Ok?
    ensures var w' := Rotate(host, w, bytes, keys).value;
            && ValidWormhole(w') && w'.initialized && w'.activeId in w'.sets
            && Consolidated(host, keys, AddressesOf(host, w, bytes), w'.sets[w'.activeId])
  {
    hide Rotate, ParseVaa, ParseGuardiansSet, Approved, EntryFor, ValidWormhole;
    RotationStep(host, w, bytes, keys);
  }

  /** The entry a rotation stores for a key, said of key, address and hash alone. */
  lemma RotationInstalls(host: Host, w: WormholeState, bytes: Buffer, keys: seq<KeyArgument>, i: nat)
    requires ValidWormhole(w) && Rotate(host, w, bytes, keys).Ok? && i < |keys|
    ensures ParseVaa(host, bytes).Ok?
    ensures ParseGuardiansSet(w.activeId, ParseVaa(host, bytes).value.vaa.body.payload).Ok?
    ensures var w' := Rotate(host, w, bytes, keys).value; var addresses := AddressesOf(host, w, bytes);
            && w'.activeId in w'.sets && |w'.sets[w'.activeId]| == |keys| == |addresses|
            && (|keys[i]| == 0 || |keys[i]| == 64)
            && w'.sets[w'.activeId][i]
               == (if |keys[i]| == 64 && addresses[i] == host.keccak256(keys[i])[12..] then
                     Guardian([2 + ToUint(keys[i][32..]) % 2] + keys[i][..32], keys[i])
                   else Guardian([], []))
  {
    RotationConsolidates(host, w, bytes, keys);
    hide Rotate, ParseVaa, AddressesOf, ValidWormhole, Compress, ParseGuardiansSet, Consolidated, ToUint;
    var w' := Rotate(host, w, bytes, keys).value;
    RotationCompressed(host, w, bytes, keys, i);
    ConsolidatedSpelled(host, keys, AddressesOf(host, w, bytes), w'.sets[w'.activeId], i);
  }

  lemma ConsolidatedSpelled(host: Host, keys: seq<KeyArgument>, addresses: seq<Hash160>, guardians: seq<Guardian>,
                            i: nat)
    requires Consolidated(host, keys, addresses, guardians) && i < |keys| && (|keys[i]| == 0 || |keys[i]| == 64)
    ensures |guardians| == |keys| == |addresses|
    ensures guardians[i] == (if |keys[i]| == 64 && addresses[i] == host.keccak256(keys[i])[12..] then
                               Guardian([2 + ToUint(keys[i][32..]) % 2] + keys[i][..32], keys[i])
                             else Guardian([], []))
  {
    EntrySpelled(host, keys[i], addresses[i], guardians[i]);
  }

  lemma EntrySpelled(host: Host, key: KeyArgument, address: Hash160, g: Guardian)
    requires EntryFor(host, key, address, g) && (|key| == 0 || |key| == 64)
    ensures g == (if |key| == 64 && address == host.keccak256(key)[12..] then
                    Guardian([2 + ToUint(key[32..]) % 2] + key[..32], key)
                  else Guardian([], []))
  {
    assert host.keccak256(key)[12..] == host.keccak256(key)[12..32];
    if |key| == 64 {
      assert key == key[..32] + key[32..];
      CompressesPoint(key[..32], key[32..]);
    } else {
      assert key == [];
    }
    hide ToUint;
  }

  lemma RotationCompressed(host: Host, w: WormholeState, bytes: Buffer, keys: seq<KeyArgument>, i: nat)
    requires Rotate(host, w, bytes, keys).Ok? && i < |keys|
    ensures |keys[i]| == 0 || |keys[i]| == 64
  {
    hide ParseVaa, Verify, ParseGuardiansSet, Consolidate;
    var vaa := if w.initialized then Verify(host, w, bytes).value else ParsedVaa(host, bytes).value;
    var addresses := ParseGuardiansSet(w.activeId, vaa.body.payload).value.addresses;
    AddressesBounded(w.activeId, vaa.body.payload);
    ConsolidateOkIff(host, keys, addresses, []);
    assert keys[i] in keys;
  }

  lemma AddressesBounded(activeId: nat, bytes: Buffer)
    requires ParseGuardiansSet(activeId, bytes).Ok?
    ensures |ParseGuardiansSet(activeId, bytes).value.addresses| <= MAX_GUARDIANS
  {
    hide Addresses, ToUint;
    var count := ToUint(bytes[39..40]);
    AddressesAreChunks(bytes[40..40 + 20 * count], count);
  }

  /** Every address is the last twenty bytes of the hash of its key, as the helpers derive it. */
  ghost predicate KeyChain(host: Host, keys: seq<KeyArgument>, addresses: seq<Hash160>) {
    && |keys| == |addresses|
    && forall i :: 0 <= i < |keys| ==> |keys[i]| == 64 && addresses[i] == host.keccak256(keys[i])[12..32]
  }

  ghost predicate HoldsKeys(guardians: seq<Guardian>, keys: seq<KeyArgument>) {
    && |guardians| == |keys|
    && forall i :: 0 <= i < |keys| ==>
         |keys[i]| == 64 && guardians[i] == Guardian([2 + ToUint(keys[i][32..]) % 2] + keys[i][..32], keys[i])
  }

  lemma KeyChainStored(host: Host, w: WormholeState, bytes: Buffer, keys: seq<KeyArgument>, setId: nat,
                       addresses: seq<Hash160>)
    requires ValidWormhole(w) && Rotate(host, w, bytes, keys).Ok? && KeyChain(host, keys, addresses)
    requires ParseVaa(host, bytes).Ok?
    requires ParseGuardiansSet(w.activeId, ParseVaa(host, bytes).value.vaa.body.payload)
             == Ok(GuardianUpdate(setId, addresses))
    ensures var w' := Rotate(host, w, bytes, keys).value;
            w'.activeId in w'.sets && HoldsKeys(w'.sets[w'.activeId], keys)
  {
    RotationConsolidates(host, w, bytes, keys);
    RotatedAddresses(host, w, bytes, setId, addresses);
    hide Rotate, ParseVaa, AddressesOf, ValidWormhole, ParseGuardiansSet, ToUint;
    var w' := Rotate(host, w, bytes, keys).value;
    ConsolidatedSizes(host, keys, addresses, w'.sets[w'.activeId]);
    forall i | 0 <= i < |keys|
      ensures |keys[i]| == 64
      ensures w'.sets[w'.activeId][i] == Guardian([2 + ToUint(keys[i][32..]) % 2] + keys[i][..32], keys[i])
    {
      RotationInstalls(host, w, bytes, keys, i);
      assert host.keccak256(keys[i])[12..] == host.keccak256(keys[i])[12..32];
    }
  }

  /** A key chain as the helpers make it is installed whole: rotating to its serialized addresses with its
      keys commits and stores every key. */
  lemma KeyChainInstalled(host: Host, w: WormholeState, h: Header, b: Body, keys: seq<KeyArgument>, setId: nat,
                          addresses: seq<Hash160>)
    requires ValidWormhole(w) && h.InRange() && BodyInRange(b) && w.activeId < setId < Pow256(4)
    requires KeyChain(host, keys, addresses) && |addresses| <= MAX_GUARDIANS
    requires b.payload == GuardianPayload(CORE_MODULE, 2, 0, setId, addresses)
    requires b.emitterAddress == GSU_EMITTING_ADDRESS && b.emitterChain == GSU_EMITTING_CHAIN
    requires w.initialized ==> QuorumSigned(host, w, h, b)
    ensures Rotate(host, w, VaaBytes(h, b), keys).Ok?
    ensures var w' := Rotate(host, w, VaaBytes(h, b), keys).value;
            w'.activeId == setId && setId in w'.sets && HoldsKeys(w'.sets[setId], keys)
  {
    assert Compressible(keys) by {
      ChainCompressible(host, keys, addresses);
    }
    assert Pow256(1) == 256 && 0 < Pow256(2);
    hide Rotate, QuorumSigned, VaaBytes, GuardianPayload, FromUint, ParseVaa, ValidWormhole, KeyChain, Compressible,
         HoldsKeys, RecoverKeys, SplitAll, BodyBytes, ParseGuardiansSet;
    assert |keys| == |addresses| by {
      ChainCompressible(host, keys, addresses);
    }
    RotateCommitsIff(host, w, h, b, keys, CORE_MODULE, 2, 0, setId, addresses);
    VaaRoundTrip(host, h, b);
    GuardianPayloadRoundTrip(w.activeId, CORE_MODULE, 2, 0, setId, addresses);
    KeyChainStored(host, w, VaaBytes(h, b), keys, setId, addresses);
  }

  lemma ChainCompressible(host: Host, keys: seq<KeyArgument>, addresses: seq<Hash160>)
    requires KeyChain(host, keys, addresses)
    ensures Compressible(keys) && |keys| == |addresses|
  {
  }

  lemma RotatedAddresses(host: Host, w: WormholeState, bytes: Buffer, setId: nat, addresses: seq<Hash160>)
    requires ParseVaa(host, bytes).Ok?
    requires ParseGuardiansSet(w.activeId, ParseVaa(host, bytes).value.vaa.body.payload)
             == Ok(GuardianUpdate(setId, addresses))
    ensures AddressesOf(host, w, bytes) == addresses
  {
  }

  /** Nobody signs the keys passed to a rotation. The usable keys of the set it leaves are the whole ones
      that match their addresses, and with fewer of them than the quorum nothing verifies any more. */
  lemma RotatedSetNeedsKeys(host: Host, w: WormholeState, bytes: Buffer, keys: seq<KeyArgument>)
    requires ValidWormhole(w) && Rotate(host, w, bytes, keys).Ok?
    ensures ParseVaa(host, bytes).Ok?
    ensures ParseGuardiansSet(w.activeId, ParseVaa(host, bytes).value.vaa.body.payload).Ok?
    ensures var w' := Rotate(host, w, bytes, keys).value; var addresses := AddressesOf(host, w, bytes);
            && w'.activeId in w'.sets && |w'.sets[w'.activeId]| == |keys| == |addresses|
            && Keys(w'.sets[w'.activeId]) == MatchingKeys(host, keys, addresses)
            && (|MatchingKeys(host, keys, addresses)| < Quorum(|keys|) ==> forall later :: !Verify(host, w', later).Ok?)
  {
    RotationConsolidates(host, w, bytes, keys);
    hide Rotate, ParseVaa, Verify, AddressesOf, Consolidated, MatchingKeys, Keys, ValidWormhole;
    var w' := Rotate(host, w, bytes, keys).value;
    ConsolidatedSizes(host, keys, AddressesOf(host, w, bytes), w'.sets[w'.activeId]);
    ConsolidatedKeys(host, keys, AddressesOf(host, w, bytes), w'.sets[w'.activeId]);
    forall later | |MatchingKeys(host, keys, AddressesOf(host, w, bytes))| < Quorum(|keys|)
      ensures !Verify(host, w', later).Ok?
    {
      UnusableSetApprovesNothing(host, w', later);
    }
  }

  lemma ConsolidatedSizes(host: Host, keys: seq<KeyArgument>, addresses: seq<Hash160>, guardians: seq<Guardian>)
    requires Consolidated(host, keys, addresses, guardians)
    ensures |guardians| == |keys| == |addresses|
  {
  }

  /** A rotation whose keys are all empty, which commits like any other, leaves no usable key. */
  lemma EmptyKeysMatchNothing(host: Host, keys: seq<KeyArgument>, addresses: seq<Hash160>)
    requires |keys| == |addresses| && forall k :: k in keys ==> k == []
    ensures |MatchingKeys(host, keys, addresses)| < Quorum(|keys|)
  {
    assert forall i :: 0 <= i < |keys| ==> keys[i] in keys;
    assert MatchingKeys(host, keys, addresses) == {};
  }

  /** After a rotation, a serialized VAA verifies exactly when it names the new set, has version 1, claims
      only positions in it, and a quorum of distinct keys signed its body that were passed to the
      rotation and match the addresses at the positions they claim. */
  lemma RotatedSetVerifiesIff(host: Host, w: WormholeState, bytes: Buffer, keys: seq<KeyArgument>, h: Header, b: Body)
    requires ValidWormhole(w) && Rotate(host, w, bytes, keys).Ok?
    requires h.InRange() && BodyInRange(b)
    ensures ParseVaa(host, bytes).Ok?
    ensures ParseGuardiansSet(w.activeId, ParseVaa(host, bytes).value.vaa.body.payload).Ok?
    ensures |keys| == |AddressesOf(host, w, bytes)|
    ensures var w' := Rotate(host, w, bytes, keys).value;
            var recovered := RecoverKeys(host, host.keccak256(host.keccak256(BodyBytes(b))), SplitAll(h.signatures));
            Verify(host, w', VaaBytes(h, b)).Ok? <==>
              && h.guardianSetId == w'.activeId && h.version == 1
              && (forall r :: r in recovered ==> r.guardianId < |keys|)
              && |MatchingSigners(host, keys, AddressesOf(host, w, bytes), recovered)| >= Quorum(|keys|)
  {
    RotationConsolidates(host, w, bytes, keys);
    hide Rotate, ParseVaa, Verify, AddressesOf, Consolidated, MatchingSigners, Signers, RecoverKeys, SplitAll,
         BodyBytes, VaaBytes, ValidWormhole;
    var w' := Rotate(host, w, bytes, keys).value;
    var recovered := RecoverKeys(host, host.keccak256(host.keccak256(BodyBytes(b))), SplitAll(h.signatures));
    ConsolidatedSizes(host, keys, AddressesOf(host, w, bytes), w'.sets[w'.activeId]);
    ConsolidatedSigners(host, keys, AddressesOf(host, w, bytes), w'.sets[w'.activeId], recovered);
    SerializedVerifiesIff(host, w', h, b);
  }

  lemma EmptyCompressible()
    ensures Compressible([])
  {
  }

  lemma ParsedIndexIsNew(activeId: nat, bytes: Buffer)
    requires ParseGuardiansSet(activeId, bytes).Ok?
    ensures ParseGuardiansSet(activeId, bytes).value.newIndex > activeId
  {
    hide Addresses;
  }

  // ---------- the contract ----------

  /** What update-guardians-set returns. */
  datatype Rotation = Rotation(vaa: Message, addresses: seq<Hash160>, keys: seq<KeyArgument>)

  class WormholeContract {
    var guardianSetInitialized: bool
    var activeGuardianSetId: nat
    var guardianSets: map<nat, seq<Guardian>>

    constructor ()
      ensures State() == EMPTY_WORMHOLE
    {
      guardianSetInitialized := false;
      activeGuardianSetId := 0;
      guardianSets := map[];
    }

    function State(): WormholeState
      reads this
    {
      WormholeState(guardianSetInitialized, activeGuardianSetId, guardianSets)
    }

    /** update-guardians-set */
    method UpdateGuardiansSet(host: Host, bytes: Buffer, keys: seq<KeyArgument>) returns (r: Outcome<Rotation>)
      modifies this
      ensures r.Ok? <==> Rotate(host, old(State()), bytes, keys).Ok?
      ensures r.Ok? ==> State() == Rotate(host, old(State()), bytes, keys).value
      ensures r.Ok? ==> ParseVaa(host, bytes).Ok? && r.value.vaa == ParseVaa(host, bytes).value.vaa
      ensures r.Ok? ==> r.value.keys == keys
      ensures r.Ok? ==> ParseGuardiansSet(old(activeGuardianSetId), r.value.vaa.body.payload)
                        == Ok(GuardianUpdate(activeGuardianSetId, r.value.addresses))
      ensures !r.Ok? ==> State() == old(State())
      ensures !r.Ok? ==> r.PropagateFailure<WormholeState>() == Rotate(host, old(State()), bytes, keys)
    {
      VerifiesIffApproved(host, State(), bytes);
      assert Verify(host, State(), bytes).Ok? ==> ParseVaa(host, bytes).Ok?;
      hide ParseVaa, Verify, ParseGuardiansSet, Consolidate, Approved;
      var vaa;
      if guardianSetInitialized {
        vaa :- Verify(host, State(), bytes);
      } else {
        vaa :- ParsedVaa(host, bytes);
      }
      var update :- ParseGuardiansSet(activeGuardianSetId, vaa.body.payload);
      var guardians :- Consolidate(host, keys, update.addresses, []);
      if |keys| != |update.addresses| {
        return Err(ERR_GSU_UNCOMPRESSED_PUBLIC_KEYS);
      }
      if vaa.body.emitterAddress != GSU_EMITTING_ADDRESS || vaa.body.emitterChain != GSU_EMITTING_CHAIN {
        return Err(ERR_GSU_CHECK_EMITTER);
      }
      guardianSets := guardianSets[update.newIndex := guardians];
      activeGuardianSetId := update.newIndex;
      guardianSetInitialized := true;
      r := Ok(Rotation(vaa, update.addresses, keys));
    }
  }
}

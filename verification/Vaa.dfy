/** Verified Action Approvals: the wormhole message format, read by the core contract and written
    by the test helpers. */
module Vaa {
  import opened Bytes
  import opened Clarity

  const ERR_VAA_PARSING_VERSION: nat := 1001
  const ERR_VAA_PARSING_GUARDIAN_SET: nat := 1002
  const ERR_VAA_PARSING_SIGNATURES_LEN: nat := 1003
  const ERR_VAA_PARSING_TIMESTAMP: nat := 1005
  const ERR_VAA_PARSING_NONCE: nat := 1006
  const ERR_VAA_PARSING_EMITTER_CHAIN: nat := 1007
  const ERR_VAA_PARSING_EMITTER_ADDRESS: nat := 1008
  const ERR_VAA_PARSING_SEQUENCE: nat := 1009
  const ERR_VAA_PARSING_CONSISTENCY_LEVEL: nat := 1010
  const ERR_VAA_PARSING_PAYLOAD: nat := 1011
  const ERR_VAA_HASHING_BODY: nat := 1012

  const MAX_GUARDIANS: nat := 19

  datatype Signature = Signature(guardianId: nat, signature: Buffer)

  datatype Body = Body(
    timestamp: nat, nonce: nat, emitterChain: nat, emitterAddress: Buffer,
    sequence: nat, consistencyLevel: nat, payload: Buffer)

  /** A wormhole emitter: the identity governance trusts or does not. */
  datatype Emitter = Emitter(chain: nat, address: Buffer)

  datatype Message = Message(
    version: nat, guardianSetId: nat, signaturesLen: nat, signatures: seq<Signature>, body: Body)
  {
    function Source(): Emitter {
      Emitter(body.emitterChain, body.emitterAddress)
    }
  }

  /** A key recovered from a signature, with the position its signer claims. */
  datatype Recovered = Recovered(key: CompressedKey, guardianId: nat)

  datatype Parsed = Parsed(vaa: Message, recovered: seq<Recovered>)

  datatype SignatureAcc = SignatureAcc(next: Cursor, iter: nat, value: seq<Signature>)

  /** batch-read-signatures */
  function ReadSignature(acc: SignatureAcc): Outcome<SignatureAcc> {
    if acc.iter == 0 then Ok(acc)
    else
      var guardianId :- ReadUint(acc.next, 1).OrAbort();
      var signature :- ReadBuff(guardianId.next, 65).OrAbort();
      if |acc.value| == MAX_GUARDIANS then Abort
      else Ok(SignatureAcc(signature.next, acc.iter - 1, acc.value + [Signature(guardianId.value, signature.value)]))
  }

  /** The fold over a list of fixed length. */
  function FoldSignatures(rounds: nat, acc: SignatureAcc): Outcome<SignatureAcc> {
    if rounds == 0 then Ok(acc)
    else
      var acc' :- ReadSignature(acc);
      FoldSignatures(rounds - 1, acc')
  }

  /** batch-recover-public-keys : signatures that recover to no key are skipped. */
  function RecoverKeys(host: Host, hash: Hash256, signatures: seq<Signature>): (keys: seq<Recovered>)
    ensures |keys| <= |signatures|
  {
    if signatures == [] then []
    else
      var rest := RecoverKeys(host, hash, signatures[1..]);
      match host.recover(hash, signatures[0].signature)
      case Some(key) => [Recovered(key, signatures[0].guardianId)] + rest
      case None => rest
  }

  /** The recovered keys come from the signatures at these positions, one each, in order, and from no
      other signature one could be recovered. */
  ghost predicate RecoveredAt(host: Host, hash: Hash256, signatures: seq<Signature>, keys: seq<Recovered>,
                              at: seq<nat>)
  {
    && |at| == |keys|
    && (forall m, n :: 0 <= m < n < |at| ==> at[m] < at[n])
    && (forall m :: 0 <= m < |at| ==>
          && at[m] < |signatures|
          && host.recover(hash, signatures[at[m]].signature) == Some(keys[m].key)
          && signatures[at[m]].guardianId == keys[m].guardianId)
    && forall i :: 0 <= i < |signatures| && host.recover(hash, signatures[i].signature).Some? ==> i in at
  }

  /** One more signature in front moves every position by one. */
  lemma RecoveredAfter(host: Host, hash: Hash256, signatures: seq<Signature>, keys: seq<Recovered>, at: seq<nat>,
                       at': seq<nat>)
    requires signatures != [] && RecoveredAt(host, hash, signatures[1..], keys, at)
    requires |at'| == |at| && forall m :: 0 <= m < |at| ==> at'[m] == at[m] + 1
    ensures forall m, n :: 0 <= m < n < |at'| ==> 0 < at'[m] < at'[n]
    ensures forall m :: 0 <= m < |at'| ==>
              && 0 < at'[m] < |signatures|
              && host.recover(hash, signatures[at'[m]].signature) == Some(keys[m].key)
              && signatures[at'[m]].guardianId == keys[m].guardianId
    ensures forall i :: 0 < i < |signatures| && host.recover(hash, signatures[i].signature).Some? ==> i in at'
  {
    forall i | 0 < i < |signatures| && host.recover(hash, signatures[i].signature).Some?
      ensures i in at'
    {
      assert signatures[1..][i - 1] == signatures[i];
      var m :| 0 <= m < |at| && at[m] == i - 1;
      assert at'[m] == i;
    }
    assert forall m :: 0 <= m < |at| ==> signatures[at'[m]] == signatures[1..][at[m]];
  }

  /** Order and number of the recovered keys are those of the signatures that recover to one. */
  lemma {:induction false} RecoversExactly(host: Host, hash: Hash256, signatures: seq<Signature>) returns (at: seq<nat>)
    ensures RecoveredAt(host, hash, signatures, RecoverKeys(host, hash, signatures), at)
    decreases |signatures|
  {
    if signatures == [] {
      at := [];
    } else {
      hide RecoveredAt;
      var keys := RecoverKeys(host, hash, signatures[1..]);
      var before := RecoversExactly(host, hash, signatures[1..]);
      var later: seq<nat> := seq(|before|, m requires 0 <= m < |before| => before[m] + 1);
      match host.recover(hash, signatures[0].signature)
      case Some(key) =>
        at := [0] + later;
        RecoveredWith(host, hash, signatures, keys, before, later, key);
      case None =>
        at := later;
        RecoveredWithout(host, hash, signatures, keys, before, later);
    }
  }

  lemma RecoveredWith(host: Host, hash: Hash256, signatures: seq<Signature>, keys: seq<Recovered>, at: seq<nat>,
                      at': seq<nat>, key: CompressedKey)
    requires signatures != [] && RecoveredAt(host, hash, signatures[1..], keys, at)
    requires |at'| == |at| && forall m :: 0 <= m < |at| ==> at'[m] == at[m] + 1
    requires host.recover(hash, signatures[0].signature) == Some(key)
    ensures RecoveredAt(host, hash, signatures, [Recovered(key, signatures[0].guardianId)] + keys, [0] + at')
  {
    RecoveredAfter(host, hash, signatures, keys, at, at');
    var all, first := [0] + at', [Recovered(key, signatures[0].guardianId)] + keys;
    assert all[1..] == at' && first[1..] == keys;
    forall m | 0 <= m < |all|
      ensures
        && all[m] < |signatures|
        && host.recover(hash, signatures[all[m]].signature) == Some(first[m].key)
        && signatures[all[m]].guardianId == first[m].guardianId
    {
      assert m == 0 || (all[m] == at'[m - 1] && first[m] == keys[m - 1]);
    }
    forall i | 0 <= i < |signatures| && host.recover(hash, signatures[i].signature).Some?
      ensures i in all
    {
      assert i == 0 || i in at';
    }
    forall m, n | 0 <= m < n < |all|
      ensures all[m] < all[n]
    {
      assert all[n] == at'[n - 1];
      assert m == 0 || all[m] == at'[m - 1];
    }
  }

  lemma RecoveredWithout(host: Host, hash: Hash256, signatures: seq<Signature>, keys: seq<Recovered>, at: seq<nat>,
                         at': seq<nat>)
    requires signatures != [] && RecoveredAt(host, hash, signatures[1..], keys, at)
    requires |at'| == |at| && forall m :: 0 <= m < |at| ==> at'[m] == at[m] + 1
    requires host.recover(hash, signatures[0].signature).None?
    ensures RecoveredAt(host, hash, signatures, keys, at')
  {
    RecoveredAfter(host, hash, signatures, keys, at, at');
    assert |at'| == |keys|;
  }

  function ReadBody(c: Cursor): Outcome<Body> {
    var timestamp :- ReadUint(c, 4).OrErr(ERR_VAA_PARSING_TIMESTAMP);
    var nonce :- ReadUint(timestamp.next, 4).OrErr(ERR_VAA_PARSING_NONCE);
    var emitterChain :- ReadUint(nonce.next, 2).OrErr(ERR_VAA_PARSING_EMITTER_CHAIN);
    var emitterAddress :- ReadBuff(emitterChain.next, 32).OrErr(ERR_VAA_PARSING_EMITTER_ADDRESS);
    var sequence :- ReadUint(emitterAddress.next, 8).OrErr(ERR_VAA_PARSING_SEQUENCE);
    var consistencyLevel :- ReadUint(sequence.next, 1).OrErr(ERR_VAA_PARSING_CONSISTENCY_LEVEL);
    var payload :- ReadRest(consistencyLevel.next).OrErr(ERR_VAA_PARSING_PAYLOAD);
    Ok(Body(timestamp.value, nonce.value, emitterChain.value, emitterAddress.value,
            sequence.value, consistencyLevel.value, payload.value))
  }

  /** parse-vaa */
  function ParseVaa(host: Host, bytes: Buffer): Outcome<Parsed> {
    var version :- ReadUint(Cursor(bytes, 0), 1).OrErr(ERR_VAA_PARSING_VERSION);
    var setId :- ReadUint(version.next, 4).OrErr(ERR_VAA_PARSING_GUARDIAN_SET);
    var len :- ReadUint(setId.next, 1).OrErr(ERR_VAA_PARSING_SIGNATURES_LEN);
    var signatures :- FoldSignatures(MAX_GUARDIANS, SignatureAcc(len.next, len.value, []));
    var bodyBytes :- ReadRest(signatures.next).OrErr(ERR_VAA_HASHING_BODY);
    var body :- ReadBody(signatures.next);
    var recovered := RecoverKeys(host, host.keccak256(host.keccak256(bodyBytes.value)), signatures.value);
    Ok(Parsed(Message(version.value, setId.value, len.value, signatures.value, body), recovered))
  }

  // ---------- the serializer ----------

  datatype Header = Header(version: nat, guardianSetId: nat, signatures: seq<Buffer>) {
    /** What the helper can write: one-byte version, four-byte set id, signatures of 66 bytes that a byte
        can count. */
    predicate Writable() {
      && version < Pow256(1) && guardianSetId < Pow256(4)
      && |signatures| < Pow256(1)
      && forall s :: s in signatures ==> |s| == 66
    }

    /** What the parser can take back: at most 19 signatures. */
    predicate InRange() {
      Writable() && |signatures| <= MAX_GUARDIANS
    }
  }

  predicate BodyInRange(b: Body) {
    && b.timestamp < Pow256(4) && b.nonce < Pow256(4) && b.emitterChain < Pow256(2)
    && |b.emitterAddress| == 32 && b.sequence < Pow256(8) && b.consistencyLevel < Pow256(1)
  }

  /** serializeVaaHeaderToBuffer */
  function HeaderBytes(h: Header): Buffer {
    FromUint(h.version, 1) + (FromUint(h.guardianSetId, 4) + (FromUint(|h.signatures|, 1) + Concat(h.signatures)))
  }

  /** serializeVaaBodyToBuffer */
  function BodyBytes(b: Body): Buffer {
    FromUint(b.timestamp, 4)
    + (FromUint(b.nonce, 4)
    + (FromUint(b.emitterChain, 2)
    + (b.emitterAddress
    + (FromUint(b.sequence, 8)
    + (FromUint(b.consistencyLevel, 1)
    + b.payload)))))
  }

  /** serializeVaaToBuffer */
  function VaaBytes(h: Header, b: Body): Buffer {
    HeaderBytes(h) + BodyBytes(b)
  }

  function Split(signature: Buffer): Signature
    requires |signature| == 66
  {
    Signature(signature[0], signature[1..])
  }

  function SplitAll(signatures: seq<Buffer>): (split: seq<Signature>)
    requires forall s :: s in signatures ==> |s| == 66
    ensures |split| == |signatures|
  {
    if signatures == [] then [] else [Split(signatures[0])] + SplitAll(signatures[1..])
  }

  lemma ReadsSignature(c: Cursor, iter: nat, done: seq<Signature>, signature: Buffer, rest: Buffer)
    requires |signature| == 66 && Holds(c, signature + rest) && iter > 0 && |done| < MAX_GUARDIANS
    ensures ReadSignature(SignatureAcc(c, iter, done))
            == Ok(SignatureAcc(Skip(c, 66), iter - 1, done + [Split(signature)]))
    ensures Holds(Skip(c, 66), rest)
  {
    assert signature + rest == [signature[0]] + (signature[1..] + rest);
    ReadsBuff(c, [signature[0]], signature[1..] + rest);
    assert ToUint([signature[0]]) == signature[0];
    ReadsBuff(Skip(c, 1), signature[1..], rest);
  }

  lemma {:induction false} FoldStops(rounds: nat, c: Cursor, done: seq<Signature>)
    ensures FoldSignatures(rounds, SignatureAcc(c, 0, done)) == Ok(SignatureAcc(c, 0, done))
  {
    if rounds == 0 {
    } else {
      FoldStops(rounds - 1, c, done);
    }
  }

  lemma FoldStep(rounds: nat, acc: SignatureAcc)
    requires rounds > 0 && ReadSignature(acc).Ok?
    ensures FoldSignatures(rounds, acc) == FoldSignatures(rounds - 1, ReadSignature(acc).value)
  {
  }

  lemma SplitAllStep(signatures: seq<Buffer>)
    requires signatures != [] && forall s :: s in signatures ==> |s| == 66
    ensures SplitAll(signatures) == [Split(signatures[0])] + SplitAll(signatures[1..])
  {
  }

  lemma ConcatStep(parts: seq<Buffer>, rest: Buffer)
    requires parts != []
    ensures Concat(parts) + rest == parts[0] + (Concat(parts[1..]) + rest)
  {
  }

  /** The fold reads these signatures when they are all the announced ones, or all it has rounds for. */
  lemma {:induction false} FoldReadsSignatures(
      rounds: nat, c: Cursor, iter: nat, done: seq<Signature>, signatures: seq<Buffer>, rest: Buffer)
    requires forall s :: s in signatures ==> |s| == 66
    requires |signatures| <= rounds && |signatures| <= iter && (|signatures| == rounds || |signatures| == iter)
    requires |done| + |signatures| <= MAX_GUARDIANS
    requires Holds(c, Concat(signatures) + rest)
    ensures FoldSignatures(rounds, SignatureAcc(c, iter, done))
            == Ok(SignatureAcc(Skip(c, 66 * |signatures|), iter - |signatures|, done + SplitAll(signatures)))
    ensures Holds(Skip(c, 66 * |signatures|), rest)
    decreases rounds
  {
    if signatures == [] {
      hide ReadSignature, Split, Holds;
      if iter == 0 {
        FoldStops(rounds, c, done);
      }
      assert done + SplitAll(signatures) == done;
      assert Concat(signatures) + rest == rest;
    } else {
      hide FoldSignatures, ReadSignature, Split, Holds, SplitAll;
      SplitAllStep(signatures);
      var s, more := signatures[0], signatures[1..];
      ConcatStep(signatures, rest);
      hide Concat;
      ReadsSignature(c, iter, done, s, Concat(more) + rest);
      FoldStep(rounds, SignatureAcc(c, iter, done));
      FoldReadsSignatures(rounds - 1, Skip(c, 66), iter - 1, done + [Split(s)], more, rest);
      assert done + [Split(s)] + SplitAll(more) == done + ([Split(s)] + SplitAll(more));
    }
  }

  lemma BodyRoundTrip(c: Cursor, b: Body)
    requires BodyInRange(b) && Holds(c, BodyBytes(b))
    ensures ReadBody(c) == Ok(b)
  {
    hide FromUint, ToUint;
    var r6 := b.payload;
    var r5 := FromUint(b.consistencyLevel, 1) + r6;
    var r4 := FromUint(b.sequence, 8) + r5;
    var r3 := b.emitterAddress + r4;
    var r2 := FromUint(b.emitterChain, 2) + r3;
    var r1 := FromUint(b.nonce, 4) + r2;
    ReadsUint(c, b.timestamp, 4, r1);
    ReadsUint(Skip(c, 4), b.nonce, 4, r2);
    ReadsUint(Skip(c, 8), b.emitterChain, 2, r3);
    ReadsBuff(Skip(c, 10), b.emitterAddress, r4);
    ReadsUint(Skip(c, 42), b.sequence, 8, r5);
    ReadsUint(Skip(c, 50), b.consistencyLevel, 1, r6);
  }

  /** How many signatures the parser reads. */
  function ReadCount(h: Header): (n: nat)
    ensures n <= |h.signatures| && n <= MAX_GUARDIANS
    ensures |h.signatures| <= MAX_GUARDIANS ==> n == |h.signatures|
    ensures |h.signatures| > MAX_GUARDIANS ==> n == MAX_GUARDIANS
  {
    if |h.signatures| <= MAX_GUARDIANS then |h.signatures| else MAX_GUARDIANS
  }

  /** The body as the parser sees it, behind the signatures it reads. */
  function BehindSignatures(h: Header, b: Body): Buffer {
    Concat(h.signatures[ReadCount(h)..]) + BodyBytes(b)
  }

  /** What the parser makes of a body and the signatures over it. */
  function ParsedAs(host: Host, h: Header, first: seq<Buffer>, hashed: Buffer, body: Outcome<Body>): Outcome<Parsed>
    requires forall s :: s in first ==> |s| == 66
  {
    var b :- body;
    Ok(Parsed(Message(h.version, h.guardianSetId, |h.signatures|, SplitAll(first), b),
              RecoverKeys(host, host.keccak256(host.keccak256(hashed)), SplitAll(first))))
  }

  lemma SplitConcat(signatures: seq<Buffer>, n: nat)
    requires n <= |signatures|
    ensures Concat(signatures) == Concat(signatures[..n]) + Concat(signatures[n..])
  {
    ConcatAppend(signatures[..n], signatures[n..]);
    assert signatures[..n] + signatures[n..] == signatures;
  }

  lemma HeaderReads(h: Header, b: Body)
    requires h.Writable()
    ensures var bytes := VaaBytes(h, b);
            && ReadUint(Cursor(bytes, 0), 1) == Some(Read(h.version, Cursor(bytes, 1)))
            && ReadUint(Cursor(bytes, 1), 4) == Some(Read(h.guardianSetId, Cursor(bytes, 5)))
            && ReadUint(Cursor(bytes, 5), 1) == Some(Read(|h.signatures|, Cursor(bytes, 6)))
            && Holds(Cursor(bytes, 6), Concat(h.signatures) + BodyBytes(b))
  {
    hide FromUint, ToUint, BodyBytes, Concat;
    var c := Cursor(VaaBytes(h, b), 0);
    var r3 := Concat(h.signatures) + BodyBytes(b);
    var r2 := FromUint(|h.signatures|, 1) + r3;
    var r1 := FromUint(h.guardianSetId, 4) + r2;
    assert Holds(c, FromUint(h.version, 1) + r1);
    hide VaaBytes, Holds, ReadUint;
    ReadsUint(c, h.version, 1, r1);
    ReadsUint(Skip(c, 1), h.guardianSetId, 4, r2);
    ReadsUint(Skip(c, 5), |h.signatures|, 1, r3);
  }

  /** The parser reads up to 19 signatures of a serialized VAA and takes what is behind them for the
      body, signatures left over included: that is what it hashes and parses. */
  lemma HeaderParses(host: Host, h: Header, b: Body)
    requires h.Writable()
    ensures var first := h.signatures[..ReadCount(h)];
            var c := Cursor(VaaBytes(h, b), 6 + 66 * ReadCount(h));
            && Holds(c, BehindSignatures(h, b))
            && ParseVaa(host, VaaBytes(h, b)) == ParsedAs(host, h, first, BehindSignatures(h, b), ReadBody(c))
  {
    hide ReadUint, ReadBody, BodyBytes, RecoverKeys, FoldSignatures, SplitAll, ReadCount, VaaBytes;
    var first := h.signatures[..ReadCount(h)];
    SplitConcat(h.signatures, ReadCount(h));
    hide Concat;
    var tail := BehindSignatures(h, b);
    assert Concat(h.signatures) + BodyBytes(b) == Concat(first) + tail;
    hide BehindSignatures, Holds;
    HeaderReads(h, b);
    var c := Cursor(VaaBytes(h, b), 6);
    FoldReadsSignatures(MAX_GUARDIANS, c, |h.signatures|, [], first, tail);
    assert [] + SplitAll(first) == SplitAll(first);
    RestHeld(Skip(c, 66 * ReadCount(h)), tail);
  }

  lemma RestHeld(c: Cursor, rest: Buffer)
    requires Holds(c, rest)
    ensures ReadRest(c).Some? && ReadRest(c).value.value == rest
  {
  }

  /** Parsing a serialized VAA gives back every field, and the keys are recovered against the hash
      of exactly the serialized body. */
  lemma VaaRoundTrip(host: Host, h: Header, b: Body)
    requires h.InRange() && BodyInRange(b)
    ensures var signatures := SplitAll(h.signatures);
            ParseVaa(host, VaaBytes(h, b))
            == Ok(Parsed(Message(h.version, h.guardianSetId, |h.signatures|, signatures, b),
                         RecoverKeys(host, host.keccak256(host.keccak256(BodyBytes(b))), signatures)))
  {
    hide ReadBody, BodyBytes, RecoverKeys, ParseVaa, VaaBytes, Holds;
    HeaderParses(host, h, b);
    assert h.signatures[..ReadCount(h)] == h.signatures && h.signatures[ReadCount(h)..] == [];
    assert Concat([]) + BodyBytes(b) == BodyBytes(b);
    BodyRoundTrip(Cursor(VaaBytes(h, b), 6 + 66 * |h.signatures|), b);
  }

  /** A serialized VAA of any number of signatures its byte can count comes back exactly when there are
      at most 19. */
  lemma VaaRoundTripIff(host: Host, h: Header, b: Body)
    requires h.Writable() && BodyInRange(b)
    ensures var parsed := ParseVaa(host, VaaBytes(h, b));
            (parsed.Ok? && parsed.value.vaa
                           == Message(h.version, h.guardianSetId, |h.signatures|, SplitAll(h.signatures), b))
            <==> |h.signatures| <= MAX_GUARDIANS
  {
    hide ReadBody, BodyBytes, RecoverKeys, ParseVaa, VaaBytes, SplitAll;
    if |h.signatures| <= MAX_GUARDIANS {
      VaaRoundTrip(host, h, b);
    } else {
      HeaderParses(host, h, b);
    }
  }

  // ---------- truncated input ----------

  /** The signature fold reads as many signatures as it has rounds and announced signatures for, and
      aborts when they run off the buffer. */
  lemma {:induction false} FoldOutcome(rounds: nat, acc: SignatureAcc)
    requires |acc.value| + rounds <= MAX_GUARDIANS
    ensures var k := if rounds <= acc.iter then rounds else acc.iter;
            if acc.next.pos + 66 * k <= |acc.next.bytes| || k == 0 then
              FoldSignatures(rounds, acc).Ok? && FoldSignatures(rounds, acc).value.next == Skip(acc.next, 66 * k)
            else FoldSignatures(rounds, acc) == Abort
  {
    if rounds == 0 {
    } else if acc.iter == 0 {
      FoldStops(rounds, acc.next, acc.value);
    } else {
      hide ToUint;
      var next := ReadSignature(acc);
      if next.Ok? {
        FoldOutcome(rounds - 1, next.value);
      }
    }
  }

  lemma BodyOutcome(c: Cursor)
    requires c.pos <= |c.bytes|
    ensures var left := |c.bytes| - c.pos;
            if left < 4 then ReadBody(c) == Err(1005)
            else if left < 8 then ReadBody(c) == Err(1006)
            else if left < 10 then ReadBody(c) == Err(1007)
            else if left < 42 then ReadBody(c) == Err(1008)
            else if left < 50 then ReadBody(c) == Err(1009)
            else if left < 51 then ReadBody(c) == Err(1010)
            else ReadBody(c).Ok?
  {
    hide ToUint;
  }

  /** How parsing any bytes ends, said of their length and the announced number of signatures alone. */
  lemma ParseVaaOutcome(host: Host, bytes: Buffer)
    ensures |bytes| < 1 ==> ParseVaa(host, bytes) == Err(1001)
    ensures 1 <= |bytes| < 5 ==> ParseVaa(host, bytes) == Err(1002)
    ensures |bytes| == 5 ==> ParseVaa(host, bytes) == Err(1003)
    ensures |bytes| >= 6 ==>
              var n: int := if bytes[5] <= 19 then bytes[5] else 19;
              var left := |bytes| - 6 - 66 * n;
              if left < 0 then ParseVaa(host, bytes) == Abort
              else if left < 4 then ParseVaa(host, bytes) == Err(1005)
              else if left < 8 then ParseVaa(host, bytes) == Err(1006)
              else if left < 10 then ParseVaa(host, bytes) == Err(1007)
              else if left < 42 then ParseVaa(host, bytes) == Err(1008)
              else if left < 50 then ParseVaa(host, bytes) == Err(1009)
              else if left < 51 then ParseVaa(host, bytes) == Err(1010)
              else ParseVaa(host, bytes).Ok?
  {
    hide ToUint, ReadBody, FoldSignatures, RecoverKeys;
    if |bytes| >= 6 {
      assert bytes[5..6] == [bytes[5]];
      OneByte(bytes[5]);
      var c := Cursor(bytes, 6);
      FoldOutcome(MAX_GUARDIANS, SignatureAcc(c, bytes[5], []));
      var n: int := if bytes[5] <= 19 then bytes[5] else 19;
      if 6 + 66 * n <= |bytes| {
        BodyOutcome(Skip(c, 66 * n));
      }
    }
  }
}

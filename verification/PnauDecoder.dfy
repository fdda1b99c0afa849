/** The accumulator-update decoder: a PNAU message carries a VAA whose payload commits to a Merkle
    root, and price records proved against that root. */
module PnauDecoder {
  import opened Bytes
  import opened Clarity
  import opened StrideScan
  import opened PriceMessage
  import opened Merkle
  import opened PriceRecords
  import opened Vaa

  const ERR_MAGIC_BYTES: nat := 2001
  const ERR_VERSION_MAJ: nat := 2002
  const ERR_VERSION_MIN: nat := 2003
  const ERR_HEADER_TRAILING_SIZE: nat := 2004
  const ERR_PROOF_TYPE: nat := 2005
  const ERR_INVALID_AUWV: nat := 2007
  const MERKLE_ROOT_MISMATCH: nat := 2008
  const ERR_UNAUTHORIZED_PRICE_UPDATE: nat := 2401

  const PNAU_MAGIC: Buffer := [0x50, 0x4e, 0x41, 0x55]
  const AUWV_MAGIC: Buffer := [0x41, 0x55, 0x57, 0x56]

  // ---------- parsing ----------

  /** parse-pnau-header, up to the cursor behind the header. */
  function ParseHeader(bytes: Buffer): Outcome<Cursor> {
    var magic :- ReadBuff(Cursor(bytes, 0), 4).OrErr(ERR_MAGIC_BYTES);
    var versionMaj :- ReadUint(magic.next, 1).OrErr(ERR_VERSION_MAJ);
    var versionMin :- ReadUint(versionMaj.next, 1).OrErr(ERR_VERSION_MIN);
    var trailing :- ReadUint(versionMin.next, 1).OrErr(ERR_HEADER_TRAILING_SIZE);
    var proofType :- ReadUint(Skip(trailing.next, trailing.value), 1).OrErr(ERR_PROOF_TYPE);
    :- Require(magic.value == PNAU_MAGIC, ERR_MAGIC_BYTES);
    :- Require(versionMaj.value == 1, ERR_VERSION_MAJ);
    :- Require(versionMin.value == 0, ERR_VERSION_MIN);
    :- Require(proofType.value == 0, ERR_PROOF_TYPE);
    Ok(proofType.next)
  }

  datatype PnauParts = PnauParts(vaa: Buffer, updates: Buffer)

  /** The VAA bytes of a message and the bytes behind them. */
  function ParsePnau(bytes: Buffer): Outcome<PnauParts> {
    var header :- ParseHeader(bytes);
    var size :- ReadUint(header, 2).OrErr(ERR_CURSOR);
    var vaa :- ReadBuff(size.next, size.value).OrErr(ERR_CURSOR);
    Ok(PnauParts(vaa.value, SliceRest(vaa.next)))
  }

  datatype MerkleRootData = MerkleRootData(slot: nat, ringSize: nat, hash: Hash160)

  /** parse-merkle-root-data-from-vaa-payload */
  function ParseMerkleRoot(payload: Buffer): Outcome<MerkleRootData> {
    var payloadType :- ReadBuff(Cursor(payload, 0), 4).OrErr(ERR_INVALID_AUWV);
    var updateType :- ReadUint(payloadType.next, 1).OrErr(ERR_INVALID_AUWV);
    var slot :- ReadUint(updateType.next, 8).OrErr(ERR_INVALID_AUWV);
    var ringSize :- ReadUint(slot.next, 4).OrErr(ERR_INVALID_AUWV);
    var hash :- ReadBuff(ringSize.next, 20).OrErr(ERR_INVALID_AUWV);
    :- Require(payloadType.value == AUWV_MAGIC, ERR_MAGIC_BYTES);
    :- Require(updateType.value == 0, ERR_PROOF_TYPE);
    Ok(MerkleRootData(slot.value, ringSize.value, hash.value))
  }

  /** parse-and-verify-prices-updates */
  function ParseAndVerifyUpdates(keccak: Keccak, bytes: Buffer, root: Hash160): Outcome<seq<DecodedUpdate>> {
    var count :- ReadUint(Cursor(bytes, 0), 1).OrErr(ERR_CURSOR);
    var updates :- ParseRecords(SliceRest(count.next), count.value);
    :- Require(forall u :: u in updates ==> CheckProof(keccak, root, u.leafBytes, u.proof), MERKLE_ROOT_MISMATCH);
    Ok(updates)
  }

  /** cast-decoded-price, mapped. */
  function Cast(decoded: seq<DecodedUpdate>): (updates: seq<PriceUpdate>)
    ensures |updates| == |decoded|
  {
    seq(|decoded|, i requires 0 <= i < |decoded| => decoded[i].update)
  }

  type Verifier = Buffer -> Outcome<Message>

  /** decode-pnau-price-update; verify is the wormhole contract the caller passed. */
  function DecodePnau(keccak: Keccak, verify: Verifier, sources: seq<Emitter>, bytes: Buffer)
      : Outcome<seq<PriceUpdate>>
  {
    var parts :- ParsePnau(bytes);
    var vaa :- verify(parts.vaa);
    var root :- ParseMerkleRoot(vaa.body.payload);
    var decoded :- ParseAndVerifyUpdates(keccak, parts.updates, root.hash);
    :- Require(vaa.Source() in sources, ERR_UNAUTHORIZED_PRICE_UPDATE);
    Ok(Cast(decoded))
  }

  // ---------- what every input comes to ----------

  lemma ByteAt(bytes: Buffer, i: nat)
    requires i < |bytes|
    ensures ReadUint(Cursor(bytes, i), 1) == Some(Read(bytes[i], Cursor(bytes, i + 1)))
  {
    assert bytes[i..i + 1] == [bytes[i]];
    OneByte(bytes[i]);
  }

  /** How the header of any bytes is answered: by its length, then by its fields in order. */
  lemma HeaderOutcome(bytes: Buffer)
    ensures |bytes| < 4 ==> ParseHeader(bytes) == Err(2001)
    ensures |bytes| == 4 ==> ParseHeader(bytes) == Err(2002)
    ensures |bytes| == 5 ==> ParseHeader(bytes) == Err(2003)
    ensures |bytes| == 6 ==> ParseHeader(bytes) == Err(2004)
    ensures |bytes| >= 7 ==>
              var p: int := 7 + bytes[6] as int;
              ParseHeader(bytes)
              == if |bytes| <= p then Err(2005)
                 else if bytes[..4] != [0x50, 0x4e, 0x41, 0x55] then Err(2001)
                 else if bytes[4] != 1 then Err(2002)
                 else if bytes[5] != 0 then Err(2003)
                 else if bytes[p] != 0 then Err(2005)
                 else Ok(Cursor(bytes, p + 1))
  {
    hide ToUint;
    forall i: nat | i < |bytes|
      ensures ReadUint(Cursor(bytes, i), 1) == Some(Read(bytes[i], Cursor(bytes, i + 1)))
    {
      ByteAt(bytes, i);
    }
  }

  /** Behind an accepted header: the announced number of VAA bytes, and everything behind them. */
  lemma PartsOutcome(bytes: Buffer)
    requires ParseHeader(bytes).Ok?
    ensures var p := ParseHeader(bytes).value.pos;
            ParsePnau(bytes)
            == if p + 2 > |bytes| || p + 2 + ToUint(bytes[p..p + 2]) > |bytes| then Err(1)
               else
                 var end := p + 2 + ToUint(bytes[p..p + 2]);
                 Ok(PnauParts(bytes[p + 2..end], bytes[end..]))
  {
    HeaderOutcome(bytes);
    hide ParseHeader, ToUint;
  }

  /** How any payload is answered. */
  lemma MerkleRootOutcome(payload: Buffer)
    ensures ParseMerkleRoot(payload)
            == if |payload| < 37 then Err(2007)
               else if payload[..4] != [0x41, 0x55, 0x57, 0x56] then Err(2001)
               else if payload[4] != 0 then Err(2005)
               else Ok(MerkleRootData(ToUint(payload[5..13]), ToUint(payload[13..17]), payload[17..37]))
  {
    hide ToUint;
    if |payload| >= 37 {
      ByteAt(payload, 4);
    }
  }

  /** The order of the checks behind a verified VAA with a root: the records must parse, each must prove
      itself against the root, then the source must be authorised. */
  lemma DecodeOutcome(keccak: Keccak, verify: Verifier, sources: seq<Emitter>, bytes: Buffer)
    requires ParsePnau(bytes).Ok? && verify(ParsePnau(bytes).value.vaa).Ok?
    requires ParseMerkleRoot(verify(ParsePnau(bytes).value.vaa).value.body.payload).Ok?
    ensures var updates, vaa := ParsePnau(bytes).value.updates, verify(ParsePnau(bytes).value.vaa).value;
            var root := ParseMerkleRoot(vaa.body.payload).value.hash;
            DecodePnau(keccak, verify, sources, bytes)
            == if updates == [] then Err(1)
               else
                 match ParseRecords(updates[1..], updates[0])
                 case Err(code) => Err(code)
                 case Abort => Abort
                 case Ok(decoded) =>
                   if exists d :: d in decoded && !CheckProof(keccak, root, d.leafBytes, d.proof) then Err(2008)
                   else if Emitter(vaa.body.emitterChain, vaa.body.emitterAddress) !in sources then Err(2401)
                   else Ok(Cast(decoded))
  {
    hide ParsePnau, ParseMerkleRoot, ParseRecords, CheckProof;
    var updates := ParsePnau(bytes).value.updates;
    if updates != [] {
      ByteAt(updates, 0);
    }
  }

  // ---------- soundness ----------

  /** Among the records the message announces, one starts at i and reads as d. */
  ghost predicate Carries(bytes: Buffer, i: nat, d: DecodedUpdate) {
    var parts := ParsePnau(bytes);
    && parts.Ok?
    && var count := ReadUint(Cursor(parts.value.updates, 0), 1);
       && count.Some?
       && var body := SliceRest(count.value.next);
          && StopsAt(RecordReader(body), count.value.value, |body|, 0, i)
          && ReadRecord(body, i).Ok? && ReadRecord(body, i).value.value == d
  }

  /** The message carries this record, and a VAA that verifies, from an authorised source, whose
      payload commits to a root against which the record's own leaf and proof check. */
  ghost predicate Attests(keccak: Keccak, verify: Verifier, sources: seq<Emitter>, bytes: Buffer,
                          i: nat, d: DecodedUpdate)
  {
    && Carries(bytes, i, d)
    && var vaa := verify(ParsePnau(bytes).value.vaa);
       && vaa.Ok? && vaa.value.Source() in sources
       && var root := ParseMerkleRoot(vaa.value.body.payload);
          root.Ok? && CheckProof(keccak, root.value.hash, d.leafBytes, d.proof)
  }

  /** The fields of the record are those of its leaf, when the leaf is a whole message. */
  ghost predicate FieldsFromLeaf(d: DecodedUpdate) {
    |d.leafBytes| >= MESSAGE_SIZE ==> d.leafBytes[0] == 0 && d.update == FieldsOf(d.leafBytes[1..MESSAGE_SIZE])
  }

  /** The update is that of a record the message carries and proves. */
  ghost predicate Certified(keccak: Keccak, verify: Verifier, sources: seq<Emitter>, bytes: Buffer,
                            update: PriceUpdate)
  {
    exists i: nat, d :: Attests(keccak, verify, sources, bytes, i, d) && d.update == update && FieldsFromLeaf(d)
  }

  lemma ParsedUpdateIsRecord(bytes: Buffer, count: nat, k: nat) returns (i: nat)
    requires ParseRecords(bytes, count).Ok? && k < |ParseRecords(bytes, count).value|
    ensures StopsAt(RecordReader(bytes), count, |bytes|, 0, i)
    ensures ReadRecord(bytes, i).Ok? && ReadRecord(bytes, i).value.value == ParseRecords(bytes, count).value[k]
  {
    hide ReadRecord;
    RecordScanRefines(bytes, count);
    i := RecordsAreRead(RecordReader(bytes), count, MAX_UPDATES, |bytes|, 0, k);
    assert RecordReader(bytes)(i) == ReadRecord(bytes, i);
  }

  /** Whatever the decoder returns is certified by a record of the message it was given. */
  lemma DecodeCertifies(keccak: Keccak, verify: Verifier, sources: seq<Emitter>, bytes: Buffer, k: nat)
    requires DecodePnau(keccak, verify, sources, bytes).Ok?
    requires k < |DecodePnau(keccak, verify, sources, bytes).value|
    ensures Certified(keccak, verify, sources, bytes, DecodePnau(keccak, verify, sources, bytes).value[k])
  {
    hide ParsePnau, ParseMerkleRoot, ReadRecord, FieldsOf, ParseRecords, StopsAt;
    var parts := ParsePnau(bytes).value;
    var root := ParseMerkleRoot(verify(parts.vaa).value.body.payload).value.hash;
    var decoded := ParseAndVerifyUpdates(keccak, parts.updates, root).value;
    var count := ReadUint(Cursor(parts.updates, 0), 1).value;
    var i := ParsedUpdateIsRecord(SliceRest(count.next), count.value, k);
    var d := decoded[k];
    if |d.leafBytes| >= MESSAGE_SIZE {
      LeafFixesFields(SliceRest(count.next), i, d.leafBytes, d.update);
    }
    assert Attests(keccak, verify, sources, bytes, i, d);
  }

  /** Against the root of a batch, only leaf bytes of the batch are returned, or keccak160 collides
      on strings that were hashed on the way. */
  lemma OnlyCommittedLeaves(keccak: Keccak, leaves: seq<Buffer>, bytes: Buffer, k: nat)
    requires |leaves| > 0
    requires var r := ParseAndVerifyUpdates(keccak, bytes, Root(keccak, HashLeaves(keccak, leaves)));
             r.Ok? && k < |r.value|
    ensures var d := ParseAndVerifyUpdates(keccak, bytes, Root(keccak, HashLeaves(keccak, leaves))).value[k];
            d.leafBytes in leaves || !CollisionFree(keccak, HashedStrings(keccak, leaves, d.leafBytes, d.proof))
  {
    hide ParseRecords, HashedStrings, CollisionFree;
    var d := ParseAndVerifyUpdates(keccak, bytes, Root(keccak, HashLeaves(keccak, leaves))).value[k];
    Soundness(keccak, leaves, d.leafBytes, d.proof);
  }

  lemma DecodedAtMost64(keccak: Keccak, verify: Verifier, sources: seq<Emitter>, bytes: Buffer)
    requires DecodePnau(keccak, verify, sources, bytes).Ok?
    ensures |DecodePnau(keccak, verify, sources, bytes).value| <= MAX_UPDATES
  {
    hide ParsePnau, ParseMerkleRoot, ReadRecord;
    var parts := ParsePnau(bytes).value;
    var count := ReadUint(Cursor(parts.updates, 0), 1).value;
    var body := SliceRest(count.next);
    RecordScanRefines(body, count.value);
    RecordsCapped(RecordReader(body), count.value, MAX_UPDATES, |body|, 0);
  }
}

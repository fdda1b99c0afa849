/** The test helpers that build accumulator updates, and the round trip through the decoder. */
module PnauSerializer {
  import opened Bytes
  import opened Clarity
  import opened StrideScan
  import opened PriceMessage
  import opened Merkle
  import opened PriceRecords
  import opened Vaa
  import opened PnauDecoder

  /** One position of a batch. The helper selects the updates to submit by the identity of the
      price identifier object; ref stands for that identity. */
  datatype BatchItem = BatchItem(ref: nat, decoded: PriceUpdate, serialized: Buffer, proof: seq<Hash160>) {
    function Entry(): BatchEntry {
      BatchEntry(serialized, proof)
    }
  }

  function Serialized(batch: seq<BatchItem>): (leaves: seq<Buffer>)
    ensures |leaves| == |batch|
  {
    seq(|batch|, i requires 0 <= i < |batch| => batch[i].serialized)
  }

  /** Every message serialized, every proof built for its position. */
  ghost predicate WellBuilt(keccak: Keccak, batch: seq<BatchItem>) {
    forall i :: 0 <= i < |batch| ==>
      && batch[i].decoded.InRange()
      && batch[i].serialized == LeafBytes(batch[i].decoded)
      && batch[i].proof == ProofPath(keccak, HashLeaves(keccak, Serialized(batch)), i)
  }

  /** buildPriceUpdateBatch */
  method BuildBatch(keccak: Keccak, refs: seq<nat>, updates: seq<PriceUpdate>) returns (batch: seq<BatchItem>)
    requires |refs| == |updates| && forall u :: u in updates ==> u.InRange()
    ensures |batch| == |updates| && WellBuilt(keccak, batch)
    ensures forall i :: 0 <= i < |batch| ==> batch[i].decoded == updates[i] && batch[i].ref == refs[i]
  {
    hide FieldBytes, ProofPath;
    var serialized: seq<Buffer>, hashed: seq<Hash160> := [], [];
    var i := 0;
    while i < |updates|
      invariant i <= |updates| && |serialized| == |hashed| == i
      invariant forall j :: 0 <= j < i ==> serialized[j] == LeafBytes(updates[j])
      invariant hashed == HashLeaves(keccak, serialized)
    {
      var s := LeafBytes(updates[i]);
      serialized := serialized + [s];
      hashed := hashed + [HashLeaf(keccak, s)];
      i := i + 1;
    }
    batch := [];
    i := 0;
    while i < |updates|
      invariant i <= |updates| && |batch| == i
      invariant forall j :: 0 <= j < i ==>
        batch[j] == BatchItem(refs[j], updates[j], serialized[j], ProofPath(keccak, hashed, j))
    {
      var proof := ComputeMerkleProof(keccak, hashed, i);
      batch := batch + [BatchItem(refs[i], updates[i], serialized[i], proof)];
      i := i + 1;
    }
    assert Serialized(batch) == serialized;
  }

  /** The items whose identifier is among those to submit, in batch order. */
  function Submitted(batch: seq<BatchItem>, submit: seq<nat>): seq<BatchItem> {
    if batch == [] then []
    else if batch[0].ref in submit then [batch[0]] + Submitted(batch[1..], submit)
    else Submitted(batch[1..], submit)
  }

  lemma {:induction false} SubmittedAppend(batch: seq<BatchItem>, item: BatchItem, submit: seq<nat>)
    ensures Submitted(batch + [item], submit)
            == Submitted(batch, submit) + (if item.ref in submit then [item] else [])
  {
    if batch == [] {
    } else {
      SubmittedAppend(batch[1..], item, submit);
      assert (batch + [item])[1..] == batch[1..] + [item];
    }
  }

  function Entries(items: seq<BatchItem>): (entries: seq<BatchEntry>)
    ensures |entries| == |items|
  {
    seq(|items|, i requires 0 <= i < |items| => items[i].Entry())
  }

  function Updates(items: seq<BatchItem>): (updates: seq<PriceUpdate>)
    ensures |updates| == |items|
  {
    seq(|items|, i requires 0 <= i < |items| => items[i].decoded)
  }

  datatype PnauHeader = PnauHeader(magic: Buffer, versionMaj: nat, versionMin: nat, trailingSize: nat, proofType: nat)

  /** The message up to and including the update count. */
  function PnauPrefix(h: PnauHeader, vaa: Buffer, count: nat, rest: Buffer): Buffer {
    h.magic + (FromUint(h.versionMaj, 1) + (FromUint(h.versionMin, 1) + (FromUint(h.trailingSize, 1)
    + (FromUint(h.proofType, 1) + (FromUint(|vaa|, 2) + (vaa + (FromUint(count, 1) + rest)))))))
  }

  function PnauBytes(h: PnauHeader, vaa: Buffer, count: nat, entries: seq<BatchEntry>): Buffer {
    PnauPrefix(h, vaa, count, RecordsBytes(entries))
  }

  /** Writing a number into fewer bytes than it needs throws. */
  predicate Writable(h: PnauHeader, vaa: Buffer, submit: seq<nat>) {
    && h.versionMaj < 256 && h.versionMin < 256 && h.trailingSize < 256 && h.proofType < 256
    && |vaa| < 65536 && |submit| < 256
  }

  predicate WritableEntry(e: BatchEntry) {
    |e.leaf| < 65536 && |e.proof| < 256
  }

  lemma ConcatEight(p: seq<Buffer>, tail: Buffer)
    requires |p| == 8
    ensures Concat(p) + tail == p[0] + (p[1] + (p[2] + (p[3] + (p[4] + (p[5] + (p[6] + (p[7] + tail)))))))
  {
    assert Concat(p[7..]) == p[7];
    assert Concat(p[6..]) == p[6] + Concat(p[7..]);
    assert Concat(p[5..]) == p[5] + Concat(p[6..]);
    assert Concat(p[4..]) == p[4] + Concat(p[5..]);
    assert Concat(p[3..]) == p[3] + Concat(p[4..]);
    assert Concat(p[2..]) == p[2] + Concat(p[3..]);
    assert Concat(p[1..]) == p[1] + Concat(p[2..]);
  }

  lemma {:induction false} RecordsBytesAppend(entries: seq<BatchEntry>, e: BatchEntry)
    ensures RecordsBytes(entries + [e]) == RecordsBytes(entries) + e.Record()
  {
    hide FromUint, Concat;
    if entries == [] {
      assert RecordsBytes([e]) == e.Record() + RecordsBytes([]);
    } else {
      RecordsBytesAppend(entries[1..], e);
      assert (entries + [e])[1..] == entries[1..] + [e];
    }
  }

  /** The parts pushed before the records. */
  function HeaderParts(h: PnauHeader, vaa: Buffer, count: nat): (parts: seq<Buffer>)
    ensures |parts| == 8
  {
    [h.magic, FromUint(h.versionMaj, 1), FromUint(h.versionMin, 1), FromUint(h.trailingSize, 1),
     FromUint(h.proofType, 1), FromUint(|vaa|, 2), vaa, FromUint(count, 1)]
  }

  lemma Assembled(h: PnauHeader, vaa: Buffer, count: nat, records: seq<Buffer>)
    ensures Concat(HeaderParts(h, vaa, count) + records) == PnauPrefix(h, vaa, count, Concat(records))
  {
    hide FromUint, Concat;
    ConcatAppend(HeaderParts(h, vaa, count), records);
    ConcatEight(HeaderParts(h, vaa, count), Concat(records));
  }

  lemma EntriesStep(batch: seq<BatchItem>, i: nat, submit: seq<nat>)
    requires i < |batch|
    ensures Entries(Submitted(batch[..i + 1], submit))
            == Entries(Submitted(batch[..i], submit)) + (if batch[i].ref in submit then [batch[i].Entry()] else [])
  {
    hide Submitted;
    assert batch[..i + 1] == batch[..i] + [batch[i]];
    SubmittedAppend(batch[..i], batch[i], submit);
  }

  lemma ConcatLast(parts: seq<Buffer>, part: Buffer)
    ensures Concat(parts + [part]) == Concat(parts) + part
  {
    ConcatAppend(parts, [part]);
    assert [part][1..] == [];
  }

  /** serializePnauToBuffer : the count is the number of identifiers to submit, the records are those
      of the batch that match one of them. */
  method SerializePnau(h: PnauHeader, vaa: Buffer, batch: seq<BatchItem>, submit: seq<nat>)
      returns (out: Outcome<Buffer>)
    ensures out.Ok? <==>
              && h.versionMaj < 256 && h.versionMin < 256 && h.trailingSize < 256 && h.proofType < 256
              && |vaa| < 65536 && |submit| < 256
              && forall e :: e in Entries(Submitted(batch, submit)) ==> |e.leaf| < 65536 && |e.proof| < 256
    ensures out.Ok? ==> out.value == PnauBytes(h, vaa, |submit|, Entries(Submitted(batch, submit)))
  {
    hide FromUint, HeaderParts;
    if !Writable(h, vaa, submit) {
      return Abort;
    }
    hide PnauPrefix;
    var components := HeaderParts(h, vaa, |submit|);
    ghost var head := components;
    ghost var records: seq<Buffer> := [];
    ghost var chosen: seq<BatchEntry> := [];
    var i := 0;
    while i < |batch|
      invariant i <= |batch|
      invariant components == head + records
      invariant chosen == Entries(Submitted(batch[..i], submit))
      invariant Concat(records) == RecordsBytes(chosen)
      invariant forall e :: e in chosen ==> WritableEntry(e)
    {
      hide Submitted, Entries, RecordsBytes, BatchEntry.Record;
      EntriesStep(batch, i, submit);
      if batch[i].ref in submit {
        var e := batch[i].Entry();
        if !WritableEntry(e) {
          SubmittedKeeps(batch, i, submit);
          return Abort;
        }
        components := components + [e.Record()];
        ConcatLast(records, e.Record());
        RecordsBytesAppend(chosen, e);
        records := records + [e.Record()];
        assert forall x :: x in chosen + [e] ==> x in chosen || x == e;
        chosen := chosen + [e];
      }
      i := i + 1;
    }
    assert batch[..i] == batch;
    hide Submitted, RecordsBytes, Entries, PnauPrefix, Concat;
    Assembled(h, vaa, |submit|, records);
    out := Ok(Concat(components));
  }

  lemma {:induction false} SubmittedKeeps(batch: seq<BatchItem>, i: nat, submit: seq<nat>)
    requires i < |batch| && batch[i].ref in submit
    ensures batch[i].Entry() in Entries(Submitted(batch, submit))
  {
    if i > 0 {
      SubmittedKeeps(batch[1..], i - 1, submit);
      var tail := Entries(Submitted(batch[1..], submit));
      var k :| 0 <= k < |tail| && tail[k] == batch[i].Entry();
      var all := Entries(Submitted(batch, submit));
      assert all[if batch[0].ref in submit then k + 1 else k] == tail[k];
    } else {
      assert Entries(Submitted(batch, submit))[0] == batch[0].Entry();
    }
  }

  // ---------- the VAA payload ----------

  /** serializeAuwvVaaPayloadToBuffer : the ring size goes into the first two of its four bytes. */
  function AuwvBytes(payloadType: Buffer, updateType: nat, slot: nat, ringSize: nat, root: Hash160): Buffer {
    payloadType + (FromUint(updateType, 1) + (FromUint(slot, 8) + (FromUint(ringSize, 2) + [0, 0] + root)))
  }

  lemma RingSizeField(ringSize: nat)
    requires ringSize < 65536
    ensures FromUint(ringSize, 2) + [0, 0] == FromUint(65536 * ringSize, 4)
    ensures 65536 * ringSize < Pow256(4)
  {
    hide FromUint;
    FromUintAppend(256 * ringSize, 0, 3);
    FromUintAppend(ringSize, 0, 2);
    assert FromUint(ringSize, 2) + [0, 0] == FromUint(ringSize, 2) + [0] + [0];
    assert Pow256(4) == 256 * (256 * (256 * (256 * 1)));
  }

  /** The decoder takes back slot and root of a payload; the ring size it reads is 65536 times the
      one that was written, so that field survives only when it is 0. */
  lemma AuwvRoundTrip(payloadType: Buffer, updateType: nat, slot: nat, ringSize: nat, root: Hash160)
    requires |payloadType| == 4 && updateType < 256 && slot < Pow256(8) && ringSize < 65536
    ensures ParseMerkleRoot(AuwvBytes(payloadType, updateType, slot, ringSize, root))
            == if payloadType != AUWV_MAGIC then Err(ERR_MAGIC_BYTES)
               else if updateType != 0 then Err(ERR_PROOF_TYPE)
               else Ok(MerkleRootData(slot, 65536 * ringSize, root))
    ensures 65536 * ringSize == ringSize <==> ringSize == 0
  {
    hide FromUint, ToUint;
    RingSizeField(ringSize);
    assert Pow256(1) == 256;
    var c := Cursor(AuwvBytes(payloadType, updateType, slot, ringSize, root), 0);
    var r3 := FromUint(65536 * ringSize, 4) + root;
    var r2 := FromUint(slot, 8) + r3;
    var r1 := FromUint(updateType, 1) + r2;
    assert root + [] == root;
    ReadsBuff(c, payloadType, r1);
    ReadsUint(Skip(c, 4), updateType, 1, r2);
    ReadsUint(Skip(c, 5), slot, 8, r3);
    ReadsUint(Skip(c, 13), 65536 * ringSize, 4, root);
    ReadsBuff(Skip(c, 17), root, []);
  }

  // ---------- round trip of the whole message ----------

  /** The header values the decoder accepts. */
  const GOOD_HEADER: PnauHeader := PnauHeader(PNAU_MAGIC, 1, 0, 0, 0)

  /** Without trailing bytes the VAA and the bytes behind it come back, or the error of the first
      header check that fails. */
  lemma PnauRoundTrip(h: PnauHeader, vaa: Buffer, count: nat, rest: Buffer)
    requires InRange(h) && h.trailingSize == 0 && |vaa| < 65536 && count < 256
    ensures ParsePnau(PnauPrefix(h, vaa, count, rest))
            == if h.magic != PNAU_MAGIC then Err(ERR_MAGIC_BYTES)
               else if h.versionMaj != 1 then Err(ERR_VERSION_MAJ)
               else if h.versionMin != 0 then Err(ERR_VERSION_MIN)
               else if h.proofType != 0 then Err(ERR_PROOF_TYPE)
               else Ok(PnauParts(vaa, FromUint(count, 1) + rest))
  {
    hide FromUint, ToUint;
    assert Pow256(1) == 256 && Pow256(2) == 65536;
    var c := Cursor(PnauPrefix(h, vaa, count, rest), 0);
    var r6 := FromUint(count, 1) + rest;
    var r5 := vaa + r6;
    var r4 := FromUint(|vaa|, 2) + r5;
    var r3 := FromUint(h.proofType, 1) + r4;
    var r2 := FromUint(h.trailingSize, 1) + r3;
    var r1 := FromUint(h.versionMin, 1) + r2;
    var r0 := FromUint(h.versionMaj, 1) + r1;
    ReadsBuff(c, h.magic, r0);
    ReadsUint(Skip(c, 4), h.versionMaj, 1, r1);
    ReadsUint(Skip(c, 5), h.versionMin, 1, r2);
    ReadsUint(Skip(c, 6), h.trailingSize, 1, r3);
    ReadsUint(Skip(c, 7), h.proofType, 1, r4);
    ReadsUint(Skip(c, 8), |vaa|, 2, r5);
    ReadsBuff(Skip(c, 10), vaa, r6);
  }

  predicate InRange(h: PnauHeader) {
    |h.magic| == 4 && h.versionMaj < 256 && h.versionMin < 256 && h.trailingSize < 256 && h.proofType < 256
  }

  /** Whatever parses fills the message: header, announced trailing bytes, VAA and updates. */
  lemma ParsedPartsFill(bytes: Buffer)
    requires ParsePnau(bytes).Ok?
    ensures |bytes| > 6
    ensures var parts := ParsePnau(bytes).value;
            8 + bytes[6] + 2 + |parts.vaa| + |parts.updates| == |bytes|
  {
    hide ToUint;
    OneByte(bytes[6]);
    assert bytes[6..7] == [bytes[6]];
  }

  lemma TrailingByte(h: PnauHeader, vaa: Buffer, count: nat, rest: Buffer)
    requires InRange(h)
    ensures var bytes := PnauPrefix(h, vaa, count, rest);
            |bytes| == 11 + |vaa| + |rest| && bytes[6] == h.trailingSize
  {
    var one := FromUint(h.trailingSize, 1);
    assert one == [h.trailingSize];
    hide FromUint;
    var tail := FromUint(h.proofType, 1) + (FromUint(|vaa|, 2) + (vaa + (FromUint(count, 1) + rest)));
    var head := h.magic + FromUint(h.versionMaj, 1) + FromUint(h.versionMin, 1);
    assert PnauPrefix(h, vaa, count, rest) == head + (one + tail);
  }

  /** A message comes back exactly when its header is the accepted one. The helper announces trailing
      bytes without emitting any, so a trailing size other than 0 never survives. */
  lemma PnauRoundTripsIff(h: PnauHeader, vaa: Buffer, count: nat, rest: Buffer)
    requires InRange(h) && |vaa| < 65536 && count < 256
    ensures ParsePnau(PnauPrefix(h, vaa, count, rest)) == Ok(PnauParts(vaa, FromUint(count, 1) + rest))
            <==> h == GOOD_HEADER
  {
    hide ParsePnau, PnauPrefix, FromUint;
    if h.trailingSize == 0 {
      PnauRoundTrip(h, vaa, count, rest);
    } else if ParsePnau(PnauPrefix(h, vaa, count, rest)).Ok? {
      ParsedPartsFill(PnauPrefix(h, vaa, count, rest));
      TrailingByte(h, vaa, count, rest);
    }
  }

  lemma LeafDecodes(u: PriceUpdate)
    requires u.InRange()
    ensures FieldsOf(LeafBytes(u)[1..MESSAGE_SIZE]) == u
  {
    var c := Cursor(FieldBytes(u), 0);
    assert FieldBytes(u) + [] == FieldBytes(u) == LeafBytes(u)[1..MESSAGE_SIZE];
    FieldsRoundTrip(c, u, []);
    FieldsAreAWindow(c, FieldBytes(u));
  }

  /** An item of a well-built batch with its position in it. */
  lemma {:induction false} SubmittedComeFrom(batch: seq<BatchItem>, submit: seq<nat>, k: nat) returns (i: nat)
    requires k < |Submitted(batch, submit)|
    ensures i < |batch| && Submitted(batch, submit)[k] == batch[i]
  {
    if batch[0].ref in submit {
      if k == 0 {
        i := 0;
      } else {
        i := SubmittedComeFrom(batch[1..], submit, k - 1);
        i := i + 1;
      }
    } else {
      i := SubmittedComeFrom(batch[1..], submit, k);
      i := i + 1;
    }
  }

  /** What each submitted item decodes to, and that it checks against the root of the batch. */
  lemma SubmittedDecode(keccak: Keccak, batch: seq<BatchItem>, submit: seq<nat>, k: nat)
    requires WellBuilt(keccak, batch) && Height(|batch|) <= MAX_PROOF
    requires k < |Submitted(batch, submit)|
    ensures var item := Submitted(batch, submit)[k];
            && item.Entry().Decodable()
            && item.Entry().Decoded() == DecodedUpdate(item.decoded, item.proof, item.serialized)
            && CheckProof(keccak, Root(keccak, HashLeaves(keccak, Serialized(batch))), item.serialized, item.proof)
  {
    hide FieldsOf, FieldBytes, ProofPath, Root, CheckProof;
    var i := SubmittedComeFrom(batch, submit, k);
    LeafDecodes(batch[i].decoded);
    Completeness(keccak, Serialized(batch), i);
  }

  /** End to end: for every well-built batch of any size and every choice of updates to submit, the
      serialized message of a VAA that verifies, comes from an authorised source and commits to the
      root of the batch, decodes to exactly the chosen updates in batch order. When fewer records
      are emitted than announced all of them come back, when more are only the announced number. */
  lemma EndToEnd(keccak: Keccak, verify: Verifier, sources: seq<Emitter>, batch: seq<BatchItem>, submit: seq<nat>,
                 vaa: Buffer, slot: nat, ringSize: nat)
    requires |batch| > 0 && WellBuilt(keccak, batch) && Height(|batch|) <= MAX_PROOF
    requires |vaa| < 65536 && |submit| < 256 && slot < Pow256(8) && ringSize < 65536
    requires verify(vaa).Ok? && verify(vaa).value.Source() in sources
    requires verify(vaa).value.body.payload
             == AuwvBytes(AUWV_MAGIC, 0, slot, ringSize, Root(keccak, HashLeaves(keccak, Serialized(batch))))
    ensures var chosen := Submitted(batch, submit);
            DecodePnau(keccak, verify, sources, PnauBytes(GOOD_HEADER, vaa, |submit|, Entries(chosen)))
            == if Min(|submit|, |chosen|) <= MAX_UPDATES then Ok(Updates(chosen)[..Min(|submit|, |chosen|)])
               else Abort
  {
    hide ParsePnau, ParseMerkleRoot, FromUint, ToUint, FieldsOf, FieldBytes, AuwvBytes, ParseRecords, RecordsBytes,
         CheckProof, Root, ProofPath, PnauPrefix;
    var chosen := Submitted(batch, submit);
    var entries := Entries(chosen);
    var root := Root(keccak, HashLeaves(keccak, Serialized(batch)));
    var n := Min(|submit|, |chosen|);
    forall k | 0 <= k < |chosen|
      ensures entries[k].Decodable()
      ensures entries[k].Decoded() == DecodedUpdate(chosen[k].decoded, chosen[k].proof, chosen[k].serialized)
      ensures CheckProof(keccak, root, chosen[k].serialized, chosen[k].proof)
    {
      SubmittedDecode(keccak, batch, submit, k);
    }
    PnauRoundTrip(GOOD_HEADER, vaa, |submit|, RecordsBytes(entries));
    AuwvRoundTrip(AUWV_MAGIC, 0, slot, ringSize, root);
    CountIsRead(|submit|, RecordsBytes(entries));
    RecordsRoundTrip(entries, |submit|);
    if n <= MAX_UPDATES {
      var decoded := DecodedAll(entries)[..n];
      assert ParseAndVerifyUpdates(keccak, FromUint(|submit|, 1) + RecordsBytes(entries), root) == Ok(decoded);
      assert Cast(decoded) == Updates(chosen)[..n];
    }
  }

  /** A count of one is one record. */
  lemma SingleRecord(bytes: Buffer)
    requires bytes != [] && ReadRecord(bytes, 0).Ok?
    ensures ParseRecords(bytes, 1) == Ok([ReadRecord(bytes, 0).value.value])
  {
    hide ReadRecord;
    RecordScanRefines(bytes, 1);
    var read := RecordReader(bytes);
    assert read(0) == ReadRecord(bytes, 0);
    assert Records(read, 0, MAX_UPDATES - 1, |bytes|, 0 + read(0).value.stride) == Ok([]);
    assert [read(0).value.value] + [] == [read(0).value.value];
  }

  lemma SingleLeafChecks(keccak: Keccak, leaf: Buffer)
    ensures CheckProof(keccak, Root(keccak, HashLeaves(keccak, [leaf])), leaf, [])
  {
  }

  lemma SingleRecordVerifies(keccak: Keccak, bytes: Buffer, root: Hash160)
    requires bytes != [] && ReadRecord(bytes, 0).Ok?
    requires var d := ReadRecord(bytes, 0).value.value; CheckProof(keccak, root, d.leafBytes, d.proof)
    ensures ParseAndVerifyUpdates(keccak, FromUint(1, 1) + bytes, root) == Ok([ReadRecord(bytes, 0).value.value])
  {
    hide ReadRecord, CheckProof, FromUint, ParseRecords, ReadUint, SliceRest;
    CountIsRead(1, bytes);
    SingleRecord(bytes);
  }

  lemma ShortSubmissionDecodes(keccak: Keccak, verify: Verifier, sources: seq<Emitter>, vaa: Buffer, leaf: Buffer,
                               x: Byte)
      returns (update: PriceUpdate)
    requires |leaf| < MESSAGE_SIZE && (leaf == [] || leaf[0] == 0) && x <= 1 && |vaa| < 65536
    requires verify(vaa).Ok? && verify(vaa).value.Source() in sources
    requires ParseMerkleRoot(verify(vaa).value.body.payload).Ok?
    requires ParseMerkleRoot(verify(vaa).value.body.payload).value.hash == Root(keccak, HashLeaves(keccak, [leaf]))
    ensures DecodePnau(keccak, verify, sources, PnauPrefix(GOOD_HEADER, vaa, 1, ShortRecord(leaf, x))) == Ok([update])
    ensures update.emaConf % 256 == x
  {
    var bytes := ShortRecord(leaf, x);
    assert bytes != [];
    hide ParsePnau, ParseMerkleRoot, PnauPrefix, FromUint, ToUint, ReadRecord, ShortRecord, Root, CheckProof,
         HashLeaves, ParseAndVerifyUpdates;
    SingleLeafChecks(keccak, leaf);
    update := ShortRecordDecodes(leaf, x);
    PnauRoundTrip(GOOD_HEADER, vaa, 1, bytes);
    SingleRecordVerifies(keccak, bytes, Root(keccak, HashLeaves(keccak, [leaf])));
    assert Cast([DecodedUpdate(update, [], leaf)]) == [update];
  }

  /** Below 85 bytes one VAA over one leaf lets two messages through whose prices differ. */
  lemma OneProofTwoPrices(keccak: Keccak, verify: Verifier, sources: seq<Emitter>, vaa: Buffer, leaf: Buffer)
    requires |leaf| < MESSAGE_SIZE && (leaf == [] || leaf[0] == 0) && |vaa| < 65536
    requires verify(vaa).Ok? && verify(vaa).value.Source() in sources
    requires ParseMerkleRoot(verify(vaa).value.body.payload).Ok?
    requires ParseMerkleRoot(verify(vaa).value.body.payload).value.hash == Root(keccak, HashLeaves(keccak, [leaf]))
    ensures var a := DecodePnau(keccak, verify, sources, PnauPrefix(GOOD_HEADER, vaa, 1, ShortRecord(leaf, 0)));
            var b := DecodePnau(keccak, verify, sources, PnauPrefix(GOOD_HEADER, vaa, 1, ShortRecord(leaf, 1)));
            a.Ok? && b.Ok? && a != b
  {
    hide DecodePnau, PnauPrefix, ShortRecord, ParseMerkleRoot, Root;
    var u := ShortSubmissionDecodes(keccak, verify, sources, vaa, leaf, 0);
    var v := ShortSubmissionDecodes(keccak, verify, sources, vaa, leaf, 1);
    assert u != v;
    assert [u][0] != [v][0];
  }

  lemma CountIsRead(count: nat, rest: Buffer)
    requires count < 256
    ensures ReadUint(Cursor(FromUint(count, 1) + rest, 0), 1) == Some(Read(count, Cursor(FromUint(count, 1) + rest, 1)))
    ensures SliceRest(Cursor(FromUint(count, 1) + rest, 1)) == rest
  {
    assert Pow256(1) == 256;
    ReadsUint(Cursor(FromUint(count, 1) + rest, 0), count, 1, rest);
  }
}

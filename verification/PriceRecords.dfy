/** The variable-length price records of an accumulator update: two bytes of message size, the
    message, one byte of proof size, the proof. */
module PriceRecords {
  import opened Bytes
  import opened Clarity
  import opened StrideScan
  import opened PriceMessage

  const MAX_UPDATES: nat := 64
  const MAX_PROOF: nat := 128
  const MAX_LEAF: nat := 255

  datatype DecodedUpdate = DecodedUpdate(update: PriceUpdate, proof: seq<Hash160>, leafBytes: Buffer)

  /** parse-proof at one of its stops: 20 bytes. */
  function HashReader(bytes: Buffer): Reader<Hash160> {
    (i: nat) =>
      var hash :- ReadBuff(Cursor(bytes, i), 20).OrAbort();
      Ok(Item(hash.value, 20))
  }

  function ParseProof(proofBytes: Buffer, proofSize: nat): Outcome<seq<Hash160>> {
    Scan(HashReader(proofBytes), proofSize, MAX_PROOF, |proofBytes|)
  }

  /** parse-price-info-and-proof at one of its stops. */
  function ReadRecord(bytes: Buffer, i: nat): Outcome<Item<DecodedUpdate>> {
    var size :- ReadUint(Cursor(bytes, i), 2).OrAbort();
    var messageType :- ReadUint(size.next, 1).OrAbort();
    var update :- ReadFields(messageType.next).OrAbort();
    var proofSize :- ReadUint(Skip(size.next, size.value), 1).OrAbort();
    var proofBytes := Slice(proofSize.next, 20 * proofSize.value);
    var leafBytes := Slice(size.next, size.value);
    var proof :- ParseProof(proofBytes, proofSize.value);
    if messageType.value != 0 || |leafBytes| > MAX_LEAF then Abort
    else Ok(Item(DecodedUpdate(update, proof, leafBytes), 2 + size.value + 1 + 20 * proofSize.value))
  }

  function RecordReader(bytes: Buffer): Reader<DecodedUpdate> {
    (i: nat) => ReadRecord(bytes, i)
  }

  /** The fold of parse-price-info-and-proof over the bytes after the update count. */
  function ParseRecords(bytes: Buffer, count: nat): Outcome<seq<DecodedUpdate>> {
    Scan(RecordReader(bytes), count, MAX_UPDATES, |bytes|)
  }

  // ---------- the scans are record parsers ----------

  lemma RecordReaderAdvances(bytes: Buffer)
    ensures Advances(RecordReader(bytes))
  {
    hide ReadFields, ParseProof, ToUint;
  }

  /** The decoder's fold over every byte is the parser that reads a record at p and goes on at
      p + 2 + size + 1 + 20 * proofSize. */
  lemma RecordScanRefines(bytes: Buffer, count: nat)
    ensures ParseRecords(bytes, count) == Records(RecordReader(bytes), count, MAX_UPDATES, |bytes|, 0)
  {
    RecordReaderAdvances(bytes);
    hide ReadRecord, Advances;
    ScanRefinesRecords(RecordReader(bytes), count, MAX_UPDATES, |bytes|);
  }

  /** A 20-byte list laid end to end is found again chunk by chunk. */
  lemma {:induction false} ChunksLaidOut(bytes: Buffer, p: nat, hashes: seq<Hash160>)
      returns (items: seq<Item<Hash160>>)
    requires Holds(Cursor(bytes, p), Concat(hashes))
    ensures LaidOut(HashReader(bytes), |bytes|, p, items) && Values(items) == hashes
    decreases |hashes|
  {
    items := [];
    if hashes == [] {
    } else {
      ReadsBuff(Cursor(bytes, p), hashes[0], Concat(hashes[1..]));
      var rest := ChunksLaidOut(bytes, p + 20, hashes[1..]);
      items := [Item(hashes[0], 20)] + rest;
      assert items[1..] == rest;
    }
  }

  /** The nested fold splits a proof into exactly its hashes, in order. */
  lemma ProofRoundTrip(hashes: seq<Hash160>)
    ensures ParseProof(Concat(hashes), |hashes|) == if |hashes| <= MAX_PROOF then Ok(hashes) else Abort
  {
    hide Concat;
    var bytes := Concat(hashes);
    var items := ChunksLaidOut(bytes, 0, hashes);
    ScanRefinesRecords(HashReader(bytes), |hashes|, MAX_PROOF, |bytes|);
    RecordsOfLaidOut(HashReader(bytes), |hashes|, MAX_PROOF, |bytes|, 0, items);
    assert Values(items)[..|hashes|] == hashes;
  }

  /** Any 20 * n bytes are the concatenation of the n hashes the nested fold returns. */
  lemma ProofChunks(bytes: Buffer, n: nat)
    requires |bytes| == 20 * n
    ensures ParseProof(bytes, n) == if n <= MAX_PROOF then Ok(Chunks(bytes, n)) else Abort
  {
    ProofRoundTrip(Chunks(bytes, n));
  }

  // ---------- which fields the leaf fixes ----------

  /** A record that decodes, with these leaf bytes. */
  ghost predicate DecodesTo(bytes: Buffer, i: nat, leaf: Buffer, update: PriceUpdate) {
    var r := ReadRecord(bytes, i);
    r.Ok? && r.value.value.leafBytes == leaf && r.value.value.update == update
  }

  lemma RecordParts(bytes: Buffer, i: nat)
    requires ReadRecord(bytes, i).Ok?
    ensures var d := ReadRecord(bytes, i).value.value;
            && i + 2 + |d.leafBytes| < |bytes|
            && d.leafBytes == bytes[i + 2..i + 2 + |d.leafBytes|]
            && |d.leafBytes| == ToUint(bytes[i..i + 2])
            && |d.leafBytes| <= MAX_LEAF
            && ToUint(bytes[i + 2..i + 3]) == 0
            && ReadFields(Cursor(bytes, i + 3)) == Some(d.update)
  {
    hide ReadFields, FieldsOf, ParseProof, ToUint;
    var size := ReadUint(Cursor(bytes, i), 2).value;
    assert Skip(size.next, size.value) == Cursor(bytes, i + 2 + size.value);
  }

  /** The announced number of hashes of a record, in the byte behind its leaf. */
  function ProofSizeAt(bytes: Buffer, i: nat, leaf: Buffer): nat
    requires i + 2 + |leaf| < |bytes|
  {
    bytes[i + 2 + |leaf|]
  }

  lemma RecordScansProof(bytes: Buffer, i: nat)
    requires ReadRecord(bytes, i).Ok?
    ensures var item := ReadRecord(bytes, i).value; var n := |item.value.leafBytes|;
            && i + 2 + n < |bytes|
            && var k := ProofSizeAt(bytes, i, item.value.leafBytes);
               && item.stride == 3 + n + 20 * k
               && ParseProof(Slice(Cursor(bytes, i + 3 + n), 20 * k), k) == Ok(item.value.proof)
  {
    hide ReadFields, FieldsOf, ParseProof, ToUint;
    var size := ReadUint(Cursor(bytes, i), 2).value;
    var end := i + 2 + size.value;
    assert Skip(size.next, size.value) == Cursor(bytes, end);
    assert bytes[end..end + 1] == [bytes[end]];
    OneByte(bytes[end]);
  }

  /** The proof of a decoded record is the announced number of 20-byte chunks behind it, at most 128, when
      they fit; a proof that runs off the buffer is silently empty. */
  lemma RecordProof(bytes: Buffer, i: nat)
    requires ReadRecord(bytes, i).Ok?
    ensures var item := ReadRecord(bytes, i).value; var p := i + 3 + |item.value.leafBytes|;
            && p <= |bytes|
            && var k := ProofSizeAt(bytes, i, item.value.leafBytes);
               && item.stride == 3 + |item.value.leafBytes| + 20 * k
               && if p + 20 * k <= |bytes| then k <= MAX_PROOF && item.value.proof == Chunks(bytes[p..p + 20 * k], k)
                  else item.value.proof == []
  {
    hide ReadRecord, ParseProof;
    RecordScansProof(bytes, i);
    var item := ReadRecord(bytes, i).value;
    var p, k := i + 3 + |item.value.leafBytes|, ProofSizeAt(bytes, i, item.value.leafBytes);
    if p + 20 * k <= |bytes| {
      ProofChunks(bytes[p..p + 20 * k], k);
    } else {
      NothingToScan(k);
    }
  }

  lemma NothingToScan(k: nat)
    ensures ParseProof([], k) == Ok([])
  {
  }

  /** When a record decodes: the size and the 85 bytes read as a message are there, the announced leaf and
      one byte behind it too, the type is 0, the leaf at most 255 bytes, and a proof that fits at most
      128 hashes. Otherwise the decoder aborts. */
  lemma RecordOutcome(bytes: Buffer, i: nat)
    ensures !ReadRecord(bytes, i).Err?
    ensures ReadRecord(bytes, i).Ok? <==>
              && i + 87 <= |bytes|
              && var n := ToUint(bytes[i..i + 2]);
                 && i + 3 + n <= |bytes| && bytes[i + 2] == 0 && n <= 255
                 && var k: int := bytes[i + 2 + n];
                    i + 3 + n + 20 * k <= |bytes| ==> k <= 128
  {
    hide ToUint, ParseProof, ReadRecord;
    if i + 87 <= |bytes| && i + 3 + ToUint(bytes[i..i + 2]) <= |bytes| {
      RecordIsLong(bytes, i);
      var end := i + 2 + ToUint(bytes[i..i + 2]);
      var k: nat := bytes[end];
      if end + 1 + 20 * k <= |bytes| {
        ProofChunks(bytes[end + 1..end + 1 + 20 * k], k);
      } else {
        NothingToScan(k);
      }
    } else {
      RecordIsShort(bytes, i);
    }
  }

  lemma RecordIsShort(bytes: Buffer, i: nat)
    requires i + 87 > |bytes| || i + 3 + ToUint(bytes[i..i + 2]) > |bytes|
    ensures ReadRecord(bytes, i) == Abort
  {
    hide ToUint, ParseProof, ReadFields;
    FieldsPresentIff(Cursor(bytes, i + 3));
  }

  lemma RecordIsLong(bytes: Buffer, i: nat)
    requires i + 87 <= |bytes| && i + 3 + ToUint(bytes[i..i + 2]) <= |bytes|
    ensures var n := ToUint(bytes[i..i + 2]); var k: nat := bytes[i + 2 + n];
            var proof := ParseProof(Slice(Cursor(bytes, i + 3 + n), 20 * k), k);
            && (ReadRecord(bytes, i).Ok? <==> proof.Ok? && bytes[i + 2] == 0 && n <= 255)
            && (ReadRecord(bytes, i).Err? ==> proof.Err?)
  {
    hide ToUint, ParseProof, ReadFields, Slice;
    FieldsPresentIff(Cursor(bytes, i + 3));
    var n := ToUint(bytes[i..i + 2]);
    var end := i + 2 + n;
    assert bytes[i + 2..i + 3] == [bytes[i + 2]] && bytes[end..end + 1] == [bytes[end]];
    OneByte(bytes[i + 2]);
    OneByte(bytes[end]);
    assert Skip(Cursor(bytes, i + 2), n) == Cursor(bytes, end);
    assert |Slice(Cursor(bytes, i + 2), n)| == n by {
      SliceLength(Cursor(bytes, i + 2), n);
    }
  }

  lemma SliceLength(c: Cursor, n: nat)
    requires c.pos + n <= |c.bytes|
    ensures |Slice(c, n)| == n
  {
  }

  lemma FieldsPresentIff(c: Cursor)
    ensures ReadFields(c).Some? <==> c.pos + 84 <= |c.bytes|
  {
    hide ToUint, ToInt;
  }

  /** From 85 bytes on, the leaf fixes every field. */
  lemma LeafFixesFields(bytes: Buffer, i: nat, leaf: Buffer, update: PriceUpdate)
    requires DecodesTo(bytes, i, leaf, update) && |leaf| >= MESSAGE_SIZE
    ensures leaf[0] == 0 && update == FieldsOf(leaf[1..MESSAGE_SIZE])
  {
    RecordParts(bytes, i);
    hide ReadRecord, ReadFields, FieldsOf, ToUint;
    assert bytes[i + 2..i + 3] == [leaf[0]];
    OneByte(leaf[0]);
    SliceOfSlice(bytes, i + 2, i + 2 + |leaf|, 1, MESSAGE_SIZE);
    FieldsAreAWindow(Cursor(bytes, i + 3), leaf[1..MESSAGE_SIZE]);
  }

  /** Every record with this leaf decodes to the same update. */
  ghost predicate FieldsFixedByLeaf(leaf: Buffer) {
    forall b1, i1: nat, u1, b2, i2: nat, u2 ::
      DecodesTo(b1, i1, leaf, u1) && DecodesTo(b2, i2, leaf, u2) ==> u1 == u2
  }

  /** A record with a short leaf, no proof, and x as the last byte of the fields. */
  ghost function ShortRecord(leaf: Buffer, x: Byte): Buffer
    requires |leaf| < MESSAGE_SIZE
  {
    FromUint(|leaf|, 2) + leaf + seq(MESSAGE_SIZE - 1 - |leaf|, _ => 0) + [x]
  }

  lemma LastByteOfEmaConf(window: Buffer)
    requires |window| == MESSAGE_SIZE - 1
    ensures FieldsOf(window).emaConf % 256 == window[MESSAGE_SIZE - 2]
  {
    var ema := window[76..84];
    assert ToUint(ema) == 256 * ToUint(ema[..7]) + ema[7];
  }

  lemma ShortRecordDecodes(leaf: Buffer, x: Byte) returns (update: PriceUpdate)
    requires |leaf| < MESSAGE_SIZE && (leaf == [] || leaf[0] == 0) && x <= 1
    ensures ReadRecord(ShortRecord(leaf, x), 0).Ok?
    ensures ReadRecord(ShortRecord(leaf, x), 0).value.value == DecodedUpdate(update, [], leaf)
    ensures update.emaConf % 256 == x
  {
    hide ReadFields, FieldsOf, ToUint, FromUint;
    var bytes := ShortRecord(leaf, x);
    var size := ReadUint(Cursor(bytes, 0), 2).value;
    UintRoundTrip(|leaf|, 2);
    assert bytes[0..2] == FromUint(|leaf|, 2);
    assert bytes[2..2 + |leaf|] == leaf;
    assert bytes[2] == 0 by {
      if leaf != [] {
        assert bytes[2..2 + |leaf|][0] == bytes[2];
      }
    }
    MessageTypeAt(bytes, 2, 0);
    var window := bytes[3..];
    FieldsAreAWindow(Cursor(bytes, 3), window);
    update := FieldsOf(window);
    LastByteOfEmaConf(window);
    var proofSize := ReadUint(Skip(size.next, size.value), 1).value;
    assert bytes[2 + |leaf|..3 + |leaf|] == [bytes[2 + |leaf|]];
    OneByte(bytes[2 + |leaf|]);
    assert proofSize.value <= 1;
    var proofBytes := Slice(proofSize.next, 20 * proofSize.value);
    assert proofBytes == [];
  }

  /** The decoder never checks the message size. The fields come from the leaf, the bytes the
      Merkle proof covers, exactly when the message has at least 85 bytes; below that some of them
      are read from the proof size and whatever follows it. */
  lemma LeafFixesFieldsIff(leaf: Buffer)
    requires |leaf| <= MAX_LEAF && (leaf == [] || leaf[0] == 0)
    ensures FieldsFixedByLeaf(leaf) <==> |leaf| >= MESSAGE_SIZE
  {
    hide ReadRecord, ReadFields, FieldsOf, ShortRecord;
    if |leaf| >= MESSAGE_SIZE {
      forall b1, i1: nat, u1, b2, i2: nat, u2 | DecodesTo(b1, i1, leaf, u1) && DecodesTo(b2, i2, leaf, u2)
        ensures u1 == u2
      {
        LeafFixesFields(b1, i1, leaf, u1);
        LeafFixesFields(b2, i2, leaf, u2);
      }
    } else {
      var u := ShortRecordDecodes(leaf, 0);
      var v := ShortRecordDecodes(leaf, 1);
      assert DecodesTo(ShortRecord(leaf, 0), 0, leaf, u) && DecodesTo(ShortRecord(leaf, 1), 0, leaf, v);
      assert u != v;
    }
  }

  // ---------- round trip ----------

  /** One entry of a batch as the helpers hold it: the serialized message and its proof. */
  datatype BatchEntry = BatchEntry(leaf: Buffer, proof: seq<Hash160>) {
    /** A message the decoder can take back. */
    predicate Decodable() {
      MESSAGE_SIZE <= |leaf| <= MAX_LEAF && leaf[0] == 0 && |proof| <= MAX_PROOF
    }

    /** serializePriceUpdateToBuffer */
    function Record(): Buffer {
      FromUint(|leaf|, 2) + (leaf + (FromUint(|proof|, 1) + Concat(proof)))
    }

    function Decoded(): DecodedUpdate
      requires Decodable()
    {
      DecodedUpdate(FieldsOf(leaf[1..MESSAGE_SIZE]), proof, leaf)
    }
  }

  function RecordsBytes(entries: seq<BatchEntry>): Buffer {
    if entries == [] then [] else entries[0].Record() + RecordsBytes(entries[1..])
  }

  function DecodedAll(entries: seq<BatchEntry>): (decoded: seq<DecodedUpdate>)
    requires forall e :: e in entries ==> e.Decodable()
    ensures |decoded| == |entries|
  {
    seq(|entries|, i requires 0 <= i < |entries| => entries[i].Decoded())
  }

  lemma RecordSplits(e: BatchEntry, rest: Buffer)
    ensures e.Record() + rest == FromUint(|e.leaf|, 2) + (e.leaf + (FromUint(|e.proof|, 1) + (Concat(e.proof) + rest)))
    ensures |e.Record()| == 3 + |e.leaf| + |Concat(e.proof)|
  {
    hide FromUint, Concat;
  }

  /** Four parts laid end to end are read one after the other. */
  lemma PartsInTurn(c: Cursor, leaf: Buffer, k: nat, proofBytes: Buffer, rest: Buffer)
    requires |leaf| <= MAX_LEAF && k <= MAX_PROOF
    requires Holds(c, FromUint(|leaf|, 2) + (leaf + (FromUint(k, 1) + (proofBytes + rest))))
    ensures var n := |leaf|;
            && ReadUint(c, 2) == Some(Read(n, Skip(c, 2)))
            && ReadBuff(Skip(c, 2), n) == Some(Read(leaf, Skip(c, 2 + n)))
            && ReadUint(Skip(c, 2 + n), 1) == Some(Read(k, Skip(c, 3 + n)))
            && ReadBuff(Skip(c, 3 + n), |proofBytes|) == Some(Read(proofBytes, Skip(c, 3 + n + |proofBytes|)))
            && Holds(Skip(c, 3 + n + |proofBytes|), rest)
  {
    hide FromUint, ToUint, ReadUint, ReadBuff, Holds;
    assert Pow256(2) == 65536 && Pow256(1) == 256;
    var n := |leaf|;
    var r3 := proofBytes + rest;
    var r2 := FromUint(k, 1) + r3;
    var r1 := leaf + r2;
    ReadsUint(c, n, 2, r1);
    ReadsBuff(Skip(c, 2), leaf, r2);
    assert Skip(Skip(c, 2), n) == Skip(c, 2 + n);
    ReadsUint(Skip(c, 2 + n), k, 1, r3);
    ReadsBuff(Skip(c, 3 + n), proofBytes, rest);
  }

  lemma RecordLayout(bytes: Buffer, p: nat, e: BatchEntry, rest: Buffer)
    requires e.Decodable() && Holds(Cursor(bytes, p), e.Record() + rest)
    ensures |e.Record()| == 3 + |e.leaf| + 20 * |e.proof|
    ensures var n := |e.leaf|;
            && ReadUint(Cursor(bytes, p), 2) == Some(Read(n, Cursor(bytes, p + 2)))
            && p + 3 + n + 20 * |e.proof| <= |bytes|
            && bytes[p + 2..p + 2 + n] == e.leaf
            && ReadUint(Cursor(bytes, p + 2 + n), 1) == Some(Read(|e.proof|, Cursor(bytes, p + 3 + n)))
            && bytes[p + 3 + n..p + 3 + n + 20 * |e.proof|] == Concat(e.proof)
            && Holds(Cursor(bytes, p + 3 + n + 20 * |e.proof|), rest)
  {
    hide FromUint, ToUint, Concat, ReadUint, Holds, BatchEntry.Record;
    RecordSplits(e, rest);
    ConcatWidth(e.proof, 20);
    PartsInTurn(Cursor(bytes, p), e.leaf, |e.proof|, Concat(e.proof), rest);
  }

  /** The parts a record is read from. */
  lemma ReadsRecord(bytes: Buffer, p: nat, d: DecodedUpdate)
    requires var n, k := |d.leafBytes|, |d.proof|;
             && n <= MAX_LEAF && p + 3 + n + 20 * k <= |bytes|
             && ReadUint(Cursor(bytes, p), 2) == Some(Read(n, Cursor(bytes, p + 2)))
             && ReadUint(Cursor(bytes, p + 2), 1) == Some(Read(0, Cursor(bytes, p + 3)))
             && ReadFields(Cursor(bytes, p + 3)) == Some(d.update)
             && bytes[p + 2..p + 2 + n] == d.leafBytes
             && ReadUint(Cursor(bytes, p + 2 + n), 1) == Some(Read(k, Cursor(bytes, p + 3 + n)))
             && ParseProof(bytes[p + 3 + n..p + 3 + n + 20 * k], k) == Ok(d.proof)
    ensures ReadRecord(bytes, p) == Ok(Item(d, 3 + |d.leafBytes| + 20 * |d.proof|))
  {
    hide ReadFields, ParseProof, ReadUint;
  }

  lemma RecordRoundTrip(bytes: Buffer, p: nat, e: BatchEntry, rest: Buffer)
    requires e.Decodable() && Holds(Cursor(bytes, p), e.Record() + rest)
    ensures |e.Record()| == 3 + |e.leaf| + 20 * |e.proof|
    ensures ReadRecord(bytes, p) == Ok(Item(e.Decoded(), |e.Record()|))
    ensures Holds(Cursor(bytes, p + |e.Record()|), rest)
  {
    hide ReadFields, FieldsOf, ParseProof, Concat, ReadUint, FromUint, ToUint, ReadRecord;
    RecordLayout(bytes, p, e, rest);
    hide BatchEntry.Record;
    ProofRoundTrip(e.proof);
    MessageTypeAt(bytes, p + 2, e.leaf[0]);
    SliceOfSlice(bytes, p + 2, p + 2 + |e.leaf|, 1, MESSAGE_SIZE);
    FieldsAreAWindow(Cursor(bytes, p + 3), e.leaf[1..MESSAGE_SIZE]);
    ReadsRecord(bytes, p, e.Decoded());
  }

  lemma MessageTypeAt(bytes: Buffer, p: nat, t: Byte)
    requires p < |bytes| && bytes[p] == t
    ensures ReadUint(Cursor(bytes, p), 1) == Some(Read(t, Cursor(bytes, p + 1)))
  {
    assert bytes[p..p + 1] == [t];
    OneByte(t);
  }

  lemma NothingLeft(c: Cursor)
    requires Holds(c, [])
    ensures c.pos == |c.bytes|
  {
    assert |c.bytes[c.pos..]| == 0;
  }

  lemma {:induction false} RecordsLaidOut(bytes: Buffer, p: nat, entries: seq<BatchEntry>)
      returns (items: seq<Item<DecodedUpdate>>)
    requires forall e :: e in entries ==> e.Decodable()
    requires Holds(Cursor(bytes, p), RecordsBytes(entries))
    ensures LaidOut(RecordReader(bytes), |bytes|, p, items) && Values(items) == DecodedAll(entries)
    decreases |entries|
  {
    hide ReadFields, FieldsOf, ReadRecord, FromUint, Concat, Holds;
    items := [];
    if entries == [] {
      NothingLeft(Cursor(bytes, p));
    } else {
      var e := entries[0];
      RecordRoundTrip(bytes, p, e, RecordsBytes(entries[1..]));
      var rest := RecordsLaidOut(bytes, p + |e.Record()|, entries[1..]);
      items := [Item(e.Decoded(), |e.Record()|)] + rest;
      assert items[1..] == rest;
      assert DecodedAll(entries) == [e.Decoded()] + DecodedAll(entries[1..]);
    }
  }

  /** Parsing serialized records gives them back, in order, up to the announced count, and aborts when
      that is more than 64. */
  lemma RecordsRoundTrip(entries: seq<BatchEntry>, count: nat)
    requires forall e :: e in entries ==> e.Decodable()
    ensures ParseRecords(RecordsBytes(entries), count)
            == if Min(count, |entries|) <= MAX_UPDATES then Ok(DecodedAll(entries)[..Min(count, |entries|)])
               else Abort
  {
    var bytes := RecordsBytes(entries);
    var items := RecordsLaidOut(bytes, 0, entries);
    RecordScanRefines(bytes, count);
    RecordsOfLaidOut(RecordReader(bytes), count, MAX_UPDATES, |bytes|, 0, items);
  }
}

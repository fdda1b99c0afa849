/** A price message: the 85 bytes that are the leaf of the Merkle tree. */
module PriceMessage {
  import opened Bytes
  import opened Clarity

  datatype PriceUpdate = PriceUpdate(
    priceIdentifier: Buffer, price: int, conf: nat, expo: int,
    publishTime: nat, prevPublishTime: nat, emaPrice: int, emaConf: nat)
  {
    predicate InRange() {
      && |priceIdentifier| == 32
      && FitsSigned(price, 8) && FitsSigned(expo, 4) && FitsSigned(emaPrice, 8)
      && conf < Pow256(8) && emaConf < Pow256(8)
      && publishTime < Pow256(8) && prevPublishTime < Pow256(8)
    }
  }

  const MESSAGE_SIZE: nat := 85

  /** The fields after the message type, as the helper lays them out. */
  function FieldBytes(u: PriceUpdate): (b: Buffer)
    requires u.InRange()
    ensures |b| == MESSAGE_SIZE - 1
  {
    u.priceIdentifier
    + (FromInt(u.price, 8)
    + (FromUint(u.conf, 8)
    + (FromInt(u.expo, 4)
    + (FromUint(u.publishTime, 8)
    + (FromUint(u.prevPublishTime, 8)
    + (FromInt(u.emaPrice, 8)
    + FromUint(u.emaConf, 8)))))))
  }

  /** preserializePriceUpdateToBuffer : message type 0, then the fields. */
  function LeafBytes(u: PriceUpdate): (b: Buffer)
    requires u.InRange()
    ensures |b| == MESSAGE_SIZE
  {
    [0] + FieldBytes(u)
  }

  /** The eight reads of the decoder after the message type. */
  function ReadFields(c: Cursor): Option<PriceUpdate> {
    var id :- ReadBuff(c, 32);
    var price :- ReadInt(id.next, 8);
    var conf :- ReadUint(price.next, 8);
    var expo :- ReadInt(conf.next, 4);
    var publishTime :- ReadUint(expo.next, 8);
    var prevPublishTime :- ReadUint(publishTime.next, 8);
    var emaPrice :- ReadInt(prevPublishTime.next, 8);
    var emaConf :- ReadUint(emaPrice.next, 8);
    Some(PriceUpdate(id.value, price.value, conf.value, expo.value,
                     publishTime.value, prevPublishTime.value, emaPrice.value, emaConf.value))
  }

  /** The fields at their fixed offsets in 84 bytes. */
  function FieldsOf(window: Buffer): PriceUpdate
    requires |window| == MESSAGE_SIZE - 1
  {
    PriceUpdate(
      window[0..32], ToInt(window[32..40]), ToUint(window[40..48]), ToInt(window[48..52]),
      ToUint(window[52..60]), ToUint(window[60..68]), ToInt(window[68..76]), ToUint(window[76..84]))
  }

  lemma ReadsWindow(c: Cursor, window: Buffer, i: nat, w: nat)
    requires i + w <= |window| && c.pos + |window| <= |c.bytes|
    requires c.bytes[c.pos..c.pos + |window|] == window
    ensures ReadBuff(Skip(c, i), w) == Some(Read(window[i..i + w], Skip(c, i + w)))
  {
    SliceOfSlice(c.bytes, c.pos, c.pos + |window|, i, i + w);
  }

  /** The cursor reads take exactly the 84 bytes from the cursor on. */
  lemma FieldsAreAWindow(c: Cursor, window: Buffer)
    requires |window| == MESSAGE_SIZE - 1 && c.pos + |window| <= |c.bytes|
    requires c.bytes[c.pos..c.pos + |window|] == window
    ensures ReadFields(c) == Some(FieldsOf(window))
  {
    assert Skip(c, 0) == c;
    ReadsWindow(c, window, 0, 32);
    ReadsWindow(c, window, 32, 8);
    ReadsWindow(c, window, 40, 8);
    ReadsWindow(c, window, 48, 4);
    ReadsWindow(c, window, 52, 8);
    ReadsWindow(c, window, 60, 8);
    ReadsWindow(c, window, 68, 8);
    ReadsWindow(c, window, 76, 8);
  }

  /** Reading back a message gives the update it was made from, whatever follows it. */
  lemma FieldsRoundTrip(c: Cursor, u: PriceUpdate, rest: Buffer)
    requires u.InRange() && Holds(c, FieldBytes(u) + rest)
    ensures ReadFields(c) == Some(u)
  {
    var c7 := FromUint(u.emaConf, 8) + rest;
    var c6 := FromInt(u.emaPrice, 8) + c7;
    var c5 := FromUint(u.prevPublishTime, 8) + c6;
    var c4 := FromUint(u.publishTime, 8) + c5;
    var c3 := FromInt(u.expo, 4) + c4;
    var c2 := FromUint(u.conf, 8) + c3;
    var c1 := FromInt(u.price, 8) + c2;
    assert FieldBytes(u) + rest == u.priceIdentifier + c1;
    ReadsBuff(c, u.priceIdentifier, c1);
    ReadsInt(Skip(c, 32), u.price, 8, c2);
    ReadsUint(Skip(c, 40), u.conf, 8, c3);
    ReadsInt(Skip(c, 48), u.expo, 4, c4);
    ReadsUint(Skip(c, 52), u.publishTime, 8, c5);
    ReadsUint(Skip(c, 60), u.prevPublishTime, 8, c6);
    ReadsInt(Skip(c, 68), u.emaPrice, 8, c7);
    ReadsUint(Skip(c, 76), u.emaConf, 8, rest);
  }
}

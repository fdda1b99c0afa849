/** What reaches the store when guardians sign nothing but roots of published batches, whatever the
    submitter of a message does. */
module PublishedPrices {
  import opened Bytes
  import opened Clarity
  import opened PriceMessage
  import opened Merkle
  import opened Vaa
  import opened PnauDecoder
  import opened PythStore
  import opened PythOracle
  import opened BridgeRuns

  /** A batch of price messages of at least 85 bytes. */
  predicate WholeMessages(leaves: seq<Buffer>) {
    leaves != [] && forall leaf :: leaf in leaves ==> |leaf| >= MESSAGE_SIZE
  }

  /** The update is the fields of a message of the batch. */
  ghost predicate Published(leaves: seq<Buffer>, u: PriceUpdate) {
    exists leaf :: leaf in leaves && |leaf| >= MESSAGE_SIZE && leaf[0] == 0 && u == FieldsOf(leaf[1..MESSAGE_SIZE])
  }

  /** The VAA in the message commits to the root of the batch. */
  ghost predicate CommitsTo(host: Host, bytes: Buffer, leaves: seq<Buffer>)
    requires leaves != []
  {
    var parts := ParsePnau(bytes);
    && parts.Ok?
    && var parsed := ParseVaa(host, parts.value.vaa);
       && parsed.Ok?
       && var root := ParseMerkleRoot(parsed.value.vaa.body.payload);
          root.Ok? && root.value.hash == Root(host.keccak256, HashLeaves(host.keccak256, leaves))
  }

  /** keccak160 does not tell apart two of the strings hashed in building the tree of the batch and in
      checking one record of the message. */
  ghost predicate Collides(host: Host, bytes: Buffer, leaves: seq<Buffer>) {
    exists i: nat, d ::
      && Carries(bytes, i, d)
      && !CollisionFree(host.keccak256, HashedStrings(host.keccak256, leaves, d.leafBytes, d.proof))
  }

  /** What a message proves against the root of a batch is in the batch, for every message. */
  lemma ProvenIsPublished(host: Host, b: Bridge, bytes: Buffer, u: PriceUpdate, leaves: seq<Buffer>)
    requires WholeMessages(leaves) && CommitsTo(host, bytes, leaves) && Proven(host, b, bytes, u)
    ensures Published(leaves, u) || Collides(host, bytes, leaves)
  {
    hide ParsePnau, ParseVaa, ParseMerkleRoot, Carries, CheckProof, Root, HashedStrings, CollisionFree;
    var root := ParseMerkleRoot(ParseVaa(host, ParsePnau(bytes).value.vaa).value.vaa.body.payload).value.hash;
    var i: nat, d :| Carries(bytes, i, d) && CheckProof(host.keccak256, root, d.leafBytes, d.proof)
                     && d.update == u && FieldsFromLeaf(d);
    Soundness(host.keccak256, leaves, d.leafBytes, d.proof);
  }

  /** The run is under the plan of this repository, and every VAA that got an update through commits to
      the root of one of these batches. */
  ghost predicate HonestGuardians(cfg: Config, b0: Bridge, txs: seq<Transaction>, batches: seq<seq<Buffer>>) {
    && (forall leaves :: leaves in batches ==> WholeMessages(leaves))
    && forall i :: 0 <= i < |txs| && EffectOf(cfg, b0, txs, i).Ok? ==>
         && Before(cfg, b0, txs, i).gov.plan == OWN_PLAN
         && (txs[i].call.UpdatePrices? ==>
               exists leaves :: leaves in batches && leaves != [] && CommitsTo(cfg.host, txs[i].call.bytes, leaves))
  }

  /** Every price in every reachable state is that of a message in a published batch, or some committed
      message of the run exhibits a collision with the batch its own VAA commits to. */
  lemma EveryPricePublished(cfg: Config, b0: Bridge, txs: seq<Transaction>, batches: seq<seq<Buffer>>, id: Buffer)
    requires Deployed(cfg, b0) && forall tx :: tx in txs ==> Possible(tx)
    requires HonestGuardians(cfg, b0, txs, batches)
    requires id in Reached(cfg, b0, txs).store.prices
    ensures || (exists leaves, u :: leaves in batches && Published(leaves, u) && u.priceIdentifier == id
                                    && PriceOf(u) == Reached(cfg, b0, txs).store.prices[id])
            || (exists leaves, i :: leaves in batches && leaves != [] && 0 <= i < |txs| && txs[i].call.UpdatePrices?
                                    && EffectOf(cfg, b0, txs, i).Ok? && CommitsTo(cfg.host, txs[i].call.bytes, leaves)
                                    && Collides(cfg.host, txs[i].call.bytes, leaves))
  {
    hide Deployed, Reached, Execute, Proven, CommitsTo, Published, Collides, Possible;
    var i := Provenance(cfg, b0, txs, id);
    var b, bytes := Before(cfg, b0, txs, i), txs[i].call.bytes;
    assert EffectOf(cfg, b0, txs, i).Ok?;
    var u: PriceUpdate :|
             && u.priceIdentifier == id && PriceOf(u) == Reached(cfg, b0, txs).store.prices[id]
             && Proven(cfg.host, b, bytes, u);
    var leaves :| leaves in batches && leaves != [] && CommitsTo(cfg.host, bytes, leaves);
    ProvenIsPublished(cfg.host, b, bytes, u, leaves);
  }
}

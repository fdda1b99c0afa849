# Stacks Pyth bridge: a Dafny model

The bridge brings Pyth prices to Stacks. A publisher puts price messages in a Merkle tree and has
the wormhole guardians sign the root in a VAA (Verified Action Approval). On chain the decoder
proves each message against the root, the wormhole core contract checks that a quorum of the active
guardian set signed the VAA, the store keeps the newest price of each feed, the oracle ties the
three together and charges a fee, and the governance contract holds the parameters and says which
contracts make up the bridge. Off chain a relayer submits updates once per block.

The model covers the five contracts, the serializers of the test helpers that are their inverse, and
the relayer's run loop and clock threads. `dafny verify dfyconfig.toml` checks all of it.

## What is proved

**From publisher to chain.** `BridgeEndToEnd.UpdateCommitsIff` decides, for every batch the helpers
can build and every bridge state under the repository's own execution plan, whether an update call
commits and what the store then holds. It composes the Merkle tree, the message format, the fold
over bytes, the VAA format, the quorum count, the store and the fee. Its converse over whole runs is
`BridgeRuns.Provenance`: whatever price is stored after any sequence of public calls was returned by one
of them, and if the repository's own plan was in force at that call, its message carries a record with
that price, proved against the root its VAA signs. In a run under that plan, with guardians that sign
nothing but roots of published batches, `PublishedPrices.EveryPricePublished` concludes that every stored price
was published or a committed message exhibits a collision of keccak160, whatever the submitters do.

**Formats.** The decoders fold over every byte of a buffer and act where an index meets the position of
the next record. `StrideScan.ScanRefinesRecords` proves once, for any reader that moves forward, that
such a fold is the parser that reads one record after the other. Round trips are proved for the
accumulator message, its Merkle root payload, VAAs, guardian set updates, the nine governance
messages and two's-complement integers, and they are exact where the code is not an inverse: see
"Where code and intent differ".

**Merkle trees.** Completeness for every batch size, odd levels included. Soundness for leaves and paths
of any length, over concrete bytes: either the leaf is in the batch or two different strings that
were hashed on the way have the same 20-byte hash. No injectivity is assumed anywhere.

**Whole runs.** A transaction is a step of `PythOracle.Next`; an `err` response or a runtime abort
restores the state. Over any sequence of such steps: the wormhole, store and governance invariants,
append-only guardian sets, a quorum of the replaced set at every rotation but the first (which any sender can
make: nothing verifies its VAA), strictly increasing governance sequence
numbers, no replay, the origin of every governance parameter and an unbroken chain of approvals behind the
governance source, provenance of every price, and conservation of STX with every fee accounted for.

**Contracts as they run.** Each contract that keeps state is also a class whose methods write fields in
the order the contract does, before later checks where it does so, and roll back. Each method is
proved to end in the state its specification function gives, and to restore the old state otherwise.

**Relayer.** Every interleaving of the observer, the run loop and any number of clock threads.

## Modules

| file | models |
|---|---|
| `Bytes`, `BigintBuffer` | big-endian integers, `unit-tests/utils/helpers.ts` |
| `Clarity` | responses, aborts, 128-bit bound, the cursor contract, host functions |
| `StrideScan` | the index / next-update-index fold shared by three contracts |
| `PriceMessage`, `PriceRecords`, `PnauDecoder` | `contracts/pyth-pnau-decoder-v1.clar` |
| `Merkle`, `PnauSerializer`, `PtgmSerializer` | `unit-tests/pyth/helpers.ts` |
| `Vaa`, `WormholeCore` | `contracts/wormhole/wormhole-core-v2.clar`, `unit-tests/wormhole/helpers.ts` |
| `PythStore`, `StoreOrder`, `PythGovernance`, `PythOracle` | the contracts of those names |
| `BridgeRuns`, `BridgeFees`, `GovernanceChain`, `StuckBridge`, `PublishedPrices`, `BridgeEndToEnd` | theorems across contracts and over runs |
| `Relayer` | `example/relayer/src/service.rs`, `example/relayer/src/utils.rs` |

## Assumptions

External code is represented by what the contracts rely on, as plain definitions or as arbitrary
functions, never as an axiom.

- hk-cursor-v2: a read of n bytes returns them and moves on, or fails with the cursor's own error code
  when they run off the buffer; a read or slice of the rest at the very end of the buffer is empty
  and succeeds; a slice that runs off the buffer is empty. The repository does not contain this contract
  and does not settle the last two.
- hk-merkle-tree-keccak160-v1: `check-proof` folds the hashing scheme of
  `unit-tests/pyth/helpers.ts:536-551` over the path.
- keccak256, `secp256k1-recover?` (section 4.1.6 of SEC 1) and `from-consensus-buff?` are arbitrary total
  functions of the right shape, the same throughout a theorem.
- `stx-transfer?` refuses a zero amount, a transfer to oneself and an overdraft.
- A contract other than the modelled ones that governance puts into the plan answers anything (`Foreign`)
  and does not call back into the bridge. Only the oracle's own code runs as the oracle.
- The bitcoin block time is part of the context of a transaction, present or not.

## Where code and intent differ

- The decoder never checks the message size. Below 85 bytes some fields are read from bytes the
  Merkle proof does not cover: `PriceRecords.LeafFixesFieldsIff` gives the exact condition, and
  `PnauSerializer.OneProofTwoPrices` two messages under one VAA whose prices differ.
- The helper writes the ring size as 16 bits into a 4-byte field; the decoder reads 65536 times the value,
  so the field survives only at 0 (`PnauSerializer.AuwvRoundTrip`).
- The helper announces trailing header bytes and emits none; a message survives only with trailing size 0
  (`PnauSerializer.PnauRoundTripsIff`).
- The helper announces as many records as there are identifiers to submit, which need not be the number it
  emits; `PnauSerializer.EndToEnd` says what comes back in either case.
- The order of a batch, which the submitter chooses, can matter. Of two entries that tie for the greatest
  eligible time of their feed the first one stays (`StoreOrder.TieKeepsTheFirst`); `StoreOrder.MapsFixedIff` says
  exactly when every order leaves the same maps. The number of accepted entries, and so the fee, can differ even
  when the maps do not (`PythStore.AcceptedCountDependsOnOrder`); `StoreOrder.CountFixedIff` and
  `BridgeFees.FeeFixedIff` say exactly when it cannot.
- The keys passed to update-guardians-set are signed by nobody, and empty or wrong ones leave blank entries. A
  committed rotation with fewer matching keys than the quorum leaves a set that verifies nothing, and under the
  repository's own plan it is the last call that ever commits (`WormholeCore.RotatedSetNeedsKeys`,
  `WormholeCore.EmptyKeysMatchNothing`, `StuckBridge.UnusableRotationIsFinal`).
- A VAA that announces more than 19 signatures is not refused: the parser reads 19 and hashes and parses the rest
  as the body (`Vaa.HeaderParses`, `Vaa.VaaRoundTripIff`).
- A record whose announced proof runs off the buffer is not refused: by the slice convention assumed above it
  decodes with an empty proof (`PriceRecords.RecordProof`).
- A comment in `parse-and-verify-vaa` speaks of 13 signatures; the code asks for floor(2n/3) + 1 of the
  active set.
- The contract has nine `update-*` entry points, each with an action code of its own.
- A transaction the node rejects still counts as the block's update (`Relayer.StartPostsIff`,
  `Relayer.RejectedPostUsesUpStart`), and stopping the run loop leaves its last clock running
  (`Relayer.StoppedLoopKeepsItsClock`).

## Model

| member | source | states |
|---|---|---|
| BigintBuffer.BigintToBuffer | unit-tests/utils/helpers.ts:1-18 | a number read back unsigned survives iff it is in [0, 256^n), read back as two's complement iff it is in [-256^n/2, 256^n/2) |
| Bytes.IntRoundTrip | unit-tests/utils/helpers.ts:14-16 | reading back the two's-complement bytes of a value that fits gives the value |
| StrideScan.ScanRefinesRecords | contracts/pyth-pnau-decoder-v1.clar:179-266 | the fold over every byte, with its index and next index, equals the parser that reads a record at p and then one at p + stride, aborts included |
| StrideScan.RecordsOfLaidOut | contracts/pyth-pnau-decoder-v1.clar:201-266 | on bytes that hold a list of records the parser returns them in order, up to the announced limit, and aborts when that is more than its list can hold |
| PriceMessage.FieldsAreAWindow | contracts/pyth-pnau-decoder-v1.clar:208-215 | the eight chained reads are the fields at fixed offsets of the 84 bytes behind the message type |
| PriceMessage.FieldsRoundTrip | unit-tests/pyth/helpers.ts:220-239 | reading a serialized price message gives the update back, negative prices and exponents included |
| PriceRecords.RecordScanRefines | contracts/pyth-pnau-decoder-v1.clar:179-266 | the decoder's fold is the record parser with stride 2 + size + 1 + 20 * proof size |
| PriceRecords.ProofRoundTrip | contracts/pyth-pnau-decoder-v1.clar:268-304 | the nested fold returns exactly the hashes laid end to end, for up to 128, and aborts on more |
| PriceRecords.ProofChunks | contracts/pyth-pnau-decoder-v1.clar:268-304 | on any 20n bytes the nested fold returns n chunks that concatenate back to the bytes, for n up to 128, and aborts above |
| PriceRecords.RecordParts | contracts/pyth-pnau-decoder-v1.clar:205-253 | a record that decodes has type 0 and leaf bytes that are the announced number of bytes behind its size field, at most 255 |
| PriceRecords.RecordProof | contracts/pyth-pnau-decoder-v1.clar:216-253 | the proof of a decoded record is the announced number of chunks behind it, at most 128, if they fit the buffer, and empty if not; the next record is sought behind the announced proof either way |
| PriceRecords.RecordOutcome | contracts/pyth-pnau-decoder-v1.clar:205-253 | exactly which bytes decode as a record, by length, type, leaf size and proof size; all others abort |
| PriceRecords.LeafFixesFields | contracts/pyth-pnau-decoder-v1.clar:205-253 | from 85 bytes on, every decoded field is the one in the leaf that the proof covers |
| PriceRecords.LeafFixesFieldsIff | contracts/pyth-pnau-decoder-v1.clar:205-253 | the leaf determines the decoded fields iff it has at least 85 bytes |
| PriceRecords.RecordRoundTrip | unit-tests/pyth/helpers.ts:241-260 | a serialized record anywhere in a buffer is read back with its leaf and proof, and the next one is found behind it |
| PriceRecords.RecordsRoundTrip | unit-tests/pyth/helpers.ts:513-534 | serialized records come back in order, all of them or the announced number, whichever is less, and the scan aborts when that is more than 64 |
| Merkle.BuildLevel | unit-tests/pyth/helpers.ts:454-462 | one pass of the tree builder gives the next level: twenty bytes of the raw hash of each adjacent pair behind a 1, smaller first, and of an odd last node with itself |
| Merkle.BuildRoot | unit-tests/pyth/helpers.ts:451-470 | the level loop ends and leaves the root, which `Merkle.RootByLevels` and `Merkle.OddLastDoubled` determine |
| Merkle.RootByLevels | unit-tests/pyth/helpers.ts:451-463 | the root of one node is the node, and a longer level has the root of whatever is the level above it by the raw hash |
| Merkle.OddLastDoubled | unit-tests/pyth/helpers.ts:458-460 | writing the last node of an odd level twice does not change the root |
| Merkle.BuildLevelCapturing | unit-tests/pyth/helpers.ts:561-579 | one pass of the proof builder gives the same level, captures exactly the neighbour of the target in its pair, or the target itself when it is an odd last node, and moves the target to its parent |
| Merkle.ComputeMerkleProof | unit-tests/pyth/helpers.ts:553-581 | the proof built is the path of siblings of the target position |
| Merkle.ProofPath | unit-tests/pyth/helpers.ts:553-581 | a proof has one sibling per level of the tree |
| Merkle.HashNodesSymmetric | unit-tests/pyth/helpers.ts:536-546 | the hash of two nodes does not depend on their order |
| Merkle.CheckProofHashes | unit-tests/pyth/helpers.ts:536-551 | a leaf is hashed behind a 0 and two nodes behind a 1 with the smaller first, twenty bytes of the raw hash each, and the path is folded from its front |
| Merkle.PathReachesRoot | unit-tests/pyth/helpers.ts:447-472 | folding the siblings of any position of any level gives the root |
| Merkle.Completeness | contracts/pyth-pnau-decoder-v1.clar:151-177 | every leaf of every non-empty batch checks against the root of the batch with the proof of its position |
| Merkle.Soundness | contracts/pyth-pnau-decoder-v1.clar:151-177 | a leaf accepted against the root of a batch, with a path of any length, is in the batch, or two different strings hashed on the way collide |
| Vaa.FoldReadsSignatures | contracts/wormhole/wormhole-core-v2.clar:291-303 | the 19-round fold reads exactly the announced signatures and leaves the cursor at the body |
| Vaa.RecoversExactly | contracts/wormhole/wormhole-core-v2.clar:261-271 | the recovered keys, in order and number, are those of exactly the signatures that recover to one, with the positions they claim |
| Vaa.VaaRoundTrip | contracts/wormhole/wormhole-core-v2.clar:114-166 | parsing a serialized VAA gives every field back, and keys are recovered against the double hash of exactly the serialized body |
| Vaa.HeaderParses | contracts/wormhole/wormhole-core-v2.clar:114-166 | for up to 255 serialized signatures the parser reads the first 19 and double-hashes and parses whatever is behind them as the body |
| Vaa.VaaRoundTripIff | contracts/wormhole/wormhole-core-v2.clar:114-166 | a serialized VAA of up to 255 signatures comes back iff it has at most 19 |
| Vaa.ParseVaaOutcome | contracts/wormhole/wormhole-core-v2.clar:114-166 | how parsing any bytes ends, error code by error code, is decided by their length and the announced number of signatures |
| WormholeCore.CheckKeysCounts | contracts/wormhole/wormhole-core-v2.clar:274-288 | the key fold aborts iff a position is out of range and otherwise returns, without duplicates, the distinct keys that sit at the position they claim |
| WormholeCore.VerifiesIffApproved | contracts/wormhole/wormhole-core-v2.clar:170-188 | a VAA verifies iff it names the active and stored set, has version 1, claims only positions in it, and floor(2n/3) + 1 distinct guardian keys signed it |
| WormholeCore.VerifyOutcome | contracts/wormhole/wormhole-core-v2.clar:170-188 | what verification of a VAA that parses answers, error code by error code, in the order of its checks |
| WormholeCore.SerializedVerifiesIff | unit-tests/wormhole/helpers.ts:368-421 | a serialized VAA verifies iff keys of a quorum of the active set recover, from the double hash of its own body, at the positions they claim, and then as that body |
| WormholeCore.QuorumIntersection | contracts/wormhole/wormhole-core-v2.clar:370-371 | two VAAs accepted under one set share at least floor(n/3) + 1 signers |
| WormholeCore.UnusableSetApprovesNothing | contracts/wormhole/wormhole-core-v2.clar:249-253 | blank entries never count: a set with fewer whole keys than its quorum verifies nothing |
| WormholeCore.AddressesAreChunks | contracts/wormhole/wormhole-core-v2.clar:316-382 | the cue fold and the reads split up to 19 addresses into 20-byte chunks that concatenate back, and abort on more |
| WormholeCore.CompressesPoint | contracts/wormhole/wormhole-core-v2.clar:306-311 | a 64-byte key becomes 2 or 3, by the parity of its second coordinate as a number, and its first coordinate (section 2.3.3 of SEC 1) |
| WormholeCore.SerializeGuardianPayload | unit-tests/wormhole/helpers.ts:428-459 | the loop over the key chain writes the payload, or throws iff a field does not fit |
| WormholeCore.GuardianPayloadRoundTrip | contracts/wormhole/wormhole-core-v2.clar:326-368 | for any number of addresses a byte can count: more than 19 abort, else the serialized update comes back as index and addresses, or as the error of the first check it fails |
| WormholeCore.GuardiansOutcome | contracts/wormhole/wormhole-core-v2.clar:326-368 | how any payload is answered: by its length, the abort above 19 guardians, then its fields in order |
| WormholeCore.ConsolidateEntries | contracts/wormhole/wormhole-core-v2.clar:242-258 | entry i is the i-th key with its compression iff bytes 12 to 32 of the hash of the key are address i, and blank otherwise |
| WormholeCore.ConsolidateOkIff | contracts/wormhole/wormhole-core-v2.clar:242-258 | the fold aborts iff there are more keys than addresses or a key is neither empty nor 64 bytes |
| WormholeCore.NothingVerifiesUninitialized | contracts/wormhole/wormhole-core-v2.clar:83-92 | before the first rotation nothing verifies |
| WormholeCore.RotationStep | contracts/wormhole/wormhole-core-v2.clar:195-229 | a rotation moves to a greater id never used before, keeps every past set, stores the matching keys, comes from the governance emitter and carries a quorum of the set it replaces |
| WormholeCore.RotateCommitsIff | contracts/wormhole/wormhole-core-v2.clar:195-229 | a serialized update of up to 255 addresses commits iff module, action, chain, index and emitter are right, there are at most 19 addresses with one key each, empty or of 64 bytes, and, once initialised, a quorum signed |
| WormholeCore.RotateOutcome | contracts/wormhole/wormhole-core-v2.clar:195-213 | the order and error codes of the checks behind a VAA that is taken and a payload that parses |
| WormholeCore.RotationInstalls | contracts/wormhole/wormhole-core-v2.clar:242-258 | the entry stored for key i is the key with parity byte and first coordinate iff it has 64 bytes and its hash ends in address i, and two empty buffers otherwise |
| WormholeCore.KeyChainInstalled | unit-tests/wormhole/helpers.ts:30-46 | rotating to the serialized addresses of a key chain, each derived from its key, with its keys commits and stores every key |
| WormholeCore.RotatedSetNeedsKeys | contracts/wormhole/wormhole-core-v2.clar:195-258 | the usable keys of the set a rotation leaves are exactly the 64-byte ones passed to it whose hashes end in their addresses, and with fewer of them than the quorum nothing verifies |
| WormholeCore.RotatedSetVerifiesIff | contracts/wormhole/wormhole-core-v2.clar:170-258 | after a rotation a serialized VAA verifies iff it names the new set, has version 1, claims only positions in it and at least floor(2n/3) + 1 distinct passed keys that match their addresses signed its body at the positions they claim |
| WormholeCore.EmptyKeysMatchNothing | contracts/wormhole/wormhole-core-v2.clar:242-258 | a rotation with empty keys leaves no usable key |
| WormholeCore.WormholeContract.UpdateGuardiansSet | contracts/wormhole/wormhole-core-v2.clar:195-229 | the call ends in the state the rotation function gives and returns the parsed VAA, the addresses of its payload and the keys, or leaves everything unchanged with its error |
| PnauDecoder.DecodeCertifies | contracts/pyth-pnau-decoder-v1.clar:57-73 | every update returned is that of a record at one of the stops of the message's own scan, whose own leaf and proof check against the root of a verified VAA from an authorised source |
| PnauDecoder.OnlyCommittedLeaves | contracts/pyth-pnau-decoder-v1.clar:132-149 | against the root of a batch only leaf bytes of the batch are returned, or a collision is exhibited |
| PnauDecoder.DecodedAtMost64 | contracts/pyth-pnau-decoder-v1.clar:201-254 | at most 64 updates are returned |
| PnauDecoder.HeaderOutcome | contracts/pyth-pnau-decoder-v1.clar:100-130 | how the header of any bytes is answered, error code by error code: by its length, then by its fields in order |
| PnauDecoder.PartsOutcome | contracts/pyth-pnau-decoder-v1.clar:57-61 | behind an accepted header the announced VAA bytes and everything behind them, or the cursor's error |
| PnauDecoder.MerkleRootOutcome | contracts/pyth-pnau-decoder-v1.clar:75-98 | how any payload is answered, and which of its bytes are slot, ring size and root |
| PnauDecoder.DecodeOutcome | contracts/pyth-pnau-decoder-v1.clar:57-73 | behind a verified VAA with a root: records that do not parse, then one that does not prove itself, then the source, each with its answer |
| PnauSerializer.BuildBatch | unit-tests/pyth/helpers.ts:419-445 | the batch built holds each update with its message and the proof of its own position |
| PnauSerializer.SerializePnau | unit-tests/pyth/helpers.ts:484-534 | the loop writes the header, the VAA and the records of exactly the identifiers to submit, or throws iff a number does not fit its bytes |
| PnauSerializer.AuwvRoundTrip | contracts/pyth-pnau-decoder-v1.clar:75-98 | slot and root of a serialized payload come back, the ring size times 65536, or the error of the first failing check |
| PnauSerializer.PnauRoundTrip | contracts/pyth-pnau-decoder-v1.clar:100-130 | without trailing bytes the VAA and the update bytes come back, or the error of the first failing header check |
| PnauSerializer.PnauRoundTripsIff | unit-tests/pyth/helpers.ts:474-513 | a message comes back iff magic, versions and proof type are the accepted ones and the trailing size is 0 |
| PnauSerializer.SubmittedDecode | unit-tests/pyth/helpers.ts:419-445 | each submitted item decodes to its own update and checks against the root of the whole batch |
| PnauSerializer.EndToEnd | contracts/pyth-pnau-decoder-v1.clar:57-149 | for any batch and choice of updates, the serialized message under a verified, authorised VAA decodes to exactly the chosen updates in batch order, or aborts when more than 64 would come back |
| PnauSerializer.OneProofTwoPrices | contracts/pyth-pnau-decoder-v1.clar:57-73 | for every leaf below 85 bytes, one VAA over it lets two messages through whose decoded prices differ |
| PythStore.FinalState | contracts/pyth-store-v1.clar:28-81 | after a batch each feed holds the first eligible entry with the greatest publish time, and a feed without one is untouched |
| PythStore.AbortsIff | contracts/pyth-store-v1.clar:55-60 | a batch aborts iff the threshold reaches before time zero and some entry is newer than its feed |
| PythStore.EntryOutcome | contracts/pyth-store-v1.clar:45-60 | how an entry is answered, error code by error code, in the order of the checks |
| PythStore.WriteOutcome | contracts/pyth-store-v1.clar:38-43 | how write ends: the abort of an entry, then the flow, then the empty list |
| PythStore.AcceptedAreTaken | contracts/pyth-store-v1.clar:28-60 | the accepted list is exactly the entries, in batch order, that are eligible in the state before the batch and newer than every eligible entry of their feed before them |
| PythStore.AcceptsIff | contracts/pyth-store-v1.clar:38-60 | something is accepted iff something is fresh and newer than its feed |
| PythStore.ReadAfterWrite | contracts/pyth-store-v1.clar:24-26 | reading a feed after a batch gives, field by field, the entry that won it |
| PythStore.ReadNothing | contracts/pyth-store-v1.clar:24-26 | a feed without a price that got no eligible entry answers 404 |
| PythStore.OrderIndependence | contracts/pyth-store-v1.clar:28-43 | two orders of one batch succeed, fail and abort alike, and leave the same maps when the eligible entries that tie for the greatest time of a feed carry the same price |
| StoreOrder.MapsFixedIff | contracts/pyth-store-v1.clar:28-81 | every order of a batch leaves the same maps iff any two eligible entries of one feed that share its greatest eligible time carry the same price |
| StoreOrder.FirstLeaderStays | contracts/pyth-store-v1.clar:45-81 | an eligible entry with the greatest time of its feed that comes first in a batch is what the feed holds afterwards, ties included |
| StoreOrder.CountFixedIff | contracts/pyth-store-v1.clar:38-43 | every order of a batch gets the same number of entries accepted iff no feed has two eligible entries with different publish times |
| StoreOrder.OlderFirstAcceptsOneMore | contracts/pyth-store-v1.clar:28-60 | of two eligible entries of one feed, older first gets exactly one more entry accepted than newer first, whatever follows, and leaves the same maps |
| PythStore.BatchesCompose | contracts/pyth-store-v1.clar:28-43 | two committed batches in a row are the one batch of both, maps and returned list |
| PythStore.BatchKeepsStore | contracts/pyth-store-v1.clar:45-81 | both maps keep the same keys and times, the returned list is exactly the taken entries in batch order with times growing per feed, no timestamp goes back, every price was there before or is accepted |
| PythStore.StoreContract.WriteBatchEntry | contracts/pyth-store-v1.clar:45-81 | an entry sets both maps for its feed, or fails and changes nothing |
| PythStore.StoreContract.WriteBatch | contracts/pyth-store-v1.clar:28-43 | the loop of writes ends in the specified maps and list; failing the checks that come after the writes restores both maps |
| PythGovernance.SerializeSources | unit-tests/pyth/helpers.ts:373-386 | the loop over data sources writes their bytes, or throws iff the count or a chain does not fit |
| PythGovernance.SourcesRoundTrip | contracts/pyth-governance-v1.clar:415-470 | the 34-byte-stride fold inverts the serializer for every list of up to 255 sources |
| PythGovernance.FlowPassesIff | contracts/pyth-governance-v1.clar:81-107 | under any plan, store and decoder pass exactly for calls from the plan's oracle, any other contract exactly as the plan's oracle with the plan's three contracts |
| PythGovernance.AuthorityStep | contracts/pyth-governance-v1.clar:127-287 | an update commits only for a newer message of its own action from the governance source in force, verified by the plan's wormhole contract, and changes its own field and the sequence number only |
| PythGovernance.GovernanceContract.ParseAndVerifyPtgm | contracts/pyth-governance-v1.clar:351-378 | the sequence number is written exactly when envelope and sequence are accepted |
| PythGovernance.GovernanceContract.Update | contracts/pyth-governance-v1.clar:127-278 | each of the nine calls ends in the specified state and returns the value it set, or the whole new plan; any failure after the sequence was written restores every variable |
| PythGovernance.GovernanceContract.SetField | contracts/pyth-governance-v1.clar:380-428 | the body of the action sets the one variable it names and that value is returned, or nothing changes |
| PtgmSerializer.PtgmRoundTrip | unit-tests/pyth/helpers.ts:330-345 | a serialized envelope gives action and body back, or is rejected when magic, module or chain is another |
| PtgmSerializer.PrincipalRoundTrip | unit-tests/pyth/helpers.ts:304-328 | a length-prefixed principal is read back |
| PtgmSerializer.ChangeRoundTrip | unit-tests/pyth/helpers.ts:346-391 | each of the nine bodies, serialized and parsed, makes exactly the change it was made for |
| PtgmSerializer.GovernExecutesIff | contracts/pyth-governance-v1.clar:127-278 | what each entry point answers to a verified serialized message, error code by error code, in the order of its checks; an executed one makes and reports exactly its change |
| PtgmSerializer.TruncatedMessages | contracts/pyth-governance-v1.clar:351-428 | how envelopes and bodies of any length are answered and which bytes they are read from |
| PythOracle.StxLedger.TransferStx | contracts/pyth-oracle-v2.clar:43-43 | the transfer moves the amount or changes nothing |
| PythOracle.OracleContract.VerifyAndUpdatePriceFeeds | contracts/pyth-oracle-v2.clar:24-44 | the call ends in the specified store and balances; a fee that cannot be charged undoes the write |
| PythOracle.OracleContract.DecodeForFee | contracts/pyth-oracle-v2.clar:46-64 | the call returns the decoded updates and moves the fee for them, store untouched, or changes nothing |
| BridgeRuns.StepFrame | contracts/pyth-oracle-v2.clar:24-64 | which parts of the state each public call can change; stored prices come only from the updates it returns |
| BridgeRuns.GovernanceStep | contracts/pyth-governance-v1.clar:335-378 | in any state, a committed governance call has the chain of authority, under the plan's own wormhole contract with a guardian quorum |
| BridgeRuns.RunKeepsValid | contracts/pyth-store-v1.clar:12-22 | in every reachable state prices and timestamps have the same keys and positive equal times, and every stored guardian set id is at most the active one |
| BridgeRuns.RunAdvances | contracts/wormhole/wormhole-core-v2.clar:213-216 | between any two points of a run guardian ids, sequence and publish times never go back and no guardian set is overwritten |
| BridgeRuns.EveryRotationApproved | contracts/wormhole/wormhole-core-v2.clar:195-229 | every rotation of a run raises the id to an unused one and, after the first, carries a quorum of the set it replaces |
| StuckBridge.StuckForever | contracts/wormhole/wormhole-core-v2.clar:170-188 | under the own plan, from a state whose active set has fewer usable keys than its quorum no run of calls changes anything |
| StuckBridge.UnusableRotationIsFinal | contracts/wormhole/wormhole-core-v2.clar:195-229 | in a run, a committed rotation under the own plan with fewer matching keys than the quorum is the last call that changes anything |
| BridgeRuns.SequencesIncrease | contracts/pyth-governance-v1.clar:368-371 | of two committed governance calls of a run the later has the greater sequence number, whatever the actions |
| BridgeRuns.NoReplay | contracts/pyth-governance-v1.clar:368-371 | no message body is executed twice through any of the nine entry points, under whatever signatures and whatever wormhole contracts verified it, and the same bytes never commit twice through the modelled one |
| GovernanceChain.FieldOrigin | contracts/pyth-governance-v1.clar:52-79 | in every reachable state each of the nine parameters is the initial one or was set, and not changed since, by a committed message of its own action from the governance source in force at that moment |
| GovernanceChain.SourceChain | contracts/pyth-governance-v1.clar:263-287 | the governance source of every reachable state is reached from the initial one by an unbroken chain of committed messages in which each source, then in force, names the next |
| BridgeRuns.AcceptedAreProven | contracts/pyth-oracle-v2.clar:33-37 | every update a committed oracle call returns is that of a record of its message, whose own leaf and proof check against the root of the message's quorum-approved, authorised VAA |
| BridgeRuns.DirectWriteFails | contracts/pyth-store-v1.clar:39-40 | under the own plan nobody but the oracle writes to the store; `BridgeEndToEnd.DirectWriteOutcome` covers every other plan |
| BridgeRuns.PlanEnforced | contracts/pyth-governance-v1.clar:81-107 | whatever plan is in force, a committed call was made under it, and answers that are not the modelled contracts' are those of the contracts in it |
| BridgeRuns.StoreChangedByPlan | contracts/pyth-store-v1.clar:39-40 | the store changes only while the plan in force names it, and only by that plan's oracle |
| BridgeRuns.StepStores | contracts/pyth-oracle-v2.clar:24-44 | a step leaves the price of a feed as it was, or returned an update with that price, proved by a record of its message |
| BridgeRuns.Provenance | contracts/pyth-oracle-v2.clar:24-44 | in every reachable state every stored price is that of an update some call of the run returned, proved by a record of that call's message under the guardian set and the price sources in force at that call |
| PublishedPrices.ProvenIsPublished | contracts/pyth-oracle-v2.clar:33-37 | for any bytes: what a message proves under a VAA that commits to the root of a batch of whole messages is a message of the batch, or strings hashed for a record of that message collide |
| PublishedPrices.EveryPricePublished | contracts/pyth-oracle-v2.clar:24-44 | over every run whose VAAs commit to published batches, every stored price is that of a published message, or a committed message of the run exhibits a collision with the batch its own VAA commits to |
| BridgeFees.ChargedIff | contracts/pyth-oracle-v2.clar:38-43 | a call is charged iff count * mantissa * 10^exponent is positive, fits 128 bits and is due from someone else than the recipient who can afford it |
| BridgeFees.FeeByExponent | contracts/pyth-oracle-v2.clar:41-41 | the fee at exponent 0 is count * mantissa, and one more in the exponent makes it ten times as much |
| BridgeFees.FeeFixedIff | contracts/pyth-oracle-v2.clar:38-43 | the order of a batch does not matter to its fee iff updates cost nothing or no feed has two eligible entries with different publish times |
| BridgeFees.TransferConserves | contracts/pyth-oracle-v2.clar:43-43 | a transfer keeps the total of all balances |
| BridgeFees.StepPays | contracts/pyth-oracle-v2.clar:38-64 | a step changes a balance by exactly the fee it pays or receives and keeps the total |
| BridgeFees.FeesConserved | contracts/pyth-oracle-v2.clar:38-64 | over every run the total is constant and each balance changed by the fees received minus the fees spent, each as in force at its call |
| BridgeEndToEnd.SubmissionDecodes | contracts/pyth-pnau-decoder-v1.clar:57-73 | a serialized submission decodes iff at most 64 records come back, a quorum signed its VAA and its source is authorised, and then to the chosen updates |
| BridgeEndToEnd.AnyUpdateIsSendable | unit-tests/pyth/helpers.ts:419-534 | every update in range can be sent under every header and body in range, and the message then fits the input buffer |
| BridgeEndToEnd.WriteCommitsIff | contracts/pyth-store-v1.clar:28-43 | a batch commits iff one of its entries is eligible and the threshold does not reach before time zero, and then accepts exactly the taken entries and leaves each feed its newest eligible one |
| BridgeEndToEnd.UpdateCommitsIff | contracts/pyth-oracle-v2.clar:24-44 | an update call commits iff it fits its argument, at most 64 records come back and quorum, source, the staleness threshold in force, the stored times and the fee allow it; then it returns exactly the taken updates and in the next state each feed holds its newest storable one; otherwise the state stays |
| BridgeEndToEnd.UpdateReached | contracts/pyth-oracle-v2.clar:24-44 | in a run, the state right after such a call holds for each feed the newest storable one of its updates |
| BridgeEndToEnd.UpdateOutcome | contracts/pyth-oracle-v2.clar:24-44 | what an update call answers to any bytes under the own plan, in the order of its steps |
| BridgeEndToEnd.DecodeCommitsIff | contracts/pyth-oracle-v2.clar:46-64 | decode-price-feeds commits iff it fits, at most 64 records come back and quorum, source and the fee for all of them allow it; then it returns the chosen updates and changes balances alone |
| BridgeEndToEnd.DirectWriteOutcome | contracts/pyth-store-v1.clar:28-43 | what a write sent straight to the store answers under any plan, and what it leaves when the plan's oracle sent it |
| BridgeEndToEnd.RotationCommitsIff | contracts/wormhole/wormhole-core-v2.clar:195-229 | as a transaction a serialized rotation commits iff its VAA fits 2048 bytes and module, action, chain, index, emitter, keys and quorum are right, in numbers; then the new set is active and nothing else changes |
| BridgeEndToEnd.GovernanceCommitsIff | contracts/pyth-governance-v1.clar:127-278 | as a transaction a serialized governance message commits iff it fits, a quorum signed it and magic, module, chain id, sequence, entry point, emitter and plan are right, in numbers; then exactly its change is made |
| BridgeEndToEnd.AtDeployment | contracts/pyth-governance-v1.clar:52-79 | the fee, threshold, sequence number and plan the bridge starts with |
| Relayer.RunLoop.Receive | example/relayer/src/service.rs:264-320 | handling a command changes the two loop variables and reacts as specified |
| Relayer.AdvanceKeeps | example/relayer/src/utils.rs:19-26 | every step of every thread keeps the three protocol invariants, among them that a clock ends only when told |
| Relayer.RelayerSafe | example/relayer/src/service.rs:264-320 | over every interleaving posts never exceed processed starts, exactly the last clock is untold, and a told clock sends at most one more tick |
| Relayer.TakenInOrder | example/relayer/src/service.rs:264-276 | over any stretch of a run commands are taken first in, first out, each once and none skipped |
| Relayer.LoopEndsIff | example/relayer/src/service.rs:264-320 | the loop ends at a processed stop command or a panicking attempt, and at nothing else |
| Relayer.StopEndsAll | example/relayer/src/service.rs:315-318 | after a processed stop nothing is posted or started in any continuation |
| Relayer.EveryStartCanPost | example/relayer/src/service.rs:277-313 | the bound on posts is reached for every n |
| Relayer.StartPostsIff | example/relayer/src/service.rs:292-313 | from a processed start to the next there is one post if the first attempt that reaches the node is posted, and none otherwise |
| Relayer.RejectedPostUsesUpStart | example/relayer/src/service.rs:417-441 | a run in which the node rejects the first start's transaction and, however it goes on, nothing is posted before another start |
| Relayer.LateTickHappens | example/relayer/src/utils.rs:19-26 | the bound on late ticks is reached |
| Relayer.StoppedLoopKeepsItsClock | example/relayer/src/service.rs:315-318 | after the loop stops nothing is posted or started and its last clock is never told to terminate and never ends |

## Left out

- BridgeRuns.Provenance: asks for the proof only when the plan in force at the call is the repository's own, because governance can put contracts into the plan whose code nobody knows; and it ties the fields to the leaf only from 85 bytes on, because below that it is false.
- BridgeRuns.NoReplay: does not say that the same bytes cannot commit twice through a wormhole contract that answers them with another body, because nothing is known of such a contract.
- Merkle.Soundness: is not stated as "the leaf is in the batch" alone, which no 20-byte hash satisfies.
- Merkle.BuildLevelCapturing: tracks the target by position where the helper compares object references; each node is a fresh object, so both pick the same one.
- Vaa.VaaRoundTripIff: covers signatures of 66 bytes, as the helpers produce them.
- Relayer.AdvanceKeeps: handles one command as one step; the messages it sends to clocks are queued at once.
- Serializers that only push a fixed list of parts (VAA header and body, price message, record, governance envelope) are functions; those with a loop are methods.
- The bounds on argument buffers and lists are checked once, where a transaction enters (`PythOracle.WellTyped`); the functions and methods of the single contracts take longer arguments than the contracts can be given.
- 128-bit overflow of a balance: the supply of STX is far below it.
- The legacy decoder `contracts/pyth-p2wh-decoder-v1.clar`, which is not deployed, and the traits.
- `read-price-feed` and the read-only getters: each returns a field of the modelled state.
- `print` events and Clarity execution costs.
- The internals of keccak, key recovery, the cursor and Merkle libraries and principal decoding.
- The relayer's configuration, HTTP fetching, RPC calls, key collection and fee-bump map, into which nothing is ever inserted.
- `example/cbtc`, deployment plans and fixtures.

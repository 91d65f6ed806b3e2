# Aztec Rust client: a verified model of its protocol core

This project models the protocol core and the transaction path of an Aztec
client library written in Rust, and proves what that code is relied on for: that
its commitments bind what they commit to, that its two encodings of the kernel
output carry the same information, that its signatures verify, that a wallet
never submits a transaction it was not allowed to submit, and that its several
ways of deriving an address or merging a payload agree.

`dafny verify dfyconfig.toml` checks everything.

## What is modelled

| modules | what they model |
|---|---|
| `Bytes`, `Residues`, `Fields`, `Hex` | big-endian bytes, the two BN254 fields with their real moduli, hexadecimal text |
| `Sponge` | the streaming Poseidon2 sponge, over any permutation |
| `Merkle`, `Sorting`, `PrivateFunctions` | the level-by-level Merkle loops and the sorted, padded private-function tree |
| `Artifacts`, `ArtifactTree`, `CanonicalJson`, `ArtifactHash` | contract artifacts, the SHA-256 function tree, the canonical JSON printer with a parser that reads it back, and the artifact hash built from both |
| `ContractClass` | the class id, which joins the artifact hash, the private-function root and the bytecode commitment |
| `ByteFields` | 31-byte packing, its inverse, and the public bytecode commitment |
| `KernelTypes`, `KernelWriters`, `KernelReader`, `KernelAtoms`, `KernelCodec`, `KernelDecoding` | the kernel tail public inputs, both serializers as methods that append to a vector, a reader for both formats written independently of them, and what the two results determine |
| `Grumpkin`, `Schnorr` | point decompression and Schnorr signatures over an abstract group |
| `Polling`, `WalletSend` | the polling loops and `send_tx`, against every node and every monotone clock |
| `Validation` | calldata and class-log validation, and class-log padding |
| `Payloads`, `Addresses`, `Deployment`, `Accounts` | payload merging, instance addresses, deployment requests and account managers |

Hash functions are parameters and no hash is taken to be injective.  Every binding
theorem is a reduction: it returns either the equality or a collision (or a
preimage of zero) found among the strings the two computations really hashed.

## Where the code and its documentation part

The model follows the code.

- `to_usize` is documented to panic on overflow; it keeps the low 64 bits (`Fields.ToUsize`, `Fields.ToUsizeExactness`).
- Class-log validation is documented to match hashes; it compares a count and lengths (`Validation.HashIsNotChecked`).
- `AccountManager::create` is documented to store a placeholder instance; it stores the derived one (`Accounts.OneAddress`).
- More than 128 private functions do not fail; those with the highest selectors are dropped from the root (`PrivateFunctions.RootForgetsOverflow`).
- Gas, block number and slot lose their upper 32 bits on the wire but not in the hash preimage (`KernelDecoding.WideValuesAreLost`).
- An input with neither variant loses its gas, payer and expiration in the hash preimage but not on the wire (`KernelDecoding.NoVariantLosesTrailer`).
- An interaction's `send` merges the fee payload twice (`Payloads.InteractionSendRepeatsFee`).
- A contract type that does not mention the initializer its artifact has is deployed with that initializer: at the manager's address if the initialization hash is zero, and otherwise at another one, unless Poseidon2 collides on the lists hashed for the two or two different address points share an x (`Accounts.UnmentionedInitializer`).
- `get_instance` called with the options later given to `send` need not give the instance that `send` deploys: a deployment that names no deployer is made in the sender's name (`Deployment.SendInstanceAgrees`).

## Model

| member | source | states |
|---|---|---|
| `Hex.DecodeFixedHex` | crates/core/src/types.rs:13-37 | the padding and copying loop yields the `n`-byte big-endian form of the number the digits denote, or an error |
| `Hex.FixedHexValue` | crates/core/src/types.rs:13-37 | accepted exactly for hex text of at most `2n` digits, and then the bytes have the value of the digits |
| `Hex.SecondLengthCheckIsDead` | crates/core/src/types.rs:29-33 | after the digit count passed, the decoded bytes always fit |
| `Hex.FixedHexUndoesDisplay` | crates/core/src/types.rs:13-48 | decoding the displayed text gives the bytes back |
| `Hex.TextForm` | crates/core/src/types.rs:9-48 | only a lower-case 0x is taken off, and the digits written are lower-case |
| `Hex.FieldHexRoundTrip` | crates/core/src/types.rs:43-72 | `from_hex` undoes `Display` for every element of both fields |
| `Hex.FrFromHexValue` | crates/core/src/types.rs:68-72 | parsed text is the digits' value reduced mod r |
| `Fields.FrBytesRoundTrip` | crates/core/src/types.rs:79-86 | `to_be_bytes` keeps the value and reads back |
| `Fields.FqBytesRoundTrip` | crates/core/src/types.rs:195-209 | the same for `Fq` |
| `Fields.FrFromBytesCanonical` | crates/core/src/types.rs:137-141 | 32 bytes survive the trip through `Fr` exactly when they denote a value below r |
| `Fields.HiLoRecombine` | crates/core/src/types.rs:223-242 | hi * 2^128 + lo is the scalar, both halves below 2^128 |
| `Fields.FrToFqNeverReduces` | crates/core/src/hash.rs:903-905 | an `Fr` read as an `Fq` is the same number |
| `Fields.FrToFqInjective` | crates/core/src/hash.rs:903-905 | different `Fr` elements give different scalars |
| `Fields.ToUsize` | crates/core/src/types.rs:87-94 | the wrapping fold leaves the value mod 2^64 |
| `Fields.ToUsizeExactness` | crates/core/src/types.rs:87-94 | which is the value exactly below 2^64; 2^64 itself becomes 0 |
| `Sponge.Poseidon2Hash` | crates/core/src/hash.rs:24-62 | the cache loop equals the fold over blocks of three, with exactly max(1, ceil(n/3)) permutations |
| `Sponge.HashIsTrace` | crates/core/src/hash.rs:24-62 | permutation j takes the state before it with inputs 3j to 3j+2 added into the first three elements, starting from zeros and the length times 2^64; the hash is the first element at the end |
| `Sponge.IvRecoversLength` | crates/core/src/hash.rs:24-62 | the capacity element n * 2^64 never wraps and gives the length back |
| `Sponge.AbsorbedDataDeterminesInput` | crates/core/src/hash.rs:24-62 | equal capacity element and padded blocks exactly for equal inputs |
| `Sponge.PaddingAloneIsAmbiguous` | crates/core/src/hash.rs:24-62 | without the capacity element trailing zeros would be lost |
| `Merkle.NextLevel` | crates/core/src/hash.rs:578-590 | one pass hashes neighbours and pairs a leftover node with zero |
| `Merkle.MerkleRoot` | crates/core/src/hash.rs:570-616 | the level loop terminates with the root of the top-down tree, for every number of leaves |
| `Merkle.LevelStep` | crates/core/src/hash.rs:578-592 | one pass keeps the root of the top-down tree |
| `Merkle.RootOfPowerOfTwo` | crates/core/src/hash.rs:570-616 | on 2^k leaves that is the recursive half-split tree |
| `Merkle.MembershipPath` | crates/core/src/hash.rs:570-616 | every leaf is led to the root by its siblings, left or right by its position's bits |
| `Merkle.TreeBinding` | crates/core/src/hash.rs:570-616 | equal roots of equally many leaves give equal leaves or a collision among the node preimages |
| `Merkle.LeftEdge` | crates/core/src/hash.rs:595-616 | equal roots of trees of different height make a first leaf equal an inner node, or a collision |
| `PrivateFunctions.ComputePrivateFunctionsRoot` | crates/core/src/hash.rs:535-567 | the caller's slice ends as the same functions with ascending selectors, and the root is that of their leaves, padded |
| `PrivateFunctions.SortAscends` | crates/core/src/hash.rs:549-551 | sorting gives the same functions with selectors in ascending order |
| `PrivateFunctions.KeptAreSmallest` | crates/core/src/hash.rs:563-563 | the entries that reach the root are 128 with the smallest selectors, or all |
| `PrivateFunctions.Membership` | crates/core/src/hash.rs:535-593 | seven siblings lead from an entry's leaf, the hash of separator, selector and key hash, to the root |
| `PrivateFunctions.CachedEmptyRoot` | crates/core/src/hash.rs:535-567 | the cached root for no functions is what the general path gives |
| `PrivateFunctions.RootIsFullTree` | crates/core/src/hash.rs:535-593 | the root is the half-split tree of height 7 over 128 leaves |
| `PrivateFunctions.RootIgnoresOrder` | crates/core/src/hash.rs:535-567 | with distinct selectors every permutation gives one root |
| `PrivateFunctions.DuplicateSelectorsAreOrdered` | crates/core/src/hash.rs:535-567 | every list with two different entries for one selector has a rearrangement that sorts differently, where that selector's entries start |
| `PrivateFunctions.RootBinding` | crates/core/src/hash.rs:535-593 | equal roots of lists of any lengths give equal first 128 sorted entries, so equal sorted lists where they fit, or a collision from the two trees |
| `PrivateFunctions.RootOrderExact` | crates/core/src/hash.rs:535-593 | for every length: all orders of a list share a root exactly when selectors determine the entries that can reach it; otherwise a rearrangement has another root, or a collision is among the built preimages |
| `PrivateFunctions.KeptDeterminedSmall` | crates/core/src/hash.rs:535-567 | up to 128 functions that condition is: one selector, one entry |
| `Sorting.SortStable` | crates/core/src/hash.rs:535-567 | entries with one selector keep their order |
| `PrivateFunctions.RootForgetsOverflow` | crates/core/src/hash.rs:563-563 | beyond 128 the root is that of the first 128 after sorting |
| `ArtifactTree.DigestToFieldKeeps31Bytes` | crates/core/src/hash.rs:618-632 | the field keeps exactly the first 31 digest bytes, unreduced |
| `ArtifactTree.LeafBytesInjective` | crates/core/src/hash.rs:708-726 | the 69 leaf bytes determine selector, metadata hash and bytecode hash |
| `ArtifactTree.LeafLayout` | crates/core/src/hash.rs:708-726 | a version byte, then selector, metadata hash and bytecode hash as big-endian numbers |
| `ArtifactTree.ComputeFunctionTreeRoot` | crates/core/src/hash.rs:696-740 | leaves, padding to a power of two and the loop give the specified root |
| `ArtifactTree.Membership` | crates/core/src/hash.rs:595-740 | siblings lead from a function's leaf to the root, left child first |
| `ArtifactTree.RootBinding` | crates/core/src/hash.rs:595-740 | equal roots of lists of any two lengths give equal ordered lists, or a collision or zero preimage among the built strings |
| `CanonicalJson.QuoteReadBack` | crates/core/src/hash.rs:652-682 | an escaped string is read back from its text, whatever follows |
| `CanonicalJson.PrintReadBack` | crates/core/src/hash.rs:652-682 | a parser recovers every nested value from its canonical text, up to key order |
| `CanonicalJson.SamePrintsAlike` | crates/core/src/hash.rs:652-682 | values equal up to key order at every depth print alike |
| `CanonicalJson.PrintIsCanonical` | crates/core/src/hash.rs:652-682 | texts are equal exactly for values equal up to key order |
| `CanonicalJson.PrintsOrdered` | crates/core/src/hash.rs:652-682 | read as JSON, the text is the same value with strictly ascending keys in every object at every depth |
| `CanonicalJson.StrLeqByIndex` | crates/core/src/hash.rs:670-670 | the key order: a prefix first, otherwise the smaller character at the first difference |
| `CanonicalJson.EscapeForms` | crates/core/src/hash.rs:657-659 | which characters are escaped, and how |
| `ArtifactHash.LeafBinding` | crates/core/src/hash.rs:743-756 | equal leaves give equal selector, return types and bytecode, or a breach of SHA-256 |
| `ArtifactHash.ListBinding` | crates/core/src/hash.rs:696-756 | equal function-tree roots give equal function lists, or a breach |
| `ArtifactHash.SelectIsFilter` | crates/core/src/hash.rs:696-707 | private functions, and utility or unconstrained ones, in artifact order |
| `ArtifactHash.LeafContents` | crates/core/src/hash.rs:743-756 | selector, hash of the canonical return types, hash of the bytecode or zero |
| `ArtifactHash.MetadataTextIs` | crates/core/src/hash.rs:758-772 | the exact metadata text, name before outputs |
| `ArtifactHash.TopLayout` | crates/core/src/hash.rs:639-650 | the 97 hashed bytes: version, private root, utility root, metadata hash |
| `ArtifactHash.HashBinding` | crates/core/src/hash.rs:634-772 | equal artifact hashes give equal private and utility functions in order and equal metadata, or a breach among all hashed strings |
| `ContractClass.ClassIdBinding` | crates/core/src/hash.rs:793-861 | equal class ids give equal functions in order, metadata, verification keys and public bytecode, or a breach of Poseidon2 or SHA-256 on a string that was hashed |
| `ContractClass.KeysBinding` | crates/core/src/hash.rs:825-843 | the private-function root and the selector order together give the verification keys in order |
| `ContractClass.SameClassSameId` | crates/core/src/hash.rs:793-861 | conversely those parts determine the class id |
| `ContractClass.ClassIdIs` | crates/core/src/hash.rs:793-822 | the class id as the documented formula of its three parts |
| `ContractClass.ClassSources` | crates/core/src/hash.rs:825-861 | entries in artifact order with a missing key hash as zero; bytecode of the first public_dispatch |
| `ByteFields.BufferAsFields` | crates/core/src/abi/buffer.rs:9-26 | the chunk loop yields length, packed chunks and zero fill, or an error |
| `ByteFields.BufferFromFields` | crates/core/src/abi/buffer.rs:28-43 | the unpacking loop yields the low 31 bytes of every field, cut to the length |
| `ByteFields.BufferRoundTrip` | crates/core/src/abi/buffer.rs:9-43 | accepted exactly when length and chunks fit, and then unpacking gives the buffer back |
| `ByteFields.PackedValue` | crates/core/src/abi/buffer.rs:9-26 | field i is the number of bytes 31i to 31i+31, zero-filled on the right |
| `ByteFields.AsFieldsElements` | crates/core/src/abi/buffer.rs:9-26 | length first, then the chunks, then zeros |
| `ByteFields.PublicBytecodeCommitment` | crates/core/src/hash.rs:774-791 | hashes the separator and the unpadded chunk fields |
| `ByteFields.CommitmentPreimageInjective` | crates/core/src/hash.rs:774-791 | equal preimages come from equal bytecode |
| `ByteFields.CommitmentIs` | crates/core/src/hash.rs:774-791 | separator plus length times 2^32, then the packed bytecode, up to 31*2999 bytes |
| `ByteFields.PackAloneIsAmbiguous` | crates/core/src/hash.rs:774-791 | without the length in the separator a trailing zero byte would be lost |
| `ByteFields.BoundsAgree` | crates/contract/src/deployment.rs:112-120 | the commitment's and the capsule's bounds accept the same lengths |
| `ByteFields.CapsuleCarriesCommitment` | crates/contract/src/deployment.rs:111-147 | no capsule exactly for empty bytecode; otherwise the capsule holds the fields and the length the commitment hashes, and unpacks to the bytecode |
| `KernelWriters.ByteVec.WriteTxConstantData` | crates/core/src/kernel_types.rs:828-882 | appends the constants in layout order, absent gas settings as zero |
| `KernelWriters.ByteVec.WriteRollupAccumulatedData` | crates/core/src/kernel_types.rs:884-912 | appends the accumulated data of the rollup variant |
| `KernelWriters.ByteVec.WritePublicAccumulatedData` | crates/core/src/kernel_types.rs:914-946 | appends one phase of the public variant |
| `KernelWriters.ByteVec.WriteCut` | crates/core/src/kernel_types.rs:848-849 | a 64-bit value is appended as its low 32 bits |
| `KernelWriters.ToBuffer` | crates/core/src/kernel_types.rs:785-821 | the writers produce exactly the wire layout, which `KernelDecoding.BufferRoundTrip` reads back |
| `KernelWriters.FieldVec.WriteConstants` | crates/core/src/kernel_types.rs:679-686 | appends the constants as fields |
| `KernelWriters.FieldVec.WriteRollupData` | crates/core/src/kernel_types.rs:595-609 | appends the rollup data as fields |
| `KernelWriters.FieldVec.WritePublicData` | crates/core/src/kernel_types.rs:576-593 | appends one public phase as fields |
| `KernelWriters.ToFields` | crates/core/src/kernel_types.rs:475-491 | the writers produce exactly the hash-preimage layout, which `KernelDecoding.FieldsRoundTrip` reads back |
| `KernelAtoms.TokensOfBytes` | crates/core/src/kernel_types.rs:751-778 | every value lies behind the widths of those before it, as a big-endian number of its own width, up to the narrowing |
| `KernelDecoding.BufferRoundTrip` | crates/core/src/kernel_types.rs:785-954 | a reader written from field order and widths gives the inputs back from the buffer, for every variant, up to narrowing and absent gas settings |
| `KernelDecoding.FieldsRoundTrip` | crates/core/src/kernel_types.rs:475-729 | the same reader gives the inputs back from the field list in full, up to absent gas settings |
| `KernelDecoding.BufferLayout` | crates/core/src/kernel_types.rs:785-954 | the width in bytes of every value in order |
| `KernelDecoding.AbsentIsZero` | crates/core/src/kernel_types.rs:863-880 | a missing gas setting reads as zero, a present one as itself |
| `KernelDecoding.FieldsTellVariant` | crates/core/src/kernel_types.rs:475-491 | equal field lists come from one variant although no field names it |
| `KernelDecoding.BufferAgreesWithNarrowedFields` | crates/core/src/kernel_types.rs:475-954 | equal buffers exactly for equal field lists after narrowing |
| `KernelDecoding.EncodingsAgree` | crates/core/src/kernel_types.rs:475-954 | with 32-bit gas, block and slot: equal buffers exactly for equal field lists |
| `KernelDecoding.WideValuesAreLost` | crates/core/src/kernel_types.rs:797-871 | the wire form is that of the narrowed input, and the field list differs from it exactly when a gas amount, block number or slot exceeds 32 bits |
| `KernelDecoding.NoVariantLosesTrailer` | crates/core/src/kernel_types.rs:475-491 | without a variant the field list ignores gas, payer and expiration, and the buffer tells them apart up to narrowing |
| `KernelDecoding.UniquelyDecodable` | crates/core/src/kernel_types.rs:785-954 | equal buffers exactly for inputs equal up to narrowing, absent gas settings and a second variant that is hidden |
| `KernelDecoding.FieldsUniquelyDecodable` | crates/core/src/kernel_types.rs:475-729 | equal field lists exactly for inputs equal up to absent gas settings and a hidden variant |
| `KernelDecoding.BufferLength` | crates/core/src/kernel_types.rs:1103-1135 | 82722 bytes for the public variant, 38557 for the rollup one, 697 for none |
| `KernelDecoding.PreimageReadBack` | crates/core/src/kernel_types.rs:493-500 | the hashed list is the variant's separator and fields that read back as the inputs |
| `KernelDecoding.HashCommitsToBuffer` | crates/core/src/kernel_types.rs:493-500 | with 32-bit values equal hash preimages exactly for equal buffers |
| `KernelDecoding.TxHashBinding` | crates/core/src/kernel_types.rs:493-500 | one hash: equal up to absent gas settings, or a collision of the two preimages |
| `Grumpkin.PointFromXIsPositive` | crates/core/src/grumpkin.rs:107-134 | a returned point is on the curve, finite, with positive y; an error means no point has that x |
| `Grumpkin.PointFromXIsUnique` | crates/core/src/grumpkin.rs:107-134 | it is the only such point |
| `Grumpkin.RootChoiceIrrelevant` | crates/core/src/grumpkin.rs:107-128 | the result does not depend on which square root was taken |
| `Grumpkin.ThirdBranchUnreachable` | crates/core/src/grumpkin.rs:107-128 | one of a root and its negation is always positive |
| `Grumpkin.CurveEquation` | crates/core/src/grumpkin.rs:107-134 | a finite point is on the curve when y^2 + 17 is x^3, and positive when 2y is below r |
| `Schnorr.ScalarMulOfMultiple` | crates/core/src/grumpkin.rs:60-76 | scalar multiplication composes on multiples of the generator, zero and infinity included |
| `Schnorr.NoncePointRebuilt` | crates/crypto/src/schnorr.rs:127-142 | s*G + e*P is the nonce point |
| `Schnorr.Completeness` | crates/crypto/src/schnorr.rs:98-142 | every signature verifies under its key, for every key and message |
| `Schnorr.ZeroKey` | crates/crypto/src/schnorr.rs:98-142 | also for the zero key, whose public key is infinity |
| `Schnorr.SignatureFormula` | crates/crypto/src/schnorr.rs:57-124 | e is the hash of nonce point, key and message, and s is k - sk*e modulo q |
| `Schnorr.VerifyFormula` | crates/crypto/src/schnorr.rs:127-142 | acceptance exactly when e is that hash for the point (s + e*sk)*G |
| `Schnorr.MessageBinding` | crates/crypto/src/schnorr.rs:75-142 | one signature accepted for two messages exhibits a Blake2s collision |
| `Schnorr.SpecialSoundness` | crates/crypto/src/schnorr.rs:98-142 | two responses rebuild one nonce point exactly when s + e*sk agrees modulo q |
| `Schnorr.SignatureRoundTrip` | crates/crypto/src/schnorr.rs:24-52 | 64 bytes and 64 byte-fields both give the signature back |
| `Schnorr.FieldsLayout` | crates/crypto/src/schnorr.rs:24-52 | the bytes of s, then the bytes of e |
| `Schnorr.WitnessVerifies` | crates/crypto/src/schnorr.rs:24-142 | a signature carried as byte-fields still verifies |
| `Polling.WaitForTx` | crates/node-client/src/node.rs:755-826 | ends at the first poll that is conclusive or leaves no time, and returns exactly what that poll says: the receipt, Reverted or Timeout |
| `Polling.ExpiresInTime` | crates/node-client/src/node.rs:776-826 | a positive interval ends the wait on every monotone clock |
| `Polling.WaitForTxBounded` | crates/node-client/src/node.rs:776-826 | at most max(1, ceil(timeout/interval)) polls, and the first acceptable receipt |
| `Polling.AcceptedReceipt` | crates/node-client/src/node.rs:755-826 | the default target accepts exactly the unreverted receipts at Checkpointed, Proven or Finalized |
| `Polling.StatusesReached` | crates/node-client/src/node.rs:755-768 | the statuses that reach each target |
| `Polling.DroppedIsNeverReturned` | crates/node-client/src/node.rs:755-826 | not even to a caller who waits for Dropped |
| `Polling.WaitForProven` | crates/node-client/src/node.rs:851-886 | returns the first proven block at or past the receipt's, or times out; a receipt without block is refused before polling |
| `WalletSend.ValidateWhenAnchorAvailable` | crates/wallet/src/base_wallet.rs:376-401 | the first verdict that is not a missing header, or the last one at the deadline |
| `WalletSend.Preflight` | crates/wallet/src/base_wallet.rs:334-374 | lets through exactly no calldata, a pass, or the one ignored failure; stops with the node's error or InvalidData |
| `WalletSend.WaitForTip` | crates/wallet/src/base_wallet.rs:250-286 | ends at the first tip past the start, at a node error, or at the deadline, and says which |
| `WalletSend.WaitForWorldState` | crates/wallet/src/base_wallet.rs:300-332 | probes until the nullifier is found or time is up, and never fails |
| `WalletSend.WaitForSubmissionCheckpoint` | crates/wallet/src/base_wallet.rs:240-294 | a conclusive receipt decides, a fatal one as Reverted; only a wait without one falls back on the tip |
| `WalletSend.FateIsEvidence` | crates/wallet/src/base_wallet.rs:240-294 | success rests on a checkpointed unreverted receipt, or on an advanced tip after a wait in which every receipt was inconclusive |
| `WalletSend.Authorise` | crates/wallet/src/base_wallet.rs:699-778 | permission rests on request, proof, cleared preflight and a Valid or Skipped verdict, in that order, and is denied exactly when one of them refuses |
| `WalletSend.SendTx` | crates/wallet/src/base_wallet.rs:699-784 | at most one submission, only when authorised; nothing sent exactly when something refused; Ok exactly when submitted and landed, with the proven hash and evidence; every later error is the one met |
| `WalletSend.SubmissionIsGuarded` | crates/wallet/src/base_wallet.rs:699-784 | in any safe log the submission is unique and directly follows an accepting verdict |
| `Validation.GetAllPublicCallRequests` | crates/core/src/kernel_types.rs:448-472 | the non-empty requests in setup, app, teardown order |
| `Validation.RequestPositions` | crates/core/src/kernel_types.rs:448-472 | the position of every request: setup, then app logic, then teardown, without those that have no target |
| `Validation.CountAgreesWithList` | crates/core/src/kernel_types.rs:420-472 | the count and the list agree, so zipping never truncates |
| `Validation.ValidateCalldata` | crates/core/src/validation.rs:19-48 | accepts exactly when entries match requests one for one and the total is at most 12288; each error exactly when its cause holds, a mismatch naming the first |
| `Validation.MatchesMeansHashes` | crates/core/src/validation.rs:36-45 | entry i under its separator hashes to what request i states |
| `Validation.TotalIsSum` | crates/core/src/tx.rs:506-511 | the total is the sum of the entries' sizes |
| `Validation.AcceptedCalldataIsBound` | crates/core/src/validation.rs:19-48 | two calldata lists accepted for one transaction agree or collide |
| `Validation.ValidateContractClassLogs` | crates/core/src/validation.rs:55-88 | accepts exactly when counts agree and every declared length covers its log |
| `Validation.MinLengthIs` | crates/core/src/validation.rs:69-74 | the least length ends at the last non-zero field, or is one |
| `Validation.LogHashAt` | crates/core/src/kernel_types.rs:395-417 | hashes with a non-zero value keep their order |
| `Validation.AcceptedLogSurvivesCut` | crates/core/src/validation.rs:55-88 | an accepted log of protocol width, cut to its declared length and padded, is the same log |
| `Validation.CutThenPad` | crates/core/src/tx.rs:399-418 | the cut is harmless exactly when it keeps all emitted fields |
| `Validation.EmittedRoundTrip` | crates/core/src/tx.rs:399-418 | padding and reading the emitted fields strips trailing zeros and nothing else |
| `Validation.HashIsNotChecked` | crates/core/src/validation.rs:55-88 | acceptance depends on the used slots' lengths and on where the logs end: other non-zero hashes and other contents are judged alike |
| `Payloads.MergePayloads` | crates/core/src/tx.rs:553-585 | the loop appends four lists and keeps one payer, or stops at the first conflict |
| `Payloads.MergeSucceedsIff` | crates/core/src/tx.rs:553-585 | succeeds exactly when all stated payers agree |
| `Payloads.ErrorNamesFirstConflict` | crates/core/src/tx.rs:553-585 | the error names the held payer and the first that differs |
| `Payloads.MergeAppend` | crates/core/src/tx.rs:553-585 | the merge of a concatenation is determined by the two merges, with the exact error |
| `Payloads.MergeInParts` | crates/core/src/tx.rs:553-585 | merging merged parts gives the same payload or the same error |
| `Payloads.PartFailureIsFinal` | crates/core/src/tx.rs:553-585 | where a part fails, the whole fails |
| `Payloads.BatchRequest` | crates/contract/src/contract.rs:265-282 | appends all lists in order, a later payer overwriting |
| `Payloads.BatchPayer` | crates/contract/src/contract.rs:265-282 | the batch ends with the last stated payer |
| `Payloads.MergeIsBatch` | crates/contract/src/contract.rs:265-282 | equals the merge wherever that succeeds |
| `Payloads.InteractionSendRepeatsFee` | crates/contract/src/contract.rs:230-233 | fee calls, witnesses, capsules and hashed arguments occur twice; merging once is the same exactly when there are none |
| `Addresses.GetInstance` | crates/contract/src/deployment.rs:259-311 | the instance carries the artifact's class id, the initializer's hash, the given salt, deployer and keys, and the address these derive |
| `Addresses.AddressOnCurve` | crates/core/src/hash.rs:893-927 | for the incoming key v*G the address is the x of (preaddress + v)*G, without a key that of preaddress*G |
| `Addresses.NoAddressIff` | crates/core/src/hash.rs:918-922 | no address exactly when preaddress + v vanishes modulo q |
| `Addresses.KeysHashIs` | crates/core/src/types.rs:501-548 | zero for four zero points, otherwise a hash of the points in order |
| `Addresses.PartialAddressIs` | crates/core/src/hash.rs:860-885 | class id with the salted initialization hash, the latter from salt, initialization hash and deployer |
| `Addresses.InitializationHashIs` | crates/core/src/hash.rs:495-520 | zero without initializer, otherwise over selector and the hash of the encoded arguments |
| `Addresses.AddressBinding` | crates/core/src/hash.rs:863-947 | equal addresses give equal salt, deployer, class, initialization hash and keys, or a breach of Poseidon2 on a list that was hashed, or two different preaddress and key pairs whose points share an x |
| `Addresses.InitBinding` | crates/core/src/hash.rs:495-520 | equal initialization hashes give the same initializer and encoded arguments, or a breach |
| `Addresses.InstanceBinding` | crates/contract/src/deployment.rs:259-311 | an address commits to class contents, initializer call, salt, deployer and keys, with the same alternatives |
| `Deployment.FirstInitializer` | crates/contract/src/deployment.rs:454-507 | finds the first initializer exactly when there is one |
| `Deployment.ChosenConstructor` | crates/contract/src/deployment.rs:454-507 | the named initializer, the first one, or none, each with the right number of arguments |
| `Deployment.InstanceForIs` | crates/contract/src/deployment.rs:616-634 | salt, deployer, keys and initialization from the options and the deployment |
| `Deployment.Request` | crates/contract/src/deployment.rs:549-613 | class, instance and constructor calls in that order, aimed at the instance, or the first failure; the merge cannot fail |
| `Deployment.SendInstanceAgrees` | crates/contract/src/deployment.rs:538-546 | the instance computed beforehand is the one sent when the deploy is universal, names a deployer or comes from zero; otherwise the addresses differ, or a breach |
| `Accounts.SameConstructor` | crates/contract/src/deployment.rs:454-507 | the deployer picks the manager's constructor |
| `Accounts.DeployOptionsFor` | crates/account/src/account.rs:405-418 | universal, with the instance's salt, flags passed on |
| `Accounts.OneAddress` | crates/account/src/account.rs:456-630 | precomputed address, manager, complete address with its keys and partial address, and deployed instance agree, and none of the steps fails |
| `Accounts.ConstructorTargetsAccount` | crates/account/src/account.rs:336-418 | the last call of the deployment request is the specified initializer with its encoded arguments, aimed at the manager's address |
| `Accounts.AccountRequest` | crates/account/src/account.rs:336-372 | a self-deploying account pays after deployment, anybody else before; the payer is the fee payload's; fails only with the error of a part |
| `Accounts.UnmentionedInitializer` | crates/account/src/account.rs:592-630 | the remaining case: refused; or the manager's instance when the initialization hash is zero, and a different address when it is not, or a breach |
| `Accounts.ConsistentOrUnmentioned` | crates/account/src/account.rs:592-630 | the two cases cover every account contract |

## Left out

- The Poseidon2 permutation, SHA-256, Blake2s, Pedersen and the curve arithmetic: parameters.  Point addition and doubling formulas are not modelled; the group laws, the generator's order and the conversions between the two point forms are hypotheses of the signature theorems (`Schnorr.IsGrumpkin`), and that r is prime enters only as "no zero divisors" (`Grumpkin.NoZeroDivisors`).
- Multiplication in the field: repeated addition, proved to be the product mod r (`Grumpkin.MulIsProduct`); how the library computes it is not modelled.
- Square roots: any function that finds one when there is one.
- UTF-8: an injective parameter.  JSON numbers are identified with their text, and objects have distinct keys.
- Sorting: the library's stable sort is a function on lists whose result is written back to the slice; its algorithm is not modelled.
- The cached empty root: modelled as the value the cache is initialised with; sharing between threads is not.
- The sponge's cache array: a list of at most three entries; the zeros behind its fill level are never read.
- `log2().ceil()` on the number of functions: an integer ceiling logarithm instead of floating point.
- Accumulated data of the public and the rollup variant share one record for the five lists they have in common.
- Over-long bytecode: the commitment's panic is an error value.
- WaitForTx: with an interval of zero the clock alone must reach the deadline, which is a hypothesis (`horizon`); with a positive interval it is proved.
- WaitForTip: the receipt fetched in each round is only logged and is not modelled.
- WaitForWorldState: the fixed one-second sleep without a known nullifier is not modelled.
- GetInstance: argument encoding and key derivation are parameters; the benchmark override and the external canonicalization are off.
- AccountRequest: the two ways of wrapping a fee in the account's entrypoint are one parameter.
- OneAddress: the account contract answers the same artifact and initialization spec each time it is asked.
- Error texts: only the kind of an error, and the two phrases the wallet searches for, are modelled.
- Environment switches and helper processes, JSON-RPC and HTTP, the L1 client, waiting for a contract or a message, the private execution environment, kernel proving and the ACVM: not modelled.
- Selector computation, argument encoding, entrypoint encoding, hashing of raw bytes, gas-limit padding in floating point, serde derives, event decoding and option defaults: not modelled; they would only add easy members or sit outside the core.

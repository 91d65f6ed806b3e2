/**
 The public inputs of the private kernel tail (crates/core/src/kernel_types.rs)
 and the one layout both of its encodings are built from.
 */
module KernelTypes {
  import opened Wrappers
  import opened Bytes
  import opened Fields

  type U32 = x: int | 0 <= x < 0x1_0000_0000
  type U64 = x: int | 0 <= x < 0x1_0000_0000_0000_0000
  type U128 = x: int | 0 <= x < 0x1_0000_0000_0000_0000_0000_0000_0000_0000
  type EthAddress = b: seq<Byte> | |b| == 20 witness seq(20, _ => 0)

  // ----- Entities -----

  datatype Gas = Gas(daGas: U64, l2Gas: U64)
  datatype GasFees = GasFees(feePerDaGas: U128, feePerL2Gas: U128)
  datatype GasSettings = GasSettings(
    gasLimits: Option<Gas>,
    teardownGasLimits: Option<Gas>,
    maxFeePerGas: Option<GasFees>,
    maxPriorityFeePerGas: Option<GasFees>)

  datatype L2ToL1Message = L2ToL1Message(recipient: EthAddress, content: Fr)
  datatype ScopedL2ToL1Message = ScopedL2ToL1Message(message: L2ToL1Message, contractAddress: AztecAddress)
  datatype LogHash = LogHash(value: Fr, length: U32)
  datatype ScopedLogHash = ScopedLogHash(logHash: LogHash, contractAddress: AztecAddress)
  datatype PrivateLog = PrivateLog(fields: seq<Fr>, emittedLength: U32)
  datatype PublicCallRequest = PublicCallRequest(
    msgSender: AztecAddress, contractAddress: AztecAddress, isStaticCall: bool, calldataHash: Fr)

  /** The arrays both kinds of accumulated data hold; this is all the rollup kind holds. */
  datatype RollupData = RollupData(
    noteHashes: seq<Fr>,
    nullifiers: seq<Fr>,
    l2ToL1Msgs: seq<ScopedL2ToL1Message>,
    privateLogs: seq<PrivateLog>,
    contractClassLogsHashes: seq<ScopedLogHash>)

  datatype PublicData = PublicData(common: RollupData, publicCallRequests: seq<PublicCallRequest>)

  datatype Snapshot = Snapshot(root: Fr, nextAvailableLeafIndex: U32)
  datatype PartialState = PartialState(noteHashTree: Snapshot, nullifierTree: Snapshot, publicDataTree: Snapshot)
  datatype StateReference = StateReference(l1ToL2MessageTree: Snapshot, partial: PartialState)
  datatype GlobalVariables = GlobalVariables(
    chainId: Fr, version: Fr, blockNumber: U64, slotNumber: U64, timestamp: U64,
    coinbase: EthAddress, feeRecipient: AztecAddress, gasFees: GasFees)
  datatype BlockHeader = BlockHeader(
    lastArchive: Snapshot, state: StateReference, spongeBlobHash: Fr, globals: GlobalVariables,
    totalFees: Fr, totalManaUsed: Fr)
  datatype TxContext = TxContext(chainId: Fr, version: Fr, gasSettings: GasSettings)
  datatype TxConstantData = TxConstantData(
    anchorBlockHeader: BlockHeader, txContext: TxContext, vkTreeRoot: Fr, protocolContractsHash: Fr)

  datatype ForPublic = ForPublic(nonRevertible: PublicData, revertible: PublicData, teardown: PublicCallRequest)

  datatype PublicInputs = PublicInputs(
    constants: TxConstantData,
    gasUsed: Gas,
    feePayer: AztecAddress,
    expirationTimestamp: U64,
    forPublic: Option<ForPublic>,
    forRollup: Option<RollupData>)

  // ----- Atoms: the leaves of both encodings -----

  /** `Cut64` is a 64-bit value that the buffer narrows to 32 bits and the field list does not. */
  datatype Atom =
    | AFr(f: Fr)
    | ABool(b: bool)
    | AU32(n: U32)
    | Cut64(c: U64)
    | AU64(w: U64)
    | AU128(u: U128)
    | AEth(e: EthAddress)

  function AtomBytes(a: Atom): seq<Byte> {
    match a
    case AFr(f) => FrToBytes(f)
    case ABool(b) => if b then [1] else [0]
    case AU32(n) => ToBe(n, 4)
    case Cut64(c) => ToBe(c, 4)
    case AU64(w) => ToBe(w, 8)
    case AU128(u) => ToBe(u, 16)
    case AEth(e) => e
  }

  function EthToFr(e: EthAddress): Fr { FrFromBytes(seq(12, _ => 0) + e) }

  function AtomField(a: Atom): Fr {
    match a
    case AFr(f) => f
    case ABool(b) => if b then 1 else 0
    case AU32(n) => n
    case Cut64(c) => c
    case AU64(w) => w
    case AU128(u) => u
    case AEth(e) => EthToFr(e)
  }

  function BytesOf(atoms: seq<Atom>): seq<Byte> {
    if atoms == [] then [] else BytesOf(atoms[..|atoms| - 1]) + AtomBytes(atoms[|atoms| - 1])
  }

  function FieldsOf(atoms: seq<Atom>): (fs: seq<Fr>)
    ensures |fs| == |atoms|
    ensures forall i :: 0 <= i < |atoms| ==> fs[i] == AtomField(atoms[i])
  {
    seq(|atoms|, i requires 0 <= i < |atoms| => AtomField(atoms[i]))
  }

  /** The concatenated atoms of a list of records. */
  function Flat<T>(f: T -> seq<Atom>, xs: seq<T>): seq<Atom> {
    if xs == [] then [] else Flat(f, xs[..|xs| - 1]) + f(xs[|xs| - 1])
  }

  // ----- Layout -----

  function FrAtoms(xs: seq<Fr>): (atoms: seq<Atom>)
    ensures |atoms| == |xs| && forall i :: 0 <= i < |xs| ==> atoms[i] == AFr(xs[i])
  {
    seq(|xs|, i requires 0 <= i < |xs| => AFr(xs[i]))
  }

  function MsgAtoms(m: ScopedL2ToL1Message): seq<Atom> {
    [AEth(m.message.recipient), AFr(m.message.content), AFr(m.contractAddress)]
  }

  function LogAtoms(l: PrivateLog): seq<Atom> { FrAtoms(l.fields) + [AU32(l.emittedLength)] }

  function LogHashAtoms(h: ScopedLogHash): seq<Atom> {
    [AFr(h.logHash.value), AU32(h.logHash.length), AFr(h.contractAddress)]
  }

  function RequestAtoms(r: PublicCallRequest): seq<Atom> {
    [AFr(r.msgSender), AFr(r.contractAddress), ABool(r.isStaticCall), AFr(r.calldataHash)]
  }

  function RollupAtoms(d: RollupData): seq<Atom> {
    FrAtoms(d.noteHashes) + FrAtoms(d.nullifiers) + Flat(MsgAtoms, d.l2ToL1Msgs)
    + Flat(LogAtoms, d.privateLogs) + Flat(LogHashAtoms, d.contractClassLogsHashes)
  }

  function PublicAtoms(d: PublicData): seq<Atom> {
    RollupAtoms(d.common) + Flat(RequestAtoms, d.publicCallRequests)
  }

  function ForPublicAtoms(p: ForPublic): seq<Atom> {
    PublicAtoms(p.nonRevertible) + PublicAtoms(p.revertible) + RequestAtoms(p.teardown)
  }

  function SnapshotAtoms(s: Snapshot): seq<Atom> { [AFr(s.root), AU32(s.nextAvailableLeafIndex)] }

  function StateAtoms(s: StateReference): seq<Atom> {
    SnapshotAtoms(s.l1ToL2MessageTree) + SnapshotAtoms(s.partial.noteHashTree)
    + SnapshotAtoms(s.partial.nullifierTree) + SnapshotAtoms(s.partial.publicDataTree)
  }

  function GasAtoms(g: Gas): seq<Atom> { [Cut64(g.daGas), Cut64(g.l2Gas)] }

  function FeeAtoms(g: GasFees): seq<Atom> { [AU128(g.feePerDaGas), AU128(g.feePerL2Gas)] }

  function GasOrZero(g: Option<Gas>): Gas { match g case Some(v) => v case None => Gas(0, 0) }

  function FeesOrZero(g: Option<GasFees>): GasFees { match g case Some(v) => v case None => GasFees(0, 0) }

  function GlobalsAtoms(g: GlobalVariables): seq<Atom> {
    [AFr(g.chainId), AFr(g.version), Cut64(g.blockNumber), Cut64(g.slotNumber), AU64(g.timestamp),
     AEth(g.coinbase), AFr(g.feeRecipient)] + FeeAtoms(g.gasFees)
  }

  function HeaderAtoms(h: BlockHeader): seq<Atom> {
    SnapshotAtoms(h.lastArchive) + StateAtoms(h.state) + [AFr(h.spongeBlobHash)] + GlobalsAtoms(h.globals)
    + [AFr(h.totalFees), AFr(h.totalManaUsed)]
  }

  function GasSettingsAtoms(g: GasSettings): seq<Atom> {
    GasAtoms(GasOrZero(g.gasLimits)) + GasAtoms(GasOrZero(g.teardownGasLimits))
    + FeeAtoms(FeesOrZero(g.maxFeePerGas)) + FeeAtoms(FeesOrZero(g.maxPriorityFeePerGas))
  }

  function ContextAtoms(c: TxContext): seq<Atom> {
    [AFr(c.chainId), AFr(c.version)] + GasSettingsAtoms(c.gasSettings)
  }

  function ConstantsAtoms(c: TxConstantData): seq<Atom> {
    HeaderAtoms(c.anchorBlockHeader) + ContextAtoms(c.txContext) + [AFr(c.vkTreeRoot), AFr(c.protocolContractsHash)]
  }

  /** Gas used, fee payer and expiration. */
  function TrailerAtoms(x: PublicInputs): seq<Atom> {
    GasAtoms(x.gasUsed) + [AFr(x.feePayer), AU64(x.expirationTimestamp)]
  }

  /** The accumulated data of the variant that is present; a public one hides a rollup one. */
  function AccumulatedAtoms(x: PublicInputs): seq<Atom> {
    match x.forPublic
    case Some(p) => ForPublicAtoms(p)
    case None => match x.forRollup case Some(d) => RollupAtoms(d) case None => []
  }

  predicate HasVariant(x: PublicInputs) { x.forPublic.Some? || x.forRollup.Some? }

  /** Order of the wire buffer. */
  function BufferAtoms(x: PublicInputs): seq<Atom> {
    [ABool(x.forPublic.Some?)] + ConstantsAtoms(x.constants) + TrailerAtoms(x) + AccumulatedAtoms(x)
  }

  /** Order of the hash preimage; without a variant the trailer is left out. */
  function FieldAtoms(x: PublicInputs): seq<Atom> {
    ConstantsAtoms(x.constants) + AccumulatedAtoms(x) + if HasVariant(x) then TrailerAtoms(x) else []
  }

  /** `to_buffer`. */
  function BufferOf(x: PublicInputs): seq<Byte> { BytesOf(BufferAtoms(x)) }

  /** `to_fields`. */
  function FieldListOf(x: PublicInputs): seq<Fr> { FieldsOf(FieldAtoms(x)) }

  // ----- Protocol sizes -----

  const MAX_NOTE_HASHES: nat := 64
  const MAX_NULLIFIERS: nat := 64
  const MAX_L2_TO_L1_MSGS: nat := 8
  const MAX_PRIVATE_LOGS: nat := 64
  const MAX_CLASS_LOGS: nat := 1
  const MAX_ENQUEUED_CALLS: nat := 32
  const PRIVATE_LOG_FIELDS: nat := 16

  ghost predicate SizedRollup(d: RollupData) {
    && |d.noteHashes| == MAX_NOTE_HASHES && |d.nullifiers| == MAX_NULLIFIERS
    && |d.l2ToL1Msgs| == MAX_L2_TO_L1_MSGS && |d.privateLogs| == MAX_PRIVATE_LOGS
    && |d.contractClassLogsHashes| == MAX_CLASS_LOGS
    && forall i :: 0 <= i < |d.privateLogs| ==> |d.privateLogs[i].fields| == PRIVATE_LOG_FIELDS
  }

  ghost predicate SizedPublic(d: PublicData) {
    SizedRollup(d.common) && |d.publicCallRequests| == MAX_ENQUEUED_CALLS
  }

  /** The fixed array sizes of the protocol. */
  ghost predicate Sized(x: PublicInputs) {
    && (x.forPublic.Some? ==> SizedPublic(x.forPublic.value.nonRevertible) && SizedPublic(x.forPublic.value.revertible))
    && (x.forRollup.Some? ==> SizedRollup(x.forRollup.value))
  }

  ghost predicate Fits32(g: Gas) { g.daGas < 0x1_0000_0000 && g.l2Gas < 0x1_0000_0000 }

  /** The values the buffer narrows fit the narrowed width. */
  ghost predicate Fits(x: PublicInputs) {
    var g, s := x.constants.anchorBlockHeader.globals, x.constants.txContext.gasSettings;
    && g.blockNumber < 0x1_0000_0000 && g.slotNumber < 0x1_0000_0000
    && Fits32(x.gasUsed) && Fits32(GasOrZero(s.gasLimits)) && Fits32(GasOrZero(s.teardownGasLimits))
  }
}

/**
 A reader for the two encodings of the kernel tail public inputs, written from the
 protocol's field order and widths and not from the writers: the wire buffer is cut
 into tokens of fixed widths, a token is the big-endian value of its bytes, and every
 record is read from the positions of its tokens.  A field list is its own tokens.
 */
module KernelReader {
  import opened Wrappers
  import opened Bytes
  import opened Fields
  import opened KernelTypes

  // ----- Values -----

  function U32From(f: Fr): U32 { f % TWO_32 }

  function U64From(f: Fr): U64 { f % TWO_64 }

  function U128From(f: Fr): U128 { f % TWO_128 }

  function BoolFrom(f: Fr): bool { f != 0 }

  function EthFrom(f: Fr): EthAddress { ToBe(f, 20) }

  // ----- Records -----

  function SnapshotFrom(t: seq<Fr>): Snapshot
    requires |t| == 2
  {
    Snapshot(t[0], U32From(t[1]))
  }

  function StateFrom(t: seq<Fr>): StateReference
    requires |t| == 8
  {
    StateReference(SnapshotFrom(t[..2]), PartialState(SnapshotFrom(t[2..4]), SnapshotFrom(t[4..6]), SnapshotFrom(t[6..])))
  }

  function GlobalsFrom(t: seq<Fr>): GlobalVariables
    requires |t| == 9
  {
    GlobalVariables(t[0], t[1], U64From(t[2]), U64From(t[3]), U64From(t[4]), EthFrom(t[5]), t[6],
                    GasFees(U128From(t[7]), U128From(t[8])))
  }

  function HeaderFrom(t: seq<Fr>): BlockHeader
    requires |t| == 22
  {
    BlockHeader(SnapshotFrom(t[..2]), StateFrom(t[2..10]), t[10], GlobalsFrom(t[11..20]), t[20], t[21])
  }

  function GasFrom(t: seq<Fr>): Gas
    requires |t| == 2
  {
    Gas(U64From(t[0]), U64From(t[1]))
  }

  function FeesFrom(t: seq<Fr>): GasFees
    requires |t| == 2
  {
    GasFees(U128From(t[0]), U128From(t[1]))
  }

  function ContextFrom(t: seq<Fr>): TxContext
    requires |t| == 10
  {
    TxContext(t[0], t[1], GasSettings(Some(GasFrom(t[2..4])), Some(GasFrom(t[4..6])),
                                      Some(FeesFrom(t[6..8])), Some(FeesFrom(t[8..]))))
  }

  function ConstantsFrom(t: seq<Fr>): TxConstantData
    requires |t| == 34
  {
    TxConstantData(HeaderFrom(t[..22]), ContextFrom(t[22..32]), t[32], t[33])
  }

  function MessageFrom(t: seq<Fr>): ScopedL2ToL1Message
    requires |t| == 3
  {
    ScopedL2ToL1Message(L2ToL1Message(EthFrom(t[0]), t[1]), t[2])
  }

  function LogFrom(t: seq<Fr>): PrivateLog
    requires |t| == 17
  {
    PrivateLog(t[..16], U32From(t[16]))
  }

  function LogHashFrom(t: seq<Fr>): ScopedLogHash
    requires |t| == 3
  {
    ScopedLogHash(LogHash(t[0], U32From(t[1])), t[2])
  }

  /** Sender, target, static flag, calldata hash. */
  function RequestFrom(t: seq<Fr>): PublicCallRequest
    requires |t| == 4
  {
    PublicCallRequest(t[0], t[1], BoolFrom(t[2]), t[3])
  }

  function MessagesFrom(t: seq<Fr>, n: nat): seq<ScopedL2ToL1Message>
    requires |t| == 3 * n
  {
    seq(n, i requires 0 <= i < n => MessageFrom(t[3 * i..3 * i + 3]))
  }

  function LogsFrom(t: seq<Fr>, n: nat): seq<PrivateLog>
    requires |t| == 17 * n
  {
    seq(n, i requires 0 <= i < n => LogFrom(t[17 * i..17 * i + 17]))
  }

  function LogHashesFrom(t: seq<Fr>, n: nat): seq<ScopedLogHash>
    requires |t| == 3 * n
  {
    seq(n, i requires 0 <= i < n => LogHashFrom(t[3 * i..3 * i + 3]))
  }

  function RequestsFrom(t: seq<Fr>, n: nat): seq<PublicCallRequest>
    requires |t| == 4 * n
  {
    seq(n, i requires 0 <= i < n => RequestFrom(t[4 * i..4 * i + 4]))
  }

  const ROLLUP_TOKENS: nat := 1243
  const PHASE_TOKENS: nat := 1371
  const PUBLIC_TOKENS: nat := 2746

  /** Note hashes, nullifiers, messages, private logs, class-log hashes. */
  function RollupFrom(t: seq<Fr>): RollupData
    requires |t| == ROLLUP_TOKENS
  {
    RollupData(t[..64], t[64..128], MessagesFrom(t[128..152], 8), LogsFrom(t[152..1240], 64), LogHashesFrom(t[1240..], 1))
  }

  function PhaseFrom(t: seq<Fr>): PublicData
    requires |t| == PHASE_TOKENS
  {
    PublicData(RollupFrom(t[..1243]), RequestsFrom(t[1243..], 32))
  }

  /** Setup, app logic, teardown. */
  function ForPublicFrom(t: seq<Fr>): ForPublic
    requires |t| == PUBLIC_TOKENS
  {
    ForPublic(PhaseFrom(t[..1371]), PhaseFrom(t[1371..2742]), RequestFrom(t[2742..]))
  }

  datatype Variant = Neither | ToRollup | ToPublic

  function VariantTokens(v: Variant): nat {
    match v case Neither => 0 case ToRollup => ROLLUP_TOKENS case ToPublic => PUBLIC_TOKENS
  }

  /** The inputs from the tokens of their constants, trailer and accumulated data. */
  function InputsFrom(v: Variant, constants: seq<Fr>, trailer: seq<Fr>, data: seq<Fr>): PublicInputs
    requires |constants| == 34 && |trailer| == 4 && |data| == VariantTokens(v)
  {
    PublicInputs(ConstantsFrom(constants), GasFrom(trailer[..2]), trailer[2], U64From(trailer[3]),
                 if v.ToPublic? then Some(ForPublicFrom(data)) else None,
                 if v.ToRollup? then Some(RollupFrom(data)) else None)
  }

  // ----- Field lists -----

  /** The variant shows in the length alone. */
  function DecodeFields(fs: seq<Fr>): Option<PublicInputs> {
    if |fs| == 34 + PUBLIC_TOKENS + 4 then Some(InputsFrom(ToPublic, fs[..34], fs[34 + PUBLIC_TOKENS..], fs[34..34 + PUBLIC_TOKENS]))
    else if |fs| == 34 + ROLLUP_TOKENS + 4 then
      Some(InputsFrom(ToRollup, fs[..34], fs[34 + ROLLUP_TOKENS..], fs[34..34 + ROLLUP_TOKENS]))
    else None
  }

  // ----- Buffers -----

  /** Token widths in bytes: field and address 32, flag 1, u32 4, u64 8, u128 16, Ethereum address 20. */
  function HeaderWidths(): seq<nat> {
    [32, 4] + [32, 4, 32, 4, 32, 4, 32, 4] + [32] + [32, 32, 4, 4, 8, 20, 32, 16, 16] + [32, 32]
  }

  function ConstantsWidths(): seq<nat> { HeaderWidths() + [32, 32, 4, 4, 4, 4, 16, 16, 16, 16] + [32, 32] }

  function TrailerWidths(): seq<nat> { [4, 4, 32, 8] }

  function RequestWidths(): seq<nat> { [32, 32, 1, 32] }

  function Repeat(ws: seq<nat>, n: nat): seq<nat> {
    if n == 0 then [] else Repeat(ws, n - 1) + ws
  }

  function LogWidths(): seq<nat> { Repeat([32], PRIVATE_LOG_FIELDS) + [4] }

  function RollupWidths(): seq<nat> {
    Repeat([32], MAX_NOTE_HASHES) + Repeat([32], MAX_NULLIFIERS) + Repeat([20, 32, 32], MAX_L2_TO_L1_MSGS)
    + Repeat(LogWidths(), MAX_PRIVATE_LOGS) + Repeat([32, 4, 32], MAX_CLASS_LOGS)
  }

  function PhaseWidths(): seq<nat> { RollupWidths() + Repeat(RequestWidths(), MAX_ENQUEUED_CALLS) }

  function DataWidths(v: Variant): seq<nat> {
    match v
    case Neither => []
    case ToRollup => RollupWidths()
    case ToPublic => PhaseWidths() + PhaseWidths() + RequestWidths()
  }

  function BufferWidths(v: Variant): seq<nat> { [1] + ConstantsWidths() + TrailerWidths() + DataWidths(v) }

  function Sum(ws: seq<nat>): nat { if ws == [] then 0 else Sum(ws[..|ws| - 1]) + ws[|ws| - 1] }

  /** Token `i` lies behind the widths of the tokens before it. */
  function TokenAt(b: seq<Byte>, ws: seq<nat>, i: nat): Fr
    requires i < |ws|
  {
    var offset := Sum(ws[..i]);
    if offset + ws[i] <= |b| then FrFromBytes(b[offset..offset + ws[i]]) else 0
  }

  /** Cut a buffer into tokens. */
  function Tokens(b: seq<Byte>, ws: seq<nat>): (t: seq<Fr>)
    ensures |t| == |ws| && forall i :: 0 <= i < |ws| ==> t[i] == TokenAt(b, ws, i)
  {
    seq(|ws|, i requires 0 <= i < |ws| => TokenAt(b, ws, i))
  }

  const EMPTY_LENGTH: nat := 697

  /** The first byte tells the public variant, the length tells whether there is any. */
  function VariantOfBuffer(b: seq<Byte>): Variant {
    if b != [] && b[0] == 1 then ToPublic else if |b| > EMPTY_LENGTH then ToRollup else Neither
  }

  function DecodeBuffer(b: seq<Byte>): Option<PublicInputs> {
    var v := VariantOfBuffer(b);
    var t := Tokens(b, BufferWidths(v));
    if |t| == 39 + VariantTokens(v) then Some(InputsFrom(v, t[1..35], t[35..39], t[39..])) else None
  }
}

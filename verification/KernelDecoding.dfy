/**
 Reading the two encodings of the kernel tail public inputs back, and what follows:
 unique decodability, agreement of the encodings, the documented lengths, and what the
 transaction hash commits to (crates/core/src/kernel_types.rs).
 */
module KernelDecoding {
  import opened Wrappers
  import opened Bytes
  import opened Fields
  import opened KernelTypes
  import opened KernelReader
  import opened KernelAtoms
  import opened KernelCodec

  // ----- What no encoding keeps -----

  /** Absent gas settings read as zero. */
  function NormSettings(s: GasSettings): GasSettings {
    GasSettings(Some(GasOrZero(s.gasLimits)), Some(GasOrZero(s.teardownGasLimits)),
                Some(FeesOrZero(s.maxFeePerGas)), Some(FeesOrZero(s.maxPriorityFeePerGas)))
  }

  /** A missing setting is zero in both coordinates, a present one is itself. */
  lemma AbsentIsZero(s: GasSettings)
    ensures NormSettings(s).gasLimits == if s.gasLimits.None? then Some(Gas(0, 0)) else s.gasLimits
    ensures NormSettings(s).teardownGasLimits == if s.teardownGasLimits.None? then Some(Gas(0, 0)) else s.teardownGasLimits
    ensures NormSettings(s).maxFeePerGas == if s.maxFeePerGas.None? then Some(GasFees(0, 0)) else s.maxFeePerGas
    ensures NormSettings(s).maxPriorityFeePerGas ==
            if s.maxPriorityFeePerGas.None? then Some(GasFees(0, 0)) else s.maxPriorityFeePerGas
  {
  }

  function NormContext(c: TxContext): TxContext { c.(gasSettings := NormSettings(c.gasSettings)) }

  function NormConstants(c: TxConstantData): TxConstantData { c.(txContext := NormContext(c.txContext)) }

  /** Absent gas settings are zero, and a public variant hides a rollup one. */
  function Norm(x: PublicInputs): PublicInputs {
    x.(constants := NormConstants(x.constants), forRollup := if x.forPublic.Some? then None else x.forRollup)
  }

  function VariantOf(x: PublicInputs): Variant {
    if x.forPublic.Some? then ToPublic else if x.forRollup.Some? then ToRollup else Neither
  }

  // ----- Reading records back -----

  lemma ReadState(s: StateReference)
    ensures |StateAtoms(s)| == 8 && StateFrom(FieldsOf(StateAtoms(s))) == s
  {
    var t := FieldsOf(StateAtoms(s));
    assert t[..2] == FieldsOf(SnapshotAtoms(s.l1ToL2MessageTree));
    assert t[2..4] == FieldsOf(SnapshotAtoms(s.partial.noteHashTree));
    assert t[4..6] == FieldsOf(SnapshotAtoms(s.partial.nullifierTree));
    assert t[6..] == FieldsOf(SnapshotAtoms(s.partial.publicDataTree));
  }

  lemma ReadGlobals(g: GlobalVariables)
    ensures |GlobalsAtoms(g)| == 9 && GlobalsFrom(FieldsOf(GlobalsAtoms(g))) == g
  {
    EthValue(g.coinbase);
  }

  lemma ReadHeader(h: BlockHeader)
    ensures |HeaderAtoms(h)| == 22 && HeaderFrom(FieldsOf(HeaderAtoms(h))) == h
  {
    var t := FieldsOf(HeaderAtoms(h));
    ReadState(h.state);
    ReadGlobals(h.globals);
    assert t[..2] == FieldsOf(SnapshotAtoms(h.lastArchive));
    assert t[2..10] == FieldsOf(StateAtoms(h.state));
    assert t[11..20] == FieldsOf(GlobalsAtoms(h.globals));
  }

  lemma ReadContext(c: TxContext)
    ensures |ContextAtoms(c)| == 10 && ContextFrom(FieldsOf(ContextAtoms(c))) == NormContext(c)
  {
  }

  lemma ReadConstants(c: TxConstantData)
    ensures |ConstantsAtoms(c)| == 34 && ConstantsFrom(FieldsOf(ConstantsAtoms(c))) == NormConstants(c)
  {
    var t := FieldsOf(ConstantsAtoms(c));
    ReadHeader(c.anchorBlockHeader);
    ReadContext(c.txContext);
    assert t[..22] == FieldsOf(HeaderAtoms(c.anchorBlockHeader));
    assert t[22..32] == FieldsOf(ContextAtoms(c.txContext));
  }

  lemma ReadMessage(m: ScopedL2ToL1Message)
    ensures |MsgAtoms(m)| == 3 && MessageFrom(FieldsOf(MsgAtoms(m))) == m
  {
    EthValue(m.message.recipient);
  }

  lemma ReadLog(l: PrivateLog)
    requires |l.fields| == PRIVATE_LOG_FIELDS
    ensures |LogAtoms(l)| == 17 && LogFrom(FieldsOf(LogAtoms(l))) == l
  {
    assert FieldsOf(LogAtoms(l))[..16] == l.fields;
  }

  lemma ReadLogHash(h: ScopedLogHash)
    ensures |LogHashAtoms(h)| == 3 && LogHashFrom(FieldsOf(LogHashAtoms(h))) == h
  {
  }

  lemma ReadRequest(r: PublicCallRequest)
    ensures |RequestAtoms(r)| == 4 && RequestFrom(FieldsOf(RequestAtoms(r))) == r
  {
  }

  /** The tokens of record `i` of a list. */
  lemma RecordTokens<T>(f: T -> seq<Atom>, xs: seq<T>, w: nat, i: nat)
    requires i < |xs| && forall j :: 0 <= j < |xs| ==> |f(xs[j])| == w
    ensures w * i + w <= |Flat(f, xs)| && FieldsOf(Flat(f, xs))[w * i..w * i + w] == FieldsOf(f(xs[i]))
  {
    FlatSlice(f, xs, w, i);
    FieldsOfSlice(Flat(f, xs), w * i, w * i + w);
  }

  lemma FieldsOfSlice(xs: seq<Atom>, i: nat, j: nat)
    requires i <= j <= |xs|
    ensures FieldsOf(xs)[i..j] == FieldsOf(xs[i..j])
  {
  }

  lemma ReadMessages(xs: seq<ScopedL2ToL1Message>)
    ensures |Flat(MsgAtoms, xs)| == 3 * |xs|
    ensures MessagesFrom(FieldsOf(Flat(MsgAtoms, xs)), |xs|) == xs
  {
    FlatLength(MsgAtoms, xs, 3);
    var ys := MessagesFrom(FieldsOf(Flat(MsgAtoms, xs)), |xs|);
    forall i | 0 <= i < |xs| ensures ys[i] == xs[i] {
      RecordTokens(MsgAtoms, xs, 3, i);
      ReadMessage(xs[i]);
    }
  }

  lemma ReadLogs(xs: seq<PrivateLog>)
    requires forall i :: 0 <= i < |xs| ==> |xs[i].fields| == PRIVATE_LOG_FIELDS
    ensures |Flat(LogAtoms, xs)| == 17 * |xs|
    ensures LogsFrom(FieldsOf(Flat(LogAtoms, xs)), |xs|) == xs
  {
    FlatLength(LogAtoms, xs, 17);
    var ys := LogsFrom(FieldsOf(Flat(LogAtoms, xs)), |xs|);
    forall i | 0 <= i < |xs| ensures ys[i] == xs[i] {
      RecordTokens(LogAtoms, xs, 17, i);
      ReadLog(xs[i]);
    }
  }

  lemma ReadLogHashes(xs: seq<ScopedLogHash>)
    ensures |Flat(LogHashAtoms, xs)| == 3 * |xs|
    ensures LogHashesFrom(FieldsOf(Flat(LogHashAtoms, xs)), |xs|) == xs
  {
    FlatLength(LogHashAtoms, xs, 3);
    var ys := LogHashesFrom(FieldsOf(Flat(LogHashAtoms, xs)), |xs|);
    forall i | 0 <= i < |xs| ensures ys[i] == xs[i] {
      RecordTokens(LogHashAtoms, xs, 3, i);
      ReadLogHash(xs[i]);
    }
  }

  lemma ReadRequests(xs: seq<PublicCallRequest>)
    ensures |Flat(RequestAtoms, xs)| == 4 * |xs|
    ensures RequestsFrom(FieldsOf(Flat(RequestAtoms, xs)), |xs|) == xs
  {
    FlatLength(RequestAtoms, xs, 4);
    var ys := RequestsFrom(FieldsOf(Flat(RequestAtoms, xs)), |xs|);
    forall i | 0 <= i < |xs| ensures ys[i] == xs[i] {
      RecordTokens(RequestAtoms, xs, 4, i);
      ReadRequest(xs[i]);
    }
  }

  lemma ReadRollup(d: RollupData)
    requires SizedRollup(d)
    ensures |RollupAtoms(d)| == ROLLUP_TOKENS && RollupFrom(FieldsOf(RollupAtoms(d))) == d
  {
    var n, f := FrAtoms(d.noteHashes), FrAtoms(d.nullifiers);
    var m, l := Flat(MsgAtoms, d.l2ToL1Msgs), Flat(LogAtoms, d.privateLogs);
    var h := Flat(LogHashAtoms, d.contractClassLogsHashes);
    ReadMessages(d.l2ToL1Msgs);
    ReadLogs(d.privateLogs);
    ReadLogHashes(d.contractClassLogsHashes);
    FivePartsOfFields(n, f, m, l, h);
    assert FieldsOf(n) == d.noteHashes && FieldsOf(f) == d.nullifiers;
  }

  lemma FivePartsOfFields(a: seq<Atom>, b: seq<Atom>, c: seq<Atom>, d: seq<Atom>, e: seq<Atom>)
    ensures var t := FieldsOf(a + b + c + d + e);
            var i, j, k, l := |a|, |a| + |b|, |a| + |b| + |c|, |a| + |b| + |c| + |d|;
            && t[..i] == FieldsOf(a) && t[i..j] == FieldsOf(b) && t[j..k] == FieldsOf(c)
            && t[k..l] == FieldsOf(d) && t[l..] == FieldsOf(e)
  {
    FieldsAppend(a + b + c + d, e);
    FieldsAppend(a + b + c, d);
    FieldsAppend(a + b, c);
    FieldsAppend(a, b);
  }

  lemma ReadPhase(d: PublicData)
    requires SizedPublic(d)
    ensures |PublicAtoms(d)| == PHASE_TOKENS && PhaseFrom(FieldsOf(PublicAtoms(d))) == d
  {
    var r, q := RollupAtoms(d.common), Flat(RequestAtoms, d.publicCallRequests);
    ReadRollup(d.common);
    ReadRequests(d.publicCallRequests);
    FieldsAppend(r, q);
    assert FieldsOf(r + q)[..1243] == FieldsOf(r) && FieldsOf(r + q)[1243..] == FieldsOf(q);
  }

  lemma ReadForPublic(p: ForPublic)
    requires SizedPublic(p.nonRevertible) && SizedPublic(p.revertible)
    ensures |ForPublicAtoms(p)| == PUBLIC_TOKENS && ForPublicFrom(FieldsOf(ForPublicAtoms(p))) == p
  {
    var a, b, c := PublicAtoms(p.nonRevertible), PublicAtoms(p.revertible), RequestAtoms(p.teardown);
    ReadPhase(p.nonRevertible);
    ReadPhase(p.revertible);
    ReadRequest(p.teardown);
    FieldsAppend(a + b, c);
    FieldsAppend(a, b);
    var t := FieldsOf(a + b + c);
    assert t[..1371] == FieldsOf(a) && t[1371..2742] == FieldsOf(b) && t[2742..] == FieldsOf(c);
  }

  lemma ReadInputs(x: PublicInputs)
    requires Sized(x)
    ensures |ConstantsAtoms(x.constants)| == 34 && |TrailerAtoms(x)| == 4
    ensures |AccumulatedAtoms(x)| == VariantTokens(VariantOf(x))
    ensures InputsFrom(VariantOf(x), FieldsOf(ConstantsAtoms(x.constants)), FieldsOf(TrailerAtoms(x)),
                       FieldsOf(AccumulatedAtoms(x))) == Norm(x)
  {
    ReadConstants(x.constants);
    ReadTrailer(x);
    ReadData(x);
  }

  lemma ReadTrailer(x: PublicInputs)
    ensures |TrailerAtoms(x)| == 4
    ensures var t := FieldsOf(TrailerAtoms(x));
            GasFrom(t[..2]) == x.gasUsed && t[2] == x.feePayer && U64From(t[3]) == x.expirationTimestamp
  {
    var t := FieldsOf(TrailerAtoms(x));
    assert t[..2] == FieldsOf(GasAtoms(x.gasUsed));
  }

  lemma ReadData(x: PublicInputs)
    requires Sized(x)
    ensures |AccumulatedAtoms(x)| == VariantTokens(VariantOf(x))
    ensures var t := FieldsOf(AccumulatedAtoms(x));
            && (x.forPublic.Some? ==> ForPublicFrom(t) == x.forPublic.value)
            && (x.forPublic.None? && x.forRollup.Some? ==> RollupFrom(t) == x.forRollup.value)
  {
    match VariantOf(x)
    case ToPublic => ReadForPublic(x.forPublic.value);
    case ToRollup => ReadRollup(x.forRollup.value);
    case Neither =>
  }

  // ----- Reading the field list back -----

  /** The field list is read back in full, up to absent gas settings. */
  lemma FieldsRoundTrip(x: PublicInputs)
    requires Sized(x) && HasVariant(x)
    ensures DecodeFields(FieldListOf(x)) == Some(Norm(x))
  {
    var c, a, t := ConstantsAtoms(x.constants), AccumulatedAtoms(x), TrailerAtoms(x);
    ReadInputs(x);
    FieldsAppend(c + a, t);
    FieldsAppend(c, a);
    var fs := FieldsOf(c) + FieldsOf(a) + FieldsOf(t);
    assert fs[..34] == FieldsOf(c) && fs[34..34 + |a|] == FieldsOf(a) && fs[34 + |a|..] == FieldsOf(t);
  }

  // ----- Reading the buffer back -----

  lemma HeaderLayout(h: BlockHeader)
    ensures Widths(HeaderAtoms(h)) == HeaderWidths()
  {
  }

  lemma ConstantsLayout(c: TxConstantData)
    ensures Widths(ConstantsAtoms(c)) == ConstantsWidths()
  {
    var h, t, z := HeaderAtoms(c.anchorBlockHeader), ContextAtoms(c.txContext), [AFr(c.vkTreeRoot), AFr(c.protocolContractsHash)];
    HeaderLayout(c.anchorBlockHeader);
    WidthsAppend(h + t, z);
    WidthsAppend(h, t);
    assert Widths(t) == [32, 32, 4, 4, 4, 4, 16, 16, 16, 16];
  }

  lemma MessagesLayout(xs: seq<ScopedL2ToL1Message>)
    ensures Widths(Flat(MsgAtoms, xs)) == Repeat([20, 32, 32], |xs|)
  {
    forall i | 0 <= i < |xs| ensures Widths(MsgAtoms(xs[i])) == [20, 32, 32] {
      MessageLayout(xs[i]);
    }
    FlatWidths(MsgAtoms, xs, [20, 32, 32]);
  }

  lemma MessageLayout(m: ScopedL2ToL1Message)
    ensures Widths(MsgAtoms(m)) == [20, 32, 32]
  {
  }

  lemma LogHashesLayout(xs: seq<ScopedLogHash>)
    ensures Widths(Flat(LogHashAtoms, xs)) == Repeat([32, 4, 32], |xs|)
  {
    forall i | 0 <= i < |xs| ensures Widths(LogHashAtoms(xs[i])) == [32, 4, 32] {
      LogHashLayout(xs[i]);
    }
    FlatWidths(LogHashAtoms, xs, [32, 4, 32]);
  }

  lemma LogHashLayout(h: ScopedLogHash)
    ensures Widths(LogHashAtoms(h)) == [32, 4, 32]
  {
  }

  lemma LogsLayout(xs: seq<PrivateLog>)
    requires forall i :: 0 <= i < |xs| ==> |xs[i].fields| == PRIVATE_LOG_FIELDS
    ensures Widths(Flat(LogAtoms, xs)) == Repeat(LogWidths(), |xs|)
  {
    forall i | 0 <= i < |xs| ensures Widths(LogAtoms(xs[i])) == LogWidths() {
      LogLayout(xs[i]);
    }
    FlatWidths(LogAtoms, xs, LogWidths());
  }

  lemma LogLayout(l: PrivateLog)
    requires |l.fields| == PRIVATE_LOG_FIELDS
    ensures Widths(LogAtoms(l)) == LogWidths()
  {
    FrWidths(l.fields);
    WidthsAppend(FrAtoms(l.fields), [AU32(l.emittedLength)]);
  }

  lemma RollupLayout(d: RollupData)
    requires SizedRollup(d)
    ensures Widths(RollupAtoms(d)) == RollupWidths()
  {
    var n, f := FrAtoms(d.noteHashes), FrAtoms(d.nullifiers);
    var m, l := Flat(MsgAtoms, d.l2ToL1Msgs), Flat(LogAtoms, d.privateLogs);
    var h := Flat(LogHashAtoms, d.contractClassLogsHashes);
    FrWidths(d.noteHashes);
    FrWidths(d.nullifiers);
    MessagesLayout(d.l2ToL1Msgs);
    LogsLayout(d.privateLogs);
    LogHashesLayout(d.contractClassLogsHashes);
    FiveWidths(n, f, m, l, h);
  }

  lemma FiveWidths(a: seq<Atom>, b: seq<Atom>, c: seq<Atom>, d: seq<Atom>, e: seq<Atom>)
    ensures Widths(a + b + c + d + e) == Widths(a) + Widths(b) + Widths(c) + Widths(d) + Widths(e)
  {
    WidthsAppend(a + b + c + d, e);
    WidthsAppend(a + b + c, d);
    WidthsAppend(a + b, c);
    WidthsAppend(a, b);
  }

  lemma RequestLayout(r: PublicCallRequest)
    ensures Widths(RequestAtoms(r)) == RequestWidths()
  {
  }

  lemma PhaseLayout(d: PublicData)
    requires SizedPublic(d)
    ensures Widths(PublicAtoms(d)) == PhaseWidths()
  {
    RollupLayout(d.common);
    forall i | 0 <= i < |d.publicCallRequests| ensures Widths(RequestAtoms(d.publicCallRequests[i])) == RequestWidths() {
      RequestLayout(d.publicCallRequests[i]);
    }
    FlatWidths(RequestAtoms, d.publicCallRequests, RequestWidths());
    WidthsAppend(RollupAtoms(d.common), Flat(RequestAtoms, d.publicCallRequests));
  }

  lemma ForPublicLayout(p: ForPublic)
    requires SizedPublic(p.nonRevertible) && SizedPublic(p.revertible)
    ensures Widths(ForPublicAtoms(p)) == PhaseWidths() + PhaseWidths() + RequestWidths()
  {
    var a, b, c := PublicAtoms(p.nonRevertible), PublicAtoms(p.revertible), RequestAtoms(p.teardown);
    assert Widths(a) == PhaseWidths() by { PhaseLayout(p.nonRevertible); }
    assert Widths(b) == PhaseWidths() by { PhaseLayout(p.revertible); }
    assert Widths(c) == RequestWidths() by { RequestLayout(p.teardown); }
    WidthsAppend(a + b, c);
    WidthsAppend(a, b);
  }

  lemma DataLayout(x: PublicInputs)
    requires Sized(x)
    ensures Widths(AccumulatedAtoms(x)) == DataWidths(VariantOf(x))
  {
    match VariantOf(x)
    case ToPublic => ForPublicLayout(x.forPublic.value);
    case ToRollup => RollupLayout(x.forRollup.value);
    case Neither =>
  }

  lemma BufferLayout(x: PublicInputs)
    requires Sized(x)
    ensures Widths(BufferAtoms(x)) == BufferWidths(VariantOf(x))
  {
    var b, c, t, a := [ABool(x.forPublic.Some?)], ConstantsAtoms(x.constants), TrailerAtoms(x), AccumulatedAtoms(x);
    assert Widths(c) == ConstantsWidths() by { ConstantsLayout(x.constants); }
    assert Widths(a) == DataWidths(VariantOf(x)) by { DataLayout(x); }
    assert Widths(b) == [1];
    assert Widths(t) == TrailerWidths() by { TrailerLayout(x); }
    FourWidths(b, c, t, a);
  }

  lemma TrailerLayout(x: PublicInputs)
    ensures Widths(TrailerAtoms(x)) == TrailerWidths()
  {
  }

  lemma FourWidths(a: seq<Atom>, b: seq<Atom>, c: seq<Atom>, d: seq<Atom>)
    ensures Widths(a + b + c + d) == Widths(a) + Widths(b) + Widths(c) + Widths(d)
  {
    WidthsAppend(a + b + c, d);
    WidthsAppend(a + b, c);
    WidthsAppend(a, b);
  }

  // Lengths.

  lemma SumOfTwo(a: nat, b: nat)
    ensures Sum([a, b]) == a + b
  {
    SumOfOne(a);
    assert [a, b][..1] == [a];
  }

  lemma SumOfFour(a: nat, b: nat, c: nat, d: nat)
    ensures Sum([a, b, c, d]) == a + b + c + d
  {
    SumOfTwo(a, b);
    SumOfTwo(c, d);
    SumAppend([a, b], [c, d]);
    assert [a, b] + [c, d] == [a, b, c, d];
  }

  lemma SumOfOne(a: nat)
    ensures Sum([a]) == a
  {
    assert [a][..0] == [];
  }

  lemma SumOfThree(a: nat, b: nat, c: nat)
    ensures Sum([a, b, c]) == a + b + c
  {
    SumOfTwo(a, b);
    assert [a, b, c][..2] == [a, b];
  }

  lemma HeaderLength()
    ensures Sum(HeaderWidths()) == 440
  {
    SumOfTwo(32, 4);
    SumOfFour(32, 4, 32, 4);
    SumAppend([32, 4, 32, 4], [32, 4, 32, 4]);
    assert [32, 4, 32, 4] + [32, 4, 32, 4] == [32, 4, 32, 4, 32, 4, 32, 4];
    SumOfOne(32);
    GlobalsLength();
    SumOfTwo(32, 32);
    var a, b, c, d := [32, 4], [32, 4, 32, 4, 32, 4, 32, 4], [32], [32, 32, 4, 4, 8, 20, 32, 16, 16];
    SumAppend(a + b + c + d, [32, 32]);
    SumAppend(a + b + c, d);
    SumAppend(a + b, c);
    SumAppend(a, b);
  }

  lemma GlobalsLength()
    ensures Sum([32, 32, 4, 4, 8, 20, 32, 16, 16]) == 164
  {
    SumOfFour(32, 32, 4, 4);
    SumOfThree(8, 20, 32);
    SumOfTwo(16, 16);
    SumAppend([32, 32, 4, 4], [8, 20, 32]);
    SumAppend([32, 32, 4, 4] + [8, 20, 32], [16, 16]);
    assert [32, 32, 4, 4] + [8, 20, 32] + [16, 16] == [32, 32, 4, 4, 8, 20, 32, 16, 16];
  }

  lemma ConstantsLength()
    ensures Sum(ConstantsWidths()) == 648
  {
    HeaderLength();
    SumOfTwo(32, 32);
    SumOfFour(4, 4, 4, 4);
    SumOfFour(16, 16, 16, 16);
    var c := [32, 32] + [4, 4, 4, 4] + [16, 16, 16, 16];
    SumAppend([32, 32] + [4, 4, 4, 4], [16, 16, 16, 16]);
    SumAppend([32, 32], [4, 4, 4, 4]);
    assert c == [32, 32, 4, 4, 4, 4, 16, 16, 16, 16];
    SumAppend(HeaderWidths() + c, [32, 32]);
    SumAppend(HeaderWidths(), c);
  }

  lemma RollupLength()
    ensures Sum(RollupWidths()) == 37860
  {
    SumOfOne(32);
    SumOfOne(4);
    SumOfThree(20, 32, 32);
    SumOfThree(32, 4, 32);
    SumRepeat([32], PRIVATE_LOG_FIELDS);
    SumAppend(Repeat([32], PRIVATE_LOG_FIELDS), [4]);
    SumRepeat([32], MAX_NOTE_HASHES);
    SumRepeat([32], MAX_NULLIFIERS);
    SumRepeat([20, 32, 32], MAX_L2_TO_L1_MSGS);
    SumRepeat(LogWidths(), MAX_PRIVATE_LOGS);
    SumRepeat([32, 4, 32], MAX_CLASS_LOGS);
    FiveSums(Repeat([32], MAX_NOTE_HASHES), Repeat([32], MAX_NULLIFIERS), Repeat([20, 32, 32], MAX_L2_TO_L1_MSGS),
             Repeat(LogWidths(), MAX_PRIVATE_LOGS), Repeat([32, 4, 32], MAX_CLASS_LOGS));
  }

  lemma FiveSums(a: seq<nat>, b: seq<nat>, c: seq<nat>, d: seq<nat>, e: seq<nat>)
    ensures Sum(a + b + c + d + e) == Sum(a) + Sum(b) + Sum(c) + Sum(d) + Sum(e)
  {
    SumAppend(a + b + c + d, e);
    SumAppend(a + b + c, d);
    SumAppend(a + b, c);
    SumAppend(a, b);
  }

  lemma PhaseLength()
    ensures Sum(PhaseWidths()) == 40964
  {
    RollupLength();
    SumOfFour(32, 32, 1, 32);
    SumRepeat(RequestWidths(), MAX_ENQUEUED_CALLS);
    SumAppend(RollupWidths(), Repeat(RequestWidths(), MAX_ENQUEUED_CALLS));
  }

  lemma DataLength(v: Variant)
    ensures Sum(DataWidths(v)) == match v case Neither => 0 case ToRollup => 37860 case ToPublic => 82025
  {
    RollupLength();
    PhaseLength();
    SumOfFour(32, 32, 1, 32);
    SumAppend(PhaseWidths() + PhaseWidths(), RequestWidths());
    SumAppend(PhaseWidths(), PhaseWidths());
  }

  lemma BufferTotal(v: Variant)
    ensures Sum(BufferWidths(v)) == match v case Neither => 697 case ToRollup => 38557 case ToPublic => 82722
  {
    ConstantsLength();
    DataLength(v);
    SumOfOne(1);
    SumOfFour(4, 4, 32, 8);
    FourSums([1], ConstantsWidths(), TrailerWidths(), DataWidths(v));
  }

  lemma FourSums(a: seq<nat>, b: seq<nat>, c: seq<nat>, d: seq<nat>)
    ensures Sum(a + b + c + d) == Sum(a) + Sum(b) + Sum(c) + Sum(d)
  {
    SumAppend(a + b + c, d);
    SumAppend(a + b, c);
    SumAppend(a, b);
  }

  /** The documented buffer lengths, and the one without a variant. */
  lemma BufferLength(x: PublicInputs)
    requires Sized(x)
    ensures |BufferOf(x)| == if x.forPublic.Some? then 82722 else if x.forRollup.Some? then 38557 else 697
  {
    assert |BufferOf(x)| == Sum(Widths(BufferAtoms(x))) by { BytesLength(BufferAtoms(x)); }
    assert Widths(BufferAtoms(x)) == BufferWidths(VariantOf(x)) by { BufferLayout(x); }
    BufferTotal(VariantOf(x));
  }

  lemma VariantIsRead(x: PublicInputs)
    requires Sized(x)
    ensures VariantOfBuffer(BufferOf(x)) == VariantOf(x)
  {
    var xs := BufferAtoms(x);
    assert xs[0] == ABool(x.forPublic.Some?);
    FlagIsFirst(xs);
    BufferLength(x);
  }

  lemma FlagIsFirst(xs: seq<Atom>)
    requires xs != [] && xs[0].ABool?
    ensures BytesOf(xs) != [] && BytesOf(xs)[0] == if xs[0].b then 1 else 0
  {
    SliceOfBytes(xs, 0);
    assert Sum(Widths(xs)[..0]) == 0;
    assert BytesOf(xs)[0..1][0] == BytesOf(xs)[0];
  }

  /**
   The buffer is read back: everything but the upper halves of gas amounts, block
   number and slot, with absent gas settings as zero.
   */
  lemma BufferRoundTrip(x: PublicInputs)
    requires Sized(x)
    ensures DecodeBuffer(BufferOf(x)) == Some(Norm(Narrow(x)))
  {
    VariantIsRead(x);
    BufferLayout(x);
    TokensOfBytes(BufferAtoms(x));
    NarrowedBuffer(x);
    var y := Narrow(x);
    NarrowKeepsSize(x);
    ReadInputs(y);
    BufferTokens([ABool(y.forPublic.Some?)], ConstantsAtoms(y.constants), TrailerAtoms(y), AccumulatedAtoms(y));
  }

  lemma BufferTokens(b: seq<Atom>, c: seq<Atom>, t: seq<Atom>, a: seq<Atom>)
    requires |b| == 1 && |c| == 34 && |t| == 4
    ensures var fs := FieldsOf(b + c + t + a);
            fs[1..35] == FieldsOf(c) && fs[35..39] == FieldsOf(t) && fs[39..] == FieldsOf(a)
  {
    FieldsAppend(b + c + t, a);
    FieldsAppend(b + c, t);
    FieldsAppend(b, c);
  }

  // ----- What the encodings determine -----

  lemma NormKeepsAtoms(x: PublicInputs)
    ensures BufferAtoms(Norm(x)) == BufferAtoms(x) && FieldAtoms(Norm(x)) == FieldAtoms(x)
  {
    var g := x.constants.txContext.gasSettings;
    assert GasSettingsAtoms(NormSettings(g)) == GasSettingsAtoms(g);
    assert ConstantsAtoms(NormConstants(x.constants)) == ConstantsAtoms(x.constants);
    assert TrailerAtoms(Norm(x)) == TrailerAtoms(x) && AccumulatedAtoms(Norm(x)) == AccumulatedAtoms(x);
  }

  /**
   The buffer is uniquely decodable: exactly the narrowing to 32 bits, the reading of
   absent gas settings as zero, and a hidden second variant are lost, nothing else.
   */
  lemma UniquelyDecodable(x: PublicInputs, y: PublicInputs)
    requires Sized(x) && Sized(y)
    ensures BufferOf(x) == BufferOf(y) <==> Norm(Narrow(x)) == Norm(Narrow(y))
  {
    BufferRoundTrip(x);
    BufferRoundTrip(y);
    if Norm(Narrow(x)) == Norm(Narrow(y)) {
      NormKeepsAtoms(Narrow(x));
      NormKeepsAtoms(Narrow(y));
      BufferOfNarrow(x);
      BufferOfNarrow(y);
    }
  }

  /** The hash preimage keeps the full widths. */
  lemma FieldsUniquelyDecodable(x: PublicInputs, y: PublicInputs)
    requires Sized(x) && Sized(y) && HasVariant(x) && HasVariant(y)
    ensures FieldListOf(x) == FieldListOf(y) <==> Norm(x) == Norm(y)
  {
    FieldsRoundTrip(x);
    FieldsRoundTrip(y);
    NormKeepsAtoms(x);
    NormKeepsAtoms(y);
  }

  /** The field list does not say which variant it came from, but its length does. */
  lemma FieldsTellVariant(x: PublicInputs, y: PublicInputs)
    requires Sized(x) && Sized(y) && HasVariant(x) && HasVariant(y) && FieldListOf(x) == FieldListOf(y)
    ensures VariantOf(x) == VariantOf(y)
  {
    FieldsUniquelyDecodable(x, y);
    assert Norm(x).forPublic == x.forPublic && Norm(y).forPublic == y.forPublic;
  }

  /**
   For every pair of protocol-sized inputs with a variant: the buffers are equal
   exactly when the field lists agree after narrowing.
   */
  lemma BufferAgreesWithNarrowedFields(x: PublicInputs, y: PublicInputs)
    requires Sized(x) && Sized(y) && HasVariant(x) && HasVariant(y)
    ensures BufferOf(x) == BufferOf(y) <==> FieldListOf(Narrow(x)) == FieldListOf(Narrow(y))
  {
    NarrowKeepsSize(x);
    NarrowKeepsSize(y);
    UniquelyDecodable(x, y);
    FieldsUniquelyDecodable(Narrow(x), Narrow(y));
  }

  /** Where gas, block and slot fit 32 bits, the two encodings identify the same inputs. */
  lemma EncodingsAgree(x: PublicInputs, y: PublicInputs)
    requires Sized(x) && Sized(y) && HasVariant(x) && HasVariant(y)
    requires Fits(x) && Fits(y)
    ensures BufferOf(x) == BufferOf(y) <==> FieldListOf(x) == FieldListOf(y)
  {
    NarrowIsIdentity(x);
    NarrowIsIdentity(y);
    BufferAgreesWithNarrowedFields(x, y);
  }

  /**
   Exactly the inputs with a gas amount, block number or slot past 32 bits lose
   something on the wire: the buffer is that of the narrowed input, and the field
   list is not.
   */
  lemma WideValuesAreLost(x: PublicInputs)
    requires Sized(x) && HasVariant(x)
    ensures BufferOf(x) == BufferOf(Narrow(x))
    ensures FieldListOf(x) == FieldListOf(Narrow(x)) <==> Fits(x)
  {
    BufferOfNarrow(x);
    NarrowIsIdentity(x);
    NarrowKeepsSize(x);
    FieldsUniquelyDecodable(x, Narrow(x));
    if Norm(x) == Norm(Narrow(x)) {
      NarrowFixedFits(x);
    }
  }

  lemma NarrowFixedFits(x: PublicInputs)
    requires Norm(x) == Norm(Narrow(x))
    ensures Fits(x)
  {
    var c, d := Norm(x).constants, Norm(Narrow(x)).constants;
    assert c.anchorBlockHeader == d.anchorBlockHeader && c.txContext == d.txContext;
    assert Norm(x).gasUsed == x.gasUsed;
  }

  /**
   Without a variant the field list drops the trailer, all of it; the buffer still
   writes it, and tells two trailers apart up to the narrowing of the gas.
   */
  lemma NoVariantLosesTrailer(x: PublicInputs, gas: Gas, payer: AztecAddress, expiration: U64)
    requires !HasVariant(x)
    ensures var y := x.(gasUsed := gas, feePayer := payer, expirationTimestamp := expiration);
            && FieldListOf(x) == FieldListOf(y)
            && (BufferOf(x) == BufferOf(y)
                <==> NarrowGas(x.gasUsed) == NarrowGas(gas) && x.feePayer == payer && x.expirationTimestamp == expiration)
  {
    var y := x.(gasUsed := gas, feePayer := payer, expirationTimestamp := expiration);
    UniquelyDecodable(x, y);
    var a, b := Norm(Narrow(x)), Norm(Narrow(y));
    assert a.gasUsed == NarrowGas(x.gasUsed) && b.gasUsed == NarrowGas(gas);
    assert a.feePayer == x.feePayer && b.feePayer == payer;
    assert a.expirationTimestamp == x.expirationTimestamp && b.expirationTimestamp == expiration;
  }

  // ----- The transaction hash -----

  const PUBLIC_TX_HASH: Fr := 1_630_108_851
  const PRIVATE_TX_HASH: Fr := 1_971_680_439

  /** The field list `hash` feeds to Poseidon2: the separator of the variant, then `to_fields`. */
  function HashPreimage(x: PublicInputs): seq<Fr> {
    [if x.forPublic.Some? then PUBLIC_TX_HASH else PRIVATE_TX_HASH] + FieldListOf(x)
  }

  function TxHash(hash: seq<Fr> -> Fr, x: PublicInputs): Fr { hash(HashPreimage(x)) }

  /** The hashed list: the separator of the variant, then fields that read back as the inputs. */
  lemma PreimageReadBack(x: PublicInputs)
    requires Sized(x) && HasVariant(x)
    ensures HashPreimage(x) != [] && HashPreimage(x)[0] == (if x.forPublic.Some? then 1_630_108_851 else 1_971_680_439)
    ensures DecodeFields(HashPreimage(x)[1..]) == Some(Norm(x))
  {
    FieldsRoundTrip(x);
    assert HashPreimage(x)[1..] == FieldListOf(x);
  }

  lemma PreimageParts(x: PublicInputs, y: PublicInputs)
    ensures HashPreimage(x) == HashPreimage(y)
       <==> x.forPublic.Some? == y.forPublic.Some? && FieldListOf(x) == FieldListOf(y)
  {
    if HashPreimage(x) == HashPreimage(y) {
      assert HashPreimage(x)[0] == HashPreimage(y)[0];
      assert HashPreimage(x)[1..] == FieldListOf(x) && HashPreimage(y)[1..] == FieldListOf(y);
    }
  }

  /** The transaction hash commits to exactly the bytes on the wire. */
  lemma HashCommitsToBuffer(x: PublicInputs, y: PublicInputs)
    requires Sized(x) && Sized(y) && HasVariant(x) && HasVariant(y) && Fits(x) && Fits(y)
    ensures HashPreimage(x) == HashPreimage(y) <==> BufferOf(x) == BufferOf(y)
  {
    assert BufferOf(x) == BufferOf(y) <==> FieldListOf(x) == FieldListOf(y) by { EncodingsAgree(x, y); }
    PreimageParts(x, y);
    if FieldListOf(x) == FieldListOf(y) {
      assert x.forPublic.Some? == y.forPublic.Some? by { FieldsTellVariant(x, y); }
    }
  }

  /**
   Two transactions with one hash agree in everything but absent gas settings, and
   so in their bytes on the wire, or Poseidon2 collides on their two preimages.
   */
  lemma TxHashBinding(hash: seq<Fr> -> Fr, x: PublicInputs, y: PublicInputs)
    requires Sized(x) && Sized(y) && HasVariant(x) && HasVariant(y)
    requires TxHash(hash, x) == TxHash(hash, y)
    ensures || (Norm(x) == Norm(y) && BufferOf(x) == BufferOf(y))
            || (HashPreimage(x) != HashPreimage(y) && hash(HashPreimage(x)) == hash(HashPreimage(y)))
  {
    if HashPreimage(x) == HashPreimage(y) {
      PreimageParts(x, y);
      FieldsUniquelyDecodable(x, y);
      NormKeepsAtoms(x);
      NormKeepsAtoms(y);
    }
  }
}

/**
 The two serializers of the kernel tail public inputs, as the source writes them:
 methods that append to a byte vector or to a field vector
 (crates/core/src/kernel_types.rs).  A ghost trace of atoms records what has been
 appended; both serializers are proved to append the layout of `KernelTypes`.
 */
module KernelWriters {
  import opened Bytes
  import opened Fields
  import opened KernelTypes

  lemma BytesSnoc(xs: seq<Atom>, a: Atom)
    ensures BytesOf(xs + [a]) == BytesOf(xs) + AtomBytes(a)
  {
    assert (xs + [a])[..|xs|] == xs;
  }

  lemma FlatSnoc<T>(f: T -> seq<Atom>, xs: seq<T>, i: nat)
    requires i < |xs|
    ensures Flat(f, xs[..i + 1]) == Flat(f, xs[..i]) + f(xs[i])
  {
    assert xs[..i + 1][..i] == xs[..i];
  }

  // ----- to_buffer -----

  class ByteVec {
    var data: seq<Byte>
    ghost var atoms: seq<Atom>

    // Stated of every sequence equal to the trace, so that reasoning about the
    // trace alone does not unfold the byte encoding.
    ghost predicate Valid()
      reads this
    {
      forall t :: t == atoms ==> data == BytesOf(t)
    }

    constructor ()
      ensures Valid() && atoms == [] && data == []
    {
      data, atoms := [], [];
    }

    method Extend(bytes: seq<Byte>, ghost a: Atom)
      requires Valid() && bytes == AtomBytes(a)
      modifies this
      ensures Valid() && atoms == old(atoms) + [a]
    {
      BytesSnoc(atoms, a);
      data := data + bytes;
      atoms := atoms + [a];
    }

    method WriteFr(x: Fr)
      requires Valid()
      modifies this
      ensures Valid() && atoms == old(atoms) + [AFr(x)]
    {
      Extend(FrToBytes(x), AFr(x));
    }

    method WriteBool(b: bool)
      requires Valid()
      modifies this
      ensures Valid() && atoms == old(atoms) + [ABool(b)]
    {
      Extend(if b then [1] else [0], ABool(b));
    }

    method WriteU32(n: U32)
      requires Valid()
      modifies this
      ensures Valid() && atoms == old(atoms) + [AU32(n)]
    {
      Extend(ToBe(n, 4), AU32(n));
    }

    /** `write_u32(buf, n as u32)` for a 64-bit `n`. */
    method WriteCut(n: U64)
      requires Valid()
      modifies this
      ensures Valid() && atoms == old(atoms) + [Cut64(n)]
    {
      Pow256Widths();
      ToBePeriodic(n % 0x1_0000_0000, n / 0x1_0000_0000, 4);
      Extend(ToBe(n % 0x1_0000_0000, 4), Cut64(n));
    }

    method WriteU64(n: U64)
      requires Valid()
      modifies this
      ensures Valid() && atoms == old(atoms) + [AU64(n)]
    {
      Extend(ToBe(n, 8), AU64(n));
    }

    method WriteU128(n: U128)
      requires Valid()
      modifies this
      ensures Valid() && atoms == old(atoms) + [AU128(n)]
    {
      Extend(ToBe(n, 16), AU128(n));
    }

    method WriteEthAddress(e: EthAddress)
      requires Valid()
      modifies this
      ensures Valid() && atoms == old(atoms) + [AEth(e)]
    {
      Extend(e, AEth(e));
    }

    method WriteFrs(xs: seq<Fr>)
      requires Valid()
      modifies this
      ensures Valid() && atoms == old(atoms) + FrAtoms(xs)
    {
      for i := 0 to |xs|
        invariant Valid() && atoms == old(atoms) + FrAtoms(xs[..i])
      {
        assert FrAtoms(xs[..i + 1]) == FrAtoms(xs[..i]) + [AFr(xs[i])];
        WriteFr(xs[i]);
      }
      assert xs[..|xs|] == xs;
    }

    method WriteTreeSnapshot(s: Snapshot)
      requires Valid()
      modifies this
      ensures Valid() && atoms == old(atoms) + SnapshotAtoms(s)
    {
      WriteFr(s.root);
      WriteU32(s.nextAvailableLeafIndex);
    }

    method WritePublicCallRequest(r: PublicCallRequest)
      requires Valid()
      modifies this
      ensures Valid() && atoms == old(atoms) + RequestAtoms(r)
    {
      WriteFr(r.msgSender);
      WriteFr(r.contractAddress);
      WriteBool(r.isStaticCall);
      WriteFr(r.calldataHash);
    }

    /** The global-variables part of `write_tx_constant_data`. */
    method WriteGlobals(g: GlobalVariables)
      requires Valid()
      modifies this
      ensures Valid() && atoms == old(atoms) + GlobalsAtoms(g)
    {
      WriteFr(g.chainId);
      WriteFr(g.version);
      WriteCut(g.blockNumber);
      WriteCut(g.slotNumber);
      WriteU64(g.timestamp);
      WriteEthAddress(g.coinbase);
      WriteFr(g.feeRecipient);
      WriteU128(g.gasFees.feePerDaGas);
      WriteU128(g.gasFees.feePerL2Gas);
    }

    /** The gas-settings part of `write_tx_constant_data`: an absent option is written as zero. */
    method WriteGasSettings(s: GasSettings)
      requires Valid()
      modifies this
      ensures Valid() && atoms == old(atoms) + GasSettingsAtoms(s)
    {
      WriteCut(if s.gasLimits.Some? then s.gasLimits.value.daGas else 0);
      WriteCut(if s.gasLimits.Some? then s.gasLimits.value.l2Gas else 0);
      assert atoms == old(atoms) + GasAtoms(GasOrZero(s.gasLimits));
      WriteCut(if s.teardownGasLimits.Some? then s.teardownGasLimits.value.daGas else 0);
      WriteCut(if s.teardownGasLimits.Some? then s.teardownGasLimits.value.l2Gas else 0);
      assert atoms == old(atoms) + (GasAtoms(GasOrZero(s.gasLimits)) + GasAtoms(GasOrZero(s.teardownGasLimits)));
      WriteU128(if s.maxFeePerGas.Some? then s.maxFeePerGas.value.feePerDaGas else 0);
      WriteU128(if s.maxFeePerGas.Some? then s.maxFeePerGas.value.feePerL2Gas else 0);
      WriteU128(if s.maxPriorityFeePerGas.Some? then s.maxPriorityFeePerGas.value.feePerDaGas else 0);
      WriteU128(if s.maxPriorityFeePerGas.Some? then s.maxPriorityFeePerGas.value.feePerL2Gas else 0);
    }

    /** The header part of `write_tx_constant_data`. */
    method WriteHeader(h: BlockHeader)
      requires Valid()
      modifies this
      ensures Valid() && atoms == old(atoms) + HeaderAtoms(h)
    {
      WriteTreeSnapshot(h.lastArchive);
      WriteTreeSnapshot(h.state.l1ToL2MessageTree);
      WriteTreeSnapshot(h.state.partial.noteHashTree);
      WriteTreeSnapshot(h.state.partial.nullifierTree);
      WriteTreeSnapshot(h.state.partial.publicDataTree);
      WriteFr(h.spongeBlobHash);
      WriteGlobals(h.globals);
      WriteFr(h.totalFees);
      WriteFr(h.totalManaUsed);
    }

    method WriteTxConstantData(c: TxConstantData)
      requires Valid()
      modifies this
      ensures Valid() && atoms == old(atoms) + ConstantsAtoms(c)
    {
      var h := c.anchorBlockHeader;
      WriteHeader(h);
      WriteFr(c.txContext.chainId);
      WriteFr(c.txContext.version);
      WriteGasSettings(c.txContext.gasSettings);
      assert atoms == old(atoms) + (HeaderAtoms(h) + ContextAtoms(c.txContext));
      WriteFr(c.vkTreeRoot);
      WriteFr(c.protocolContractsHash);
    }

    method WriteMessages(msgs: seq<ScopedL2ToL1Message>)
      requires Valid()
      modifies this
      ensures Valid() && atoms == old(atoms) + Flat(MsgAtoms, msgs)
    {
      for i := 0 to |msgs|
        invariant Valid() && atoms == old(atoms) + Flat(MsgAtoms, msgs[..i])
      {
        FlatSnoc(MsgAtoms, msgs, i);
        WriteEthAddress(msgs[i].message.recipient);
        WriteFr(msgs[i].message.content);
        WriteFr(msgs[i].contractAddress);
      }
      assert msgs[..|msgs|] == msgs;
    }

    method WriteLogs(logs: seq<PrivateLog>)
      requires Valid()
      modifies this
      ensures Valid() && atoms == old(atoms) + Flat(LogAtoms, logs)
    {
      for i := 0 to |logs|
        invariant Valid() && atoms == old(atoms) + Flat(LogAtoms, logs[..i])
      {
        FlatSnoc(LogAtoms, logs, i);
        WriteFrs(logs[i].fields);
        WriteU32(logs[i].emittedLength);
      }
      assert logs[..|logs|] == logs;
    }

    method WriteLogHashes(hs: seq<ScopedLogHash>)
      requires Valid()
      modifies this
      ensures Valid() && atoms == old(atoms) + Flat(LogHashAtoms, hs)
    {
      for i := 0 to |hs|
        invariant Valid() && atoms == old(atoms) + Flat(LogHashAtoms, hs[..i])
      {
        FlatSnoc(LogHashAtoms, hs, i);
        WriteFr(hs[i].logHash.value);
        WriteU32(hs[i].logHash.length);
        WriteFr(hs[i].contractAddress);
      }
      assert hs[..|hs|] == hs;
    }

    method WriteRollupAccumulatedData(d: RollupData)
      requires Valid()
      modifies this
      ensures Valid() && atoms == old(atoms) + RollupAtoms(d)
    {
      WriteFrs(d.noteHashes);
      WriteFrs(d.nullifiers);
      WriteMessages(d.l2ToL1Msgs);
      WriteLogs(d.privateLogs);
      WriteLogHashes(d.contractClassLogsHashes);
    }

    method WritePublicAccumulatedData(d: PublicData)
      requires Valid()
      modifies this
      ensures Valid() && atoms == old(atoms) + PublicAtoms(d)
    {
      WriteRollupAccumulatedData(d.common);
      ghost var before := atoms;
      for i := 0 to |d.publicCallRequests|
        invariant Valid() && atoms == before + Flat(RequestAtoms, d.publicCallRequests[..i])
      {
        FlatSnoc(RequestAtoms, d.publicCallRequests, i);
        WritePublicCallRequest(d.publicCallRequests[i]);
      }
      assert d.publicCallRequests[..|d.publicCallRequests|] == d.publicCallRequests;
    }
  }

  /** The variant-specific part of `to_buffer`. */
  method WriteAccumulated(buf: ByteVec, x: PublicInputs)
    requires buf.Valid()
    modifies buf
    ensures buf.Valid() && buf.atoms == old(buf.atoms) + AccumulatedAtoms(x)
  {
    if x.forPublic.Some? {
      buf.WritePublicAccumulatedData(x.forPublic.value.nonRevertible);
      buf.WritePublicAccumulatedData(x.forPublic.value.revertible);
      buf.WritePublicCallRequest(x.forPublic.value.teardown);
    } else if x.forRollup.Some? {
      buf.WriteRollupAccumulatedData(x.forRollup.value);
    }
  }

  method WriteTrailer(buf: ByteVec, x: PublicInputs)
    requires buf.Valid()
    modifies buf
    ensures buf.Valid() && buf.atoms == old(buf.atoms) + TrailerAtoms(x)
  {
    buf.WriteCut(x.gasUsed.daGas);
    buf.WriteCut(x.gasUsed.l2Gas);
    buf.WriteFr(x.feePayer);
    buf.WriteU64(x.expirationTimestamp);
  }

  /** `to_buffer`. */
  method ToBuffer(x: PublicInputs) returns (bytes: seq<Byte>)
    ensures bytes == BufferOf(x)
  {
    var buf := new ByteVec();
    buf.WriteBool(x.forPublic.Some?);
    assert buf.atoms == [ABool(x.forPublic.Some?)];
    buf.WriteTxConstantData(x.constants);
    WriteTrailer(buf, x);
    WriteAccumulated(buf, x);
    assert buf.atoms == BufferAtoms(x);
    bytes := buf.data;
  }

  // ----- to_fields -----

  class FieldVec {
    var data: seq<Fr>
    ghost var atoms: seq<Atom>

    ghost predicate Valid()
      reads this
    {
      forall t :: t == atoms ==> data == FieldsOf(t)
    }

    constructor ()
      ensures Valid() && atoms == [] && data == []
    {
      data, atoms := [], [];
    }

    method Push(x: Fr, ghost a: Atom)
      requires Valid() && x == AtomField(a)
      modifies this
      ensures Valid() && atoms == old(atoms) + [a]
    {
      assert FieldsOf(atoms + [a]) == FieldsOf(atoms) + [x];
      data := data + [x];
      atoms := atoms + [a];
    }

    method Extend(xs: seq<Fr>)
      requires Valid()
      modifies this
      ensures Valid() && atoms == old(atoms) + FrAtoms(xs)
    {
      assert FieldsOf(atoms + FrAtoms(xs)) == FieldsOf(atoms) + xs;
      data := data + xs;
      atoms := atoms + FrAtoms(xs);
    }

    method WriteSnapshot(s: Snapshot)
      requires Valid()
      modifies this
      ensures Valid() && atoms == old(atoms) + SnapshotAtoms(s)
    {
      Push(s.root, AFr(s.root));
      Push(s.nextAvailableLeafIndex, AU32(s.nextAvailableLeafIndex));
    }

    method WriteState(s: StateReference)
      requires Valid()
      modifies this
      ensures Valid() && atoms == old(atoms) + StateAtoms(s)
    {
      WriteSnapshot(s.l1ToL2MessageTree);
      WriteSnapshot(s.partial.noteHashTree);
      WriteSnapshot(s.partial.nullifierTree);
      WriteSnapshot(s.partial.publicDataTree);
    }

    method WriteGas(g: Gas)
      requires Valid()
      modifies this
      ensures Valid() && atoms == old(atoms) + GasAtoms(g)
    {
      Push(g.daGas, Cut64(g.daGas));
      Push(g.l2Gas, Cut64(g.l2Gas));
    }

    method WriteGasFees(g: GasFees)
      requires Valid()
      modifies this
      ensures Valid() && atoms == old(atoms) + FeeAtoms(g)
    {
      Push(g.feePerDaGas, AU128(g.feePerDaGas));
      Push(g.feePerL2Gas, AU128(g.feePerL2Gas));
    }

    method WriteGlobals(g: GlobalVariables)
      requires Valid()
      modifies this
      ensures Valid() && atoms == old(atoms) + GlobalsAtoms(g)
    {
      Push(g.chainId, AFr(g.chainId));
      Push(g.version, AFr(g.version));
      Push(g.blockNumber, Cut64(g.blockNumber));
      Push(g.slotNumber, Cut64(g.slotNumber));
      Push(g.timestamp, AU64(g.timestamp));
      Push(EthToFr(g.coinbase), AEth(g.coinbase));
      Push(g.feeRecipient, AFr(g.feeRecipient));
      WriteGasFees(g.gasFees);
    }

    method WriteHeader(h: BlockHeader)
      requires Valid()
      modifies this
      ensures Valid() && atoms == old(atoms) + HeaderAtoms(h)
    {
      WriteSnapshot(h.lastArchive);
      WriteState(h.state);
      Push(h.spongeBlobHash, AFr(h.spongeBlobHash));
      WriteGlobals(h.globals);
      Push(h.totalFees, AFr(h.totalFees));
      Push(h.totalManaUsed, AFr(h.totalManaUsed));
    }

    method WriteContext(c: TxContext)
      requires Valid()
      modifies this
      ensures Valid() && atoms == old(atoms) + ContextAtoms(c)
    {
      Push(c.chainId, AFr(c.chainId));
      Push(c.version, AFr(c.version));
      WriteGas(GasOrZero(c.gasSettings.gasLimits));
      WriteGas(GasOrZero(c.gasSettings.teardownGasLimits));
      WriteGasFees(FeesOrZero(c.gasSettings.maxFeePerGas));
      WriteGasFees(FeesOrZero(c.gasSettings.maxPriorityFeePerGas));
    }

    method WriteConstants(c: TxConstantData)
      requires Valid()
      modifies this
      ensures Valid() && atoms == old(atoms) + ConstantsAtoms(c)
    {
      WriteHeader(c.anchorBlockHeader);
      WriteContext(c.txContext);
      Push(c.vkTreeRoot, AFr(c.vkTreeRoot));
      Push(c.protocolContractsHash, AFr(c.protocolContractsHash));
    }

    method WriteRequest(r: PublicCallRequest)
      requires Valid()
      modifies this
      ensures Valid() && atoms == old(atoms) + RequestAtoms(r)
    {
      Push(r.msgSender, AFr(r.msgSender));
      Push(r.contractAddress, AFr(r.contractAddress));
      Push(if r.isStaticCall then 1 else 0, ABool(r.isStaticCall));
      Push(r.calldataHash, AFr(r.calldataHash));
    }

    method WriteMessages(msgs: seq<ScopedL2ToL1Message>)
      requires Valid()
      modifies this
      ensures Valid() && atoms == old(atoms) + Flat(MsgAtoms, msgs)
    {
      for i := 0 to |msgs|
        invariant Valid() && atoms == old(atoms) + Flat(MsgAtoms, msgs[..i])
      {
        FlatSnoc(MsgAtoms, msgs, i);
        Push(EthToFr(msgs[i].message.recipient), AEth(msgs[i].message.recipient));
        Push(msgs[i].message.content, AFr(msgs[i].message.content));
        Push(msgs[i].contractAddress, AFr(msgs[i].contractAddress));
      }
      assert msgs[..|msgs|] == msgs;
    }

    method WriteLogs(logs: seq<PrivateLog>)
      requires Valid()
      modifies this
      ensures Valid() && atoms == old(atoms) + Flat(LogAtoms, logs)
    {
      for i := 0 to |logs|
        invariant Valid() && atoms == old(atoms) + Flat(LogAtoms, logs[..i])
      {
        FlatSnoc(LogAtoms, logs, i);
        Extend(logs[i].fields);
        Push(logs[i].emittedLength, AU32(logs[i].emittedLength));
      }
      assert logs[..|logs|] == logs;
    }

    method WriteLogHashes(hs: seq<ScopedLogHash>)
      requires Valid()
      modifies this
      ensures Valid() && atoms == old(atoms) + Flat(LogHashAtoms, hs)
    {
      for i := 0 to |hs|
        invariant Valid() && atoms == old(atoms) + Flat(LogHashAtoms, hs[..i])
      {
        FlatSnoc(LogHashAtoms, hs, i);
        Push(hs[i].logHash.value, AFr(hs[i].logHash.value));
        Push(hs[i].logHash.length, AU32(hs[i].logHash.length));
        Push(hs[i].contractAddress, AFr(hs[i].contractAddress));
      }
      assert hs[..|hs|] == hs;
    }

    method WriteRollupData(d: RollupData)
      requires Valid()
      modifies this
      ensures Valid() && atoms == old(atoms) + RollupAtoms(d)
    {
      Extend(d.noteHashes);
      Extend(d.nullifiers);
      WriteMessages(d.l2ToL1Msgs);
      WriteLogs(d.privateLogs);
      WriteLogHashes(d.contractClassLogsHashes);
    }

    method WritePublicData(d: PublicData)
      requires Valid()
      modifies this
      ensures Valid() && atoms == old(atoms) + PublicAtoms(d)
    {
      WriteRollupData(d.common);
      ghost var before := atoms;
      for i := 0 to |d.publicCallRequests|
        invariant Valid() && atoms == before + Flat(RequestAtoms, d.publicCallRequests[..i])
      {
        FlatSnoc(RequestAtoms, d.publicCallRequests, i);
        WriteRequest(d.publicCallRequests[i]);
      }
      assert d.publicCallRequests[..|d.publicCallRequests|] == d.publicCallRequests;
    }
  }

  /** The variant-specific part of `to_fields`. */
  method WriteAccumulatedFields(out: FieldVec, x: PublicInputs)
    requires out.Valid()
    modifies out
    ensures out.Valid() && out.atoms == old(out.atoms) + AccumulatedAtoms(x)
  {
    if x.forPublic.Some? {
      out.WritePublicData(x.forPublic.value.nonRevertible);
      out.WritePublicData(x.forPublic.value.revertible);
      out.WriteRequest(x.forPublic.value.teardown);
    } else if x.forRollup.Some? {
      out.WriteRollupData(x.forRollup.value);
    }
  }

  method WriteTrailerFields(out: FieldVec, x: PublicInputs)
    requires out.Valid()
    modifies out
    ensures out.Valid() && out.atoms == old(out.atoms) + if HasVariant(x) then TrailerAtoms(x) else []
  {
    if HasVariant(x) {
      out.WriteGas(x.gasUsed);
      out.Push(x.feePayer, AFr(x.feePayer));
      out.Push(x.expirationTimestamp, AU64(x.expirationTimestamp));
    }
  }

  /** `to_fields`. */
  method ToFields(x: PublicInputs) returns (fields: seq<Fr>)
    ensures fields == FieldListOf(x)
  {
    var out := new FieldVec();
    out.WriteConstants(x.constants);
    assert out.atoms == [] + ConstantsAtoms(x.constants) == ConstantsAtoms(x.constants);
    WriteAccumulatedFields(out, x);
    WriteTrailerFields(out, x);
    assert out.atoms == FieldAtoms(x);
    fields := out.data;
  }
}

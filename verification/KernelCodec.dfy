/**
 What the wire buffer of the kernel tail public inputs forgets: the upper half of
 gas amounts, block number and slot (crates/core/src/kernel_types.rs).
 */
module KernelCodec {
  import opened Wrappers
  import opened Bytes
  import opened KernelTypes
  import opened KernelAtoms

  function Narrow64(n: U64): U64 { n % TWO_32 }

  function NarrowGas(g: Gas): Gas { Gas(Narrow64(g.daGas), Narrow64(g.l2Gas)) }

  function NarrowOption(g: Option<Gas>): Option<Gas> { match g case Some(v) => Some(NarrowGas(v)) case None => None }

  function NarrowGlobals(g: GlobalVariables): GlobalVariables {
    g.(blockNumber := Narrow64(g.blockNumber), slotNumber := Narrow64(g.slotNumber))
  }

  function NarrowSettings(s: GasSettings): GasSettings {
    s.(gasLimits := NarrowOption(s.gasLimits), teardownGasLimits := NarrowOption(s.teardownGasLimits))
  }

  function NarrowConstants(c: TxConstantData): TxConstantData {
    c.(anchorBlockHeader := c.anchorBlockHeader.(globals := NarrowGlobals(c.anchorBlockHeader.globals)),
       txContext := c.txContext.(gasSettings := NarrowSettings(c.txContext.gasSettings)))
  }

  /** The inputs with block number, slot and gas amounts reduced to 32 bits. */
  function Narrow(x: PublicInputs): PublicInputs {
    x.(constants := NarrowConstants(x.constants), gasUsed := NarrowGas(x.gasUsed))
  }

  lemma NarrowIsIdentity(x: PublicInputs)
    ensures Narrow(x) == x <==> Fits(x)
  {
  }

  lemma NarrowKeepsSize(x: PublicInputs)
    ensures Sized(x) ==> Sized(Narrow(x))
    ensures HasVariant(Narrow(x)) == HasVariant(x) && Narrow(x).forPublic.Some? == x.forPublic.Some?
  {
  }

  lemma NarrowedHeader(h: BlockHeader)
    ensures HeaderAtoms(h.(globals := NarrowGlobals(h.globals))) == CutAll(HeaderAtoms(h))
  {
    var a := SnapshotAtoms(h.lastArchive) + StateAtoms(h.state) + [AFr(h.spongeBlobHash)];
    var g, z := GlobalsAtoms(h.globals), [AFr(h.totalFees), AFr(h.totalManaUsed)];
    CutAllAppend(a + g, z);
    CutAllAppend(a, g);
    CutAllOfUncut(a);
    CutAllOfUncut(z);
    assert GlobalsAtoms(NarrowGlobals(h.globals)) == CutAll(g);
  }

  lemma NarrowedContext(c: TxContext)
    ensures ContextAtoms(c.(gasSettings := NarrowSettings(c.gasSettings))) == CutAll(ContextAtoms(c))
  {
    var a, g := [AFr(c.chainId), AFr(c.version)], GasSettingsAtoms(c.gasSettings);
    CutAllAppend(a, g);
    CutAllOfUncut(a);
    assert GasSettingsAtoms(NarrowSettings(c.gasSettings)) == CutAll(g);
  }

  lemma NarrowedConstants(c: TxConstantData)
    ensures ConstantsAtoms(NarrowConstants(c)) == CutAll(ConstantsAtoms(c))
  {
    var h, t := HeaderAtoms(c.anchorBlockHeader), ContextAtoms(c.txContext);
    var z := [AFr(c.vkTreeRoot), AFr(c.protocolContractsHash)];
    NarrowedHeader(c.anchorBlockHeader);
    NarrowedContext(c.txContext);
    CutAllAppend(h + t, z);
    CutAllAppend(h, t);
    CutAllOfUncut(z);
  }

  lemma UncutAppend(xs: seq<Atom>, ys: seq<Atom>)
    requires Uncut(xs) && Uncut(ys)
    ensures Uncut(xs + ys)
  {
  }

  lemma RollupUncut(d: RollupData)
    ensures Uncut(RollupAtoms(d))
  {
    var m, l := Flat(MsgAtoms, d.l2ToL1Msgs), Flat(LogAtoms, d.privateLogs);
    var h, n := Flat(LogHashAtoms, d.contractClassLogsHashes), FrAtoms(d.noteHashes) + FrAtoms(d.nullifiers);
    FlatUncut(MsgAtoms, d.l2ToL1Msgs);
    FlatUncut(LogAtoms, d.privateLogs);
    FlatUncut(LogHashAtoms, d.contractClassLogsHashes);
    UncutAppend(n, m);
    UncutAppend(n + m, l);
    UncutAppend(n + m + l, h);
  }

  lemma PublicUncut(d: PublicData)
    ensures Uncut(PublicAtoms(d))
  {
    RollupUncut(d.common);
    FlatUncut(RequestAtoms, d.publicCallRequests);
    UncutAppend(RollupAtoms(d.common), Flat(RequestAtoms, d.publicCallRequests));
  }

  lemma AccumulatedUncut(x: PublicInputs)
    ensures Uncut(AccumulatedAtoms(x))
  {
    if x.forPublic.Some? {
      var p := x.forPublic.value;
      PublicUncut(p.nonRevertible);
      PublicUncut(p.revertible);
      UncutAppend(PublicAtoms(p.nonRevertible), PublicAtoms(p.revertible));
      UncutAppend(PublicAtoms(p.nonRevertible) + PublicAtoms(p.revertible), RequestAtoms(p.teardown));
    } else if x.forRollup.Some? {
      RollupUncut(x.forRollup.value);
    }
  }

  lemma NarrowedBuffer(x: PublicInputs)
    ensures BufferAtoms(Narrow(x)) == CutAll(BufferAtoms(x))
  {
    NarrowedConstants(x.constants);
    AccumulatedUncut(x);
    NarrowedParts([ABool(x.forPublic.Some?)], ConstantsAtoms(x.constants), TrailerAtoms(x), AccumulatedAtoms(x));
    assert TrailerAtoms(Narrow(x)) == CutAll(TrailerAtoms(x));
    assert AccumulatedAtoms(Narrow(x)) == AccumulatedAtoms(x);
  }

  lemma NarrowedParts(b: seq<Atom>, c: seq<Atom>, t: seq<Atom>, a: seq<Atom>)
    requires Uncut(b) && Uncut(a)
    ensures CutAll(b + c + t + a) == b + CutAll(c) + CutAll(t) + a
  {
    CutAllAppend(b + c + t, a);
    CutAllAppend(b + c, t);
    CutAllAppend(b, c);
    CutAllOfUncut(a);
    CutAllOfUncut(b);
  }

  /** The buffer cannot tell an input from its narrowed form. */
  lemma BufferOfNarrow(x: PublicInputs)
    ensures BufferOf(Narrow(x)) == BufferOf(x)
  {
    NarrowedBuffer(x);
    CutAllKeepsBytes(BufferAtoms(x));
  }
}

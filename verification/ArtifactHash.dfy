/** The hash of a whole contract artifact (crates/core/src/hash.rs). */
module ArtifactHash {
  import opened Wrappers
  import opened Bytes
  import opened Fields
  import opened Artifacts
  import opened CanonicalJson
  import opened Merkle
  import Tree = ArtifactTree
  import opened ArtifactTree

  /** The two foreign functions involved: SHA-256 into the field, and the UTF-8 bytes of a text. */
  datatype Primitives = Primitives(sha: ByteHash, utf8: string -> seq<Byte>)

  ghost predicate Utf8Injective(p: Primitives) {
    forall s, t :: p.utf8(s) == p.utf8(t) ==> s == t
  }

  predicate Selected(f: FunctionArtifact, unconstrained: bool) {
    if unconstrained then f.functionType == Utility || f.isUnconstrained == Some(true)
    else f.functionType == Private
  }

  function Select(fs: seq<FunctionArtifact>, unconstrained: bool): (sel: seq<FunctionArtifact>)
    ensures forall f :: f in sel ==> f in fs && Selected(f, unconstrained)
  {
    if fs == [] then []
    else if Selected(fs[0], unconstrained) then [fs[0]] + Select(fs[1..], unconstrained)
    else Select(fs[1..], unconstrained)
  }

  function MetadataText(p: Primitives, f: FunctionArtifact): seq<Byte> { p.utf8(Print(f.returnTypes)) }

  function Leaf(p: Primitives, f: FunctionArtifact): FunctionLeaf {
    FunctionLeaf(f.selector, p.sha(MetadataText(p, f)),
                 OptionHash(p.sha, f.bytecode))
  }

  function FunctionLeaves(p: Primitives, fs: seq<FunctionArtifact>): (ls: seq<FunctionLeaf>)
    ensures |ls| == |fs| && forall i :: 0 <= i < |fs| ==> ls[i] == Leaf(p, fs[i])
  {
    seq(|fs|, i requires 0 <= i < |fs| => Leaf(p, fs[i]))
  }

  function TreeRoot(p: Primitives, a: Artifact, unconstrained: bool): Fr {
    FunctionTreeRoot(p.sha, FunctionLeaves(p, Select(a.functions, unconstrained)))
  }

  /** The JSON object artifact-level metadata is hashed from. */
  function Metadata(a: Artifact): Json {
    Obj([Member("name", Str(a.name))] + match a.outputs case Some(o) => [Member("outputs", o)] case None => [])
  }

  function ArtifactMetadataText(p: Primitives, a: Artifact): seq<Byte> { p.utf8(Print(Metadata(a))) }

  function TopPreimage(p: Primitives, a: Artifact): seq<Byte> {
    TopBytes(TreeRoot(p, a, false), TreeRoot(p, a, true), p.sha(ArtifactMetadataText(p, a)))
  }

  function TopBytes(privateRoot: Fr, utilityRoot: Fr, metadataHash: Fr): (b: seq<Byte>)
    ensures |b| == 97
  {
    [1] + FrToBytes(privateRoot) + FrToBytes(utilityRoot) + FrToBytes(metadataHash)
  }

  /** `compute_artifact_hash`. */
  function HashOf(p: Primitives, a: Artifact): Fr { p.sha(TopPreimage(p, a)) }

  // ----- What the artifact hash is a hash of -----

  /** Which functions enter the two trees, in artifact order. */
  lemma {:induction false} SelectIsFilter(fs: seq<FunctionArtifact>)
    ensures Select(fs, false) == Filter((f: FunctionArtifact) => f.functionType == Private, fs)
    ensures Select(fs, true) == Filter((f: FunctionArtifact) => f.functionType == Utility || f.isUnconstrained == Some(true), fs)
  {
    if fs != [] {
      SelectIsFilter(fs[1..]);
    }
  }

  function Filter(keep: FunctionArtifact -> bool, fs: seq<FunctionArtifact>): seq<FunctionArtifact> {
    if fs == [] then [] else (if keep(fs[0]) then [fs[0]] else []) + Filter(keep, fs[1..])
  }

  /** The 97 hashed bytes: a version byte, then private root, utility root and metadata hash, big-endian. */
  lemma TopLayout(p: Primitives, a: Artifact)
    ensures var b := TopPreimage(p, a);
            && |b| == 97 && b[0] == 1
            && BeValue(b[1..33]) == FunctionTreeRoot(p.sha, FunctionLeaves(p, Select(a.functions, false)))
            && BeValue(b[33..65]) == FunctionTreeRoot(p.sha, FunctionLeaves(p, Select(a.functions, true)))
            && BeValue(b[65..97]) == p.sha(p.utf8(Print(Metadata(a))))
  {
    var b := TopPreimage(p, a);
    assert b[1..33] == FrToBytes(TreeRoot(p, a, false)) && b[33..65] == FrToBytes(TreeRoot(p, a, true));
    assert b[65..97] == FrToBytes(p.sha(ArtifactMetadataText(p, a)));
    FrBytesRoundTrip(TreeRoot(p, a, false));
    FrBytesRoundTrip(TreeRoot(p, a, true));
    FrBytesRoundTrip(p.sha(ArtifactMetadataText(p, a)));
  }

  /** A leaf: selector, hash of the canonical return types, hash of the bytecode or zero. */
  lemma LeafContents(p: Primitives, f: FunctionArtifact)
    ensures Leaf(p, f).selector == f.selector
    ensures Leaf(p, f).metadataHash == p.sha(p.utf8(Print(f.returnTypes)))
    ensures f.bytecode.None? ==> Leaf(p, f).bytecodeHash == 0
    ensures f.bytecode.Some? ==> Leaf(p, f).bytecodeHash == p.sha(f.bytecode.value)
  {
  }

  /** The metadata text: name first, then outputs if there are any. */
  lemma MetadataTextIs(a: Artifact)
    ensures var name := "\"name\"" + ":" + Quote(a.name);
            Print(Metadata(a)) == match a.outputs
                                  case None => "{" + name + "}"
                                  case Some(o) => "{" + (name + "," + ("\"outputs\"" + ":" + Print(o))) + "}"
  {
    var name := Member("name", Str(a.name));
    QuotedName();
    match a.outputs {
      case None =>
        assert Metadata(a).members == [name];
        OneMemberText(name);
      case Some(o) =>
        var outputs := Member("outputs", o);
        assert Metadata(a).members == [name, outputs];
        QuotedOutputs();
        NameBeforeOutputs();
        TwoMemberText(name, outputs);
    }
  }

  lemma QuotedName()
    ensures Quote("name") == "\"name\""
  {
    PlainText("name");
  }

  lemma QuotedOutputs()
    ensures Quote("outputs") == "\"outputs\""
  {
    PlainText("outputs");
  }

  lemma NameBeforeOutputs()
    ensures Before("name", "outputs")
  {
    assert "name"[0] == 'n' && "outputs"[0] == 'o';
    assert DecidesAt("name", "outputs", 0);
  }

  /** Every byte string hashed for one list of functions. */
  ghost function BuiltFor(p: Primitives, fs: seq<FunctionArtifact>): set<seq<Byte>> {
    (set f | f in fs :: MetadataText(p, f))
    + (set f | f in fs && f.bytecode.Some? :: f.bytecode.value)
    + Tree.Built(p.sha, FunctionLeaves(p, fs))
  }

  /** Every byte string hashed for the artifact. */
  ghost function BuiltForArtifact(p: Primitives, a: Artifact): set<seq<Byte>> {
    {TopPreimage(p, a), ArtifactMetadataText(p, a)}
    + BuiltFor(p, Select(a.functions, false)) + BuiltFor(p, Select(a.functions, true))
  }

  /** Return types are JSON values of the kind `serde_json` builds. */
  ghost predicate WellFormedFunctions(fs: seq<FunctionArtifact>) {
    forall f :: f in fs ==> WellFormed(f.returnTypes)
  }

  ghost predicate WellFormedArtifact(a: Artifact) {
    WellFormedFunctions(a.functions) && (a.outputs.Some? ==> WellFormed(a.outputs.value))
  }

  /** The same function as far as the hash is concerned. */
  ghost predicate SameFunction(f: FunctionArtifact, g: FunctionArtifact) {
    f.selector == g.selector && Same(f.returnTypes, g.returnTypes) && f.bytecode == g.bytecode
  }

  ghost predicate SameFunctions(fs: seq<FunctionArtifact>, gs: seq<FunctionArtifact>) {
    |fs| == |gs| && forall i :: 0 <= i < |fs| ==> SameFunction(fs[i], gs[i])
  }

  lemma LeafBinding(p: Primitives, f: FunctionArtifact, g: FunctionArtifact, s: set<seq<Byte>>) returns (b: Breach<seq<Byte>>)
    requires Utf8Injective(p) && WellFormed(f.returnTypes) && WellFormed(g.returnTypes)
    requires Leaf(p, f) == Leaf(p, g)
    requires MetadataText(p, f) in s && MetadataText(p, g) in s
    requires (f.bytecode.Some? ==> f.bytecode.value in s) && (g.bytecode.Some? ==> g.bytecode.value in s)
    ensures b.Sound? ==> SameFunction(f, g)
    ensures Exhibits(p.sha, s, b)
  {
    b := HashedAlike(p.sha, MetadataText(p, f), MetadataText(p, g), s);
    if b.Sound? {
      PrintIsCanonical(f.returnTypes, g.returnTypes);
      b := OptionAlike(p.sha, f.bytecode, g.bytecode, s);
    }
  }

  ghost predicate PartsIn(p: Primitives, f: FunctionArtifact, s: set<seq<Byte>>) {
    MetadataText(p, f) in s && (f.bytecode.Some? ==> f.bytecode.value in s)
  }

  lemma PartsBuilt(p: Primitives, fs: seq<FunctionArtifact>, s: set<seq<Byte>>)
    requires BuiltFor(p, fs) <= s
    ensures forall i :: 0 <= i < |fs| ==> PartsIn(p, fs[i], s)
  {
    forall i | 0 <= i < |fs| ensures PartsIn(p, fs[i], s) {
      assert fs[i] in fs;
      assert MetadataText(p, fs[i]) in BuiltFor(p, fs);
      assert fs[i].bytecode.Some? ==> fs[i].bytecode.value in BuiltFor(p, fs);
    }
  }

  lemma LeavesBinding(p: Primitives, fs: seq<FunctionArtifact>, gs: seq<FunctionArtifact>, s: set<seq<Byte>>)
    returns (b: Breach<seq<Byte>>)
    requires Utf8Injective(p) && |fs| == |gs|
    requires forall i :: 0 <= i < |fs| ==> WellFormed(fs[i].returnTypes) && WellFormed(gs[i].returnTypes)
    requires forall i :: 0 <= i < |fs| ==> Leaf(p, fs[i]) == Leaf(p, gs[i])
    requires forall i :: 0 <= i < |fs| ==> PartsIn(p, fs[i], s) && PartsIn(p, gs[i], s)
    ensures b.Sound? ==> SameFunctions(fs, gs)
    ensures Exhibits(p.sha, s, b)
  {
    if i :| 0 <= i < |fs| && !SameFunction(fs[i], gs[i]) {
      b := LeafBinding(p, fs[i], gs[i], s);
    } else {
      b := Sound;
    }
  }

  lemma ListBinding(p: Primitives, fs: seq<FunctionArtifact>, gs: seq<FunctionArtifact>, s: set<seq<Byte>>)
    returns (b: Breach<seq<Byte>>)
    requires Utf8Injective(p) && WellFormedFunctions(fs) && WellFormedFunctions(gs)
    requires FunctionTreeRoot(p.sha, FunctionLeaves(p, fs)) == FunctionTreeRoot(p.sha, FunctionLeaves(p, gs))
    requires BuiltFor(p, fs) <= s && BuiltFor(p, gs) <= s
    ensures b.Sound? ==> SameFunctions(fs, gs)
    ensures Exhibits(p.sha, s, b)
  {
    b := Tree.RootBinding(p.sha, FunctionLeaves(p, fs), FunctionLeaves(p, gs));
    if b.Sound? {
      var ls, ms := FunctionLeaves(p, fs), FunctionLeaves(p, gs);
      assert |ls| == |ms| && forall i :: 0 <= i < |fs| ==> ls[i] == ms[i];
      PartsBuilt(p, fs, s);
      PartsBuilt(p, gs, s);
      b := LeavesBinding(p, fs, gs, s);
    }
  }

  lemma TopBytesInjective(x: Fr, y: Fr, z: Fr, x': Fr, y': Fr, z': Fr)
    requires TopBytes(x, y, z) == TopBytes(x', y', z')
    ensures x == x' && y == y' && z == z'
  {
    var b, c := TopBytes(x, y, z), TopBytes(x', y', z');
    assert FrToBytes(x) == b[1..33] == c[1..33] == FrToBytes(x');
    assert FrToBytes(y) == b[33..65] == c[33..65] == FrToBytes(y');
    assert FrToBytes(z) == b[65..97] == c[65..97] == FrToBytes(z');
    FrToBytesInjective(x, x');
    FrToBytesInjective(y, y');
    FrToBytesInjective(z, z');
  }

  lemma MetadataWellFormed(a: Artifact)
    requires WellFormedArtifact(a)
    ensures WellFormed(Metadata(a))
  {
    var ms := Metadata(a).members;
    assert ms[0].key == "name" && "name"[0] != "outputs"[0];
  }

  /**
   One artifact hash, one artifact: the private functions and the utility
   functions agree in number, order, selector, return types up to JSON key order
   and bytecode, and so does the metadata; otherwise a collision or a preimage of
   zero is among the strings that were hashed.
   */
  lemma HashBinding(p: Primitives, a: Artifact, a': Artifact) returns (b: Breach<seq<Byte>>)
    requires Utf8Injective(p) && WellFormedArtifact(a) && WellFormedArtifact(a')
    requires HashOf(p, a) == HashOf(p, a')
    ensures b.Sound? ==>
              && SameFunctions(Select(a.functions, false), Select(a'.functions, false))
              && SameFunctions(Select(a.functions, true), Select(a'.functions, true))
              && Same(Metadata(a), Metadata(a'))
    ensures Exhibits(p.sha, BuiltForArtifact(p, a) + BuiltForArtifact(p, a'), b)
  {
    var s := BuiltForArtifact(p, a) + BuiltForArtifact(p, a');
    b := HashedAlike(p.sha, TopPreimage(p, a), TopPreimage(p, a'), s);
    if b.Sound? {
      TopBytesInjective(TreeRoot(p, a, false), TreeRoot(p, a, true), p.sha(ArtifactMetadataText(p, a)),
                        TreeRoot(p, a', false), TreeRoot(p, a', true), p.sha(ArtifactMetadataText(p, a')));
      b := ListBinding(p, Select(a.functions, false), Select(a'.functions, false), s);
      if b.Sound? {
        b := ListBinding(p, Select(a.functions, true), Select(a'.functions, true), s);
        if b.Sound? {
          b := HashedAlike(p.sha, ArtifactMetadataText(p, a), ArtifactMetadataText(p, a'), s);
          MetadataWellFormed(a);
          MetadataWellFormed(a');
          PrintIsCanonical(Metadata(a), Metadata(a'));
        }
      }
    }
  }
}

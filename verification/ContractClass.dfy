/** Contract class ids: three commitments joined (crates/core/src/hash.rs). */
module ContractClass {
  import opened Wrappers
  import opened Bytes
  import opened Fields
  import opened Merkle
  import opened Sorting
  import opened CanonicalJson
  import opened Artifacts
  import opened ArtifactHash
  import opened ByteFields
  import Private = PrivateFunctions
  import opened PrivateFunctions

  const CONTRACT_CLASS_ID: Fr := 3_923_495_515

  /** The entry of a private function: a missing verification key hash counts as zero. */
  function Entry(f: FunctionArtifact): PrivateFunction {
    PrivateFunction(f.selector, match f.verificationKeyHash case Some(v) => v case None => 0)
  }

  function Entries(fs: seq<FunctionArtifact>): (es: seq<PrivateFunction>)
    ensures |es| == |fs| && forall i :: 0 <= i < |fs| ==> es[i] == Entry(fs[i])
  {
    seq(|fs|, i requires 0 <= i < |fs| => Entry(fs[i]))
  }

  function PrivateEntries(a: Artifact): seq<PrivateFunction> { Entries(Select(a.functions, false)) }

  predicate IsDispatch(f: FunctionArtifact) { f.functionType == Public && f.name == "public_dispatch" }

  /** `extract_packed_public_bytecode`: the bytes of the first `public_dispatch`, or none. */
  function PublicBytecode(fs: seq<FunctionArtifact>): seq<Byte> {
    if fs == [] then []
    else if IsDispatch(fs[0]) then match fs[0].bytecode case Some(b) => b case None => []
    else PublicBytecode(fs[1..])
  }

  function ClassPreimage(hash: Hash, p: Primitives, a: Artifact): Result<seq<Fr>, PackError> {
    match CommitmentPreimage(PublicBytecode(a.functions))
    case Err(e) => Err(e)
    case Ok(packed) => Ok([CONTRACT_CLASS_ID, HashOf(p, a), RootOf(hash, PrivateEntries(a)), hash(packed)])
  }

  /** `compute_contract_class_id_from_artifact`; bytecode that is too long makes the source panic. */
  function ClassIdOf(hash: Hash, p: Primitives, a: Artifact): Result<Fr, PackError> {
    match ClassPreimage(hash, p, a)
    case Err(e) => Err(e)
    case Ok(preimage) => Ok(hash(preimage))
  }

  /**
   The class id: artifact hash, private-function root and bytecode commitment, in that
   order, under their separator; there is one exactly where there is a commitment.
   */
  lemma ClassIdIs(hash: Hash, p: Primitives, a: Artifact)
    ensures var packed := CommitmentPreimage(PublicBytecode(a.functions));
            && (packed.Err? ==> ClassIdOf(hash, p, a) == Err(packed.error))
            && (packed.Ok? ==> ClassIdOf(hash, p, a) ==
                               Ok(hash([3_923_495_515, HashOf(p, a), RootOf(hash, PrivateEntries(a)), hash(packed.value)])))
  {
  }

  /** Where the three parts come from. */
  lemma ClassSources(a: Artifact)
    ensures |PrivateEntries(a)| == |Select(a.functions, false)|
    ensures forall i :: 0 <= i < |PrivateEntries(a)| ==>
              var f := Select(a.functions, false)[i];
              PrivateEntries(a)[i] == PrivateFunction(f.selector, if f.verificationKeyHash.Some? then f.verificationKeyHash.value else 0)
    ensures (forall f :: f in a.functions ==> f.functionType != Public || f.name != "public_dispatch") ==>
              PublicBytecode(a.functions) == []
    ensures forall i :: 0 <= i < |a.functions| && DispatchAt(a.functions, i) ==>
              PublicBytecode(a.functions) == if a.functions[i].bytecode.Some? then a.functions[i].bytecode.value else []
  {
    if forall f :: f in a.functions ==> f.functionType != Public || f.name != "public_dispatch" {
      NoDispatch(a.functions);
    }
    forall i | 0 <= i < |a.functions| && DispatchAt(a.functions, i)
      ensures PublicBytecode(a.functions) == if a.functions[i].bytecode.Some? then a.functions[i].bytecode.value else []
    {
      FirstDispatch(a.functions, i);
    }
  }

  /** Position `i` holds the first public function named `public_dispatch`. */
  ghost predicate DispatchAt(fs: seq<FunctionArtifact>, i: nat)
    requires i < |fs|
  {
    && fs[i].functionType == Public && fs[i].name == "public_dispatch"
    && forall j :: 0 <= j < i ==> fs[j].functionType != Public || fs[j].name != "public_dispatch"
  }

  lemma {:induction false} NoDispatch(fs: seq<FunctionArtifact>)
    requires forall f :: f in fs ==> f.functionType != Public || f.name != "public_dispatch"
    ensures PublicBytecode(fs) == []
  {
    if fs != [] { NoDispatch(fs[1..]); }
  }

  lemma {:induction false} FirstDispatch(fs: seq<FunctionArtifact>, i: nat)
    requires i < |fs| && DispatchAt(fs, i)
    ensures PublicBytecode(fs) == if fs[i].bytecode.Some? then fs[i].bytecode.value else []
  {
    if i > 0 { FirstDispatch(fs[1..], i - 1); }
  }

  /** Every field list hashed for the class id. */
  ghost function ClassBuilt(hash: Hash, p: Primitives, a: Artifact): set<seq<Fr>>
    requires ClassIdOf(hash, p, a).Ok?
  {
    {ClassPreimage(hash, p, a).value, CommitmentPreimage(PublicBytecode(a.functions)).value}
    + Private.Built(hash, PrivateEntries(a))
  }

  /**
   The same class.  Private functions agree in order in everything the artifact hash
   covers, and in their verification keys: all of them if they fit the tree, and
   otherwise the ones that reach its root.
   */
  ghost predicate SameClass(a: Artifact, a': Artifact) {
    && SameFunctions(Select(a.functions, false), Select(a'.functions, false))
    && SameFunctions(Select(a.functions, true), Select(a'.functions, true))
    && Same(Metadata(a), Metadata(a'))
    && PublicBytecode(a.functions) == PublicBytecode(a'.functions)
    && Kept(PrivateEntries(a)) == Kept(PrivateEntries(a'))
    && (|PrivateEntries(a)| <= NUM_LEAVES ==> PrivateEntries(a) == PrivateEntries(a'))
  }

  /**
   One class id, one class: otherwise Poseidon2 or SHA-256 is broken on a string
   that one of the two computations hashed.
   */
  lemma ClassIdBinding(hash: Hash, p: Primitives, a: Artifact, a': Artifact)
    returns (h: Breach<seq<Fr>>, s: Breach<seq<Byte>>)
    requires Utf8Injective(p) && WellFormedArtifact(a) && WellFormedArtifact(a')
    requires ClassIdOf(hash, p, a).Ok? && ClassIdOf(hash, p, a) == ClassIdOf(hash, p, a')
    ensures h.Sound? && s.Sound? ==> SameClass(a, a')
    ensures Exhibits(hash, ClassBuilt(hash, p, a) + ClassBuilt(hash, p, a'), h)
    ensures Exhibits(p.sha, BuiltForArtifact(p, a) + BuiltForArtifact(p, a'), s)
  {
    var built := ClassBuilt(hash, p, a) + ClassBuilt(hash, p, a');
    var x, y := ClassPreimage(hash, p, a).value, ClassPreimage(hash, p, a').value;
    s := Sound;
    h := HashedAlike(hash, x, y, built);
    if h.Sound? {
      assert x[1] == y[1] && x[2] == y[2] && x[3] == y[3];
      s := HashBinding(p, a, a');
      h := BytecodeBinding(hash, p, a, a');
      if h.Sound? && s.Sound? {
        h := KeysBinding(hash, p, a, a');
      }
    }
  }

  lemma BytecodeBinding(hash: Hash, p: Primitives, a: Artifact, a': Artifact) returns (h: Breach<seq<Fr>>)
    requires ClassIdOf(hash, p, a).Ok? && ClassIdOf(hash, p, a').Ok?
    requires ClassPreimage(hash, p, a).value[3] == ClassPreimage(hash, p, a').value[3]
    ensures h.Sound? ==> PublicBytecode(a.functions) == PublicBytecode(a'.functions)
    ensures Exhibits(hash, ClassBuilt(hash, p, a) + ClassBuilt(hash, p, a'), h)
  {
    var b, c := PublicBytecode(a.functions), PublicBytecode(a'.functions);
    h := HashedAlike(hash, CommitmentPreimage(b).value, CommitmentPreimage(c).value,
                     ClassBuilt(hash, p, a) + ClassBuilt(hash, p, a'));
    if h.Sound? {
      CommitmentPreimageInjective(b, c);
    }
  }

  /**
   The private-function tree alone loses the order of the functions; the artifact
   hash has it.  With the selectors known in order, a stable sort loses nothing.
   */
  lemma KeysBinding(hash: Hash, p: Primitives, a: Artifact, a': Artifact) returns (h: Breach<seq<Fr>>)
    requires ClassIdOf(hash, p, a).Ok? && ClassIdOf(hash, p, a').Ok?
    requires RootOf(hash, PrivateEntries(a)) == RootOf(hash, PrivateEntries(a'))
    requires SameFunctions(Select(a.functions, false), Select(a'.functions, false))
    ensures h.Sound? ==> Kept(PrivateEntries(a)) == Kept(PrivateEntries(a'))
    ensures h.Sound? && |PrivateEntries(a)| <= NUM_LEAVES ==> PrivateEntries(a) == PrivateEntries(a')
    ensures Exhibits(hash, ClassBuilt(hash, p, a) + ClassBuilt(hash, p, a'), h)
  {
    var xs, ys := PrivateEntries(a), PrivateEntries(a');
    var c := Private.RootBinding(hash, xs, ys);
    if c.Some? {
      h := Collision(c.value.0, c.value.1);
    } else {
      h := Sound;
      if |xs| <= NUM_LEAVES {
        SelectorOrder();
        forall i | 0 <= i < |xs| ensures Equivalent(BySelector(), xs[i], ys[i]) {
          assert SameFunction(Select(a.functions, false)[i], Select(a'.functions, false)[i]);
        }
        SortDetermines(BySelector(), xs, ys);
      }
    }
  }

  /** Conversely, what the class id covers determines it. */
  lemma SameClassSameId(hash: Hash, p: Primitives, a: Artifact, a': Artifact)
    requires WellFormedArtifact(a) && WellFormedArtifact(a')
    requires SameClass(a, a')
    ensures ClassIdOf(hash, p, a) == ClassIdOf(hash, p, a')
  {
    LeavesOfKept(hash, PrivateEntries(a));
    LeavesOfKept(hash, PrivateEntries(a'));
    SameLeaves(p, Select(a.functions, false), Select(a'.functions, false));
    SameLeaves(p, Select(a.functions, true), Select(a'.functions, true));
    MetadataWellFormed(a);
    MetadataWellFormed(a');
    SamePrintsAlike(Metadata(a), Metadata(a'));
  }

  lemma SameLeaves(p: Primitives, fs: seq<FunctionArtifact>, gs: seq<FunctionArtifact>)
    requires SameFunctions(fs, gs) && WellFormedFunctions(fs) && WellFormedFunctions(gs)
    ensures FunctionLeaves(p, fs) == FunctionLeaves(p, gs)
  {
    forall i | 0 <= i < |fs| ensures Leaf(p, fs[i]) == Leaf(p, gs[i]) {
      assert fs[i] in fs && gs[i] in gs && SameFunction(fs[i], gs[i]);
      SamePrintsAlike(fs[i].returnTypes, gs[i].returnTypes);
    }
  }
}

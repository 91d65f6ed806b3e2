/** The SHA-256 tree over an artifact's functions (crates/core/src/hash.rs). */
module ArtifactTree {
  import opened Bytes
  import opened Fields
  import opened Merkle
  import opened PrivateFunctions

  /** `sha256_to_field`, as an arbitrary function from byte strings to the field. */
  type ByteHash = seq<Byte> -> Fr

  /** How `sha256_to_field` uses the digest: its first 31 bytes after a zero byte. */
  function DigestToField(d: Digest): Fr { FrFromBytes([0] + d[..31]) }

  /** Only the last digest byte is dropped; nothing is reduced, so equal results mean equal first 31 bytes. */
  lemma DigestToFieldKeeps31Bytes(d: Digest, e: Digest)
    ensures DigestToField(d) == BeValue(d[..31])
    ensures DigestToField(d) == DigestToField(e) <==> d[..31] == e[..31]
  {
    TopZeroByte(d[..31]);
    TopZeroByte(e[..31]);
    ToBeOfBe(d[..31]);
    ToBeOfBe(e[..31]);
  }

  datatype FunctionLeaf = FunctionLeaf(selector: Selector, metadataHash: Fr, bytecodeHash: Fr)

  function LeafBytes(f: FunctionLeaf): (b: seq<Byte>)
    ensures |b| == 69
  {
    [1] + ToBe(f.selector, 4) + FrToBytes(f.metadataHash) + FrToBytes(f.bytecodeHash)
  }

  lemma LeafBytesInjective(f: FunctionLeaf, g: FunctionLeaf)
    requires LeafBytes(f) == LeafBytes(g)
    ensures f == g
  {
    var b, c := LeafBytes(f), LeafBytes(g);
    assert ToBe(f.selector, 4) == b[1..5] == c[1..5] == ToBe(g.selector, 4);
    assert FrToBytes(f.metadataHash) == b[5..37] == c[5..37] == FrToBytes(g.metadataHash);
    assert FrToBytes(f.bytecodeHash) == b[37..69] == c[37..69] == FrToBytes(g.bytecodeHash);
    Pow256Widths();
    ToBeInjective(f.selector, g.selector, 4);
    FrToBytesInjective(f.metadataHash, g.metadataHash);
    FrToBytesInjective(f.bytecodeHash, g.bytecodeHash);
  }

  /** What the leaf bytes are: a version byte and three big-endian numbers. */
  lemma LeafLayout(f: FunctionLeaf)
    ensures var b := LeafBytes(f);
            && b[0] == 1 && BeValue(b[1..5]) == f.selector
            && BeValue(b[5..37]) == f.metadataHash && BeValue(b[37..69]) == f.bytecodeHash
  {
    var b := LeafBytes(f);
    assert b[1..5] == ToBe(f.selector, 4) && b[5..37] == FrToBytes(f.metadataHash) && b[37..69] == FrToBytes(f.bytecodeHash);
    Pow256Widths();
    BeOfToBe(f.selector, 4);
    FrBytesRoundTrip(f.metadataHash);
    FrBytesRoundTrip(f.bytecodeHash);
  }

  function PairBytes(l: Fr, r: Fr): (b: seq<Byte>)
    ensures |b| == 64
  {
    FrToBytes(l) + FrToBytes(r)
  }

  function ShaNodes(sha: ByteHash): NodeHash<seq<Byte>> { NodeHash(sha, PairBytes) }

  lemma PairBytesInjective(sha: ByteHash)
    ensures InjectiveEncoding(ShaNodes(sha))
  {
    forall l: Fr, r: Fr, l': Fr, r': Fr | ShaNodes(sha).enc(l, r) == ShaNodes(sha).enc(l', r')
      ensures l == l' && r == r'
    {
      assert FrToBytes(l) == PairBytes(l, r)[..32] == PairBytes(l', r')[..32] == FrToBytes(l');
      assert FrToBytes(r) == PairBytes(l, r)[32..] == PairBytes(l', r')[32..] == FrToBytes(r');
      FrToBytesInjective(l, l');
      FrToBytesInjective(r, r');
    }
  }

  /** Leaf `i` of the padded tree. */
  function PaddedLeaf(sha: ByteHash, fs: seq<FunctionLeaf>, i: nat): Fr {
    if i < |fs| then sha(LeafBytes(fs[i])) else 0
  }

  /** The leaves, filled up with zeros to the next power of two. */
  function PaddedLeaves(sha: ByteHash, fs: seq<FunctionLeaf>): (ls: seq<Fr>)
    ensures |ls| == Pow2(CeilLog2(|fs|))
  {
    seq(Pow2(CeilLog2(|fs|)), i requires 0 <= i => PaddedLeaf(sha, fs, i))
  }

  /** The root the source defines: zero for no function, otherwise a perfect tree over the padded leaves. */
  function FunctionTreeRoot(sha: ByteHash, fs: seq<FunctionLeaf>): Fr {
    if fs == [] then 0 else Tree(ShaNodes(sha), PaddedLeaves(sha, fs), CeilLog2(|fs|))
  }

  /** `compute_artifact_function_tree_root` after filtering: leaves, padding, then the Merkle loop. */
  method ComputeFunctionTreeRoot(sha: ByteHash, fs: seq<FunctionLeaf>) returns (root: Fr)
    ensures root == FunctionTreeRoot(sha, fs)
  {
    if fs == [] {
      return 0;
    }
    var leaves: seq<Fr> := [];
    for i := 0 to |fs|
      invariant |leaves| == i
      invariant forall j :: 0 <= j < i ==> leaves[j] == PaddedLeaf(sha, fs, j)
    {
      leaves := leaves + [sha(LeafBytes(fs[i]))];
    }
    var height := CeilLog2(|leaves|);
    leaves := leaves + seq(Pow2(height) - |leaves|, _ => 0);
    assert leaves == PaddedLeaves(sha, fs);
    CeilLog2OfPower(height);
    root := MerkleRoot(ShaNodes(sha), leaves);
  }

  /** Membership: every function is proved by the siblings on its way to the root. */
  lemma Membership(sha: ByteHash, fs: seq<FunctionLeaf>, i: nat) returns (path: seq<Fr>)
    requires i < |fs|
    ensures |path| == CeilLog2(|fs|)
    ensures FoldPath((l, r) => sha(FrToBytes(l) + FrToBytes(r)), sha(LeafBytes(fs[i])), i, path) == FunctionTreeRoot(sha, fs)
  {
    path := MembershipPath(ShaNodes(sha), (l, r) => sha(FrToBytes(l) + FrToBytes(r)), PaddedLeaves(sha, fs), CeilLog2(|fs|), i);
  }

  /** Every byte string the computation hashes. */
  ghost function Built(sha: ByteHash, fs: seq<FunctionLeaf>): set<seq<Byte>> {
    (set f | f in fs :: LeafBytes(f))
    + if fs == [] then {} else Preimages(ShaNodes(sha), PaddedLeaves(sha, fs), CeilLog2(|fs|))
  }

  /**
   The root binds the ordered list of functions, whatever the two lengths: equal
   roots come from equal lists, unless a collision or a preimage of zero was hashed
   on the way.  Leaves are 69 bytes and inner nodes 64, so one is never the other.
   */
  lemma RootBinding(sha: ByteHash, fs: seq<FunctionLeaf>, gs: seq<FunctionLeaf>) returns (b: Breach<seq<Byte>>)
    requires FunctionTreeRoot(sha, fs) == FunctionTreeRoot(sha, gs)
    ensures b.Sound? ==> fs == gs
    ensures Exhibits(sha, Built(sha, fs) + Built(sha, gs), b)
  {
    if fs == [] && gs == [] {
      b := Sound;
    } else if gs == [] {
      b := RootPreimage(sha, fs);
    } else if fs == [] {
      b := RootPreimage(sha, gs);
    } else if CeilLog2(|fs|) == CeilLog2(|gs|) {
      b := SameHeight(sha, fs, gs);
    } else if CeilLog2(|fs|) < CeilLog2(|gs|) {
      b := DifferentHeight(sha, fs, gs);
    } else {
      b := DifferentHeight(sha, gs, fs);
    }
  }

  /** A root of zero over at least one function is itself a hash of something built. */
  lemma RootPreimage(sha: ByteHash, fs: seq<FunctionLeaf>) returns (b: Breach<seq<Byte>>)
    requires fs != [] && FunctionTreeRoot(sha, fs) == 0
    ensures b.ZeroPreimage? && Exhibits(sha, Built(sha, fs), b)
  {
    var ls, k := PaddedLeaves(sha, fs), CeilLog2(|fs|);
    if k == 0 {
      assert ls[0] == PaddedLeaf(sha, fs, 0);
      assert fs[0] in fs;
      b := ZeroPreimage(LeafBytes(fs[0]));
    } else {
      b := ZeroPreimage(PairBytes(Tree(ShaNodes(sha), LeftHalf(ls, k), k - 1), RightTree(ShaNodes(sha), ls, k)));
    }
  }

  lemma SameHeight(sha: ByteHash, fs: seq<FunctionLeaf>, gs: seq<FunctionLeaf>) returns (b: Breach<seq<Byte>>)
    requires fs != [] && gs != [] && CeilLog2(|fs|) == CeilLog2(|gs|)
    requires FunctionTreeRoot(sha, fs) == FunctionTreeRoot(sha, gs)
    ensures b.Sound? ==> fs == gs
    ensures Exhibits(sha, Built(sha, fs) + Built(sha, gs), b)
  {
    PairBytesInjective(sha);
    var c := TreeBinding(ShaNodes(sha), PaddedLeaves(sha, fs), PaddedLeaves(sha, gs), CeilLog2(|fs|),
                         Built(sha, fs) + Built(sha, gs));
    if c.Some? {
      b := Collision(c.value.0, c.value.1);
    } else {
      b := LeavesBinding(sha, fs, gs);
    }
  }

  lemma LeavesBinding(sha: ByteHash, fs: seq<FunctionLeaf>, gs: seq<FunctionLeaf>) returns (b: Breach<seq<Byte>>)
    requires PaddedLeaves(sha, fs) == PaddedLeaves(sha, gs)
    ensures b.Sound? ==> fs == gs
    ensures Exhibits(sha, Built(sha, fs) + Built(sha, gs), b)
  {
    if |fs| < |gs| {
      assert PaddedLeaves(sha, fs)[|fs|] == PaddedLeaves(sha, gs)[|fs|];
      assert gs[|fs|] in gs;
      b := ZeroPreimage(LeafBytes(gs[|fs|]));
    } else if |gs| < |fs| {
      assert PaddedLeaves(sha, fs)[|gs|] == PaddedLeaves(sha, gs)[|gs|];
      assert fs[|gs|] in fs;
      b := ZeroPreimage(LeafBytes(fs[|gs|]));
    } else if fs == gs {
      b := Sound;
    } else {
      var i :| 0 <= i < |fs| && fs[i] != gs[i];
      assert PaddedLeaves(sha, fs)[i] == PaddedLeaves(sha, gs)[i];
      if LeafBytes(fs[i]) == LeafBytes(gs[i]) { LeafBytesInjective(fs[i], gs[i]); }
      assert fs[i] in fs && gs[i] in gs;
      b := Collision(LeafBytes(fs[i]), LeafBytes(gs[i]));
    }
  }

  lemma DifferentHeight(sha: ByteHash, fs: seq<FunctionLeaf>, gs: seq<FunctionLeaf>) returns (b: Breach<seq<Byte>>)
    requires fs != [] && gs != [] && CeilLog2(|fs|) < CeilLog2(|gs|)
    requires FunctionTreeRoot(sha, fs) == FunctionTreeRoot(sha, gs)
    ensures b.Collision? && Exhibits(sha, Built(sha, fs) + Built(sha, gs), b)
  {
    PairBytesInjective(sha);
    var l, r, c := LeftEdge(ShaNodes(sha), PaddedLeaves(sha, fs), CeilLog2(|fs|),
                            PaddedLeaves(sha, gs), CeilLog2(|gs|), Built(sha, fs) + Built(sha, gs));
    if c.Some? {
      b := Collision(c.value.0, c.value.1);
    } else {
      assert fs[0] in fs && PaddedLeaves(sha, fs)[0] == PaddedLeaf(sha, fs, 0);
      b := Collision(LeafBytes(fs[0]), PairBytes(l, r));
    }
  }
}

/** The private-function tree of a contract class (crates/core/src/hash.rs). */
module PrivateFunctions {
  import opened Wrappers
  import opened Fields
  import opened Merkle
  import opened Sorting

  type Selector = x: int | 0 <= x < 0x1_0000_0000

  datatype PrivateFunction = PrivateFunction(selector: Selector, vkHash: Fr)

  /** `poseidon2_hash`, as an arbitrary function from field lists to the field. */
  type Hash = seq<Fr> -> Fr

  const TREE_HEIGHT: nat := 7
  const NUM_LEAVES: nat := 128
  const PRIVATE_FUNCTION_LEAF: Fr := 1_389_398_688

  function BySelector(): (PrivateFunction, PrivateFunction) -> bool {
    (f: PrivateFunction, g: PrivateFunction) => f.selector <= g.selector
  }

  function SortBySelector(fs: seq<PrivateFunction>): seq<PrivateFunction> { Sort(BySelector(), fs) }

  function LeafPreimage(f: PrivateFunction): seq<Fr> { [PRIVATE_FUNCTION_LEAF, f.selector, f.vkHash] }

  const ZERO_LEAF_PREIMAGE: seq<Fr> := [0, 0]

  function Nodes(hash: Hash): NodeHash<seq<Fr>> { NodeHash(hash, (l, r) => [l, r]) }

  /** The 128 leaves: one per function, then the zero leaf; functions past the 128th are cut off. */
  function Leaves(hash: Hash, sorted: seq<PrivateFunction>): (ls: seq<Fr>)
    ensures |ls| == NUM_LEAVES
  {
    seq(NUM_LEAVES, i requires 0 <= i => LeafAt(hash, sorted, i))
  }

  function LeafAt(hash: Hash, sorted: seq<PrivateFunction>, i: nat): Fr {
    if i < |sorted| then hash(LeafPreimage(sorted[i])) else hash(ZERO_LEAF_PREIMAGE)
  }

  /** The functions that reach the root: the first 128 after sorting. */
  function Kept(fs: seq<PrivateFunction>): (ks: seq<PrivateFunction>)
    ensures |ks| <= NUM_LEAVES
  {
    var sorted := SortBySelector(fs);
    if |sorted| <= NUM_LEAVES then sorted else sorted[..NUM_LEAVES]
  }

  /** The root as the general path computes it. */
  function RootOf(hash: Hash, fs: seq<PrivateFunction>): Fr {
    Root(Nodes(hash), Leaves(hash, SortBySelector(fs)))
  }

  /** `compute_private_functions_root`: sorts the caller's slice in place, then hashes. */
  method ComputePrivateFunctionsRoot(hash: Hash, fs: array<PrivateFunction>) returns (root: Fr)
    modifies fs
    ensures fs[..] == SortBySelector(old(fs[..]))
    ensures Ascending(fs[..]) && multiset(fs[..]) == multiset(old(fs[..]))
    ensures root == RootOf(hash, old(fs[..]))
  {
    var zeroLeaf := hash(ZERO_LEAF_PREIMAGE);
    if fs.Length == 0 {
      // The value the process-wide cache is initialised with.
      var empty := seq(NUM_LEAVES, _ => zeroLeaf);
      assert empty == Leaves(hash, SortBySelector(fs[..]));
      root := MerkleRoot(Nodes(hash), empty);
      return;
    }
    var sorted := SortBySelector(fs[..]);
    SortAscends(fs[..]);
    forall i | 0 <= i < fs.Length {
      fs[i] := sorted[i];
    }
    assert fs[..] == sorted;
    var leaves: seq<Fr> := [];
    for i := 0 to fs.Length
      invariant fs[..] == sorted
      invariant |leaves| == i
      invariant forall j :: 0 <= j < i ==> leaves[j] == hash(LeafPreimage(sorted[j]))
    {
      leaves := leaves + [hash(LeafPreimage(fs[i]))];
    }
    leaves := if |leaves| >= NUM_LEAVES then leaves[..NUM_LEAVES]
    else leaves + seq(NUM_LEAVES - |leaves|, _ => zeroLeaf);
    assert leaves == Leaves(hash, sorted);
    root := MerkleRoot(Nodes(hash), leaves);
  }

  /** Selectors never decrease. */
  ghost predicate Ascending(fs: seq<PrivateFunction>) {
    forall i, j :: 0 <= i < j < |fs| ==> fs[i].selector <= fs[j].selector
  }

  /** The sorted list is the same functions with ascending selectors. */
  lemma SortAscends(fs: seq<PrivateFunction>)
    ensures Ascending(SortBySelector(fs)) && multiset(SortBySelector(fs)) == multiset(fs)
    ensures |SortBySelector(fs)| == |fs|
  {
    SelectorOrder();
    SortSorted(BySelector(), fs);
    SortContents(BySelector(), fs);
  }

  /** What is dropped past 128 functions: the rest of the sorted list, none of it with a smaller selector. */
  lemma KeptAreSmallest(fs: seq<PrivateFunction>) returns (dropped: seq<PrivateFunction>)
    ensures multiset(Kept(fs)) + multiset(dropped) == multiset(fs)
    ensures |Kept(fs)| == if |fs| <= 128 then |fs| else 128
    ensures forall k, d :: k in Kept(fs) && d in dropped ==> k.selector <= d.selector
  {
    var sorted := SortBySelector(fs);
    SortAscends(fs);
    dropped := sorted[|Kept(fs)|..];
    assert sorted == Kept(fs) + dropped;
    forall k, d | k in Kept(fs) && d in dropped ensures k.selector <= d.selector {
      var i :| 0 <= i < |Kept(fs)| && Kept(fs)[i] == k;
      var j :| 0 <= j < |dropped| && dropped[j] == d;
      assert sorted[i] == k && sorted[|Kept(fs)| + j] == d;
    }
  }

  /** The cached root of an empty class is the one the general path would give. */
  lemma CachedEmptyRoot(hash: Hash)
    ensures RootOf(hash, []) == HalfSplit(Nodes(hash), seq(NUM_LEAVES, _ => hash(ZERO_LEAF_PREIMAGE)), TREE_HEIGHT)
  {
    assert Leaves(hash, SortBySelector([])) == seq(NUM_LEAVES, _ => hash(ZERO_LEAF_PREIMAGE));
    RootIsFullTree(hash, []);
  }

  lemma RootIsFullTree(hash: Hash, fs: seq<PrivateFunction>)
    ensures Pow2(TREE_HEIGHT) == NUM_LEAVES
    ensures RootOf(hash, fs) == HalfSplit(Nodes(hash), Leaves(hash, SortBySelector(fs)), TREE_HEIGHT)
  {
    assert Pow2(3) == 8 && Pow2(5) == 32 && Pow2(7) == 128;
    RootOfPowerOfTwo(Nodes(hash), Leaves(hash, SortBySelector(fs)), TREE_HEIGHT);
  }

  /**
   Membership: entry `i` of what is kept, and behind the entries the zero leaf, is
   proved by seven siblings that lead from its leaf to the root.
   */
  lemma Membership(hash: Hash, fs: seq<PrivateFunction>, i: nat) returns (path: seq<Fr>)
    requires i < 128
    ensures |path| == 7
    ensures var leaf := if i < |Kept(fs)| then hash([1_389_398_688, Kept(fs)[i].selector, Kept(fs)[i].vkHash]) else hash([0, 0]);
            FoldPath((l, r) => hash([l, r]), leaf, i, path) == RootOf(hash, fs)
  {
    var leaves := Leaves(hash, SortBySelector(fs));
    LeavesOfKept(hash, fs);
    assert leaves[i] == LeafAt(hash, Kept(fs), i);
    assert Pow2(3) == 8 && Pow2(5) == 32 && Pow2(7) == 128;
    CeilLog2OfPower(7);
    path := MembershipPath(Nodes(hash), (l, r) => hash([l, r]), leaves, 7, i);
  }

  /** A selector names one function: entries with the same selector carry the same key hash. */
  ghost predicate SelectorsDetermine(fs: seq<PrivateFunction>) {
    forall i, j :: 0 <= i < |fs| && 0 <= j < |fs| && fs[i].selector == fs[j].selector ==> fs[i] == fs[j]
  }

  lemma SelectorOrder()
    ensures TotalPreorder(BySelector())
  {
  }

  /** The order in which functions are listed never reaches the root. */
  lemma RootIgnoresOrder(hash: Hash, fs: seq<PrivateFunction>, gs: seq<PrivateFunction>)
    requires SelectorsDetermine(fs)
    requires multiset(fs) == multiset(gs)
    ensures SortBySelector(fs) == SortBySelector(gs)
    ensures RootOf(hash, fs) == RootOf(hash, gs)
  {
    SelectorOrder();
    var xs, ys := SortBySelector(fs), SortBySelector(gs);
    SortSorted(BySelector(), fs);
    SortSorted(BySelector(), gs);
    SortContents(BySelector(), fs);
    SortContents(BySelector(), gs);
    forall i, j | 0 <= i < |xs| && 0 <= j < |xs| && BySelector()(xs[i], xs[j]) && BySelector()(xs[j], xs[i])
      ensures xs[i] == xs[j]
    {
      var i', j' := IndexOf(fs, xs[i]), IndexOf(fs, xs[j]);
      assert fs[i'].selector == fs[j'].selector;
    }
    SortedUnique(BySelector(), xs, ys);
  }

  // ----- Exactly which lists have one root for all their orders -----

  /** Like `SelectorsDetermine`, but only for selectors that can reach the root: fewer than 128 entries have a smaller one. */
  ghost predicate KeptDetermined(fs: seq<PrivateFunction>) {
    forall i, j ::
      0 <= i < |fs| && 0 <= j < |fs| && fs[i].selector == fs[j].selector
      && Below(BySelector(), fs[i], fs) < NUM_LEAVES
      ==> fs[i] == fs[j]
  }

  /** For lists that fit the tree this is the plain condition. */
  lemma KeptDeterminedSmall(fs: seq<PrivateFunction>)
    requires |fs| <= NUM_LEAVES
    ensures KeptDetermined(fs) <==> SelectorsDetermine(fs)
  {
    forall i | 0 <= i < |fs| ensures Below(BySelector(), fs[i], fs) < |fs| {
      BelowAppend(BySelector(), fs[i], fs[..i] + [fs[i]], fs[i + 1..]);
      BelowAppend(BySelector(), fs[i], fs[..i], [fs[i]]);
      BelowSingle(BySelector(), fs[i], fs[i]);
      assert fs == fs[..i] + [fs[i]] + fs[i + 1..];
    }
  }

  lemma KeptIgnoresOrder(fs: seq<PrivateFunction>, gs: seq<PrivateFunction>)
    requires KeptDetermined(fs) && multiset(fs) == multiset(gs)
    ensures Kept(fs) == Kept(gs)
  {
    SortContents(BySelector(), fs);
    SortContents(BySelector(), gs);
    assert |multiset(fs)| == |fs| && |multiset(gs)| == |gs|;
    forall k: nat | k < |fs| && k < NUM_LEAVES ensures SortBySelector(fs)[k] == SortBySelector(gs)[k] {
      KeptAgreesAt(fs, gs, k);
    }
  }

  lemma KeptAgreesAt(fs: seq<PrivateFunction>, gs: seq<PrivateFunction>, k: nat)
    requires KeptDetermined(fs) && multiset(fs) == multiset(gs)
    requires k < |SortBySelector(fs)| && k < |SortBySelector(gs)| && k < NUM_LEAVES
    ensures SortBySelector(fs)[k] == SortBySelector(gs)[k]
  {
    var leq, xs, ys := BySelector(), SortBySelector(fs), SortBySelector(gs);
    SelectorOrder();
    SortSorted(leq, fs);
    SortSorted(leq, gs);
    SortContents(leq, fs);
    SortContents(leq, gs);
    SamePositions(leq, xs, ys, k);
    BelowPosition(leq, xs, k);
    BelowOfPermutation(leq, xs[k], xs, fs);
    assert xs[k] in multiset(xs) && ys[k] in multiset(ys);
    SameKept(fs, xs[k], ys[k]);
  }

  lemma SameKept(fs: seq<PrivateFunction>, f: PrivateFunction, g: PrivateFunction)
    requires KeptDetermined(fs) && f in multiset(fs) && g in multiset(fs) && f.selector == g.selector
    requires Below(BySelector(), f, fs) < NUM_LEAVES
    ensures f == g
  {
    var i, j := IndexOf(fs, f), IndexOf(fs, g);
    assert fs[i].selector == fs[j].selector;
  }

  /** The list with entry `i` moved to the front. */
  ghost function ToFront(fs: seq<PrivateFunction>, i: nat): (xs: seq<PrivateFunction>)
    requires i < |fs|
    ensures |xs| == |fs| && xs[0] == fs[i] && multiset(xs) == multiset(fs)
  {
    assert fs == fs[..i] + [fs[i]] + fs[i + 1..];
    [fs[i]] + fs[..i] + fs[i + 1..]
  }

  /** An entry moved to the front is the first of its selector's entries after sorting. */
  lemma FrontStartsClass(fs: seq<PrivateFunction>, i: nat)
    requires i < |fs|
    ensures var k := Below(BySelector(), fs[i], fs);
            k < |fs| == |SortBySelector(ToFront(fs, i))| && SortBySelector(ToFront(fs, i))[k] == fs[i]
  {
    var leq, xs := BySelector(), ToFront(fs, i);
    SelectorOrder();
    SortSorted(leq, xs);
    SortContents(leq, xs);
    SortStable(leq, fs[i], xs);
    FirstOfClass(leq, fs[i], SortBySelector(xs));
    BelowOfPermutation(leq, fs[i], SortBySelector(xs), fs);
  }

  lemma {:induction false} BelowOfEquivalent(f: PrivateFunction, g: PrivateFunction, fs: seq<PrivateFunction>)
    requires f.selector == g.selector
    ensures Below(BySelector(), f, fs) == Below(BySelector(), g, fs)
  {
    if fs != [] {
      BelowOfEquivalent(f, g, fs[1..]);
    }
  }

  /**
   Two different entries for one selector: moving one of them to the front makes the
   list sort differently, namely where that selector's entries start.
   */
  lemma DuplicateSelectorsAreOrdered(fs: seq<PrivateFunction>, i: nat, j: nat) returns (gs: seq<PrivateFunction>)
    requires i < |fs| && j < |fs| && fs[i].selector == fs[j].selector && fs[i] != fs[j]
    ensures multiset(gs) == multiset(fs)
    ensures SortBySelector(gs) != SortBySelector(fs)
    ensures Below(BySelector(), fs[i], fs) < NUM_LEAVES ==> Kept(gs) != Kept(fs)
  {
    FrontStartsClass(fs, i);
    FrontStartsClass(fs, j);
    BelowOfEquivalent(fs[i], fs[j], fs);
    var k := Below(BySelector(), fs[i], fs);
    SortContents(BySelector(), fs);
    gs := if SortBySelector(fs)[k] == fs[i] then ToFront(fs, j) else ToFront(fs, i);
    assert SortBySelector(gs)[k] != SortBySelector(fs)[k];
    KeptAt(fs, k);
    KeptAt(gs, k);
  }

  lemma KeptAt(fs: seq<PrivateFunction>, k: nat)
    requires k < |SortBySelector(fs)|
    ensures k < NUM_LEAVES ==> k < |Kept(fs)| && Kept(fs)[k] == SortBySelector(fs)[k]
  {
  }

  /**
   All orders of a list share a root exactly when its selectors determine the
   entries that can reach the root.  For any other list the returned rearrangement
   keeps other entries, and has another root or two preimages hashed for the two
   collide.
   */
  lemma RootOrderExact(hash: Hash, fs: seq<PrivateFunction>)
    returns (gs: seq<PrivateFunction>, c: Option<(seq<Fr>, seq<Fr>)>)
    ensures multiset(gs) == multiset(fs)
    ensures KeptDetermined(fs) ==> forall hs :: multiset(hs) == multiset(fs) ==> RootOf(hash, hs) == RootOf(hash, fs)
    ensures !KeptDetermined(fs) ==> Kept(gs) != Kept(fs)
    ensures !KeptDetermined(fs) && RootOf(hash, gs) == RootOf(hash, fs) ==>
              c.Some? && IsCollision(hash, Built(hash, gs) + Built(hash, fs), c.value)
  {
    gs, c := fs, None;
    if KeptDetermined(fs) {
      forall hs | multiset(hs) == multiset(fs) ensures RootOf(hash, hs) == RootOf(hash, fs) {
        KeptIgnoresOrder(fs, hs);
        LeavesOfKept(hash, fs);
        LeavesOfKept(hash, hs);
      }
    } else {
      var i, j :| 0 <= i < |fs| && 0 <= j < |fs| && fs[i].selector == fs[j].selector
        && Below(BySelector(), fs[i], fs) < NUM_LEAVES && fs[i] != fs[j];
      gs := DuplicateSelectorsAreOrdered(fs, i, j);
      if RootOf(hash, gs) == RootOf(hash, fs) {
        c := RootBinding(hash, gs, fs);
      }
    }
  }

  /** Every preimage the computation hashes: leaves, the zero leaf, and inner nodes. */
  ghost function Built(hash: Hash, fs: seq<PrivateFunction>): set<seq<Fr>> {
    var leaves := Leaves(hash, SortBySelector(fs));
    (set f | f in fs :: LeafPreimage(f)) + {ZERO_LEAF_PREIMAGE}
    + Preimages(Nodes(hash), leaves, CeilLog2(|leaves|))
  }

  /**
   The root commits to what reaches it: two lists that share a root agree in their
   first 128 entries after sorting, so lists that fit the tree hold the same entries,
   in the same order within a selector; or two preimages hashed on the way collide.
   */
  lemma RootBinding(hash: Hash, fs: seq<PrivateFunction>, gs: seq<PrivateFunction>)
    returns (c: Option<(seq<Fr>, seq<Fr>)>)
    requires RootOf(hash, fs) == RootOf(hash, gs)
    ensures c.None? ==> Kept(fs) == Kept(gs)
    ensures c.None? && |fs| <= NUM_LEAVES && |gs| <= NUM_LEAVES ==> SortBySelector(fs) == SortBySelector(gs)
    ensures c.Some? ==> IsCollision(hash, Built(hash, fs) + Built(hash, gs), c.value)
  {
    var ls, ms := Leaves(hash, SortBySelector(fs)), Leaves(hash, SortBySelector(gs));
    PairsInjective(hash);
    c := TreeBinding(Nodes(hash), ls, ms, CeilLog2(|ls|), Built(hash, fs) + Built(hash, gs));
    if c.None? {
      c := LeavesBinding(hash, fs, gs);
      SortContents(BySelector(), fs);
      SortContents(BySelector(), gs);
    }
  }

  /** The leaf list binds the functions: a function leaf and the zero leaf have preimages of different lengths. */
  lemma LeavesBinding(hash: Hash, fs: seq<PrivateFunction>, gs: seq<PrivateFunction>)
    returns (c: Option<(seq<Fr>, seq<Fr>)>)
    requires Leaves(hash, SortBySelector(fs)) == Leaves(hash, SortBySelector(gs))
    ensures c.None? ==> Kept(fs) == Kept(gs)
    ensures c.Some? ==> IsCollision(hash, Built(hash, fs) + Built(hash, gs), c.value)
  {
    var xs, ys := Kept(fs), Kept(gs);
    LeavesOfKept(hash, fs);
    LeavesOfKept(hash, gs);
    c := None;
    if xs != ys {
      var i := FirstDifference(xs, ys);
      assert Leaves(hash, xs)[i] == Leaves(hash, ys)[i];
      LeafPreimageBuilt(hash, fs, i);
      LeafPreimageBuilt(hash, gs, i);
      c := Some((PreimageAt(xs, i), PreimageAt(ys, i)));
    }
  }

  lemma LeavesOfKept(hash: Hash, fs: seq<PrivateFunction>)
    ensures Leaves(hash, SortBySelector(fs)) == Leaves(hash, Kept(fs))
  {
  }

  lemma PairsInjective(hash: Hash)
    ensures InjectiveEncoding(Nodes(hash))
  {
    forall l: Fr, r: Fr, l': Fr, r': Fr | Nodes(hash).enc(l, r) == Nodes(hash).enc(l', r')
      ensures l == l' && r == r'
    {
      assert [l, r][0] == [l', r'][0] && [l, r][1] == [l', r'][1];
    }
  }

  function PreimageAt(sorted: seq<PrivateFunction>, i: nat): seq<Fr> {
    if i < |sorted| then LeafPreimage(sorted[i]) else ZERO_LEAF_PREIMAGE
  }

  lemma LeafPreimageBuilt(hash: Hash, fs: seq<PrivateFunction>, i: nat)
    ensures PreimageAt(Kept(fs), i) in Built(hash, fs)
  {
    var sorted := SortBySelector(fs);
    SortContents(BySelector(), fs);
    if i < |Kept(fs)| {
      assert sorted[i] in multiset(sorted);
      assert sorted[i] in fs;
    }
  }

  /** A position where two lists differ, in length or in content. */
  lemma FirstDifference(xs: seq<PrivateFunction>, ys: seq<PrivateFunction>) returns (i: nat)
    requires xs != ys && |xs| <= NUM_LEAVES && |ys| <= NUM_LEAVES
    ensures i < NUM_LEAVES && PreimageAt(xs, i) != PreimageAt(ys, i)
  {
    if |xs| < |ys| {
      i := |xs|;
    } else if |ys| < |xs| {
      i := |ys|;
    } else {
      i :| i < |xs| && xs[i] != ys[i];
      assert PreimageAt(xs, i)[1] == xs[i].selector && PreimageAt(xs, i)[2] == xs[i].vkHash;
      assert PreimageAt(ys, i)[1] == ys[i].selector && PreimageAt(ys, i)[2] == ys[i].vkHash;
    }
  }

  /**
   Past 128 functions the commitment is lost: the ones with the largest selectors
   are dropped without an error, so the longer list shares its root with a shorter one.
   */
  lemma RootForgetsOverflow(hash: Hash, fs: seq<PrivateFunction>)
    requires |fs| > NUM_LEAVES
    ensures |SortBySelector(fs)| == |fs|
    ensures RootOf(hash, fs) == RootOf(hash, SortBySelector(fs)[..NUM_LEAVES])
  {
    var sorted := SortBySelector(fs);
    SortContents(BySelector(), fs);
    SelectorOrder();
    SortSorted(BySelector(), fs);
    SortFixpoint(BySelector(), sorted[..NUM_LEAVES]);
    assert Leaves(hash, sorted) == Leaves(hash, sorted[..NUM_LEAVES]);
  }
}

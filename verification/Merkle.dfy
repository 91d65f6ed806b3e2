/**
 The level-by-level Merkle root loops (crates/core/src/hash.rs).  Both
 `poseidon_merkle_root` and `sha256_merkle_root` run the same loop; they differ
 in how a pair of children becomes a hash preimage, which is a parameter here.
 */
module Merkle {
  import opened Wrappers
  import opened Fields

  /** A node hash: the primitive applied to an encoding of the two children. */
  datatype NodeHash<!P> = NodeHash(prim: P -> Fr, enc: (Fr, Fr) -> P) {
    function Node(l: Fr, r: Fr): Fr { prim(enc(l, r)) }
  }

  ghost predicate InjectiveEncoding<P(!new)>(h: NodeHash<P>) {
    forall l, r, l', r' :: h.enc(l, r) == h.enc(l', r') ==> l == l' && r == r'
  }

  /** Two different members of `s` with one hash: what breaking a commitment must exhibit. */
  ghost predicate IsCollision<P>(prim: P -> Fr, s: set<P>, c: (P, P)) {
    c.0 in s && c.1 in s && c.0 != c.1 && prim(c.0) == prim(c.1)
  }

  /** What an attack on a commitment has to exhibit. */
  datatype Breach<P> = Sound | Collision(p: P, q: P) | ZeroPreimage(z: P)

  ghost predicate Exhibits<P>(prim: P -> Fr, built: set<P>, b: Breach<P>) {
    match b
    case Sound => true
    case Collision(p, q) => IsCollision(prim, built, (p, q))
    case ZeroPreimage(z) => z in built && prim(z) == 0
  }

  /** Equal hashes of two strings that were both hashed: the strings agree or collide. */
  lemma HashedAlike<P>(prim: P -> Fr, x: P, y: P, s: set<P>) returns (b: Breach<P>)
    requires prim(x) == prim(y) && x in s && y in s
    ensures b.Sound? ==> x == y
    ensures Exhibits(prim, s, b)
  {
    b := if x == y then Sound else Collision(x, y);
  }

  /** The same where an absent string stands for the hash zero. */
  lemma OptionAlike<P>(prim: P -> Fr, x: Option<P>, y: Option<P>, s: set<P>) returns (b: Breach<P>)
    requires OptionHash(prim, x) == OptionHash(prim, y)
    requires (x.Some? ==> x.value in s) && (y.Some? ==> y.value in s)
    ensures b.Sound? ==> x == y
    ensures Exhibits(prim, s, b)
  {
    if x.Some? && y.Some? {
      b := HashedAlike(prim, x.value, y.value, s);
    } else if x.Some? {
      b := ZeroPreimage(x.value);
    } else if y.Some? {
      b := ZeroPreimage(y.value);
    } else {
      b := Sound;
    }
  }

  function OptionHash<P>(prim: P -> Fr, x: Option<P>): Fr {
    match x case Some(v) => prim(v) case None => 0
  }

  function Pow2(k: nat): (p: nat)
    ensures p > 0
  {
    if k == 0 then 1 else 2 * Pow2(k - 1)
  }

  /** The height of the smallest perfect tree with at least `n` leaves. */
  function CeilLog2(n: nat): (k: nat)
    ensures n <= Pow2(k)
    ensures n > 1 ==> k > 0 && Pow2(k - 1) < n
  {
    if n <= 1 then 0 else 1 + CeilLog2((n + 1) / 2)
  }

  /** The next level up: hash neighbours, pairing a leftover last node with zero. */
  function Level<P>(h: NodeHash<P>, xs: seq<Fr>): (ys: seq<Fr>)
    ensures |ys| == (|xs| + 1) / 2
  {
    if xs == [] then []
    else if |xs| == 1 then [h.Node(xs[0], 0)]
    else [h.Node(xs[0], xs[1])] + Level(h, xs[2..])
  }

  /**
   The reference tree of height `k`, from the top down: split at the middle; a
   right half without leaves is the single value zero.
   */
  function Tree<P>(h: NodeHash<P>, xs: seq<Fr>, k: nat): Fr
    requires 0 < |xs| <= Pow2(k)
    decreases k, 1
  {
    if k == 0 then xs[0] else h.Node(Tree(h, LeftHalf(xs, k), k - 1), RightTree(h, xs, k))
  }

  function RightTree<P>(h: NodeHash<P>, xs: seq<Fr>, k: nat): Fr
    requires k > 0 && 0 < |xs| <= Pow2(k)
    decreases k, 0
  {
    if |xs| <= Pow2(k - 1) then 0 else Tree(h, xs[Pow2(k - 1)..], k - 1)
  }

  function LeftHalf(xs: seq<Fr>, k: nat): (left: seq<Fr>)
    requires k > 0 && 0 < |xs| <= Pow2(k)
    ensures 0 < |left| <= Pow2(k - 1) && left[0] == xs[0]
  {
    if |xs| <= Pow2(k - 1) then xs else xs[..Pow2(k - 1)]
  }

  /** Plain half-split recursion, defined on power-of-two lists only. */
  function HalfSplit<P>(h: NodeHash<P>, xs: seq<Fr>, k: nat): Fr
    requires |xs| == Pow2(k)
    decreases k
  {
    if k == 0 then xs[0]
    else h.Node(HalfSplit(h, xs[..|xs| / 2], k - 1), HalfSplit(h, xs[|xs| / 2..], k - 1))
  }

  lemma {:induction false} TreeIsHalfSplit<P>(h: NodeHash<P>, xs: seq<Fr>, k: nat)
    requires |xs| == Pow2(k)
    ensures Tree(h, xs, k) == HalfSplit(h, xs, k)
    decreases k
  {
    if k > 0 {
      TreeIsHalfSplit(h, xs[..|xs| / 2], k - 1);
      TreeIsHalfSplit(h, xs[|xs| / 2..], k - 1);
    }
  }

  lemma {:induction false} LevelAppend<P>(h: NodeHash<P>, xs: seq<Fr>, ys: seq<Fr>)
    requires |xs| % 2 == 0
    ensures Level(h, xs + ys) == Level(h, xs) + Level(h, ys)
  {
    if xs == [] {
      assert xs + ys == ys;
    } else {
      LevelAppend(h, xs[2..], ys);
      assert (xs + ys)[2..] == xs[2..] + ys;
    }
  }

  /** Building one level does not change the tree above it. */
  lemma {:induction false} LevelStep<P>(h: NodeHash<P>, xs: seq<Fr>, k: nat)
    requires k > 0 && 0 < |xs| <= Pow2(k)
    ensures Tree(h, xs, k) == Tree(h, Level(h, xs), k - 1)
    decreases k, 1
  {
    if k == 1 {
      LowestLevel(h, xs);
    } else {
      LevelOfHalves(h, xs, k);
      LevelStep(h, LeftHalf(xs, k), k - 1);
      RightStep(h, xs, k);
      SameHalvesSameTree(h, xs, Level(h, xs), k);
    }
  }

  lemma SameHalvesSameTree<P>(h: NodeHash<P>, xs: seq<Fr>, ys: seq<Fr>, k: nat)
    requires k > 1 && 0 < |xs| <= Pow2(k) && 0 < |ys| <= Pow2(k - 1)
    requires Tree(h, LeftHalf(xs, k), k - 1) == Tree(h, LeftHalf(ys, k - 1), k - 2)
    requires RightTree(h, xs, k) == RightTree(h, ys, k - 1)
    ensures Tree(h, xs, k) == Tree(h, ys, k - 1)
  {
  }

  lemma LowestLevel<P>(h: NodeHash<P>, xs: seq<Fr>)
    requires 0 < |xs| <= 2
    ensures Tree(h, xs, 1) == Tree(h, Level(h, xs), 0)
  {
    assert Pow2(0) == 1 && Pow2(1) == 2;
    if |xs| == 2 {
      assert Level(h, xs[2..]) == [];
    }
  }

  lemma {:induction false} RightStep<P>(h: NodeHash<P>, xs: seq<Fr>, k: nat)
    requires k > 1 && 0 < |xs| <= Pow2(k)
    ensures RightTree(h, xs, k) == RightTree(h, Level(h, xs), k - 1)
    decreases k, 0
  {
    if |xs| > Pow2(k - 1) {
      LevelStep(h, xs[Pow2(k - 1)..], k - 1);
      LevelOfHalves(h, xs, k);
    }
  }

  /** The halves of the next level are the next levels of the halves. */
  lemma LevelOfHalves<P>(h: NodeHash<P>, xs: seq<Fr>, k: nat)
    requires k > 1 && 0 < |xs| <= Pow2(k)
    ensures LeftHalf(Level(h, xs), k - 1) == Level(h, LeftHalf(xs, k))
    ensures |xs| > Pow2(k - 1) ==> Level(h, xs)[Pow2(k - 2)..] == Level(h, xs[Pow2(k - 1)..])
  {
    var half := Pow2(k - 1);
    if |xs| > half {
      assert xs == xs[..half] + xs[half..];
      LevelAppend(h, xs[..half], xs[half..]);
    }
  }

  /** The root both loops compute: zero for no leaves, otherwise the tree just high enough. */
  function Root<P>(h: NodeHash<P>, leaves: seq<Fr>): Fr {
    if leaves == [] then 0 else Tree(h, leaves, CeilLog2(|leaves|))
  }

  method MerkleRoot<P>(h: NodeHash<P>, leaves: seq<Fr>) returns (root: Fr)
    ensures root == Root(h, leaves)
  {
    if leaves == [] {
      return 0;
    }
    if |leaves| == 1 {
      return leaves[0];
    }
    var current := leaves;
    while |current| > 1
      invariant current != []
      invariant Tree(h, current, CeilLog2(|current|)) == Tree(h, leaves, CeilLog2(|leaves|))
      decreases |current|
    {
      LevelStep(h, current, CeilLog2(|current|));
      current := NextLevel(h, current);
    }
    root := current[0];
  }

  /** The inner loop: one pass over `current.chunks(2)`, pushing parents. */
  method NextLevel<P>(h: NodeHash<P>, current: seq<Fr>) returns (next: seq<Fr>)
    ensures next == Level(h, current)
  {
    next := [];
    var i := 0;
    while i < |current|
      invariant 0 <= i && (i <= |current| || i == |current| + 1)
      invariant next + Level(h, current[if i <= |current| then i else |current|..]) == Level(h, current)
    {
      var right := if i + 1 < |current| then current[i + 1] else 0;
      ghost var rest := current[i..];
      assert |rest| > 1 ==> rest[2..] == current[i + 2..];
      assert |rest| == 1 ==> Level(h, rest) == [h.Node(current[i], 0)] + [];
      next := next + [h.Node(current[i], right)];
      i := i + 2;
    }
  }

  /** On a power-of-two number of leaves the root is the plain half-split recursion. */
  lemma RootOfPowerOfTwo<P>(h: NodeHash<P>, leaves: seq<Fr>, k: nat)
    requires |leaves| == Pow2(k)
    ensures Root(h, leaves) == HalfSplit(h, leaves, k)
  {
    CeilLog2OfPower(k);
    TreeIsHalfSplit(h, leaves, k);
  }

  lemma {:induction false} CeilLog2OfPower(k: nat)
    ensures CeilLog2(Pow2(k)) == k
  {
    if k > 0 {
      CeilLog2OfPower(k - 1);
      assert (Pow2(k) + 1) / 2 == Pow2(k - 1);
    }
  }

  // ----- Membership -----

  /** Hash a leaf up to the root along its siblings: an even position is a left child, an odd one a right child. */
  function FoldPath(node: (Fr, Fr) -> Fr, leaf: Fr, i: nat, path: seq<Fr>): Fr
    decreases |path|
  {
    if path == [] then leaf
    else FoldPath(node, if i % 2 == 0 then node(leaf, path[0]) else node(path[0], leaf), i / 2, path[1..])
  }

  ghost predicate IsNode<P>(h: NodeHash<P>, node: (Fr, Fr) -> Fr) {
    forall l, r :: node(l, r) == h.Node(l, r)
  }

  /** The sibling of position `i`; zero past the end. */
  function Sibling(xs: seq<Fr>, i: nat): Fr
    requires i < |xs|
  {
    if i % 2 == 1 then xs[i - 1] else if i + 1 < |xs| then xs[i + 1] else 0
  }

  lemma {:induction false} LevelAt<P>(h: NodeHash<P>, xs: seq<Fr>, i: nat)
    requires i < |xs|
    ensures i / 2 < |Level(h, xs)|
    ensures Level(h, xs)[i / 2] == if i % 2 == 0 then h.Node(xs[i], Sibling(xs, i)) else h.Node(Sibling(xs, i), xs[i])
  {
    if i > 1 {
      LevelAt(h, xs[2..], i - 2);
    }
  }

  /** Every leaf of a tree has a path of siblings that leads to the root. */
  lemma {:induction false} MembershipPath<P>(h: NodeHash<P>, node: (Fr, Fr) -> Fr, xs: seq<Fr>, k: nat, i: nat)
    returns (path: seq<Fr>)
    requires IsNode(h, node) && 0 < |xs| <= Pow2(k) && i < |xs|
    ensures |path| == k && FoldPath(node, xs[i], i, path) == Tree(h, xs, k)
    decreases k
  {
    if k == 0 {
      path := [];
    } else {
      LevelStep(h, xs, k);
      LevelAt(h, xs, i);
      var upper := MembershipPath(h, node, Level(h, xs), k - 1, i / 2);
      path := [Sibling(xs, i)] + upper;
      assert path[1..] == upper;
    }
  }

  /** Every preimage the tree of height `k` hashes. */
  ghost function Preimages<P(!new)>(h: NodeHash<P>, xs: seq<Fr>, k: nat): set<P>
    requires 0 < |xs| <= Pow2(k)
    decreases k, 1
  {
    if k == 0 then {}
    else
      {h.enc(Tree(h, LeftHalf(xs, k), k - 1), RightTree(h, xs, k))}
      + Preimages(h, LeftHalf(xs, k), k - 1) + RightPreimages(h, xs, k)
  }

  ghost function RightPreimages<P(!new)>(h: NodeHash<P>, xs: seq<Fr>, k: nat): set<P>
    requires k > 0 && 0 < |xs| <= Pow2(k)
    decreases k, 0
  {
    if |xs| <= Pow2(k - 1) then {} else Preimages(h, xs[Pow2(k - 1)..], k - 1)
  }

  /** Equal parents have equal children unless their two preimages collide. */
  lemma NodeBinding<P(!new)>(h: NodeHash<P>, l: Fr, r: Fr, l': Fr, r': Fr, s: set<P>)
    returns (c: Option<(P, P)>)
    requires InjectiveEncoding(h)
    requires h.Node(l, r) == h.Node(l', r')
    requires h.enc(l, r) in s && h.enc(l', r') in s
    ensures c.None? ==> l == l' && r == r'
    ensures c.Some? ==> IsCollision(h.prim, s, c.value)
  {
    c := if h.enc(l, r) == h.enc(l', r') then None else Some((h.enc(l, r), h.enc(l', r')));
  }

  /** The tree binds its leaves: lists of one length with one root are equal, or a collision was built. */
  lemma {:induction false} TreeBinding<P(!new)>(h: NodeHash<P>, xs: seq<Fr>, ys: seq<Fr>, k: nat, s: set<P>)
    returns (c: Option<(P, P)>)
    requires InjectiveEncoding(h)
    requires 0 < |xs| == |ys| <= Pow2(k)
    requires Tree(h, xs, k) == Tree(h, ys, k)
    requires Preimages(h, xs, k) <= s && Preimages(h, ys, k) <= s
    ensures c.None? ==> xs == ys
    ensures c.Some? ==> IsCollision(h.prim, s, c.value)
    decreases k
  {
    c := None;
    if k > 0 {
      c := NodeBinding(h, Tree(h, LeftHalf(xs, k), k - 1), RightTree(h, xs, k),
                       Tree(h, LeftHalf(ys, k), k - 1), RightTree(h, ys, k), s);
      if c.None? {
        c := TreeBinding(h, LeftHalf(xs, k), LeftHalf(ys, k), k - 1, s);
        if c.None? && |xs| > Pow2(k - 1) {
          c := RightBinding(h, xs, ys, k, s);
        }
      }
    }
  }

  lemma {:induction false} RightBinding<P(!new)>(h: NodeHash<P>, xs: seq<Fr>, ys: seq<Fr>, k: nat, s: set<P>)
    returns (c: Option<(P, P)>)
    requires InjectiveEncoding(h)
    requires k > 0 && Pow2(k - 1) < |xs| == |ys| <= Pow2(k)
    requires LeftHalf(xs, k) == LeftHalf(ys, k) && RightTree(h, xs, k) == RightTree(h, ys, k)
    requires RightPreimages(h, xs, k) <= s && RightPreimages(h, ys, k) <= s
    ensures c.None? ==> xs == ys
    ensures c.Some? ==> IsCollision(h.prim, s, c.value)
    decreases k, 0
  {
    var half := Pow2(k - 1);
    c := TreeBinding(h, xs[half..], ys[half..], k - 1, s);
    assert xs == xs[..half] + xs[half..] && ys == ys[..half] + ys[half..];
  }

  /**
   A lower and a higher tree with one root: going down the left edge of both, the
   first leaf of the lower tree equals an inner node of the higher one, or a
   collision was built on the way.
   */
  lemma {:induction false} LeftEdge<P(!new)>(h: NodeHash<P>, xs: seq<Fr>, a: nat, ys: seq<Fr>, b: nat, s: set<P>)
    returns (l: Fr, r: Fr, c: Option<(P, P)>)
    requires InjectiveEncoding(h) && a < b
    requires 0 < |xs| <= Pow2(a) && 0 < |ys| <= Pow2(b)
    requires Tree(h, xs, a) == Tree(h, ys, b)
    requires Preimages(h, xs, a) <= s && Preimages(h, ys, b) <= s
    ensures c.None? ==> h.enc(l, r) in s && xs[0] == h.Node(l, r)
    ensures c.Some? ==> IsCollision(h.prim, s, c.value)
    decreases a
  {
    l, r := Tree(h, LeftHalf(ys, b), b - 1), RightTree(h, ys, b);
    c := None;
    if a > 0 {
      c := NodeBinding(h, Tree(h, LeftHalf(xs, a), a - 1), RightTree(h, xs, a), l, r, s);
      if c.None? {
        l, r, c := LeftEdge(h, LeftHalf(xs, a), a - 1, LeftHalf(ys, b), b - 1, s);
      }
    }
  }
}

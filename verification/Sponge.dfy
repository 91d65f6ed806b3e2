/**
 The rate-3, capacity-1 Poseidon2 sponge (crates/core/src/hash.rs).  The
 permutation is a parameter: every statement holds for any permutation.
 */
module Sponge {
  import opened Fields

  datatype State = State(s0: Fr, s1: Fr, s2: Fr, s3: Fr)

  type Permutation = State -> State

  const RATE: nat := 3

  function Add(a: Fr, b: Fr): Fr { (a + b) % R }

  /** The capacity element the sponge starts from: the input length times 2^64, in the field. */
  function Iv(n: nat): Fr { ((n % TWO_64) * TWO_64) % R }

  function Init(n: nat): State { State(0, 0, 0, Iv(n)) }

  /** Element `i` of a block, or zero past its end. */
  function At(block: seq<Fr>, i: nat): Fr { if i < |block| then block[i] else 0 }

  /** One absorption: add the block into the rate part, then permute. */
  function Absorb(p: Permutation, s: State, block: seq<Fr>): State {
    p(State(Add(s.s0, At(block, 0)), Add(s.s1, At(block, 1)), Add(s.s2, At(block, 2)), s.s3))
  }

  /** The reference sponge: a left fold of absorptions. */
  function Fold(p: Permutation, s: State, blocks: seq<seq<Fr>>): State
    decreases |blocks|
  {
    if blocks == [] then s else Fold(p, Absorb(p, s, blocks[0]), blocks[1..])
  }

  /** The inputs cut into blocks of three; the last one may be shorter, and there is always one. */
  function Blocks(xs: seq<Fr>): (bs: seq<seq<Fr>>)
    ensures |bs| == if |xs| <= RATE then 1 else (|xs| + 2) / 3
  {
    if |xs| <= RATE then [xs] else [xs[..RATE]] + Blocks(xs[RATE..])
  }

  /** The value of the hash: the first state element after folding all blocks. */
  function Hash(p: Permutation, xs: seq<Fr>): Fr { Fold(p, Init(|xs|), Blocks(xs)).s0 }

  /** A block filled up with zeros. */
  function Pad(block: seq<Fr>): (Fr, Fr, Fr) { (At(block, 0), At(block, 1), At(block, 2)) }

  function PaddedBlocks(xs: seq<Fr>): (ps: seq<(Fr, Fr, Fr)>)
    ensures |ps| == |Blocks(xs)|
    ensures forall i :: 0 <= i < |ps| ==> ps[i] == Pad(Blocks(xs)[i])
  {
    seq(|Blocks(xs)|, i requires 0 <= i < |Blocks(xs)| => Pad(Blocks(xs)[i]))
  }

  /**
   `poseidon2_hash`: a cache of up to three inputs is flushed into the state
   when the next input finds it full, and once more at the end.
   */
  method Poseidon2Hash(p: Permutation, inputs: seq<Fr>) returns (h: Fr, permutations: nat)
    ensures h == Hash(p, inputs)
    ensures permutations == if inputs == [] then 1 else (|inputs| + 2) / 3
  {
    var state := Init(|inputs|);
    var cache: seq<Fr> := [];
    permutations := 0;
    ghost var done := 0;
    for n := 0 to |inputs|
      invariant done == RATE * permutations && 0 <= |cache| == n - done <= RATE && (n > 0 ==> cache != [])
      invariant CacheHolds(cache, inputs, done)
      invariant AbsorbFrom(p, state, inputs, done) == AbsorbFrom(p, Init(|inputs|), inputs, 0)
    {
      if |cache| == RATE {
        CacheIsSlice(cache, inputs, done);
        state := Absorb(p, state, cache);
        cache := [];
        permutations := permutations + 1;
        done := done + RATE;
      }
      cache := cache + [inputs[n]];
    }
    CacheIsSlice(cache, inputs, done);
    state := Absorb(p, state, cache);
    permutations := permutations + 1;
    AbsorbFromIsFold(p, Init(|inputs|), inputs, 0);
    assert inputs[0..] == inputs;
    h := state.s0;
  }

  ghost predicate CacheHolds(cache: seq<Fr>, xs: seq<Fr>, k: nat) {
    k + |cache| <= |xs| && forall j :: 0 <= j < |cache| ==> cache[j] == xs[k + j]
  }

  lemma CacheIsSlice(cache: seq<Fr>, xs: seq<Fr>, k: nat)
    requires CacheHolds(cache, xs, k)
    ensures cache == xs[k..k + |cache|]
    ensures k + |cache| == |xs| ==> cache == xs[k..]
  {
  }

  /** The rest of the absorption, from input `k` on. */
  ghost function AbsorbFrom(p: Permutation, s: State, xs: seq<Fr>, k: nat): State
    requires k <= |xs|
    decreases |xs| - k
  {
    if |xs| - k <= RATE then Absorb(p, s, xs[k..])
    else AbsorbFrom(p, Absorb(p, s, xs[k..k + RATE]), xs, k + RATE)
  }

  lemma {:induction false} AbsorbFromIsFold(p: Permutation, s: State, xs: seq<Fr>, k: nat)
    requires k <= |xs|
    ensures AbsorbFrom(p, s, xs, k) == Fold(p, s, Blocks(xs[k..]))
    decreases |xs| - k
  {
    var rest := xs[k..];
    if |rest| <= RATE {
      assert Blocks(rest)[1..] == [];
    } else {
      assert rest[..RATE] == xs[k..k + RATE] && rest[RATE..] == xs[k + RATE..];
      assert Blocks(rest)[1..] == Blocks(rest[RATE..]);
      AbsorbFromIsFold(p, Absorb(p, s, rest[..RATE]), xs, k + RATE);
    }
  }

  // ----- Permutation by permutation -----

  /** The number of permutations: one per three inputs, and at least one. */
  function Permutations(n: nat): nat { if n == 0 then 1 else (n + 2) / 3 }

  /**
   The state after `j` permutations, told by the inputs alone: start from zeros and
   the length times 2^64, and before permutation `j` add inputs 3j, 3j + 1 and 3j + 2,
   or nothing past the end, into the first three elements.
   */
  ghost function StateAfter(p: Permutation, xs: seq<Fr>, j: nat): State {
    if j == 0 then State(0, 0, 0, (|xs| * 0x1_0000_0000_0000_0000) % R)
    else
      var s, k := StateAfter(p, xs, j - 1), 3 * (j - 1);
      p(State(if k < |xs| then (s.s0 + xs[k]) % R else s.s0,
              if k + 1 < |xs| then (s.s1 + xs[k + 1]) % R else s.s1,
              if k + 2 < |xs| then (s.s2 + xs[k + 2]) % R else s.s2,
              s.s3))
  }

  /** Block `j` of the inputs. */
  function BlockAt(xs: seq<Fr>, j: nat): seq<Fr>
    requires 3 * j <= |xs|
  {
    if 3 * j + 3 <= |xs| then xs[3 * j..3 * j + 3] else xs[3 * j..]
  }

  /** Adding element `i` of block `j`: input 3j + i, or nothing past the end. */
  lemma AddAt(a: Fr, xs: seq<Fr>, j: nat, i: nat)
    requires 3 * j <= |xs| && i < 3
    ensures Add(a, At(BlockAt(xs, j), i)) == if 3 * j + i < |xs| then (a + xs[3 * j + i]) % R else a
  {
    ModSmall(a, R);
  }

  lemma AbsorbStep(p: Permutation, xs: seq<Fr>, j: nat)
    requires 3 * j <= |xs|
    ensures Absorb(p, StateAfter(p, xs, j), BlockAt(xs, j)) == StateAfter(p, xs, j + 1)
  {
    var s := StateAfter(p, xs, j);
    AddAt(s.s0, xs, j, 0);
    AddAt(s.s1, xs, j, 1);
    AddAt(s.s2, xs, j, 2);
  }

  ghost predicate Steps(p: Permutation, xs: seq<Fr>, trace: nat -> State, j: nat)
    requires 3 * j <= |xs|
  {
    Absorb(p, trace(j), BlockAt(xs, j)) == trace(j + 1)
  }

  lemma {:induction false} AbsorbFromFollows(p: Permutation, xs: seq<Fr>, trace: nat -> State, j: nat, total: nat)
    requires j < total && 3 * (total - 1) <= |xs| <= 3 * total && (total > 1 ==> 3 * (total - 1) < |xs|)
    requires forall i: nat :: i < total ==> Steps(p, xs, trace, i)
    ensures AbsorbFrom(p, trace(j), xs, 3 * j) == trace(total)
    decreases total - j
  {
    assert Steps(p, xs, trace, j);
    if j < total - 1 {
      AbsorbFromFollows(p, xs, trace, j + 1, total);
    }
  }

  lemma AbsorbFromIsTrace(p: Permutation, xs: seq<Fr>, total: nat)
    requires total > 0 && 3 * (total - 1) <= |xs| <= 3 * total && (total > 1 ==> 3 * (total - 1) < |xs|)
    ensures AbsorbFrom(p, StateAfter(p, xs, 0), xs, 0) == StateAfter(p, xs, total)
  {
    var trace := (j: nat) => StateAfter(p, xs, j);
    forall i: nat | i < total ensures Steps(p, xs, trace, i) {
      AbsorbStep(p, xs, i);
    }
    AbsorbFromFollows(p, xs, trace, 0, total);
  }

  lemma InitIsStart(p: Permutation, xs: seq<Fr>)
    requires |xs| < TWO_64
    ensures Init(|xs|) == StateAfter(p, xs, 0)
  {
    assert |xs| % TWO_64 == |xs|;
  }

  /** The hash is the first element after the last permutation. */
  lemma HashIsTrace(p: Permutation, xs: seq<Fr>)
    requires |xs| < TWO_64
    ensures Hash(p, xs) == StateAfter(p, xs, Permutations(|xs|)).s0
  {
    assert AbsorbFrom(p, Init(|xs|), xs, 0) == StateAfter(p, xs, Permutations(|xs|)) by {
      InitIsStart(p, xs);
      AbsorbFromIsTrace(p, xs, Permutations(|xs|));
    }
    AbsorbFromIsFold(p, Init(|xs|), xs, 0);
    assert xs[0..] == xs;
  }

  /** Lengths below 2^64 are never wrapped by the field: the capacity element gives the length back. */
  lemma IvRecoversLength(n: nat)
    requires n < TWO_64
    ensures Iv(n) == n * TWO_64 && Iv(n) / TWO_64 == n
  {
    assert n * TWO_64 < TWO_128;
  }

  lemma {:induction false} BlocksDetermineInput(xs: seq<Fr>, ys: seq<Fr>)
    requires |xs| == |ys| && PaddedBlocks(xs) == PaddedBlocks(ys)
    ensures xs == ys
  {
    assert PaddedBlocks(xs)[0] == PaddedBlocks(ys)[0];
    if |xs| > RATE {
      var bsX, bsY := Blocks(xs[RATE..]), Blocks(ys[RATE..]);
      forall i | 0 <= i < |bsX|
        ensures PaddedBlocks(xs[RATE..])[i] == PaddedBlocks(ys[RATE..])[i]
      {
        assert PaddedBlocks(xs)[i + 1] == PaddedBlocks(ys)[i + 1];
        assert Blocks(xs)[i + 1] == bsX[i] && Blocks(ys)[i + 1] == bsY[i];
      }
      BlocksDetermineInput(xs[RATE..], ys[RATE..]);
      assert xs[..RATE] == ys[..RATE] by {
        assert Blocks(xs)[0] == xs[..RATE] && Blocks(ys)[0] == ys[..RATE];
        assert Pad(xs[..RATE]) == Pad(ys[..RATE]);
      }
      assert xs == xs[..RATE] + xs[RATE..] && ys == ys[..RATE] + ys[RATE..];
    } else {
      assert Blocks(xs)[0] == xs && Blocks(ys)[0] == ys && Pad(xs) == Pad(ys);
    }
  }

  /**
   What the sponge absorbs, its capacity element and its zero-padded blocks,
   determines the input list: no two inputs are absorbed alike.
   */
  lemma AbsorbedDataDeterminesInput(xs: seq<Fr>, ys: seq<Fr>)
    requires |xs| < TWO_64 && |ys| < TWO_64
    ensures Iv(|xs|) == Iv(|ys|) && PaddedBlocks(xs) == PaddedBlocks(ys) <==> xs == ys
  {
    if Iv(|xs|) == Iv(|ys|) && PaddedBlocks(xs) == PaddedBlocks(ys) {
      IvRecoversLength(|xs|);
      IvRecoversLength(|ys|);
      BlocksDetermineInput(xs, ys);
    }
  }

  /** Without the length in the capacity element, trailing zeros would be lost. */
  lemma PaddingAloneIsAmbiguous(x: Fr)
    ensures PaddedBlocks([x]) == PaddedBlocks([x, 0]) && Iv(|[x]|) != Iv(|[x, 0]|)
  {
    IvRecoversLength(1);
    IvRecoversLength(2);
    assert Pad([x]) == Pad([x, 0]);
    assert PaddedBlocks([x])[0] == PaddedBlocks([x, 0])[0];
  }
}

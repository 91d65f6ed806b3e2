/** Stable sorting by a total preorder, as the standard library's `sort_by` family provides it. */
module Sorting {
  ghost predicate TotalPreorder<T(!new)>(leq: (T, T) -> bool) {
    && (forall x, y :: leq(x, y) || leq(y, x))
    && (forall x, y, z :: leq(x, y) && leq(y, z) ==> leq(x, z))
  }

  ghost predicate Sorted<T>(leq: (T, T) -> bool, xs: seq<T>) {
    forall i, j :: 0 <= i < j < |xs| ==> leq(xs[i], xs[j])
  }

  /** Elements that the order cannot tell apart are equal. */
  ghost predicate Antisymmetric<T>(leq: (T, T) -> bool, xs: seq<T>) {
    forall i, j :: 0 <= i < |xs| && 0 <= j < |xs| && leq(xs[i], xs[j]) && leq(xs[j], xs[i]) ==> xs[i] == xs[j]
  }

  /** Insert before the first element that is not smaller, which keeps equal elements in order. */
  function Insert<T>(leq: (T, T) -> bool, x: T, xs: seq<T>): seq<T> {
    if xs == [] || leq(x, xs[0]) then [x] + xs else [xs[0]] + Insert(leq, x, xs[1..])
  }

  function Sort<T>(leq: (T, T) -> bool, xs: seq<T>): seq<T> {
    if xs == [] then [] else Insert(leq, xs[0], Sort(leq, xs[1..]))
  }

  lemma {:induction false} InsertContents<T>(leq: (T, T) -> bool, x: T, xs: seq<T>)
    ensures multiset(Insert(leq, x, xs)) == multiset{x} + multiset(xs)
  {
    if xs != [] && !leq(x, xs[0]) {
      InsertContents(leq, x, xs[1..]);
      assert xs == [xs[0]] + xs[1..];
    }
  }

  lemma {:induction false} SortContents<T>(leq: (T, T) -> bool, xs: seq<T>)
    ensures multiset(Sort(leq, xs)) == multiset(xs)
    ensures |Sort(leq, xs)| == |xs|
  {
    if xs != [] {
      SortContents(leq, xs[1..]);
      InsertContents(leq, xs[0], Sort(leq, xs[1..]));
      assert xs == [xs[0]] + xs[1..];
    }
    assert |multiset(Sort(leq, xs))| == |multiset(xs)|;
  }

  lemma {:induction false} InsertSorted<T(!new)>(leq: (T, T) -> bool, x: T, xs: seq<T>)
    requires TotalPreorder(leq) && Sorted(leq, xs)
    ensures Sorted(leq, Insert(leq, x, xs))
  {
    if xs != [] && !leq(x, xs[0]) {
      var rest := Insert(leq, x, xs[1..]);
      InsertSorted(leq, x, xs[1..]);
      InsertContents(leq, x, xs[1..]);
      forall j | 0 <= j < |rest| ensures leq(xs[0], rest[j]) {
        assert rest[j] in multiset(rest);
        if rest[j] != x {
          assert rest[j] in xs[1..];
        }
      }
    }
  }

  lemma {:induction false} SortSorted<T(!new)>(leq: (T, T) -> bool, xs: seq<T>)
    requires TotalPreorder(leq)
    ensures Sorted(leq, Sort(leq, xs))
  {
    if xs != [] {
      SortSorted(leq, xs[1..]);
      InsertSorted(leq, xs[0], Sort(leq, xs[1..]));
    }
  }

  lemma TailContents<T>(xs: seq<T>)
    requires xs != []
    ensures multiset(xs[1..]) == multiset(xs) - multiset{xs[0]}
  {
    assert xs == [xs[0]] + xs[1..];
  }

  ghost function IndexOf<T>(xs: seq<T>, x: T): (i: nat)
    requires x in multiset(xs)
    ensures i < |xs| && xs[i] == x
  {
    assert x in xs;
    var i :| 0 <= i < |xs| && xs[i] == x;
    i
  }

  /** Sorting leaves a sorted list alone. */
  lemma {:induction false} SortFixpoint<T>(leq: (T, T) -> bool, xs: seq<T>)
    requires Sorted(leq, xs)
    ensures Sort(leq, xs) == xs
  {
    if |xs| > 1 {
      SortFixpoint(leq, xs[1..]);
      assert leq(xs[0], xs[1]);
    }
  }

  // ----- Stability -----

  predicate Equivalent<T>(leq: (T, T) -> bool, x: T, y: T) { leq(x, y) && leq(y, x) }

  /** The elements the order cannot tell from `rep`, in the order they occur. */
  function Class<T>(leq: (T, T) -> bool, rep: T, xs: seq<T>): seq<T> {
    if xs == [] then []
    else (if Equivalent(leq, xs[0], rep) then [xs[0]] else []) + Class(leq, rep, xs[1..])
  }

  lemma ClassCons<T>(leq: (T, T) -> bool, rep: T, x: T, xs: seq<T>)
    ensures Class(leq, rep, [x] + xs) == (if Equivalent(leq, x, rep) then [x] else []) + Class(leq, rep, xs)
  {
    assert ([x] + xs)[1..] == xs;
  }

  lemma {:induction false} InsertStable<T(!new)>(leq: (T, T) -> bool, rep: T, x: T, xs: seq<T>)
    requires TotalPreorder(leq)
    ensures Class(leq, rep, Insert(leq, x, xs)) == Class(leq, rep, [x] + xs)
  {
    if xs != [] && !leq(x, xs[0]) {
      var head, tail := xs[0], xs[1..];
      InsertStable(leq, rep, x, tail);
      ClassCons(leq, rep, head, Insert(leq, x, tail));
      ClassCons(leq, rep, x, tail);
      ClassCons(leq, rep, x, xs);
      NotBoth(leq, rep, x, head);
    }
  }

  lemma NotBoth<T(!new)>(leq: (T, T) -> bool, rep: T, x: T, y: T)
    requires TotalPreorder(leq) && !leq(x, y)
    ensures !Equivalent(leq, x, rep) || !Equivalent(leq, y, rep)
  {
  }

  /** Sorting is stable: elements that compare equal keep their order. */
  lemma {:induction false} SortStable<T(!new)>(leq: (T, T) -> bool, rep: T, xs: seq<T>)
    requires TotalPreorder(leq)
    ensures Class(leq, rep, Sort(leq, xs)) == Class(leq, rep, xs)
  {
    if xs != [] {
      SortStable(leq, rep, xs[1..]);
      InsertStable(leq, rep, xs[0], Sort(leq, xs[1..]));
      ClassCons(leq, rep, xs[0], Sort(leq, xs[1..]));
    }
  }

  ghost predicate ClassesAgree<T(!new)>(leq: (T, T) -> bool, xs: seq<T>, ys: seq<T>) {
    forall rep :: Class(leq, rep, xs) == Class(leq, rep, ys)
  }

  /** Lists whose elements are pairwise equivalent and whose classes agree are equal. */
  lemma {:induction false} ClassesDetermine<T(!new)>(leq: (T, T) -> bool, xs: seq<T>, ys: seq<T>)
    requires TotalPreorder(leq) && ClassesAgree(leq, xs, ys)
    requires |xs| == |ys| && forall i :: 0 <= i < |xs| ==> Equivalent(leq, xs[i], ys[i])
    ensures xs == ys
  {
    if xs != [] {
      assert Class(leq, xs[0], xs)[0] == xs[0];
      assert Class(leq, xs[0], ys)[0] == ys[0];
      assert xs[0] == ys[0];
      forall rep ensures Class(leq, rep, xs[1..]) == Class(leq, rep, ys[1..]) {
        var head := if Equivalent(leq, xs[0], rep) then [xs[0]] else [];
        assert Class(leq, rep, xs) == head + Class(leq, rep, xs[1..]);
        assert Class(leq, rep, ys) == head + Class(leq, rep, ys[1..]);
        SamePrefix(head, Class(leq, rep, xs[1..]), Class(leq, rep, ys[1..]));
      }
      ClassesDetermine(leq, xs[1..], ys[1..]);
      assert xs == [xs[0]] + xs[1..] && ys == [ys[0]] + ys[1..];
    }
  }

  lemma SamePrefix<T>(a: seq<T>, b: seq<T>, c: seq<T>)
    requires a + b == a + c
    ensures b == c
  {
    assert b == (a + b)[|a|..] && c == (a + c)[|a|..];
  }

  /** The sorted list and the sequence of classes met determine the list that was sorted. */
  lemma SortDetermines<T(!new)>(leq: (T, T) -> bool, xs: seq<T>, ys: seq<T>)
    requires TotalPreorder(leq) && Sort(leq, xs) == Sort(leq, ys)
    requires |xs| == |ys| && forall i :: 0 <= i < |xs| ==> Equivalent(leq, xs[i], ys[i])
    ensures xs == ys
  {
    forall rep ensures Class(leq, rep, xs) == Class(leq, rep, ys) {
      SortStable(leq, rep, xs);
      SortStable(leq, rep, ys);
    }
    ClassesDetermine(leq, xs, ys);
  }

  // ----- Positions in the sorted list -----

  /** How many elements come strictly before `rep` in the order. */
  function Below<T>(leq: (T, T) -> bool, rep: T, xs: seq<T>): (n: nat)
    ensures n <= |xs|
  {
    if xs == [] then 0 else (if leq(rep, xs[0]) then 0 else 1) + Below(leq, rep, xs[1..])
  }

  lemma {:induction false} BelowAppend<T>(leq: (T, T) -> bool, rep: T, xs: seq<T>, ys: seq<T>)
    ensures Below(leq, rep, xs + ys) == Below(leq, rep, xs) + Below(leq, rep, ys)
  {
    if xs == [] {
      assert xs + ys == ys;
    } else {
      BelowAppend(leq, rep, xs[1..], ys);
      assert (xs + ys)[1..] == xs[1..] + ys;
    }
  }

  lemma BelowSingle<T>(leq: (T, T) -> bool, rep: T, x: T)
    ensures Below(leq, rep, [x]) == if leq(rep, x) then 0 else 1
  {
  }

  lemma {:induction false} BelowOfPermutation<T>(leq: (T, T) -> bool, rep: T, xs: seq<T>, ys: seq<T>)
    requires multiset(xs) == multiset(ys)
    ensures Below(leq, rep, xs) == Below(leq, rep, ys)
  {
    if xs == [] {
      assert |multiset(ys)| == 0;
    } else {
      var x := xs[0];
      assert x in multiset(xs);
      var j := IndexOf(ys, x);
      var others := ys[..j] + ys[j + 1..];
      assert ys == ys[..j] + [x] + ys[j + 1..];
      TailContents(xs);
      BelowOfPermutation(leq, rep, xs[1..], others);
      BelowAppend(leq, rep, ys[..j], ys[j + 1..]);
      BelowAppend(leq, rep, ys[..j] + [x], ys[j + 1..]);
      BelowAppend(leq, rep, ys[..j], [x]);
      BelowSingle(leq, rep, x);
    }
  }

  lemma {:induction false} AllBelow<T>(leq: (T, T) -> bool, rep: T, xs: seq<T>)
    requires forall i :: 0 <= i < |xs| ==> !leq(rep, xs[i])
    ensures Below(leq, rep, xs) == |xs|
  {
    if xs != [] { AllBelow(leq, rep, xs[1..]); }
  }

  lemma {:induction false} NoneBelow<T>(leq: (T, T) -> bool, rep: T, xs: seq<T>)
    requires forall i :: 0 <= i < |xs| ==> leq(rep, xs[i])
    ensures Below(leq, rep, xs) == 0
  {
    if xs != [] { NoneBelow(leq, rep, xs[1..]); }
  }

  /** Position `k` of a sorted list has at most `k` elements strictly before it in the order. */
  lemma BelowPosition<T(!new)>(leq: (T, T) -> bool, xs: seq<T>, k: nat)
    requires TotalPreorder(leq) && Sorted(leq, xs) && k < |xs|
    ensures Below(leq, xs[k], xs) <= k
  {
    NoneBelow(leq, xs[k], xs[k..]);
    BelowAppend(leq, xs[k], xs[..k], xs[k..]);
    assert xs == xs[..k] + xs[k..];
  }

  lemma StrictlyBefore<T(!new)>(leq: (T, T) -> bool, rep: T, x: T, y: T)
    requires TotalPreorder(leq) && (x == y || leq(x, y)) && !leq(rep, y)
    ensures !leq(rep, x)
  {
  }

  /** If position `k` is strictly before `rep`, so are all positions up to it. */
  lemma BelowPrefix<T(!new)>(leq: (T, T) -> bool, rep: T, xs: seq<T>, k: nat)
    requires TotalPreorder(leq) && Sorted(leq, xs) && k < |xs| && !leq(rep, xs[k])
    ensures Below(leq, rep, xs) > k
  {
    var front := xs[..k + 1];
    forall i | 0 <= i < |front| ensures !leq(rep, front[i]) {
      StrictlyBefore(leq, rep, front[i], xs[k]);
    }
    AllBelow(leq, rep, front);
    BelowAppend(leq, rep, xs[..k + 1], xs[k + 1..]);
    assert xs == xs[..k + 1] + xs[k + 1..];
  }

  /** Two sorted lists with the same elements hold equivalent elements at each position. */
  lemma SamePositions<T(!new)>(leq: (T, T) -> bool, xs: seq<T>, ys: seq<T>, k: nat)
    requires TotalPreorder(leq) && Sorted(leq, xs) && Sorted(leq, ys) && multiset(xs) == multiset(ys)
    requires k < |xs| && k < |ys|
    ensures Equivalent(leq, xs[k], ys[k])
  {
    BelowOfPermutation(leq, xs[k], xs, ys);
    BelowOfPermutation(leq, ys[k], xs, ys);
    BelowPosition(leq, xs, k);
    BelowPosition(leq, ys, k);
    if !leq(xs[k], ys[k]) {
      BelowPrefix(leq, xs[k], ys, k);
    } else if !leq(ys[k], xs[k]) {
      BelowPrefix(leq, ys[k], xs, k);
    }
  }

  /** A sorted list is determined by its elements when the order tells them apart. */
  lemma SortedUnique<T(!new)>(leq: (T, T) -> bool, xs: seq<T>, ys: seq<T>)
    requires TotalPreorder(leq) && Sorted(leq, xs) && Sorted(leq, ys) && multiset(xs) == multiset(ys)
    requires Antisymmetric(leq, xs)
    ensures xs == ys
  {
    assert |multiset(xs)| == |xs| && |multiset(ys)| == |ys|;
    forall k | 0 <= k < |xs| ensures xs[k] == ys[k] {
      SamePositions(leq, xs, ys, k);
      assert ys[k] in multiset(ys);
      var j := IndexOf(xs, ys[k]);
    }
  }

  /** A class starts in the sorted list right after everything strictly before it. */
  lemma {:induction false} FirstOfClass<T(!new)>(leq: (T, T) -> bool, rep: T, xs: seq<T>)
    requires TotalPreorder(leq) && Sorted(leq, xs) && Class(leq, rep, xs) != []
    ensures Below(leq, rep, xs) < |xs| && xs[Below(leq, rep, xs)] == Class(leq, rep, xs)[0]
  {
    if leq(rep, xs[0]) {
      NoneBelow(leq, rep, xs);
      InClass(leq, rep, xs);
    } else {
      FirstOfClass(leq, rep, xs[1..]);
    }
  }

  /** If a sorted list starts at or after `rep` and has an element equivalent to it, it starts with one. */
  lemma {:induction false} InClass<T(!new)>(leq: (T, T) -> bool, rep: T, xs: seq<T>)
    requires TotalPreorder(leq) && Sorted(leq, xs) && Class(leq, rep, xs) != [] && leq(rep, xs[0])
    ensures Equivalent(leq, xs[0], rep)
  {
    if !leq(xs[0], rep) {
      assert leq(xs[0], xs[1]);
      InClass(leq, rep, xs[1..]);
    }
  }
}

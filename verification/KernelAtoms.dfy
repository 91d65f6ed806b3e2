/** What sequences of atoms become when they are turned into bytes or into fields. */
module KernelAtoms {
  import opened Bytes
  import opened Fields
  import opened KernelTypes
  import opened KernelReader

  function Width(a: Atom): nat {
    match a
    case AFr(_) => 32
    case ABool(_) => 1
    case AU32(_) => 4
    case Cut64(_) => 4
    case AU64(_) => 8
    case AU128(_) => 16
    case AEth(_) => 20
  }

  function Widths(xs: seq<Atom>): (ws: seq<nat>)
    ensures |ws| == |xs| && forall i :: 0 <= i < |xs| ==> ws[i] == Width(xs[i])
  {
    seq(|xs|, i requires 0 <= i < |xs| => Width(xs[i]))
  }

  /** What the buffer keeps of an atom. */
  function CutAtom(a: Atom): Atom { if a.Cut64? then Cut64(a.c % TWO_32) else a }

  function CutAll(xs: seq<Atom>): (ys: seq<Atom>)
    ensures |ys| == |xs| && forall i :: 0 <= i < |xs| ==> ys[i] == CutAtom(xs[i])
  {
    seq(|xs|, i requires 0 <= i < |xs| => CutAtom(xs[i]))
  }

  /** Nothing in `xs` is narrowed. */
  ghost predicate Uncut(xs: seq<Atom>) { forall i :: 0 <= i < |xs| ==> !xs[i].Cut64? }

  // ----- Single atoms -----

  lemma CutKeepsBytes(a: Atom)
    ensures AtomBytes(CutAtom(a)) == AtomBytes(a)
  {
    if a.Cut64? {
      Pow256Widths();
      ToBePeriodic(a.c % TWO_32, a.c / TWO_32, 4);
    }
  }

  lemma EthValue(e: EthAddress)
    ensures EthToFr(e) == BeValue(e) && EthFrom(EthToFr(e)) == e
  {
    BeValueLeadingZeros(12, e);
    BeValueBound(e);
    Pow256Monotone(20, 31);
    ShortBytesNoReduction(seq(12, _ => 0) + e);
    ToBeOfBe(e);
  }

  lemma ShortValue(v: nat, n: nat)
    requires v < Pow256(n) && n <= 31
    ensures FrFromBytes(ToBe(v, n)) == v
  {
    BeOfToBe(v, n);
    Pow256Monotone(n, 31);
    ShortBytesNoReduction(ToBe(v, n));
  }

  /** The bytes of an atom are as many as its width and denote its field, up to narrowing. */
  lemma AtomToken(a: Atom)
    ensures |AtomBytes(a)| == Width(a)
    ensures FrFromBytes(AtomBytes(a)) == AtomField(CutAtom(a))
  {
    Pow256Widths();
    match a
    case AFr(f) => FrBytesRoundTrip(f);
    case ABool(b) =>
      assert ToBe(if b then 1 else 0, 1) == AtomBytes(a) by { assert ToBe(0, 0) == []; }
      ShortValue(if b then 1 else 0, 1);
    case AU32(n) => ShortValue(n, 4);
    case Cut64(c) =>
      CutKeepsBytes(a);
      ShortValue(c % TWO_32, 4);
    case AU64(w) => ShortValue(w, 8);
    case AU128(u) => ShortValue(u, 16);
    case AEth(e) =>
      EthValue(e);
      BeValueBound(e);
      Pow256Monotone(20, 31);
      ShortBytesNoReduction(e);
  }

  // ----- Sequences of atoms -----

  lemma {:induction false} CutAllKeepsBytes(xs: seq<Atom>)
    ensures BytesOf(CutAll(xs)) == BytesOf(xs)
  {
    if xs != [] {
      var n := |xs| - 1;
      CutAllKeepsBytes(xs[..n]);
      CutKeepsBytes(xs[n]);
      assert CutAll(xs)[..n] == CutAll(xs[..n]);
    }
  }

  lemma CutAllAppend(xs: seq<Atom>, ys: seq<Atom>)
    ensures CutAll(xs + ys) == CutAll(xs) + CutAll(ys)
  {
  }

  lemma CutAllOfUncut(xs: seq<Atom>)
    requires Uncut(xs)
    ensures CutAll(xs) == xs
  {
  }

  lemma WidthsAppend(xs: seq<Atom>, ys: seq<Atom>)
    ensures Widths(xs + ys) == Widths(xs) + Widths(ys)
  {
  }

  lemma FieldsAppend(xs: seq<Atom>, ys: seq<Atom>)
    ensures FieldsOf(xs + ys) == FieldsOf(xs) + FieldsOf(ys)
  {
  }

  // ----- Lists of records -----

  lemma {:induction false} FlatUncut<T>(f: T -> seq<Atom>, xs: seq<T>)
    requires forall i :: 0 <= i < |xs| ==> Uncut(f(xs[i]))
    ensures Uncut(Flat(f, xs))
  {
    if xs != [] {
      FlatUncut(f, xs[..|xs| - 1]);
      assert Uncut(f(xs[|xs| - 1]));
    }
  }

  lemma {:induction false} FlatLength<T>(f: T -> seq<Atom>, xs: seq<T>, w: nat)
    requires forall i :: 0 <= i < |xs| ==> |f(xs[i])| == w
    ensures |Flat(f, xs)| == w * |xs|
  {
    if xs != [] {
      FlatLength(f, xs[..|xs| - 1], w);
      assert w * |xs| == w * (|xs| - 1) + w;
    }
  }

  /** `part` lies at `offset` of `whole`. */
  ghost predicate LiesAt<T>(whole: seq<T>, offset: nat, part: seq<T>) {
    offset + |part| <= |whole| && whole[offset..offset + |part|] == part
  }

  lemma LiesAtAppend<T>(front: seq<T>, last: seq<T>, offset: nat, part: seq<T>)
    requires LiesAt(front, offset, part) || (offset == |front| && part == last)
    ensures LiesAt(front + last, offset, part)
  {
    if LiesAt(front, offset, part) {
      SliceOfFront(front, last, offset, offset + |part|);
    } else {
      SliceOfBack(front, last);
    }
  }

  /** Record `i` of a list lies at its place. */
  lemma {:induction false} FlatSlice<T>(f: T -> seq<Atom>, xs: seq<T>, w: nat, i: nat)
    requires i < |xs| && forall j :: 0 <= j < |xs| ==> |f(xs[j])| == w
    ensures LiesAt(Flat(f, xs), w * i, f(xs[i]))
  {
    var n := |xs| - 1;
    if i < n {
      FlatSlice(f, xs[..n], w, i);
    } else {
      FlatLength(f, xs[..n], w);
    }
    LiesAtAppend(Flat(f, xs[..n]), f(xs[n]), w * i, f(xs[i]));
  }

  lemma SliceOfFront<T>(a: seq<T>, b: seq<T>, i: nat, j: nat)
    requires i <= j <= |a|
    ensures (a + b)[i..j] == a[i..j]
  {
  }

  lemma SliceOfBack<T>(a: seq<T>, b: seq<T>)
    ensures (a + b)[|a|..|a| + |b|] == b
  {
  }

  lemma {:induction false} FlatWidths<T>(f: T -> seq<Atom>, xs: seq<T>, ws: seq<nat>)
    requires forall i :: 0 <= i < |xs| ==> Widths(f(xs[i])) == ws
    ensures Widths(Flat(f, xs)) == Repeat(ws, |xs|)
  {
    if xs != [] {
      var n := |xs| - 1;
      FlatWidths(f, xs[..n], ws);
      WidthsAppend(Flat(f, xs[..n]), f(xs[n]));
    }
  }

  lemma {:induction false} FrWidths(xs: seq<Fr>)
    ensures Widths(FrAtoms(xs)) == Repeat([32], |xs|)
  {
    if xs != [] {
      var n := |xs| - 1;
      FrWidths(xs[..n]);
      assert FrAtoms(xs) == FrAtoms(xs[..n]) + [AFr(xs[n])];
      WidthsAppend(FrAtoms(xs[..n]), [AFr(xs[n])]);
    }
  }

  // ----- Cutting the bytes into tokens -----

  lemma {:induction false} SumAppend(ws: seq<nat>, vs: seq<nat>)
    ensures Sum(ws + vs) == Sum(ws) + Sum(vs)
  {
    if vs == [] {
      assert ws + vs == ws;
    } else {
      SumAppend(ws, vs[..|vs| - 1]);
      assert (ws + vs)[..|ws + vs| - 1] == ws + vs[..|vs| - 1];
    }
  }

  lemma {:induction false} SumRepeat(ws: seq<nat>, n: nat)
    ensures Sum(Repeat(ws, n)) == Sum(ws) * n
  {
    if n > 0 {
      SumRepeat(ws, n - 1);
      SumAppend(Repeat(ws, n - 1), ws);
      assert Sum(ws) * n == Sum(ws) * (n - 1) + Sum(ws);
    }
  }

  lemma {:induction false} BytesLength(xs: seq<Atom>)
    ensures |BytesOf(xs)| == Sum(Widths(xs))
  {
    if xs != [] {
      var n := |xs| - 1;
      BytesLength(xs[..n]);
      AtomToken(xs[n]);
      assert Widths(xs)[..n] == Widths(xs[..n]);
    }
  }

  function Cat(ps: seq<seq<Byte>>): seq<Byte> {
    if ps == [] then [] else Cat(ps[..|ps| - 1]) + ps[|ps| - 1]
  }

  function Parts(xs: seq<Atom>): (ps: seq<seq<Byte>>)
    ensures |ps| == |xs| && forall i :: 0 <= i < |xs| ==> ps[i] == AtomBytes(xs[i])
  {
    seq(|xs|, i requires 0 <= i < |xs| => AtomBytes(xs[i]))
  }

  lemma {:induction false} CatSlice(ps: seq<seq<Byte>>, i: nat)
    requires i < |ps|
    ensures LiesAt(Cat(ps), |Cat(ps[..i])|, ps[i])
  {
    var n := |ps| - 1;
    if i < n {
      CatSlice(ps[..n], i);
      assert ps[..n][..i] == ps[..i];
    }
    LiesAtAppend(Cat(ps[..n]), ps[n], |Cat(ps[..i])|, ps[i]);
  }

  lemma {:induction false} BytesAreCat(xs: seq<Atom>)
    ensures BytesOf(xs) == Cat(Parts(xs))
  {
    if xs != [] {
      BytesAreCat(xs[..|xs| - 1]);
      assert Parts(xs)[..|xs| - 1] == Parts(xs[..|xs| - 1]);
    }
  }

  /** Where the bytes of atom `i` lie. */
  lemma SliceOfBytes(xs: seq<Atom>, i: nat)
    requires i < |xs|
    ensures LiesAt(BytesOf(xs), Sum(Widths(xs)[..i]), AtomBytes(xs[i]))
  {
    BytesAreCat(xs);
    CatSlice(Parts(xs), i);
    assert Parts(xs)[..i] == Parts(xs[..i]);
    BytesAreCat(xs[..i]);
    BytesLength(xs[..i]);
    WidthsOfPrefix(xs, i);
  }

  lemma WidthsOfPrefix(xs: seq<Atom>, i: nat)
    requires i <= |xs|
    ensures Widths(xs)[..i] == Widths(xs[..i])
  {
  }

  /** The tokens of a serialized list of atoms are its fields, up to narrowing. */
  lemma TokensOfBytes(xs: seq<Atom>)
    ensures Tokens(BytesOf(xs), Widths(xs)) == FieldsOf(CutAll(xs))
  {
    var t := Tokens(BytesOf(xs), Widths(xs));
    forall i | 0 <= i < |xs| ensures t[i] == FieldsOf(CutAll(xs))[i] {
      TokenOfBytes(xs, i);
    }
  }

  lemma TokenOfBytes(xs: seq<Atom>, i: nat)
    requires i < |xs|
    ensures TokenAt(BytesOf(xs), Widths(xs), i) == AtomField(CutAtom(xs[i]))
  {
    SliceOfBytes(xs, i);
    AtomToken(xs[i]);
  }
}

/**
 Big-endian byte strings of a fixed width, as `to_be_bytes` writes them and
 `from_be_bytes` reads them.
 */
module Bytes {
  type Byte = x: int | 0 <= x < 256

  /** The result of a 256-bit hash. */
  type Digest = d: seq<Byte> | |d| == 32 witness seq(32, _ => 0)

  const TWO_32: int := 0x1_0000_0000

  function Pow256(n: nat): (p: nat)
    ensures p > 0
  {
    if n == 0 then 1 else 256 * Pow256(n - 1)
  }

  /** The number a byte string denotes, most significant byte first. */
  function BeValue(b: seq<Byte>): nat {
    if b == [] then 0 else 256 * BeValue(b[..|b| - 1]) + b[|b| - 1]
  }

  /** The last `n` base-256 digits of `v`; higher digits are cut off, as a narrowing cast does. */
  function ToBe(v: nat, n: nat): (b: seq<Byte>)
    ensures |b| == n
  {
    if n == 0 then [] else ToBe(v / 256, n - 1) + [v % 256]
  }

  lemma {:induction false} BeValueBound(b: seq<Byte>)
    ensures BeValue(b) < Pow256(|b|)
  {
    if b != [] {
      BeValueBound(b[..|b| - 1]);
    }
  }

  lemma {:induction false} BeOfToBe(v: nat, n: nat)
    requires v < Pow256(n)
    ensures BeValue(ToBe(v, n)) == v
  {
    if n > 0 {
      BeOfToBe(v / 256, n - 1);
      assert ToBe(v, n)[..n - 1] == ToBe(v / 256, n - 1);
    }
  }

  lemma {:induction false} ToBeOfBe(b: seq<Byte>)
    ensures ToBe(BeValue(b), |b|) == b
  {
    if b != [] {
      ToBeOfBe(b[..|b| - 1]);
      LastDigit(BeValue(b[..|b| - 1]), b[|b| - 1]);
      assert b == b[..|b| - 1] + [b[|b| - 1]];
    }
  }

  lemma LastDigit(v: nat, d: Byte)
    ensures (256 * v + d) / 256 == v && (256 * v + d) % 256 == d
  {
  }

  lemma ToBeInjective(v: nat, w: nat, n: nat)
    requires v < Pow256(n) && w < Pow256(n)
    requires ToBe(v, n) == ToBe(w, n)
    ensures v == w
  {
    BeOfToBe(v, n);
    BeOfToBe(w, n);
  }

  lemma {:induction false} BeValueAppend(a: seq<Byte>, b: seq<Byte>)
    ensures BeValue(a + b) == BeValue(a) * Pow256(|b|) + BeValue(b)
  {
    if b == [] {
      assert a + b == a;
    } else {
      var front := b[..|b| - 1];
      assert (a + b)[..|a + b| - 1] == a + front;
      BeValueAppend(a, front);
      assert BeValue(a) * (256 * Pow256(|front|)) == 256 * (BeValue(a) * Pow256(|front|));
    }
  }

  /** Leading zero bytes do not change the value. */
  lemma {:induction false} BeValueLeadingZeros(n: nat, b: seq<Byte>)
    ensures BeValue(seq(n, _ => 0) + b) == BeValue(b)
  {
    BeValueAppend(seq(n, _ => 0), b);
    BeValueOfZeros(n);
  }

  lemma {:induction false} BeValueOfZeros(n: nat)
    ensures BeValue(seq(n, _ => 0)) == 0
  {
    if n > 0 {
      var z: seq<Byte> := seq(n, _ => 0);
      assert z[..n - 1] == seq(n - 1, _ => 0);
      BeValueOfZeros(n - 1);
    }
  }

  /** `ToBe` sees only the value modulo 256^n. */
  lemma {:induction false} ToBePeriodic(v: nat, k: nat, n: nat)
    ensures ToBe(v + k * Pow256(n), n) == ToBe(v, n)
  {
    if n > 0 {
      var w := v + k * Pow256(n);
      assert k * Pow256(n) == 256 * (k * Pow256(n - 1));
      assert w / 256 == v / 256 + k * Pow256(n - 1);
      ToBePeriodic(v / 256, k, n - 1);
    }
  }

  lemma {:induction false} Pow256Add(a: nat, b: nat)
    ensures Pow256(a + b) == Pow256(a) * Pow256(b)
  {
    if a > 0 {
      Pow256Add(a - 1, b);
      assert 256 * (Pow256(a - 1) * Pow256(b)) == (256 * Pow256(a - 1)) * Pow256(b);
    }
  }

  lemma {:induction false} Pow256Monotone(a: nat, b: nat)
    requires a <= b
    ensures Pow256(a) <= Pow256(b)
  {
    if a < b {
      Pow256Monotone(a, b - 1);
    }
  }

  /** The widths the wire formats use. */
  lemma Pow256Widths()
    ensures Pow256(1) == 0x100
    ensures Pow256(4) == 0x1_0000_0000
    ensures Pow256(8) == 0x1_0000_0000_0000_0000
    ensures Pow256(16) == 0x1_0000_0000_0000_0000_0000_0000_0000_0000
    ensures Pow256(31) == 0x1_0000_0000_0000_0000_0000_0000_0000_0000_0000_0000_0000_0000_0000_0000_0000_00
    ensures Pow256(32) == 0x1_0000_0000_0000_0000_0000_0000_0000_0000_0000_0000_0000_0000_0000_0000_0000_0000
  {
    assert Pow256(1) == 0x100;
    Pow256Add(1, 1);
    Pow256Add(2, 2);
    Pow256Add(4, 4);
    Pow256Add(8, 8);
    Pow256Add(16, 16);
    assert Pow256(32) == 256 * Pow256(31);
  }
}

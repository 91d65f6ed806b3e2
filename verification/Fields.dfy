/**
 BN254 scalar (`Fr`) and base (`Fq`) field elements and their conversions
 (crates/core/src/types.rs).
 */
module Fields {
  import opened Bytes
  import opened Residues

  // Group order of BN254 and order of its base field.
  const R: int := 0x30644e72e131a029b85045b68181585d2833e84879b9709143e1f593f0000001
  const Q: int := 0x30644e72e131a029b85045b68181585d97816a916871ca8d3c208c16d87cfd47
  const TWO_64: int := 0x1_0000_0000_0000_0000
  const TWO_128: int := 0x1_0000_0000_0000_0000_0000_0000_0000_0000

  type Fr = x: int | 0 <= x < R
  type Fq = x: int | 0 <= x < Q

  type AztecAddress = Fr

  function FrToBytes(x: Fr): (b: seq<Byte>)
    ensures |b| == 32
  {
    ToBe(x, 32)
  }

  function FrFromBytes(b: seq<Byte>): Fr { BeValue(b) % R }

  function FqToBytes(x: Fq): (b: seq<Byte>)
    ensures |b| == 32
  {
    ToBe(x, 32)
  }

  function FqFromBytes(b: seq<Byte>): Fq { BeValue(b) % Q }

  /** Upper 128 bits of an `Fq`, read as a scalar. */
  function Hi(x: Fq): Fr { FrFromBytes(seq(16, _ => 0) + FqToBytes(x)[..16]) }

  /** Lower 128 bits of an `Fq`, read as a scalar. */
  function Lo(x: Fq): Fr { FrFromBytes(seq(16, _ => 0) + FqToBytes(x)[16..]) }

  /** `Fq::from_be_bytes_mod_order(&fr.to_be_bytes())`, the conversion `compute_address` uses. */
  function FrToFq(x: Fr): Fq { FqFromBytes(FrToBytes(x)) }

  lemma ModSmall(x: int, m: int)
    requires 0 <= x < m
    ensures x % m == x
  {
  }

  lemma FrBytesRoundTrip(x: Fr)
    ensures BeValue(FrToBytes(x)) == x
    ensures FrFromBytes(FrToBytes(x)) == x
  {
    Pow256Widths();
    BeOfToBe(x, 32);
    ModSmall(x, R);
  }

  lemma FqBytesRoundTrip(x: Fq)
    ensures BeValue(FqToBytes(x)) == x
    ensures FqFromBytes(FqToBytes(x)) == x
  {
    Pow256Widths();
    BeOfToBe(x, 32);
    ModSmall(x, Q);
  }

  lemma FrToBytesInjective(x: Fr, y: Fr)
    requires FrToBytes(x) == FrToBytes(y)
    ensures x == y
  {
    FrBytesRoundTrip(x);
    FrBytesRoundTrip(y);
  }

  /** A 32-byte string survives the trip through `Fr` exactly when it denotes a canonical value. */
  lemma FrFromBytesCanonical(b: seq<Byte>)
    requires |b| == 32
    ensures FrToBytes(FrFromBytes(b)) == b <==> BeValue(b) < R
  {
    FrBytesRoundTrip(FrFromBytes(b));
    if BeValue(b) < R {
      ModSmall(BeValue(b), R);
      ToBeOfBe(b);
    }
  }

  /** Any byte string of at most 31 bytes denotes its own value: no reduction happens. */
  lemma ShortBytesNoReduction(b: seq<Byte>)
    requires BeValue(b) < Pow256(31)
    ensures FrFromBytes(b) == BeValue(b)
  {
    Pow256Widths();
    ModSmall(BeValue(b), R);
  }

  /** 31 bytes behind a zero byte are never reduced. */
  lemma TopZeroByte(b: seq<Byte>)
    requires |b| == 31
    ensures FrFromBytes([0] + b) == BeValue(b)
  {
    assert seq(1, _ => 0) + b == [0] + b;
    BeValueLeadingZeros(1, b);
    BeValueBound(b);
    ShortBytesNoReduction([0] + b);
  }

  /** The scalar field embeds in the base field because r < q: nothing is reduced. */
  lemma FrToFqNeverReduces(x: Fr)
    ensures FrToFq(x) == x
  {
    FrBytesRoundTrip(x);
    ModSmall(x, Q);
  }

  lemma FrToFqInjective(x: Fr, y: Fr)
    requires FrToFq(x) == FrToFq(y)
    ensures x == y
  {
    FrToFqNeverReduces(x);
    FrToFqNeverReduces(y);
  }

  /** The two halves of an `Fq` recombine to it, although each is stored in the smaller field. */
  lemma HiLoRecombine(x: Fq)
    ensures Hi(x) * TWO_128 + Lo(x) == x
    ensures Hi(x) < TWO_128 && Lo(x) < TWO_128
  {
    var b := FqToBytes(x);
    FqBytesRoundTrip(x);
    Pow256Widths();
    assert b == b[..16] + b[16..];
    BeValueAppend(b[..16], b[16..]);
    HalfValue(b[..16]);
    HalfValue(b[16..]);
  }

  lemma HalfValue(h: seq<Byte>)
    requires |h| == 16
    ensures FrFromBytes(seq(16, _ => 0) + h) == BeValue(h) < TWO_128
  {
    Pow256Widths();
    BeValueBound(h);
    BeValueLeadingZeros(16, h);
    ModSmall(BeValue(h), R);
  }

  /**
   `Fr::to_usize` on a 64-bit target: folds the 32 bytes into a machine word,
   each step shifting the word left and losing what leaves it.
   */
  method ToUsize(x: Fr) returns (acc: nat)
    ensures acc == x % TWO_64
  {
    var raw := FrToBytes(x);
    acc := 0;
    for i := 0 to 32
      invariant acc == BeValue(raw[..i]) % TWO_64
    {
      assert raw[..i + 1][..i] == raw[..i];
      ShiftStep(BeValue(raw[..i]), raw[i]);
      acc := (acc * 256) % TWO_64 + raw[i];
    }
    assert raw[..32] == raw;
    FrBytesRoundTrip(x);
  }

  lemma ShiftStep(v: nat, b: Byte)
    ensures ((v % TWO_64) * 256) % TWO_64 + b == (256 * v + b) % TWO_64
  {
    var q, m := v / TWO_64, v % TWO_64;
    var high, low := m / 0x100_0000_0000_0000, m % 0x100_0000_0000_0000;
    ModUnique(m * 256, high, 256 * low, TWO_64);
    ModUnique(256 * v + b, 256 * q + high, 256 * low + b, TWO_64);
  }

  /**
   The documentation of `to_usize` promises a panic on overflow; the fold keeps
   the low 64 bits instead.  It returns the element itself exactly below 2^64.
   */
  lemma ToUsizeExactness(x: Fr)
    ensures x % TWO_64 == x <==> x < TWO_64
    ensures TWO_64 % TWO_64 == 0 && 0 <= TWO_64 < R
  {
  }
}

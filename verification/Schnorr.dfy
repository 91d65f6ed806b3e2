/**
 Schnorr signatures on Grumpkin (crates/crypto/src/schnorr.rs) over the point
 interface of crates/core/src/grumpkin.rs.
 */
module Schnorr {
  import opened Bytes
  import opened Fields
  import opened Residues
  import opened Grumpkin

  /** The curve library: affine elements with an addition, and the conversions to and from `Point`. */
  datatype Curve<!E> = Curve(
    add: (E, E) -> E,
    zero: E,
    gen: E,
    order: nat,
    toPoint: E -> Point,
    fromPoint: Point -> E)

  /** `mul_bigint`: repeated addition. */
  function Times<E>(c: Curve<E>, n: nat, e: E): E
    decreases n
  {
    if n == 0 then c.zero else c.add(e, Times(c, n - 1, e))
  }

  // The group laws at given elements; naming them keeps the prover from applying them everywhere.
  ghost predicate AssociativeAt<E>(c: Curve<E>, x: E, y: E, z: E) {
    c.add(c.add(x, y), z) == c.add(x, c.add(y, z))
  }

  ghost predicate NeutralAt<E>(c: Curve<E>, x: E) { c.add(c.zero, x) == x && c.add(x, c.zero) == x }

  ghost predicate ConvertsAt<E>(c: Curve<E>, x: E) {
    c.fromPoint(c.toPoint(x)) == x && (c.toPoint(x).isInfinite <==> x == c.zero)
  }

  ghost predicate IsMonoid<E(!new)>(c: Curve<E>) {
    (forall x, y, z :: AssociativeAt(c, x, y, z)) && (forall x :: NeutralAt(c, x))
  }

  /** Grumpkin: a group whose generator has order q, with faithful conversions and one point at infinity. */
  ghost predicate IsGrumpkin<E(!new)>(c: Curve<E>) {
    && IsMonoid(c)
    && c.order == Q && Times(c, c.order, c.gen) == c.zero
    && (forall x :: ConvertsAt(c, x))
    && c.toPoint(c.zero) == INFINITY
  }

  /** `point_add`. */
  function PointAdd<E>(c: Curve<E>, p: Point, q: Point): Point {
    c.toPoint(c.add(c.fromPoint(p), c.fromPoint(q)))
  }

  /** `scalar_mul`. */
  function ScalarMul<E>(c: Curve<E>, s: Fq, p: Point): Point {
    if p.isInfinite then p
    else if s == 0 then INFINITY
    else c.toPoint(Times(c, s, c.fromPoint(p)))
  }

  function Generator<E>(c: Curve<E>): Point { c.toPoint(c.gen) }

  // ----- Multiples of the generator -----

  lemma {:induction false} TimesAdd<E(!new)>(c: Curve<E>, m: nat, n: nat, e: E)
    requires IsMonoid(c)
    ensures Times(c, m + n, e) == c.add(Times(c, m, e), Times(c, n, e))
    decreases m
  {
    if m == 0 {
      assert NeutralAt(c, Times(c, n, e));
    } else {
      TimesAdd(c, m - 1, n, e);
      assert AssociativeAt(c, e, Times(c, m - 1, e), Times(c, n, e));
    }
  }

  lemma {:induction false} TimesTimes<E(!new)>(c: Curve<E>, m: nat, n: nat, e: E)
    requires IsMonoid(c)
    ensures Times(c, m, Times(c, n, e)) == Times(c, m * n, e)
    decreases m
  {
    if m == 0 {
      assert m * n == 0;
    } else {
      TimesTimes(c, m - 1, n, e);
      TimesAdd(c, n, (m - 1) * n, e);
      assert n + (m - 1) * n == m * n;
    }
  }

  lemma {:induction false} TimesZero<E(!new)>(c: Curve<E>, n: nat)
    requires IsMonoid(c)
    ensures Times(c, n, c.zero) == c.zero
    decreases n
  {
    if n > 0 {
      TimesZero(c, n - 1);
      assert NeutralAt(c, c.zero);
    }
  }

  /** Multiples of the generator depend on the scalar modulo the group order only. */
  lemma TimesModOrder<E(!new)>(c: Curve<E>, n: nat)
    requires IsGrumpkin(c)
    ensures Times(c, n % c.order, c.gen) == Times(c, n, c.gen)
  {
    var k, r := n / c.order, n % c.order;
    TimesAdd(c, r, k * c.order, c.gen);
    assert Times(c, k * c.order, c.gen) == c.zero by {
      TimesTimes(c, k, c.order, c.gen);
      TimesZero(c, k);
    }
    assert NeutralAt(c, Times(c, r, c.gen));
    assert n == r + k * c.order;
  }

  /** On multiples of the generator, `scalar_mul` multiplies scalars, through all of its branches. */
  lemma ScalarMulOfMultiple<E(!new)>(c: Curve<E>, s: Fq, n: nat)
    requires IsGrumpkin(c)
    ensures ScalarMul(c, s, c.toPoint(Times(c, n, c.gen))) == c.toPoint(Times(c, s * n, c.gen))
  {
    var e := Times(c, n, c.gen);
    assert ConvertsAt(c, e);
    TimesTimes(c, s, n, c.gen);
    if c.toPoint(e).isInfinite {
      TimesZero(c, s);
    }
  }

  lemma PublicKeyIsMultiple<E(!new)>(c: Curve<E>, k: Fq)
    requires IsGrumpkin(c)
    ensures ScalarMul(c, k, Generator(c)) == c.toPoint(Times(c, k, c.gen))
  {
    assert Times(c, 1, c.gen) == c.gen by {
      assert NeutralAt(c, c.gen);
      assert Times(c, 1, c.gen) == c.add(c.gen, Times(c, 0, c.gen));
    }
    ScalarMulOfMultiple(c, k, 1);
    assert k * 1 == k;
  }

  // ----- Signatures -----

  /** Blake2s-256 and the Pedersen hash, as arbitrary functions. */
  datatype Hashes = Hashes(blake2s: seq<Byte> -> Digest, pedersen: seq<Fr> -> Fr)

  datatype Signature = Signature(s: Digest, e: Digest)

  function Nonce(h: Hashes, sk: Fq, message: Fr): Fq {
    FqFromBytes(h.blake2s(FqToBytes(sk) + FrToBytes(message)))
  }

  function Challenge(h: Hashes, r: Point, pk: Point, message: seq<Byte>): Digest {
    h.blake2s(FrToBytes(h.pedersen([r.x, pk.x, pk.y])) + message)
  }

  function Sign<E>(c: Curve<E>, h: Hashes, sk: Fq, message: Fr): Signature {
    var pk := ScalarMul(c, sk, Generator(c));
    var k := Nonce(h, sk, message);
    var r := ScalarMul(c, k, Generator(c));
    var e := Challenge(h, r, pk, FrToBytes(message));
    Signature(FqToBytes((k - sk * FqFromBytes(e)) % Q), e)
  }

  predicate Verify<E>(c: Curve<E>, h: Hashes, pk: Point, message: Fr, sig: Signature) {
    var sG := ScalarMul(c, FqFromBytes(sig.s), Generator(c));
    var ePk := ScalarMul(c, FqFromBytes(sig.e), pk);
    sig.e == Challenge(h, PointAdd(c, sG, ePk), pk, FrToBytes(message))
  }

  /** With s = k - sk*e mod q, the scalar s + e*sk is k again, modulo q. */
  lemma ResponseScalar(k: Fq, sk: Fq, e: Fq)
    ensures ((k - sk * e) % Q + e * sk) % Q == k
  {
    var q := (k - sk * e) / Q;
    assert (k - sk * e) % Q + e * sk == k + (-q) * Q;
    ModAddMultiple(k, -q, Q);
    ModSmall(k, Q);
  }

  /** The point the verifier rebuilds is the signer's nonce point. */
  lemma NoncePointRebuilt<E(!new)>(c: Curve<E>, s: Fq, k: Fq, sk: Fq, e: Fq)
    requires IsGrumpkin(c) && (s + e * sk) % Q == k
    ensures PointAdd(c, ScalarMul(c, s, Generator(c)), ScalarMul(c, e, ScalarMul(c, sk, Generator(c))))
         == ScalarMul(c, k, Generator(c))
  {
    PublicKeyIsMultiple(c, s);
    PublicKeyIsMultiple(c, sk);
    PublicKeyIsMultiple(c, k);
    ScalarMulOfMultiple(c, e, sk);
    var n: nat := e * sk;
    AddMultiples(c, s, n);
    TimesModOrder(c, s + n);
  }

  lemma AddMultiples<E(!new)>(c: Curve<E>, m: nat, n: nat)
    requires IsGrumpkin(c)
    ensures PointAdd(c, c.toPoint(Times(c, m, c.gen)), c.toPoint(Times(c, n, c.gen)))
         == c.toPoint(Times(c, m + n, c.gen))
  {
    assert ConvertsAt(c, Times(c, m, c.gen)) && ConvertsAt(c, Times(c, n, c.gen));
    TimesAdd(c, m, n, c.gen);
  }

  /** Every signature the signer makes verifies, for every key including zero and every message. */
  lemma Completeness<E(!new)>(c: Curve<E>, h: Hashes, sk: Fq, message: Fr)
    requires IsGrumpkin(c)
    ensures Verify(c, h, ScalarMul(c, sk, Generator(c)), message, Sign(c, h, sk, message))
  {
    var sig := Sign(c, h, sk, message);
    var k, e := Nonce(h, sk, message), FqFromBytes(sig.e);
    var s: Fq := (k - sk * e) % Q;
    FqBytesRoundTrip(s);
    ResponseScalar(k, sk, e);
    NoncePointRebuilt(c, s, k, sk, e);
  }

  // ----- What a signature is -----

  /** Signing, told on multiples of the generator: e hashes the nonce point, the key and the message, and s is k - sk*e. */
  lemma SignatureFormula<E(!new)>(c: Curve<E>, h: Hashes, sk: Fq, message: Fr)
    requires IsGrumpkin(c)
    ensures var sig := Sign(c, h, sk, message);
            var k: Fq := BeValue(h.blake2s(FqToBytes(sk) + FrToBytes(message))) % Q;
            var r, pk := c.toPoint(Times(c, k, c.gen)), c.toPoint(Times(c, sk, c.gen));
            && sig.e == h.blake2s(FrToBytes(h.pedersen([r.x, pk.x, pk.y])) + FrToBytes(message))
            && BeValue(sig.s) == (k - sk * (BeValue(sig.e) % Q)) % Q
  {
    var sig, k := Sign(c, h, sk, message), Nonce(h, sk, message);
    PublicKeyIsMultiple(c, sk);
    PublicKeyIsMultiple(c, k);
    FqBytesRoundTrip((k - sk * FqFromBytes(sig.e)) % Q);
  }

  /** Verification, told the same way: the point that is hashed is (s + e*sk)*G. */
  lemma VerifyFormula<E(!new)>(c: Curve<E>, h: Hashes, sk: Fq, message: Fr, sig: Signature)
    requires IsGrumpkin(c)
    ensures var s, e := BeValue(sig.s) % Q, BeValue(sig.e) % Q;
            var pk, r := c.toPoint(Times(c, sk, c.gen)), c.toPoint(Times(c, (s + e * sk) % Q, c.gen));
            Verify(c, h, pk, message, sig) <==>
              sig.e == h.blake2s(FrToBytes(h.pedersen([r.x, pk.x, pk.y])) + FrToBytes(message))
  {
    var s, e := FqFromBytes(sig.s), FqFromBytes(sig.e);
    RebuiltOnMultiples(c, s, sk, e, (s + e * sk) % Q);
  }

  lemma RebuiltOnMultiples<E(!new)>(c: Curve<E>, s: Fq, sk: Fq, e: Fq, k: Fq)
    requires IsGrumpkin(c) && (s + e * sk) % Q == k
    ensures PointAdd(c, ScalarMul(c, s, Generator(c)), ScalarMul(c, e, c.toPoint(Times(c, sk, c.gen))))
         == c.toPoint(Times(c, k, c.gen))
  {
    PublicKeyIsMultiple(c, sk);
    PublicKeyIsMultiple(c, k);
    NoncePointRebuilt(c, s, k, sk, e);
  }

  /** One signature accepted under one key for two messages: Blake2s collides on the two challenge preimages. */
  lemma MessageBinding<E>(c: Curve<E>, h: Hashes, pk: Point, m: Fr, m': Fr, sig: Signature) returns (x: seq<Byte>, y: seq<Byte>)
    requires Verify(c, h, pk, m, sig) && Verify(c, h, pk, m', sig) && m != m'
    ensures x != y && h.blake2s(x) == h.blake2s(y) == sig.e
    ensures |x| == |y| == 64 && BeValue(x[32..]) == m && BeValue(y[32..]) == m' && x[..32] == y[..32]
  {
    var r := PointAdd(c, ScalarMul(c, FqFromBytes(sig.s), Generator(c)), ScalarMul(c, FqFromBytes(sig.e), pk));
    var head := FrToBytes(h.pedersen([r.x, pk.x, pk.y]));
    x, y := head + FrToBytes(m), head + FrToBytes(m');
    assert x[32..] == FrToBytes(m) && y[32..] == FrToBytes(m');
    FrBytesRoundTrip(m);
    FrBytesRoundTrip(m');
  }

  /** No smaller multiple of the generator is neutral: its order is exactly q. */
  ghost predicate ExactOrder<E(!new)>(c: Curve<E>) {
    IsGrumpkin(c) && forall n: nat :: 0 < n < Q ==> Times(c, n, c.gen) != c.zero
  }

  lemma MultiplesDistinct<E(!new)>(c: Curve<E>, a: Fq, b: Fq)
    requires ExactOrder(c) && a <= b && Times(c, a, c.gen) == Times(c, b, c.gen)
    ensures a == b
  {
    var d: nat := b - a;
    TimesAdd(c, d, a, c.gen);
    TimesAdd(c, a, Q - a, c.gen);
    TimesAdd(c, d, Q, c.gen);
    assert AssociativeAt(c, Times(c, d, c.gen), Times(c, a, c.gen), Times(c, Q - a, c.gen));
    assert NeutralAt(c, Times(c, d, c.gen));
  }

  /**
   Two responses for one nonce point satisfy s + e*sk = s' + e'*sk modulo q: with
   different challenges they give the key away, and with equal ones they are equal.
   */
  lemma SpecialSoundness<E(!new)>(c: Curve<E>, sk: Fq, s: Fq, e: Fq, s': Fq, e': Fq)
    requires ExactOrder(c)
    ensures Times(c, (s + e * sk) % Q, c.gen) == Times(c, (s' + e' * sk) % Q, c.gen)
       <==> (s + e * sk) % Q == (s' + e' * sk) % Q
  {
    SameMultiple(c, (s + e * sk) % Q, (s' + e' * sk) % Q);
  }

  lemma SameMultiple<E(!new)>(c: Curve<E>, a: Fq, b: Fq)
    requires ExactOrder(c)
    ensures Times(c, a, c.gen) == Times(c, b, c.gen) <==> a == b
  {
    if Times(c, a, c.gen) == Times(c, b, c.gen) {
      if a <= b {
        MultiplesDistinct(c, a, b);
      } else {
        MultiplesDistinct(c, b, a);
      }
    }
  }

  // ----- Signature bytes and fields -----

  function ToBytes(sig: Signature): (b: seq<Byte>)
    ensures |b| == 64
  {
    sig.s + sig.e
  }

  function FromBytes(b: seq<Byte>): Signature
    requires |b| == 64
  {
    Signature(b[..32], b[32..])
  }

  function ByteToFr(b: Byte): Fr { b }

  /** One field per signature byte. */
  function ToFields(sig: Signature): (fs: seq<Fr>)
    ensures |fs| == 64
  {
    var b := ToBytes(sig);
    seq(64, i requires 0 <= i < 64 => ByteToFr(b[i]))
  }

  /** The bytes a list of byte-valued fields stands for. */
  function BytesOfFields(fs: seq<Fr>): (b: seq<Byte>)
    ensures |b| == |fs|
  {
    seq(|fs|, i requires 0 <= i < |fs| => fs[i] % 256)
  }

  lemma SignatureRoundTrip(sig: Signature)
    ensures FromBytes(ToBytes(sig)) == sig
    ensures FromBytes(BytesOfFields(ToFields(sig))) == sig
  {
    assert BytesOfFields(ToFields(sig)) == ToBytes(sig);
    assert ToBytes(sig)[..32] == sig.s && ToBytes(sig)[32..] == sig.e;
  }

  /** The 64 fields: the bytes of s, then the bytes of e. */
  lemma FieldsLayout(sig: Signature, i: nat)
    requires i < 32
    ensures ToFields(sig)[i] == sig.s[i] && ToFields(sig)[32 + i] == sig.e[i]
  {
  }

  /** A signature still verifies after travelling as an auth witness of 64 byte-fields. */
  lemma WitnessVerifies<E(!new)>(c: Curve<E>, h: Hashes, sk: Fq, message: Fr)
    requires IsGrumpkin(c)
    ensures Verify(c, h, ScalarMul(c, sk, Generator(c)), message,
                   FromBytes(BytesOfFields(ToFields(Sign(c, h, sk, message)))))
  {
    Completeness(c, h, sk, message);
    SignatureRoundTrip(Sign(c, h, sk, message));
  }

  /** A zero key is handled like any other: its public key is the point at infinity, and it still signs. */
  lemma ZeroKey<E(!new)>(c: Curve<E>, h: Hashes, message: Fr)
    requires IsGrumpkin(c)
    ensures ScalarMul(c, 0, Generator(c)) == INFINITY
    ensures Verify(c, h, INFINITY, message, Sign(c, h, 0, message))
  {
    PublicKeyIsMultiple(c, 0);
    Completeness(c, h, 0, message);
  }
}

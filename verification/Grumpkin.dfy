/** Grumpkin points recovered from an x-coordinate (crates/core/src/grumpkin.rs). */
module Grumpkin {
  import opened Wrappers
  import opened Fields
  import opened Residues

  datatype Point = Point(x: Fr, y: Fr, isInfinite: bool)

  datatype CurveError = NotOnCurve

  const INFINITY: Point := Point(0, 0, true)

  // Modulus minus one, halved.
  const HALF: int := (R - 1) / 2

  /** Multiplication in the field, as repeated addition; `MulIsProduct` gives the product form. */
  function Mul(a: Fr, b: Fr): Fr
    decreases a
  {
    if a == 0 then 0 else (Mul(a - 1, b) + b) % R
  }

  lemma MulIsProduct(a: Fr, b: Fr)
    ensures Mul(a, b) == (a * b) % R
  {
    MulIsResidue(a, b);
    SumIsProduct(a, b);
  }

  /** The same sum without reduction. */
  ghost function RepeatedSum(a: nat, b: int): int { if a == 0 then 0 else RepeatedSum(a - 1, b) + b }

  lemma {:induction false} MulIsResidue(a: Fr, b: Fr)
    ensures Mul(a, b) == RepeatedSum(a, b) % R
    decreases a
  {
    if a > 0 {
      MulIsResidue(a - 1, b);
      AddToResidue(RepeatedSum(a - 1, b), b);
    }
  }

  lemma AddToResidue(p: int, b: int)
    ensures (p % R + b) % R == (p + b) % R
  {
  }

  lemma {:induction false} SumIsProduct(a: nat, b: int)
    ensures RepeatedSum(a, b) == a * b
  {
    if a > 0 {
      SumIsProduct(a - 1, b);
    }
  }

  function Neg(a: Fr): Fr { if a == 0 then 0 else R - a }

  /** x^3 - 17. */
  function CurveRhs(x: Fr): Fr { (Mul(Mul(x, x), x) - 17) % R }

  predicate OnCurve(p: Point) { p.isInfinite || Mul(p.y, p.y) == CurveRhs(p.x) }

  /** `has_positive_y`. */
  predicate HasPositiveY(p: Point) { p.y <= HALF }

  /** The curve equation y^2 = x^3 - 17 modulo r, and the positive half: 2y below r. */
  lemma CurveEquation(p: Point)
    ensures !p.isInfinite ==> (OnCurve(p) <==> (Mul(p.y, p.y) + 17) % R == Mul(Mul(p.x, p.x), p.x))
    ensures HasPositiveY(p) <==> 2 * p.y < R
  {
    MinusSeventeen(Mul(Mul(p.x, p.x), p.x), Mul(p.y, p.y));
  }

  lemma MinusSeventeen(a: Fr, b: Fr)
    ensures b == (a - 17) % R <==> (b + 17) % R == a
  {
    assert (a - 17) % R == if a >= 17 then a - 17 else a - 17 + R by {
      ModUnique(a - 17, if a >= 17 then 0 else -1, if a >= 17 then a - 17 else a - 17 + R, R);
    }
    assert (b + 17) % R == if b + 17 < R then b + 17 else b + 17 - R by {
      ModUnique(b + 17, if b + 17 < R then 0 else 1, if b + 17 < R then b + 17 else b + 17 - R, R);
    }
  }

  type SquareRoot = Fr -> Option<Fr>

  /** The library's `sqrt`: some root of every square, nothing for a non-square. */
  ghost predicate IsSquareRoot(sqrt: SquareRoot) {
    forall a :: match sqrt(a)
                case Some(y) => Mul(y, y) == a
                case None => forall y :: Mul(y, y) != a
  }

  /** What primality of r is used for. */
  ghost predicate NoZeroDivisors() {
    forall a, b :: Mul(a, b) == 0 ==> a == 0 || b == 0
  }

  function PointFromX(sqrt: SquareRoot, x: Fr): Result<Point, CurveError> {
    match sqrt(CurveRhs(x))
    case None => Err(NotOnCurve)
    case Some(y) =>
      Ok(Point(x, PositiveRoot(y), false))
  }

  /** The three branches that pick between a root and its negation. */
  function PositiveRoot(y: Fr): Fr { if y <= HALF then y else if Neg(y) <= HALF then Neg(y) else y }

  /** One of a root and its negation is always positive, so the third branch is never taken. */
  lemma ThirdBranchUnreachable(y: Fr)
    ensures y <= HALF || Neg(y) <= HALF
  {
  }

  // ----- Square roots -----

  lemma SquareOfNegation(y: Fr)
    ensures Mul(Neg(y), Neg(y)) == Mul(y, y)
  {
    MulIsProduct(y, y);
    MulIsProduct(Neg(y), Neg(y));
    SquareReflected(y, R);
  }

  lemma PositiveRootIsRoot(y: Fr)
    ensures PositiveRoot(y) <= HALF && Mul(PositiveRoot(y), PositiveRoot(y)) == Mul(y, y)
  {
    ThirdBranchUnreachable(y);
    SquareOfNegation(y);
  }

  /** Two roots of one square are equal or each other's negation. */
  lemma RootsAgree(y: Fr, z: Fr)
    requires NoZeroDivisors() && Mul(y, y) == Mul(z, z)
    ensures z == y || z == Neg(y)
  {
    var d, s: Fr := (y - z) % R, (y + z) % R;
    MulIsProduct(y, y);
    MulIsProduct(z, z);
    SquareDifference(y, z);
    ModMul(y - z, y + z, R);
    MulIsProduct(d, s);
    if d == 0 {
      ZeroResidue(y - z);
    } else {
      ZeroResidue(y + z);
    }
  }

  lemma SquareDifference(y: int, z: int)
    requires (y * y) % R == (z * z) % R
    ensures ((y - z) * (y + z)) % R == 0
  {
    var qy, qz := (y * y) / R, (z * z) / R;
    assert (y - z) * (y + z) == y * y - z * z == (qy - qz) * R;
    ModAddMultiple(0, qy - qz, R);
  }

  lemma ZeroResidue(v: int)
    requires v % R == 0 && -R < v < 2 * R
    ensures v == 0 || v == R
  {
  }

  // ----- Results -----

  /** Whatever root it is given, the function returns a finite curve point with positive y over x. */
  lemma PointFromXIsPositive(sqrt: SquareRoot, x: Fr)
    requires IsSquareRoot(sqrt)
    ensures match PointFromX(sqrt, x)
            case Ok(p) => p.x == x && !p.isInfinite && OnCurve(p) && HasPositiveY(p)
            case Err(_) => forall y :: !OnCurve(Point(x, y, false))
  {
    match sqrt(CurveRhs(x))
    case Some(y) =>
      PositiveRootIsRoot(y);
      assert Mul(y, y) == CurveRhs(x);
    case None =>
      forall y ensures !OnCurve(Point(x, y, false)) {
        assert Mul(y, y) != CurveRhs(x);
      }
  }

  /** It is the only such point, so the choice of square root cannot matter. */
  lemma PointFromXIsUnique(sqrt: SquareRoot, p: Point)
    requires NoZeroDivisors() && IsSquareRoot(sqrt)
    requires !p.isInfinite && OnCurve(p) && HasPositiveY(p)
    ensures PointFromX(sqrt, p.x) == Ok(p)
  {
    var y := sqrt(CurveRhs(p.x));
    assert y.Some?;
    RootsAgree(y.value, p.y);
  }

  lemma RootChoiceIrrelevant(sqrt: SquareRoot, sqrt': SquareRoot, x: Fr)
    requires NoZeroDivisors() && IsSquareRoot(sqrt) && IsSquareRoot(sqrt')
    ensures PointFromX(sqrt, x) == PointFromX(sqrt', x)
  {
    PointFromXIsPositive(sqrt, x);
    PointFromXIsPositive(sqrt', x);
    match PointFromX(sqrt, x)
    case Ok(p) => PointFromXIsUnique(sqrt', p);
    case Err(_) =>
      match PointFromX(sqrt', x)
      case Ok(p') => PointFromXIsUnique(sqrt, p');
      case Err(_) =>
  }
}

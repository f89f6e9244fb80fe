/** Arithmetic on exact reals that several modules share. */
module Reals {
  function Abs(r: real): real {
    if r < 0.0 then -r else r
  }

  function Square(r: real): real {
    r * r
  }

  lemma SquareRises(a: real, b: real)
    requires 0.0 <= a <= b
    ensures a * a <= b * b
  {
    var d := b - a;
    assert d * a >= 0.0 && d * b >= 0.0;
    assert b * b - a * a == d * b + d * a;
  }

  /** A function that takes the square root of whatever is not negative; the platform's own. */
  ghost predicate IsRoot(root: real -> real) {
    forall r | r >= 0.0 :: root(r) >= 0.0 && Square(root(r)) == r
  }

  lemma SquareRisesStrictly(a: real, b: real)
    requires 0.0 <= a < b
    ensures Square(a) < Square(b)
  {
    var d := b - a;
    assert d * a >= 0.0 && d * b > 0.0;
    assert Square(b) - Square(a) == d * b + d * a;
  }

  /** Roots are in the order of what they are roots of. */
  lemma RootRises(root: real -> real, a: real, b: real)
    requires IsRoot(root) && a >= 0.0 && b >= 0.0
    ensures root(a) < root(b) <==> a < b
    ensures root(a) == root(b) <==> a == b
  {
    assert Square(root(a)) == a && Square(root(b)) == b;
    if root(a) < root(b) {
      SquareRisesStrictly(root(a), root(b));
    } else if root(b) < root(a) {
      SquareRisesStrictly(root(b), root(a));
    }
  }
}

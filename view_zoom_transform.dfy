/** The affine automorphisms of the real line (`AR1`), bases of two reference
    points (`AR1Basis`) and the closed-form solver that gives the unique
    automorphism carrying one basis onto another.

    Numbers are modelled as `real`. The source computes in IEEE-754 doubles and
    lets a zero scale or a degenerate basis produce NaN or Infinity; here those
    divisions by zero become preconditions. */
module ViewZoomTransform {

  /** The map x' = a * x + b. The source keeps the two coefficients in an
      array `m`, with `a` as m[0] and `b` as m[1]. */
  datatype AR1 = AR1(a: real, b: real) {

    /** The image of the point `p`. */
    function ApplyToPoint(p: real): real {
      a * p + b
    }

    /** The transform that applies `this` first and `other` second. */
    function ComposeWith(other: AR1): (r: AR1)
      ensures forall x :: r.ApplyToPoint(x) == other.ApplyToPoint(ApplyToPoint(x))
    {
      AR1(a * other.a, b * other.a + other.b)
    }

    /** The inverse automorphism; it exists only for a non-zero scale. */
    function Inverse(): (r: AR1)
      requires a != 0.0
      ensures r.a != 0.0
      ensures forall x :: r.ApplyToPoint(ApplyToPoint(x)) == x
      ensures forall x :: ApplyToPoint(r.ApplyToPoint(x)) == x
    {
      var r := AR1(1.0 / a, -b / a);
      assert forall x :: r.ApplyToPoint(ApplyToPoint(x)) == x by {
        forall x ensures r.ApplyToPoint(ApplyToPoint(x)) == x {
          calc {
            r.ApplyToPoint(ApplyToPoint(x));
            (1.0 / a) * (a * x + b) + (-b / a);
            (a * x) / a + b / a - b / a;
            x;
          }
        }
      }
      r
    }
  }

  /** The neutral element of composition. */
  const Identity := AR1(1.0, 0.0)

  /** The coefficients of an automorphism are its slope and its value at 0:
      any two images differ by `a` times the distance of their points. */
  lemma ApplyToPointLine(t: AR1, p: real, q: real)
    ensures t.ApplyToPoint(0.0) == t.b
    ensures t.ApplyToPoint(p) - t.ApplyToPoint(q) == t.a * (p - q)
  {
  }

  /** Two automorphisms that agree on two distinct points are equal. */
  lemma AgreeOnTwoPoints(s: AR1, t: AR1, p: real, q: real)
    requires p != q
    requires s.ApplyToPoint(p) == t.ApplyToPoint(p)
    requires s.ApplyToPoint(q) == t.ApplyToPoint(q)
    ensures s == t
  {
    ApplyToPointLine(s, p, q);
    ApplyToPointLine(t, p, q);
    assert (s.a - t.a) * (p - q) == 0.0;
    assert s.a == t.a;
    assert s.b == s.ApplyToPoint(p) - s.a * p;
    assert t.b == t.ApplyToPoint(p) - t.a * p;
  }

  /** Composition follows application order, so it is not commutative:
      scaling by 2 then shifting by 1 differs from shifting then scaling. */
  lemma ComposeOrderMatters()
    ensures AR1(2.0, 0.0).ComposeWith(AR1(1.0, 1.0)) == AR1(2.0, 1.0)
    ensures AR1(1.0, 1.0).ComposeWith(AR1(2.0, 0.0)) == AR1(2.0, 2.0)
  {
  }

  /** Composition is associative. */
  lemma ComposeAssociative(t1: AR1, t2: AR1, t3: AR1)
    ensures t1.ComposeWith(t2).ComposeWith(t3) == t1.ComposeWith(t2.ComposeWith(t3))
  {
    var l := t1.ComposeWith(t2).ComposeWith(t3);
    var r := t1.ComposeWith(t2.ComposeWith(t3));
    assert l.ApplyToPoint(0.0) == r.ApplyToPoint(0.0);
    assert l.ApplyToPoint(1.0) == r.ApplyToPoint(1.0);
    AgreeOnTwoPoints(l, r, 0.0, 1.0);
  }

  /** An automorphism composed with its inverse, in either order, has the
      coefficients (1, 0) of the identity. */
  lemma InverseCancels(t: AR1)
    requires t.a != 0.0
    ensures t.ComposeWith(t.Inverse()) == Identity
    ensures t.Inverse().ComposeWith(t) == Identity
  {
    var i := t.Inverse();
    AgreeOnTwoPoints(t.ComposeWith(i), Identity, 0.0, 1.0);
    AgreeOnTwoPoints(i.ComposeWith(t), Identity, i.ApplyToPoint(0.0), i.ApplyToPoint(1.0));
  }

  /** The solver on bare pairs: the automorphism sending b1.0 to b2.0 and
      b1.1 to b2.1. */
  function BetweenBasesAR1(b1: (real, real), b2: (real, real)): (r: AR1)
    requires b1.0 != b1.1
    ensures r.ApplyToPoint(b1.0) == b2.0
    ensures r.ApplyToPoint(b1.1) == b2.1
  {
    var (b11, b12) := b1;
    var (b21, b22) := b2;
    var d := b11 - b12;
    var r := AR1((b21 - b22) / d, (-(b12 * b21 - b11 * b22)) / d);
    assert r.ApplyToPoint(b11) * d == b21 * d;
    assert r.ApplyToPoint(b12) * d == b22 * d;
    r
  }

  /** The solver's result is the only automorphism carrying b1 onto b2. */
  lemma BetweenBasesUnique(t: AR1, b1: (real, real), b2: (real, real))
    requires b1.0 != b1.1
    requires t.ApplyToPoint(b1.0) == b2.0 && t.ApplyToPoint(b1.1) == b2.1
    ensures BetweenBasesAR1(b1, b2) == t
  {
    AgreeOnTwoPoints(BetweenBasesAR1(b1, b2), t, b1.0, b1.1);
  }

  /** Swapping the two points of both bases gives the same coefficients:
      only the first-to-first, second-to-second correspondence matters. */
  lemma BetweenBasesSwap(p: real, q: real, r: real, s: real)
    requires p != q
    ensures BetweenBasesAR1((p, q), (r, s)) == BetweenBasesAR1((q, p), (s, r))
  {
    BetweenBasesUnique(BetweenBasesAR1((p, q), (r, s)), (q, p), (s, r));
  }

  /** Fahrenheit to Celsius from the freezing and boiling points of water:
      a = 5/9, b = -160/9, and body temperature 98.6 F is 37 C. Swapping the
      target points instead gives a reversed Celsius scale, with slope -5/9. */
  lemma FahrenheitToCelsius()
    ensures BetweenBasesAR1((32.0, 212.0), (0.0, 100.0)) == AR1(5.0 / 9.0, -160.0 / 9.0)
    ensures BetweenBasesAR1((32.0, 212.0), (0.0, 100.0)).ApplyToPoint(98.6) == 37.0
    ensures BetweenBasesAR1((212.0, 32.0), (100.0, 0.0)) == BetweenBasesAR1((32.0, 212.0), (0.0, 100.0))
    ensures BetweenBasesAR1((212.0, 32.0), (0.0, 100.0)) == AR1(-5.0 / 9.0, 1060.0 / 9.0)
  {
    BetweenBasesSwap(32.0, 212.0, 0.0, 100.0);
  }

  /** Solving the bases in the opposite direction gives the inverse. */
  lemma BetweenBasesReversed(b1: (real, real), b2: (real, real))
    requires b1.0 != b1.1 && b2.0 != b2.1
    ensures BetweenBasesAR1(b1, b2).a != 0.0
    ensures BetweenBasesAR1(b2, b1) == BetweenBasesAR1(b1, b2).Inverse()
  {
    var t := BetweenBasesAR1(b1, b2);
    ApplyToPointLine(t, b1.0, b1.1);
    assert t.a != 0.0;
    var i := t.Inverse();
    assert i.ApplyToPoint(b2.0) == b1.0 && i.ApplyToPoint(b2.1) == b1.1;
    BetweenBasesUnique(i, b2, b1);
  }

  /** An ordered pair of reference points. */
  datatype AR1Basis = AR1Basis(p1: real, p2: real) {

    /** The two points as a pair, first point first. */
    function ToArr(): (real, real) {
      (p1, p2)
    }

    /** The basis made of the images of both points under `transform`. */
    function TransformWith(transform: AR1): AR1Basis {
      AR1Basis(transform.ApplyToPoint(p1), transform.ApplyToPoint(p2))
    }
  }

  /** The unit basis (0, 1). */
  const BUnit := AR1Basis(0.0, 1.0)

  /** A basis to use where any basis will do; the source shares BUnit. */
  const BPlaceholder := BUnit

  /** The solver on bases: it sends b1's first point to b2's first point and
      b1's second point to b2's second point. */
  function BetweenTBasesAR1(b1: AR1Basis, b2: AR1Basis): (r: AR1)
    requires b1.p1 != b1.p2
    ensures r.ApplyToPoint(b1.p1) == b2.p1
    ensures r.ApplyToPoint(b1.p2) == b2.p2
  {
    BetweenBasesAR1(b1.ToArr(), b2.ToArr())
  }

  /** Transforming a basis twice is transforming it by the composition,
      in application order. */
  lemma TransformWithCompose(c: AR1Basis, t1: AR1, t2: AR1)
    ensures c.TransformWith(t1).TransformWith(t2) == c.TransformWith(t1.ComposeWith(t2))
  {
  }

  /** Every automorphism T is recovered from any non-degenerate basis c and
      its image under T, so infinitely many pairs of bases define T. */
  lemma BetweenTBasesRecovers(c: AR1Basis, t: AR1)
    requires c.p1 != c.p2
    ensures BetweenTBasesAR1(c, c.TransformWith(t)) == t
  {
    BetweenBasesUnique(t, c.ToArr(), c.TransformWith(t).ToArr());
  }

  /** Solving from the unit basis reads the target's first point as the
      offset and the distance between its points as the scale; the
      placeholder basis is the unit basis. */
  lemma BetweenTBasesFromUnit(c: AR1Basis)
    ensures BPlaceholder == BUnit
    ensures BUnit.ToArr() == (0.0, 1.0)
    ensures BetweenTBasesAR1(BUnit, c) == AR1(c.p2 - c.p1, c.p1)
  {
    BetweenBasesUnique(AR1(c.p2 - c.p1, c.p1), BUnit.ToArr(), c.ToArr());
  }

  /** Solving b1 onto b2 and then b2 onto b3 composes to solving b1 onto b3,
      as when a model-to-screen transform is chained through a middle basis. */
  lemma BetweenTBasesChain(b1: AR1Basis, b2: AR1Basis, b3: AR1Basis)
    requires b1.p1 != b1.p2 && b2.p1 != b2.p2
    ensures BetweenTBasesAR1(b1, b2).ComposeWith(BetweenTBasesAR1(b2, b3)) == BetweenTBasesAR1(b1, b3)
  {
    var t := BetweenTBasesAR1(b1, b2).ComposeWith(BetweenTBasesAR1(b2, b3));
    BetweenBasesUnique(t, b1.ToArr(), b3.ToArr());
  }
}

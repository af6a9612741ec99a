/**
 * The finite-difference quotients that the stale five-pair constructor of a control volume
 * computes from a cell, its four neighbours and their coordinates, and then discards.
 *
 * A quotient whose denominator is zero is `None`: the source divides doubles there and gets
 * an infinity or a NaN, which this model does not represent.
 */
module FiniteDifferences {
  import opened Wrappers
  import opened ControlVolumes

  /** A volume together with the coordinates of the node that holds it. */
  datatype Located = Located(volume: ControlVolume, coord: Point2d)

  /** Division that is undefined on a zero denominator; otherwise the quotient recovers the numerator. */
  function Quotient(num: real, den: real): (q: Option<real>)
    ensures q.Some? <==> den != 0.0
    ensures q.Some? ==> q.value * den == num
    ensures num == 0.0 && den != 0.0 ==> q == Some(0.0)
  {
    if den == 0.0 then None else Some(num / den)
  }

  /** Forward first difference of the x-velocity towards the right neighbour. */
  function VDotX(o: Located, r: Located): (q: Option<real>)
    ensures q.Some? <==> r.coord.x != o.coord.x
    ensures q.Some? ==> q.value * (r.coord.x - o.coord.x) == r.volume.velocity.x - o.volume.velocity.x
    ensures q.Some? && r.volume.velocity.x == o.volume.velocity.x ==> q.value == 0.0
  {
    Quotient(r.volume.velocity.x - o.volume.velocity.x, r.coord.x - o.coord.x)
  }

  /** Forward first difference of the y-velocity towards the top neighbour. */
  function WDotW(o: Located, t: Located): (q: Option<real>)
    ensures q.Some? <==> t.coord.y != o.coord.y
    ensures q.Some? ==> q.value * (t.coord.y - o.coord.y) == t.volume.velocity.y - o.volume.velocity.y
    ensures q.Some? && t.volume.velocity.y == o.volume.velocity.y ==> q.value == 0.0
  {
    Quotient(t.volume.velocity.y - o.volume.velocity.y, t.coord.y - o.coord.y)
  }

  /** Forward first difference of the pressure towards the right neighbour. */
  function RhoDotX(o: Located, r: Located): (q: Option<real>)
    ensures q.Some? <==> r.coord.x != o.coord.x
    ensures q.Some? ==> q.value * (r.coord.x - o.coord.x) == r.volume.pressure - o.volume.pressure
    ensures q.Some? && r.volume.pressure == o.volume.pressure ==> q.value == 0.0
  {
    Quotient(r.volume.pressure - o.volume.pressure, r.coord.x - o.coord.x)
  }

  /** Forward first difference of the pressure towards the top neighbour. */
  function RhoDotY(o: Located, t: Located): (q: Option<real>)
    ensures q.Some? <==> t.coord.y != o.coord.y
    ensures q.Some? ==> q.value * (t.coord.y - o.coord.y) == t.volume.pressure - o.volume.pressure
    ensures q.Some? && t.volume.pressure == o.volume.pressure ==> q.value == 0.0
  {
    Quotient(t.volume.pressure - o.volume.pressure, t.coord.y - o.coord.y)
  }

  /** A product of two reals is non-zero exactly when both factors are. */
  lemma ProductNonZero(x: real, y: real)
    ensures x * y != 0.0 <==> x != 0.0 && y != 0.0
  {
    if x != 0.0 && y != 0.0 {
      assert (x * y) / y == x;
    }
  }

  /** Three-point second difference of the x-velocity along x. */
  function VDotDotX(o: Located, l: Located, r: Located): (q: Option<real>)
    ensures q.Some? <==> l.coord.x != o.coord.x && r.coord.x != o.coord.x
    ensures q.Some? ==>
      q.value * ((o.coord.x - l.coord.x) * (r.coord.x - o.coord.x))
      == l.volume.velocity.x - 2.0 * o.volume.velocity.x + r.volume.velocity.x
    ensures q.Some? && l.volume.velocity.x == o.volume.velocity.x == r.volume.velocity.x ==> q.value == 0.0
  {
    var near, far := o.coord.x - l.coord.x, r.coord.x - o.coord.x;
    ProductNonZero(near, far);
    var den := near * far;
    Quotient(l.volume.velocity.x - 2.0 * o.volume.velocity.x + r.volume.velocity.x, den)
  }

  /**
   * The y-velocity's second difference exactly as the source writes it: the numerator uses
   * the bottom and top neighbours, the denominator the y coordinates of the LEFT and RIGHT
   * neighbours.
   */
  function WDotDotYAsWritten(o: Located, l: Located, r: Located, t: Located, b: Located): (q: Option<real>)
    ensures q.Some? <==> l.coord.y != o.coord.y && r.coord.y != o.coord.y
    ensures q.Some? ==>
      q.value * ((o.coord.y - l.coord.y) * (r.coord.y - o.coord.y))
      == b.volume.velocity.y - 2.0 * o.volume.velocity.y + t.volume.velocity.y
  {
    var near, far := o.coord.y - l.coord.y, r.coord.y - o.coord.y;
    ProductNonZero(near, far);
    var den := near * far;
    Quotient(b.volume.velocity.y - 2.0 * o.volume.velocity.y + t.volume.velocity.y, den)
  }

  /** The y-velocity's second difference along y, with the bottom/top spacing in the denominator. */
  function WDotDotY(o: Located, t: Located, b: Located): (q: Option<real>)
    ensures q.Some? <==> b.coord.y != o.coord.y && t.coord.y != o.coord.y
    ensures q.Some? ==>
      q.value * ((o.coord.y - b.coord.y) * (t.coord.y - o.coord.y))
      == b.volume.velocity.y - 2.0 * o.volume.velocity.y + t.volume.velocity.y
    ensures q.Some? && b.volume.velocity.y == o.volume.velocity.y == t.volume.velocity.y ==> q.value == 0.0
  {
    var near, far := o.coord.y - b.coord.y, t.coord.y - o.coord.y;
    ProductNonZero(near, far);
    var den := near * far;
    Quotient(b.volume.velocity.y - 2.0 * o.volume.velocity.y + t.volume.velocity.y, den)
  }

  /** The six local quotients of the five-pair constructor. */
  datatype Derivatives = Derivatives(
    vDotX: Option<real>, wDotW: Option<real>,
    rhoDotX: Option<real>, rhoDotY: Option<real>,
    vDotDotX: Option<real>, wDotDotY: Option<real>)
  {
    /** Every quotient that is defined is zero. */
    predicate AllDefinedZero() {
      && (vDotX.Some? ==> vDotX.value == 0.0)
      && (wDotW.Some? ==> wDotW.value == 0.0)
      && (rhoDotX.Some? ==> rhoDotX.value == 0.0)
      && (rhoDotY.Some? ==> rhoDotY.value == 0.0)
      && (vDotDotX.Some? ==> vDotDotX.value == 0.0)
      && (wDotDotY.Some? ==> wDotDotY.value == 0.0)
    }
  }

  /** All five volumes carry the same pressure and velocity. */
  predicate Uniform(o: Located, l: Located, r: Located, t: Located, b: Located) {
    && l.volume.pressure == o.volume.pressure && l.volume.velocity == o.volume.velocity
    && r.volume.pressure == o.volume.pressure && r.volume.velocity == o.volume.velocity
    && t.volume.pressure == o.volume.pressure && t.volume.velocity == o.volume.velocity
    && b.volume.pressure == o.volume.pressure && b.volume.velocity == o.volume.velocity
  }

  /** The quotients of one stencil; the y-curvature uses the corrected bottom/top spacing. */
  function StencilDerivatives(o: Located, l: Located, r: Located, t: Located, b: Located): (d: Derivatives)
    ensures d.vDotX.Some? <==> r.coord.x != o.coord.x
    ensures d.wDotW.Some? <==> t.coord.y != o.coord.y
    ensures d.rhoDotX.Some? <==> r.coord.x != o.coord.x
    ensures d.rhoDotY.Some? <==> t.coord.y != o.coord.y
    ensures d.vDotDotX.Some? <==> l.coord.x != o.coord.x && r.coord.x != o.coord.x
    ensures d.wDotDotY.Some? <==> b.coord.y != o.coord.y && t.coord.y != o.coord.y
    ensures Uniform(o, l, r, t, b) ==> d.AllDefinedZero()
  {
    Derivatives(VDotX(o, r), WDotW(o, t), RhoDotX(o, r), RhoDotY(o, t), VDotDotX(o, l, r), WDotDotY(o, t, b))
  }

  /**
   * The quotients exactly as the five-pair constructor computes them: they agree with the
   * corrected ones except for the y-curvature, whose denominator uses the left/right spacing.
   */
  function StencilDerivativesAsWritten(o: Located, l: Located, r: Located, t: Located, b: Located): (d: Derivatives)
    ensures var c := StencilDerivatives(o, l, r, t, b);
      && d.vDotX == c.vDotX && d.wDotW == c.wDotW && d.rhoDotX == c.rhoDotX && d.rhoDotY == c.rhoDotY
      && d.vDotDotX == c.vDotDotX
    ensures d.wDotDotY.Some? <==> l.coord.y != o.coord.y && r.coord.y != o.coord.y
  {
    Derivatives(VDotX(o, r), WDotW(o, t), RhoDotX(o, r), RhoDotY(o, t), VDotDotX(o, l, r),
                WDotDotYAsWritten(o, l, r, t, b))
  }

  /**
   * The stale five-pair constructor: it computes the quotients into locals and assigns none
   * of them, so the object it builds is whatever its uninitialised storage held.
   */
  function FivePairConstructor(o: Located, l: Located, r: Located, t: Located, b: Located,
                               uninitialised: ControlVolume): (cv: ControlVolume)
    ensures cv == uninitialised
  {
    var discarded := StencilDerivativesAsWritten(o, l, r, t, b);
    uninitialised
  }

  /** The volume the five-pair constructor builds does not depend on the stencil at all. */
  lemma FivePairConstructorDiscardsStencil(
    o: Located, l: Located, r: Located, t: Located, b: Located,
    o': Located, l': Located, r': Located, t': Located, b': Located, uninitialised: ControlVolume)
    ensures FivePairConstructor(o, l, r, t, b, uninitialised) == FivePairConstructor(o', l', r', t', b', uninitialised)
  {
  }

  /** A velocity component that is the quadratic a + b*s + c*s^2 of a coordinate s. */
  ghost predicate Quadratic(v: real, s: real, a: real, b: real, c: real) {
    v == a + b * s + c * (s * s)
  }

  /** On an evenly spaced stencil the three-point numerator of a quadratic is 2c times the spacing squared. */
  lemma {:induction false} QuadraticNumerator(s: real, h: real, a: real, b: real, c: real,
                                              vl: real, vo: real, vr: real)
    requires Quadratic(vl, s - h, a, b, c) && Quadratic(vo, s, a, b, c) && Quadratic(vr, s + h, a, b, c)
    ensures vl - 2.0 * vo + vr == 2.0 * c * (h * h)
  {
    assert (s - h) * (s - h) == s * s - 2.0 * s * h + h * h;
    assert (s + h) * (s + h) == s * s + 2.0 * s * h + h * h;
  }

  /** The x-curvature is exact for a quadratic profile on an evenly spaced row. */
  lemma {:induction false} VDotDotXExactOnQuadratics(o: Located, l: Located, r: Located,
                                                     h: real, a: real, b: real, c: real)
    requires h != 0.0
    requires l.coord.x == o.coord.x - h && r.coord.x == o.coord.x + h
    requires Quadratic(l.volume.velocity.x, l.coord.x, a, b, c)
    requires Quadratic(o.volume.velocity.x, o.coord.x, a, b, c)
    requires Quadratic(r.volume.velocity.x, r.coord.x, a, b, c)
    ensures VDotDotX(o, l, r) == Some(2.0 * c)
  {
    QuadraticNumerator(o.coord.x, h, a, b, c, l.volume.velocity.x, o.volume.velocity.x, r.volume.velocity.x);
    var q := VDotDotX(o, l, r);
    assert (o.coord.x - l.coord.x) * (r.coord.x - o.coord.x) == h * h;
    assert h * h != 0.0;
    assert q.value * (h * h) == 2.0 * c * (h * h);
  }

  /** The corrected y-curvature is exact for a quadratic profile on an evenly spaced column. */
  lemma {:induction false} WDotDotYExactOnQuadratics(o: Located, t: Located, bottom: Located,
                                                     h: real, a: real, b: real, c: real)
    requires h != 0.0
    requires bottom.coord.y == o.coord.y - h && t.coord.y == o.coord.y + h
    requires Quadratic(bottom.volume.velocity.y, bottom.coord.y, a, b, c)
    requires Quadratic(o.volume.velocity.y, o.coord.y, a, b, c)
    requires Quadratic(t.volume.velocity.y, t.coord.y, a, b, c)
    ensures WDotDotY(o, t, bottom) == Some(2.0 * c)
  {
    QuadraticNumerator(o.coord.y, h, a, b, c, bottom.volume.velocity.y, o.volume.velocity.y, t.volume.velocity.y);
    var q := WDotDotY(o, t, bottom);
    assert (o.coord.y - bottom.coord.y) * (t.coord.y - o.coord.y) == h * h;
    assert h * h != 0.0;
    assert q.value * (h * h) == 2.0 * c * (h * h);
  }

  /** The five nodes of an evenly spaced cross: neighbours one spacing away along their axis. */
  predicate RegularCross(o: Located, l: Located, r: Located, t: Located, b: Located, h: real) {
    && l.coord == Point2d(o.coord.x - h, o.coord.y)
    && r.coord == Point2d(o.coord.x + h, o.coord.y)
    && t.coord == Point2d(o.coord.x, o.coord.y + h)
    && b.coord == Point2d(o.coord.x, o.coord.y - h)
  }

  /**
   * The as-written y-curvature is undefined on every regular cross, even where the
   * corrected one recovers the exact second derivative 2c of a quadratic profile.
   */
  lemma {:induction false} WDotDotYAsWrittenFailsOnRegularCross(
    o: Located, l: Located, r: Located, t: Located, bottom: Located,
    h: real, a: real, b: real, c: real)
    requires h != 0.0 && RegularCross(o, l, r, t, bottom, h)
    requires Quadratic(bottom.volume.velocity.y, bottom.coord.y, a, b, c)
    requires Quadratic(o.volume.velocity.y, o.coord.y, a, b, c)
    requires Quadratic(t.volume.velocity.y, t.coord.y, a, b, c)
    ensures WDotDotYAsWritten(o, l, r, t, bottom) == None
    ensures WDotDotY(o, t, bottom) == Some(2.0 * c)
  {
    WDotDotYExactOnQuadratics(o, t, bottom, h, a, b, c);
  }
}

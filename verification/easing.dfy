/**
  The easing library of src/jsTimeline.js (lines 116-202): ease-in curves, the
  `symmetric` construction that derives the missing direction by reflection, and
  the table of named curves. Arithmetic is exact (`real`), not IEEE-754.
 */
module Easing {
  import opened Wrappers

  /** An easing curve: normalised progress in, shaped progress out. The second
      argument is the first of the extra arguments the library passes through
      unchanged (Back reads it as its overshoot `s`, Elastic as its springiness);
      `None` is `undefined`. */
  type Curve = (real, Option<real>) -> real

  /** The three forms every named curve exposes. */
  datatype Curves = Curves(easeIn: Curve, easeOut: Curve, easeInOut: Curve)

  /** `inverse(ease)`: the curve reflected through the point (0.5, 0.5). */
  function Inverse(ease: Curve): (r: Curve)
    ensures forall pos, a :: r(pos, a) + ease(1.0 - pos, a) == 1.0
  {
    (pos: real, a: Option<real>) => 1.0 - ease(1.0 - pos, a)
  }

  /** Ease-in compressed into the first half, ease-out into the second half. */
  function InOut(easeIn: Curve, easeOut: Curve): (r: Curve)
    ensures forall a :: easeIn(0.0, a) == 0.0 ==> r(0.0, a) == 0.0
    ensures forall a :: easeOut(0.0, a) == 0.0 ==> r(0.5, a) == 0.5
    ensures forall a :: easeOut(1.0, a) == 1.0 ==> r(1.0, a) == 1.0
  {
    (pos: real, a: Option<real>) =>
      if pos < 0.5 then easeIn(pos * 2.0, a) / 2.0
      else easeOut((pos - 0.5) * 2.0, a) / 2.0 + 0.5
  }

  /** `symmetric(easeIn, easeOut)`: a missing direction is derived from the other
      one by reflection. With both missing the source builds curves that throw
      when called; that caller error is excluded here. */
  function Symmetric(easeIn: Option<Curve>, easeOut: Option<Curve>): (c: Curves)
    requires easeIn.Some? || easeOut.Some?
    ensures forall pos, a :: easeIn.Some? ==> c.easeIn(pos, a) == easeIn.value(pos, a)
    ensures forall pos, a :: easeOut.Some? ==> c.easeOut(pos, a) == easeOut.value(pos, a)
    ensures forall pos, a :: easeIn.None? ==> c.easeIn(pos, a) == 1.0 - easeOut.value(1.0 - pos, a)
    ensures forall pos, a :: easeOut.None? ==> c.easeOut(pos, a) == 1.0 - c.easeIn(1.0 - pos, a)
  {
    var fIn := if easeIn.Some? then easeIn.value else Inverse(easeOut.value);
    var fOut := if easeOut.Some? then easeOut.value else Inverse(fIn);
    Curves(fIn, fOut, InOut(fIn, fOut))
  }

  /** Reflecting twice gives the curve back. */
  lemma InverseIsInvolution(ease: Curve, pos: real, a: Option<real>)
    ensures Inverse(Inverse(ease))(pos, a) == ease(pos, a)
  {
  }

  /** When one direction is derived, the two directions are exact reflections of
      each other, read either way round. */
  lemma DerivedDirectionReflects(easeIn: Option<Curve>, easeOut: Option<Curve>, pos: real, a: Option<real>)
    requires easeIn.Some? != easeOut.Some?
    ensures Symmetric(easeIn, easeOut).easeOut(pos, a) == 1.0 - Symmetric(easeIn, easeOut).easeIn(1.0 - pos, a)
    ensures Symmetric(easeIn, easeOut).easeIn(pos, a) == 1.0 - Symmetric(easeIn, easeOut).easeOut(1.0 - pos, a)
  {
    var c := Symmetric(easeIn, easeOut);
    assert 1.0 - (1.0 - pos) == pos;
  }

  /** The in-out curve runs the ease-in on [0, 0.5) at half amplitude and the
      ease-out on [0.5, 1] shifted up by one half. */
  lemma InOutSplice(easeIn: Option<Curve>, easeOut: Option<Curve>, pos: real, a: Option<real>)
    requires easeIn.Some? || easeOut.Some?
    ensures var c := Symmetric(easeIn, easeOut);
      (pos < 0.5 ==> c.easeInOut(pos, a) == c.easeIn(2.0 * pos, a) / 2.0)
      && (pos >= 0.5 ==> c.easeInOut(pos, a) == c.easeOut(2.0 * pos - 1.0, a) / 2.0 + 0.5)
  {
  }

  /** Whenever the ease-in curve fixes 0 and 1, the spliced curve fixes 0, 0.5 and 1. */
  lemma InOutEndpoints(easeIn: Option<Curve>, easeOut: Option<Curve>, a: Option<real>)
    requires easeIn.Some? != easeOut.Some?
    requires Symmetric(easeIn, easeOut).easeIn(0.0, a) == 0.0
    requires Symmetric(easeIn, easeOut).easeIn(1.0, a) == 1.0
    ensures Symmetric(easeIn, easeOut).easeInOut(0.0, a) == 0.0
    ensures Symmetric(easeIn, easeOut).easeInOut(0.5, a) == 0.5
    ensures Symmetric(easeIn, easeOut).easeInOut(1.0, a) == 1.0
  {
    InOutSplice(easeIn, easeOut, 0.0, a);
    InOutSplice(easeIn, easeOut, 0.5, a);
    InOutSplice(easeIn, easeOut, 1.0, a);
    DerivedDirectionReflects(easeIn, easeOut, 0.0, a);
    DerivedDirectionReflects(easeIn, easeOut, 1.0, a);
  }

  // The ease-in curves of the table.

  function LinearIn(pos: real, a: Option<real>): real { pos }

  function QuadIn(pos: real, a: Option<real>): real { pos * pos }

  function CubicIn(pos: real, a: Option<real>): real { pos * pos * pos }

  function QuartIn(pos: real, a: Option<real>): real { pos * pos * pos * pos }

  /** As written in the table: the fourth power, the same curve as Quart. */
  function QuintIn(pos: real, a: Option<real>): real { pos * pos * pos * pos }

  const DefaultOvershoot: real := 1.70158

  /** `s || 1.70158`: a missing overshoot, or one of 0, falls back to the default. */
  function Overshoot(s: Option<real>): (k: real)
    ensures k != 0.0
    ensures s.Some? && s.value != 0.0 ==> k == s.value
    ensures s.None? || s.value == 0.0 ==> k == 1.70158
  {
    if s.None? || s.value == 0.0 then DefaultOvershoot else s.value
  }

  /** Back is the cubic ease-in less an overshoot term `k * pos^2 * (1 - pos)`,
      which vanishes at both ends and pulls the curve below 0 early on. */
  function BackIn(pos: real, s: Option<real>): (r: real)
    ensures r == CubicIn(pos, s) - Overshoot(s) * (pos * pos * (1.0 - pos))
  {
    var k := Overshoot(s);
    pos * pos * ((k + 1.0) * pos - k)
  }

  /** Four parabolic arcs; Bounce is defined by its ease-out form only. */
  function BounceOut(pos: real, a: Option<real>): (r: real)
    ensures 0.0 <= pos <= 1.0 ==> 0.0 <= r <= 1.0
  {
    if pos < 1.0 / 2.75 then
      ArcBound(pos, 1.0);
      7.5625 * pos * pos
    else if pos < 2.0 / 2.75 then
      var p := pos - 1.5 / 2.75;
      ArcBound(p, 0.5);
      7.5625 * p * p + 0.75
    else if pos < 2.5 / 2.75 then
      var p := pos - 2.25 / 2.75;
      ArcBound(p, 0.25);
      7.5625 * p * p + 0.9375
    else
      var p := pos - 2.625 / 2.75;
      ArcBound(p, 0.125);
      7.5625 * p * p + 0.984375
  }

  /** One bounce arc: `7.5625 = 2.75 * 2.75`, so within `c / 2.75` of its apex
      an arc rises at most `c * c`. */
  lemma ArcBound(p: real, c: real)
    ensures 0.0 <= c && -c <= 2.75 * p <= c ==> 0.0 <= 7.5625 * p * p <= c * c
  {
    var q := 2.75 * p;
    assert 7.5625 * p * p == q * q;
    if 0.0 <= c && -c <= q <= c {
      assert c * c - q * q == (c - q) * (c + q);
      assert (c - q) * (c + q) >= 0.0;
    }
  }

  /** The named curves of the table whose formulas are polynomial. */
  datatype CurveName = Linear | Quad | Cubic | Quart | Quint | Back | Bounce

  /** Every entry names one direction and derives the other by reflection
      through (0.5, 0.5): the ease-out for all entries but Bounce, which names
      its ease-out and derives its ease-in. */
  function Table(name: CurveName): (c: Curves)
    ensures name != Bounce ==> forall pos, a :: c.easeOut(pos, a) == 1.0 - c.easeIn(1.0 - pos, a)
    ensures name == Bounce ==> forall pos, a :: c.easeIn(pos, a) == 1.0 - c.easeOut(1.0 - pos, a)
  {
    match name
    case Linear => Symmetric(Some(LinearIn), None)
    case Quad => Symmetric(Some(QuadIn), None)
    case Cubic => Symmetric(Some(CubicIn), None)
    case Quart => Symmetric(Some(QuartIn), None)
    case Quint => Symmetric(Some(QuintIn), None)
    case Back => Symmetric(Some(BackIn), None)
    case Bounce => Symmetric(None, Some(BounceOut))
  }

  /** Back starts at 0 and ends at 1 whatever the overshoot. */
  lemma BackInEndpoints(s: Option<real>)
    ensures BackIn(0.0, s) == 0.0
    ensures BackIn(1.0, s) == 1.0
  {
  }

  /** With the default overshoot (also chosen for s = 0) Back dips slightly below 0 early on. */
  lemma BackInOvershoot()
    ensures -0.05 < BackIn(0.1, None) < 0.0
    ensures BackIn(0.1, None) == -0.01431422
    ensures BackIn(0.1, Some(0.0)) == BackIn(0.1, None)
  {
  }

  /** Bounce's ease-out form starts at 0 and ends exactly at 1. */
  lemma BounceOutEndpoints(a: Option<real>)
    ensures BounceOut(0.0, a) == 0.0
    ensures BounceOut(1.0, a) == 1.0
  {
  }

  /** Every ease-in of the table fixes 0 and 1. */
  lemma TableEaseInEndpoints(name: CurveName, a: Option<real>)
    ensures Table(name).easeIn(0.0, a) == 0.0
    ensures Table(name).easeIn(1.0, a) == 1.0
  {
    match name
    case Back =>
      BackInEndpoints(a);
      assert Table(Back).easeIn(0.0, a) == BackIn(0.0, a);
      assert Table(Back).easeIn(1.0, a) == BackIn(1.0, a);
    case Bounce => BounceOutEndpoints(a);
    case _ =>
  }

  /** Hence every in-out curve of the table fixes 0, 0.5 and 1. */
  lemma TableInOutEndpoints(name: CurveName, a: Option<real>)
    ensures Table(name).easeInOut(0.0, a) == 0.0
    ensures Table(name).easeInOut(0.5, a) == 0.5
    ensures Table(name).easeInOut(1.0, a) == 1.0
  {
    var c := Table(name);
    assert c.easeOut(0.0, a) == 0.0 && c.easeOut(1.0, a) == 1.0 by {
      TableEaseInEndpoints(name, a);
      if name == Bounce {
        BounceOutEndpoints(a);
      } else {
        assert c.easeOut(0.0, a) == 1.0 - c.easeIn(1.0, a);
        assert c.easeOut(1.0, a) == 1.0 - c.easeIn(0.0, a);
      }
    }
    assert c.easeIn(0.0, a) == 0.0 by {
      TableEaseInEndpoints(name, a);
    }
    assert c.easeInOut == InOut(c.easeIn, c.easeOut) by {
      match name
      case Bounce =>
      case _ =>
    }
  }

  /** The Quint entry is the quartic curve in all three forms, not the quintic one. */
  lemma QuintIsQuartic(pos: real, a: Option<real>)
    ensures Table(Quint).easeIn(pos, a) == Table(Quart).easeIn(pos, a)
    ensures Table(Quint).easeOut(pos, a) == Table(Quart).easeOut(pos, a)
    ensures Table(Quint).easeInOut(pos, a) == Table(Quart).easeInOut(pos, a)
    ensures Table(Quint).easeIn(0.5, a) != 0.5 * 0.5 * 0.5 * 0.5 * 0.5
  {
  }
}

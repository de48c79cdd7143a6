/** Axis-aligned rectangles and the proportional split `divide_rect`
    (src/widgets/boxes.rs), over exact real arithmetic. */
module Geometry {
  import opened Wrappers

  /** A druid `Rect` given by its corners; width and height are signed, as in
      druid, and need not be normalised. */
  datatype Rect = Rect(x0: real, y0: real, x1: real, y1: real) {
    function Width(): real { x1 - x0 }
    function Height(): real { y1 - y0 }
    function Area(): real { Width() * Height() }

    /** Corners in order: non-negative width and height. */
    predicate WellFormed() { x0 <= x1 && y0 <= y1 }

    predicate Within(outer: Rect) {
      outer.x0 <= x0 && x1 <= outer.x1 && outer.y0 <= y0 && y1 <= outer.y1
    }
  }

  /** Two rectangles whose interiors do not intersect. */
  predicate Disjoint(a: Rect, b: Rect) {
    a.x1 <= b.x0 || b.x1 <= a.x0 || a.y1 <= b.y0 || b.y1 <= a.y0
  }

  /** A rectangle as computed in f64: either all four coordinates are numbers,
      or at least one of them is NaN (a NaN coordinate makes width, height and
      area NaN, so which of the four it is does not matter to any caller). */
  datatype Region = Finite(rect: Rect) | NaNRegion

  /** The value of an f64 division of two unsigned sizes. */
  datatype Ratio = Real(q: real) | NaN | PosInf

  /** `n as f64 / d as f64`: 0/0 is NaN and n/0 with n > 0 is +infinity. */
  function Quotient(n: nat, d: nat): (r: Ratio)
    ensures r.NaN? <==> n == 0 && d == 0
    ensures r.PosInf? <==> n > 0 && d == 0
    ensures r.Real? ==> d > 0 && r.q * (d as real) == n as real && 0.0 <= r.q
    ensures r.Real? ==> (r.q <= 1.0 <==> n <= d)
  {
    if d > 0 then QuotientAtMostOne(n, d); Real(n as real / d as real)
    else if n == 0 then NaN
    else PosInf
  }

  lemma QuotientAtMostOne(n: nat, d: nat)
    requires d > 0
    ensures n as real / d as real <= 1.0 <==> n <= d
  {
    var q := n as real / d as real;
    assert q * (d as real) == n as real;
    if q > 1.0 {
      assert q * (d as real) > 1.0 * (d as real);
    } else {
      assert q * (d as real) <= 1.0 * (d as real);
    }
  }

  /** Threshold on height/width below which `divide_rect` cuts along x. */
  const CutThreshold: real := 1.2

  /** The f64 test `height / width < 1.2`, written without the division: for
      a non-zero width it is the comparison of `height` with `1.2 * width`,
      flipped when the width is negative. A zero width gives +infinity or NaN
      when the height is non-negative (comparison false) and -infinity when it
      is negative (comparison true). */
  predicate CutsAlongX(s: Rect) {
    var w, h := s.Width(), s.Height();
    if w > 0.0 then h < CutThreshold * w
    else if w < 0.0 then h > CutThreshold * w
    else h < 0.0
  }

  /** Away from a zero width, `CutsAlongX` is exactly `height / width < 1.2`. */
  lemma CutsAlongXIsAspectTest(s: Rect)
    requires s.Width() != 0.0
    ensures CutsAlongX(s) <==> s.Height() / s.Width() < CutThreshold
  {
    var w, h := s.Width(), s.Height();
    var a := h / w;
    assert a * w == h;
    if w > 0.0 {
      if a < CutThreshold { assert a * w < CutThreshold * w; }
      else { assert a * w >= CutThreshold * w; }
    } else {
      if a < CutThreshold { assert a * w > CutThreshold * w; }
      else { assert a * w <= CutThreshold * w; }
    }
  }

  /** The two rectangles `divide_rect` builds for a ratio it accepts; the left
      one's far edge is written, as in the source, relative to the far edge
      of `s`, and the right one's near edge relative to its near edge. */
  function Split(s: Rect, ratio: real): (halves: (Rect, Rect))
    ensures CutsAlongX(s) ==>
      halves.0.y0 == s.y0 && halves.0.y1 == s.y1 && halves.1.y0 == s.y0 && halves.1.y1 == s.y1 &&
      halves.0.x0 == s.x0 && halves.1.x1 == s.x1 &&
      halves.0.x1 == s.x0 + s.Width() * ratio && halves.1.x0 == s.x0 + s.Width() * ratio
    ensures !CutsAlongX(s) ==>
      halves.0.x0 == s.x0 && halves.0.x1 == s.x1 && halves.1.x0 == s.x0 && halves.1.x1 == s.x1 &&
      halves.0.y0 == s.y0 && halves.1.y1 == s.y1 &&
      halves.0.y1 == s.y0 + s.Height() * ratio && halves.1.y0 == s.y0 + s.Height() * ratio
    ensures halves.0.x1 == halves.1.x0 || halves.0.y1 == halves.1.y0
  {
    if CutsAlongX(s) then
      (Rect(s.x0, s.y0, s.x1 - s.Width() * (1.0 - ratio), s.y1),
       Rect(s.x0 + s.Width() * ratio, s.y0, s.x1, s.y1))
    else
      (Rect(s.x0, s.y0, s.x1, s.y1 - s.Height() * (1.0 - ratio)),
       Rect(s.x0, s.y0 + s.Height() * ratio, s.x1, s.y1))
  }

  /** `divide_rect(source, ratio)`: panics unless `0 <= ratio <= 1`; a NaN
      ratio passes the range test and yields two NaN-bearing rectangles, and a
      NaN-bearing source yields NaN-bearing halves. */
  function DivideRect(source: Region, ratio: Ratio): (r: Result<(Region, Region)>)
    ensures r.Panic? <==> ratio.PosInf? || (ratio.Real? && (ratio.q < 0.0 || ratio.q > 1.0))
    ensures r.Ok? && source.Finite? && ratio.Real? ==>
      r.value == (Finite(Split(source.rect, ratio.q).0), Finite(Split(source.rect, ratio.q).1))
    ensures r.Ok? && (source.NaNRegion? || ratio.NaN?) ==> r.value == (NaNRegion, NaNRegion)
  {
    match ratio
    case PosInf => Panic
    case NaN => Ok((NaNRegion, NaNRegion))
    case Real(q) =>
      if q < 0.0 || q > 1.0 then Panic
      else match source
        case NaNRegion => Ok((NaNRegion, NaNRegion))
        case Finite(s) => Ok((Finite(Split(s, q).0), Finite(Split(s, q).1)))
  }

  /** The halves split the area in proportion `ratio : 1 - ratio`. */
  lemma SplitArea(s: Rect, ratio: real)
    ensures Split(s, ratio).0.Area() == ratio * s.Area()
    ensures Split(s, ratio).1.Area() == (1.0 - ratio) * s.Area()
  {
    var halves := Split(s, ratio);
    var w, h := s.Width(), s.Height();
    if CutsAlongX(s) {
      assert halves.0.Width() == w * ratio && halves.0.Height() == h;
      assert halves.1.Width() == w * (1.0 - ratio) && halves.1.Height() == h;
    } else {
      assert halves.0.Height() == h * ratio && halves.0.Width() == w;
      assert halves.1.Height() == h * (1.0 - ratio) && halves.1.Width() == w;
    }
  }

  /** For an accepted ratio both halves of a well-formed rectangle are
      well-formed, lie inside it and do not overlap. */
  lemma SplitWithin(s: Rect, ratio: real)
    requires s.WellFormed() && 0.0 <= ratio <= 1.0
    ensures Split(s, ratio).0.WellFormed() && Split(s, ratio).0.Within(s)
    ensures Split(s, ratio).1.WellFormed() && Split(s, ratio).1.Within(s)
    ensures Disjoint(Split(s, ratio).0, Split(s, ratio).1)
  {
    var halves := Split(s, ratio);
    if CutsAlongX(s) {
      CutWithin(s.x0, s.x1, ratio, halves.0.x1);
    } else {
      CutWithin(s.y0, s.y1, ratio, halves.0.y1);
    }
  }

  /** A cut at `lo + (hi - lo) * ratio` lies between `lo` and `hi`. */
  lemma CutWithin(lo: real, hi: real, ratio: real, c: real)
    requires lo <= hi && 0.0 <= ratio <= 1.0 && c == lo + (hi - lo) * ratio
    ensures lo <= c <= hi
  {
    var w := hi - lo;
    MulBounds(w, ratio);
    assert c - lo == w * ratio;
  }

  lemma MulBounds(w: real, t: real)
    requires 0.0 <= w && 0.0 <= t <= 1.0
    ensures 0.0 <= w * t <= w
  {
    assert w * t <= w * 1.0;
  }

  /** Ratio 1 hands the whole source to the first half. */
  lemma SplitWhole(s: Rect)
    ensures Split(s, 1.0).0 == s
    ensures Split(s, 1.0).1.Area() == 0.0
  {
  }

  /** The 100x100, ratio 0.3 case: height/width is 1, so the cut is at x = 30. */
  lemma DivideSquare()
    ensures DivideRect(Finite(Rect(0.0, 0.0, 100.0, 100.0)), Real(0.3)) ==
      Ok((Finite(Rect(0.0, 0.0, 30.0, 100.0)), Finite(Rect(30.0, 0.0, 100.0, 100.0))))
  {
    var s := Rect(0.0, 0.0, 100.0, 100.0);
    assert CutsAlongX(s);
    assert Split(s, 0.3) == (Rect(0.0, 0.0, 30.0, 100.0), Rect(30.0, 0.0, 100.0, 100.0));
  }

  /** The 100x200, ratio 0.3 case: height/width is 2, so the cut is at y = 60. */
  lemma DivideTall()
    ensures DivideRect(Finite(Rect(0.0, 0.0, 100.0, 200.0)), Real(0.3)) ==
      Ok((Finite(Rect(0.0, 0.0, 100.0, 60.0)), Finite(Rect(0.0, 60.0, 100.0, 200.0))))
  {
    var s := Rect(0.0, 0.0, 100.0, 200.0);
    assert !CutsAlongX(s);
    assert Split(s, 0.3) == (Rect(0.0, 0.0, 100.0, 60.0), Rect(0.0, 60.0, 100.0, 200.0));
  }
}

/** Canvas geometry: fitting the photo into the working canvas and the
    centred square that is sampled (and outlined on the tester page).

    Both source files use the same two formulas: the photo is scaled
    uniformly by `min(cw / iw, ch / ih)`, floored and centred; the sampling
    square has side `min(regionSize, w, h)` and a floored centred origin.
    The scale is modelled in exact real arithmetic.
 */
module Geometry {
  import opened Basics

  /** The fixed working canvas of both source files. */
  const CANVAS_WIDTH: nat := 520
  const CANVAS_HEIGHT: nat := 360

  /** A destination rectangle `(dx, dy, dw, dh)` of `drawImage`. */
  datatype Rect = Rect(x: int, y: int, w: int, h: int)

  /** The centred sampling square `{ x, y, size }`. */
  datatype Region = Region(x: int, y: int, size: int)

  /** `Math.min(a, b, c)` on integers. */
  function Min3(a: int, b: int, c: int): (m: int)
    ensures m <= a && m <= b && m <= c
    ensures m == a || m == b || m == c
  {
    if a <= b && a <= c then a else if b <= c then b else c
  }

  /** The rectangle the photo of natural size `iw` x `ih` is drawn into on a
      `cw` x `ch` canvas.  A zero side makes its quotient `Infinity`, so the
      other side decides the scale; when both sides are zero the scale is
      `Infinity`, `0 * Infinity` is `NaN`, and `drawImage` with a `NaN`
      argument draws nothing (`None`). */
  function FitRect(iw: nat, ih: nat, cw: nat, ch: nat): Option<Rect>
    requires cw > 0 && ch > 0
  {
    if iw == 0 && ih == 0 then None
    else
      var scale := if iw == 0 then ch as real / ih as real
                   else if ih == 0 then cw as real / iw as real
                   else RealMin(cw as real / iw as real, ch as real / ih as real);
      var dw := (iw as real * scale).Floor;
      var dh := (ih as real * scale).Floor;
      Some(Rect((cw - dw) / 2, (ch - dh) / 2, dw, dh))
  }

  /** The sampling square of side `min(regionSize, w, h)`, centred with
      floored offsets. */
  function CenterRegion(regionSize: int, w: int, h: int): (r: Region)
    ensures r.size <= regionSize && r.size <= w && r.size <= h
    ensures r.size == regionSize || r.size == w || r.size == h
    ensures 0 <= r.x && r.x + r.size <= w
    ensures 0 <= r.y && r.y + r.size <= h
    // the right (bottom) margin equals the left (top) margin or exceeds it by one
    ensures 0 <= (w - r.x - r.size) - r.x <= 1
    ensures 0 <= (h - r.y - r.size) - r.y <= 1
  {
    var size := Min3(regionSize, w, h);
    Region((w - size) / 2, (h - size) / 2, size)
  }

  lemma FloorOfQuotient(a: int, b: int)
    requires b > 0
    ensures (a as real / b as real).Floor == a / b
  {
    var q, m := a / b, a % b;
    assert a == q * b + m && 0 <= m < b;
    assert a as real / b as real == q as real + m as real / b as real;
    assert 0.0 <= m as real / b as real < 1.0;
  }

  lemma ScaledSide(n: nat, c: nat, d: nat)
    requires d > 0
    ensures (n as real * (c as real / d as real)).Floor == (n * c) / d
  {
    assert n as real * (c as real / d as real) == (n * c) as real / d as real;
    FloorOfQuotient(n * c, d);
  }

  /** Integer form of the fit: the side with the smaller quotient fills the
      canvas and the other is scaled down and floored. */
  lemma {:induction false} FitRectIntegerForm(iw: nat, ih: nat, cw: nat, ch: nat)
    requires cw > 0 && ch > 0 && iw > 0 && ih > 0
    ensures FitRect(iw, ih, cw, ch).Some?
    ensures var r := FitRect(iw, ih, cw, ch).value;
            if cw * ih <= ch * iw then r.w == cw && r.h == (ih * cw) / iw
            else r.h == ch && r.w == (iw * ch) / ih
  {
    QuotientOrder(cw, iw, ch, ih);
    if cw * ih <= ch * iw {
      ScaledSide(iw, cw, iw);
      ScaledSide(ih, cw, iw);
      SelfQuotient(cw, iw);
    } else {
      ScaledSide(iw, ch, ih);
      ScaledSide(ih, ch, ih);
      SelfQuotient(ch, ih);
    }
  }

  lemma SelfQuotient(c: nat, d: nat)
    requires d > 0
    ensures (d * c) / d == c
  {
    assert (d * c) as real / d as real == c as real;
    FloorOfQuotient(d * c, d);
  }

  lemma QuotientOrder(a: nat, b: nat, c: nat, d: nat)
    requires b > 0 && d > 0
    ensures a as real / b as real <= c as real / d as real <==> a * d <= c * b
  {
    var bd := (b * d) as real;
    assert bd > 0.0;
    assert a as real / b as real == (a * d) as real / bd;
    assert c as real / d as real == (c * b) as real / bd;
  }

  lemma ScaledDownFits(n: nat, c: nat, d: nat, limit: nat)
    requires d > 0 && n * c <= limit * d
    ensures (n * c) / d <= limit
  {
  }

  /** For a photo with both sides positive the drawn rectangle lies inside
      the canvas, is centred (right/bottom margins equal the left/top ones or
      exceed them by one) and touches two opposite edges. */
  lemma {:induction false} FitRectInside(iw: nat, ih: nat, cw: nat, ch: nat)
    requires cw > 0 && ch > 0 && iw > 0 && ih > 0
    ensures FitRect(iw, ih, cw, ch).Some?
    ensures var r := FitRect(iw, ih, cw, ch).value;
            && 0 <= r.w && 0 <= r.h
            && 0 <= r.x && r.x + r.w <= cw
            && 0 <= r.y && r.y + r.h <= ch
            && 0 <= (cw - r.x - r.w) - r.x <= 1
            && 0 <= (ch - r.y - r.h) - r.y <= 1
            && (r.w == cw || r.h == ch)
  {
    FitRectIntegerForm(iw, ih, cw, ch);
    if cw * ih <= ch * iw {
      ScaledDownFits(ih, cw, iw, ch);
    } else {
      ScaledDownFits(iw, ch, ih, cw);
    }
  }
}

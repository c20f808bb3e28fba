/**
 The sparkline of src/components/Sparkline.jsx: keeps the rows whose value
 cleans to a number (remembering each one's row index), and projects them
 into a width x height box with 24 units of padding: x is linear in the row
 index, y is linear in the value and inverted (larger values are higher up,
 i.e. smaller y). Fewer than two kept points draw "No data".

 The SVG path strings are modelled as command lists; turning the
 coordinates into decimal text is not part of this model.
 */
module Sparkline {
  import opened Numbers

  const Pad: real := 24.0
  /** The component's default box. */
  const DefaultWidth: real := 560.0
  const DefaultHeight: real := 160.0
  /** Floor for the value range, so a constant series does not divide by 0. */
  const MinSpan: real := 0.000001

  /** A kept row: its index among all rows and its cleaned value. */
  datatype Point = Point(i: nat, y: real)

  /** `rows.map((r, i) => ({ i, y: clean(r.value) })).filter(p => p.y !== null)`
      for the rows numbered from `base`. */
  function PointsFrom(rows: seq<Raw>, base: nat): (ps: seq<Point>)
    ensures |ps| <= |rows|
    ensures forall k :: 0 <= k < |ps| ==>
      base <= ps[k].i < base + |rows| && Clean(rows[ps[k].i - base]) == Some(ps[k].y)
    ensures forall k, l :: 0 <= k < l < |ps| ==> ps[k].i < ps[l].i
  {
    if |rows| == 0 then []
    else
      var rest := PointsFrom(rows[1..], base + 1);
      match Clean(rows[0])
      case Some(y) => [Point(base, y)] + rest
      case None => rest
  }

  /** The plotted points: exactly the rows whose value cleans to a number,
      each at its own row index, in row order. */
  function Points(rows: seq<Raw>): (ps: seq<Point>)
    ensures forall p :: p in ps <==> p.i < |rows| && Clean(rows[p.i]) == Some(p.y)
    ensures forall k, l :: 0 <= k < l < |ps| ==> ps[k].i < ps[l].i
  {
    PointsMembers(rows);
    PointsFrom(rows, 0)
  }

  lemma PointsMembers(rows: seq<Raw>)
    ensures forall p :: p in PointsFrom(rows, 0) <==> p.i < |rows| && Clean(rows[p.i]) == Some(p.y)
  {
    forall p: Point | p.i < |rows| && Clean(rows[p.i]) == Some(p.y)
      ensures p in PointsFrom(rows, 0)
    {
      PointsComplete(rows, 0, p.i);
    }
  }

  /** No row with a usable value is lost: every row whose value cleans to a
      number appears as a point with its own index and value. */
  lemma {:induction false} PointsComplete(rows: seq<Raw>, base: nat, j: nat)
    requires j < |rows| && Clean(rows[j]).Some?
    ensures exists k ::
      0 <= k < |PointsFrom(rows, base)| && PointsFrom(rows, base)[k] == Point(base + j, Clean(rows[j]).value)
  {
    var ps := PointsFrom(rows, base);
    if j == 0 {
      assert ps[0] == Point(base, Clean(rows[0]).value);
    } else {
      PointsComplete(rows[1..], base + 1, j - 1);
      var rest := PointsFrom(rows[1..], base + 1);
      var k :| 0 <= k < |rest| && rest[k] == Point(base + 1 + (j - 1), Clean(rows[1..][j - 1]).value);
      if Clean(rows[0]).Some? {
        assert ps[k + 1] == rest[k];
      } else {
        assert ps[k] == rest[k];
      }
    }
  }

  function Ys(ps: seq<Point>): (ys: seq<real>)
    ensures |ys| == |ps|
    ensures forall k :: 0 <= k < |ps| ==> ys[k] == ps[k].y
  {
    seq(|ps|, k requires 0 <= k < |ps| => ps[k].y)
  }

  /** `Math.min(...ys)`. */
  function Min(ys: seq<real>): (m: real)
    requires |ys| > 0
    ensures forall k :: 0 <= k < |ys| ==> m <= ys[k]
    ensures m in ys
  {
    if |ys| == 1 then ys[0]
    else
      var m := Min(ys[1..]);
      if ys[0] <= m then ys[0] else m
  }

  /** `Math.max(...ys)`. */
  function Max(ys: seq<real>): (m: real)
    requires |ys| > 0
    ensures forall k :: 0 <= k < |ys| ==> ys[k] <= m
    ensures m in ys
  {
    if |ys| == 1 then ys[0]
    else
      var m := Max(ys[1..]);
      if ys[0] >= m then ys[0] else m
  }

  function MaxR(a: real, b: real): real
  {
    if a >= b then a else b
  }

  /** The drawing frame: index and value ranges of the kept points and the
      box size. */
  datatype Frame = Frame(xMin: nat, xMax: nat, yMin: real, yMax: real, w: real, h: real)

  /** `sx`. */
  function SX(f: Frame, i: nat): real
  {
    Pad + ((i as int - f.xMin as int) as real * (f.w - 2.0 * Pad)) / MaxR(1.0, (f.xMax as int - f.xMin as int) as real)
  }

  /** `sy`. */
  function SY(f: Frame, v: real): real
  {
    f.h - Pad - ((v - f.yMin) * (f.h - 2.0 * Pad)) / MaxR(MinSpan, f.yMax - f.yMin)
  }

  /** The frame of the kept points: x runs from the first to the last
      point's index, and the value range is the smallest and largest value,
      so every value lies within it. */
  function FrameOf(ps: seq<Point>, w: real, h: real): (f: Frame)
    requires |ps| >= 2
    ensures f.xMin == ps[0].i && f.xMax == ps[|ps| - 1].i && f.w == w && f.h == h
    ensures forall k :: 0 <= k < |ps| ==> f.yMin <= ps[k].y <= f.yMax
    ensures exists k :: 0 <= k < |ps| && ps[k].y == f.yMin
    ensures exists k :: 0 <= k < |ps| && ps[k].y == f.yMax
  {
    var ys := Ys(ps);
    assert forall k :: 0 <= k < |ps| ==> ys[k] == ps[k].y;
    Frame(ps[0].i, ps[|ps| - 1].i, Min(Ys(ps)), Max(Ys(ps)), w, h)
  }

  datatype Cmd = MoveTo(x: real, y: real) | LineTo(x: real, y: real) | ClosePath

  datatype Chart = NoData | Drawn(line: seq<Cmd>, area: seq<Cmd>)

  /** The line path: one command per point, "M" for the first, "L" after. */
  function LinePath(f: Frame, ps: seq<Point>): (cs: seq<Cmd>)
    ensures |cs| == |ps|
    ensures forall k :: 0 <= k < |ps| ==> (cs[k].MoveTo? <==> k == 0) && !cs[k].ClosePath?
    ensures forall k :: 0 <= k < |ps| ==> cs[k].x == SX(f, ps[k].i) && cs[k].y == SY(f, ps[k].y)
  {
    seq(|ps|, k requires 0 <= k < |ps| =>
      if k == 0 then MoveTo(SX(f, ps[k].i), SY(f, ps[k].y)) else LineTo(SX(f, ps[k].i), SY(f, ps[k].y)))
  }

  /** The sparkline for the given rows in a w x h box. */
  function Render(rows: seq<Raw>, w: real, h: real): (c: Chart)
    ensures c.NoData? <==> |Points(rows)| < 2
    ensures c.Drawn? ==>
      var ps := Points(rows);
      var f := FrameOf(ps, w, h);
      && c.line == LinePath(f, ps)
      && c.area == c.line + [LineTo(SX(f, ps[|ps| - 1].i), h - Pad), LineTo(SX(f, ps[0].i), h - Pad), ClosePath]
  {
    var ps := Points(rows);
    if |ps| < 2 then NoData
    else
      var f := FrameOf(ps, w, h);
      var line := LinePath(f, ps);
      Drawn(line, line + [LineTo(SX(f, ps[|ps| - 1].i), h - Pad), LineTo(SX(f, ps[0].i), h - Pad), ClosePath])
  }

  // ---------------------------------------------------------------------
  // Geometry of the projection
  // ---------------------------------------------------------------------

  lemma ScaleBounds(t: real, c: real, d: real)
    requires d > 0.0 && 0.0 <= t <= d && c >= 0.0
    ensures 0.0 <= t * c / d <= c
  {
    assert t * c / d == (t / d) * c;
    assert t / d <= 1.0;
  }

  lemma ScaleMonotone(a: real, b: real, c: real, d: real)
    requires d > 0.0 && a <= b && c >= 0.0
    ensures a * c / d <= b * c / d
  {
    assert a * c <= b * c;
  }

  lemma ScaleStrict(a: real, b: real, c: real, d: real)
    requires d > 0.0 && a < b && c > 0.0
    ensures a * c / d < b * c / d
  {
    assert a * c < b * c;
  }

  /** The first kept index maps to the left padding, the last to the right
      padding. */
  lemma XEnds(f: Frame)
    requires f.xMin < f.xMax
    ensures SX(f, f.xMin) == Pad
    ensures SX(f, f.xMax) == f.w - Pad
  {
    var d := (f.xMax as int - f.xMin as int) as real;
    assert MaxR(1.0, d) == d;
    assert d * (f.w - 2.0 * Pad) / d == f.w - 2.0 * Pad;
  }

  /** Indices between the first and the last kept one land between the
      paddings. */
  lemma XInBox(f: Frame, i: nat)
    requires f.xMin < f.xMax && f.xMin <= i <= f.xMax && f.w >= 2.0 * Pad
    ensures Pad <= SX(f, i) <= f.w - Pad
  {
    var d := (f.xMax as int - f.xMin as int) as real;
    var t := (i as int - f.xMin as int) as real;
    var c := f.w - 2.0 * Pad;
    assert MaxR(1.0, d) == d && 0.0 <= t <= d;
    ScaleBounds(t, c, d);
    var x := (t * c) / d;
    assert 0.0 <= x <= c;
    assert SX(f, i) == Pad + x;
  }

  /** A later index is drawn further right when the box is wider than the
      padding. */
  lemma XStrict(f: Frame, i: nat, j: nat)
    requires f.xMin < f.xMax && i < j && f.w > 2.0 * Pad
    ensures SX(f, i) < SX(f, j)
  {
    var d := (f.xMax as int - f.xMin as int) as real;
    var ti := (i as int - f.xMin as int) as real;
    var tj := (j as int - f.xMin as int) as real;
    var c := f.w - 2.0 * Pad;
    assert MaxR(1.0, d) == d && ti < tj;
    ScaleStrict(ti, tj, c, d);
    assert SX(f, i) == Pad + (ti * c) / d;
    assert SX(f, j) == Pad + (tj * c) / d;
  }

  /** The lowest value maps to the bottom padding; when the range is at
      least the floor the highest value maps to the top padding. */
  lemma YEnds(f: Frame)
    ensures SY(f, f.yMin) == f.h - Pad
    ensures f.yMax - f.yMin >= MinSpan ==> SY(f, f.yMax) == Pad
  {
    var d := f.yMax - f.yMin;
    if d >= MinSpan {
      assert MaxR(MinSpan, d) == d;
      assert d * (f.h - 2.0 * Pad) / d == f.h - 2.0 * Pad;
    }
  }

  /** A larger value is never drawn lower. */
  lemma YMonotone(f: Frame, a: real, b: real)
    requires f.h >= 2.0 * Pad && a <= b
    ensures SY(f, b) <= SY(f, a)
  {
    var d := MaxR(MinSpan, f.yMax - f.yMin);
    var c := f.h - 2.0 * Pad;
    assert d > 0.0;
    ScaleMonotone(a - f.yMin, b - f.yMin, c, d);
    assert SY(f, a) == f.h - Pad - ((a - f.yMin) * c) / d;
    assert SY(f, b) == f.h - Pad - ((b - f.yMin) * c) / d;
  }

  /** Values within the range land between the paddings, also when the
      range is below the floor. */
  lemma YInBox(f: Frame, v: real)
    requires f.yMin <= v <= f.yMax && f.h >= 2.0 * Pad
    ensures Pad <= SY(f, v) <= f.h - Pad
  {
    var d := MaxR(MinSpan, f.yMax - f.yMin);
    var c := f.h - 2.0 * Pad;
    assert d > 0.0 && v - f.yMin <= d;
    ScaleBounds(v - f.yMin, c, d);
    var x := ((v - f.yMin) * c) / d;
    assert 0.0 <= x <= c;
    assert SY(f, v) == f.h - Pad - x;
  }

  /** The frame of a drawn sparkline spans exactly the kept points. */
  predicate Spans(f: Frame, ps: seq<Point>)
  {
    && |ps| >= 2
    && f.xMin == ps[0].i && f.xMax == ps[|ps| - 1].i
    && (forall k, l :: 0 <= k < l < |ps| ==> ps[k].i < ps[l].i)
    && (forall k :: 0 <= k < |ps| ==> f.yMin <= ps[k].y <= f.yMax)
  }

  lemma FrameSpans(rows: seq<Raw>, w: real, h: real)
    requires |Points(rows)| >= 2
    ensures Spans(FrameOf(Points(rows), w, h), Points(rows))
  {
    var ps := Points(rows);
    var ys := Ys(ps);
    forall k | 0 <= k < |ps| ensures Min(ys) <= ps[k].y <= Max(ys) {
      assert ys[k] == ps[k].y;
    }
  }

  /** A point command of the path (MoveTo or LineTo). */
  predicate IsPoint(c: Cmd)
  {
    c.MoveTo? || c.LineTo?
  }

  /** A path of points that starts at the left padding, ends at the right
      padding of a w-wide box and strictly increases in x. */
  predicate LeftToRight(line: seq<Cmd>, w: real)
  {
    && |line| > 0
    && (forall k :: 0 <= k < |line| ==> IsPoint(line[k]))
    && line[0].x == Pad
    && line[|line| - 1].x == w - Pad
    && (forall k, l :: 0 <= k < l < |line| ==> line[k].x < line[l].x)
  }

  /** Every point of the path lies inside the padded w x h box. */
  predicate InBox(line: seq<Cmd>, w: real, h: real)
  {
    forall k :: 0 <= k < |line| ==>
      IsPoint(line[k]) && Pad <= line[k].x <= w - Pad && Pad <= line[k].y <= h - Pad
  }

  /** Along a line path over a spanning frame, x starts at the left padding,
      ends at the right padding and strictly increases. */
  lemma LineRunsLeftToRight(f: Frame, ps: seq<Point>)
    requires Spans(f, ps) && f.w > 2.0 * Pad
    ensures LeftToRight(LinePath(f, ps), f.w)
  {
    var line := LinePath(f, ps);
    XEnds(f);
    forall k, l | 0 <= k < l < |ps| ensures line[k].x < line[l].x {
      XStrict(f, ps[k].i, ps[l].i);
    }
  }

  /** Every point of a line path over a spanning frame lies in the padded
      box. */
  lemma LineInBox(f: Frame, ps: seq<Point>)
    requires Spans(f, ps) && f.w >= 2.0 * Pad && f.h >= 2.0 * Pad
    ensures InBox(LinePath(f, ps), f.w, f.h)
  {
    var line := LinePath(f, ps);
    forall k | 0 <= k < |ps|
      ensures Pad <= line[k].x <= f.w - Pad && Pad <= line[k].y <= f.h - Pad
    {
      assert ps[0].i <= ps[k].i <= ps[|ps| - 1].i by {
        if 0 < k < |ps| - 1 {
          assert ps[0].i < ps[k].i < ps[|ps| - 1].i;
        }
      }
      XInBox(f, ps[k].i);
      YInBox(f, ps[k].y);
    }
  }

  /** Drawn sparklines: the path starts at the left padding and ends at the
      right padding, x strictly increases along it when the box is wider
      than the padding, and every point lies inside the padded box. */
  lemma DrawnGeometry(rows: seq<Raw>, w: real, h: real)
    requires |Points(rows)| >= 2
    requires w > 2.0 * Pad && h >= 2.0 * Pad
    ensures Render(rows, w, h).Drawn?
    ensures LeftToRight(Render(rows, w, h).line, w)
    ensures InBox(Render(rows, w, h).line, w, h)
  {
    var ps := Points(rows);
    var f := FrameOf(ps, w, h);
    assert Render(rows, w, h).line == LinePath(f, ps);
    FrameSpans(rows, w, h);
    LineRunsLeftToRight(f, ps);
    LineInBox(f, ps);
  }

  /** A constant series is drawn as a flat line on the bottom padding
      instead of dividing by a zero range. */
  lemma ConstantSeriesIsFlat(rows: seq<Raw>, w: real, h: real)
    requires |Points(rows)| >= 2
    requires forall k :: 0 <= k < |Points(rows)| ==> Points(rows)[k].y == Points(rows)[0].y
    ensures Render(rows, w, h).Drawn?
    ensures forall k :: 0 <= k < |Render(rows, w, h).line| ==> Render(rows, w, h).line[k].y == h - Pad
  {
    var ps := Points(rows);
    var f := FrameOf(ps, w, h);
    assert Render(rows, w, h).line == LinePath(f, ps);
    assert f.yMin == ps[0].y by {
      var k :| 0 <= k < |ps| && ps[k].y == f.yMin;
    }
    FlatLine(f, ps);
  }

  /** Points all at the frame's lowest value lie on the bottom padding. */
  lemma FlatLine(f: Frame, ps: seq<Point>)
    requires forall k :: 0 <= k < |ps| ==> ps[k].y == f.yMin
    ensures forall k :: 0 <= k < |LinePath(f, ps)| ==> LinePath(f, ps)[k].y == f.h - Pad
  {
    YEnds(f);
  }

  /** In the component's default 560 x 160 box, a sparkline with at least two
      plotted points is drawn, runs left to right and stays inside the
      padding. */
  lemma DefaultBoxGeometry(rows: seq<Raw>)
    requires |Points(rows)| >= 2
    ensures Render(rows, DefaultWidth, DefaultHeight).Drawn?
    ensures LeftToRight(Render(rows, DefaultWidth, DefaultHeight).line, DefaultWidth)
    ensures InBox(Render(rows, DefaultWidth, DefaultHeight).line, DefaultWidth, DefaultHeight)
  {
    DrawnGeometry(rows, DefaultWidth, DefaultHeight);
  }
}

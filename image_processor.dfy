/**
 * `ImageProcessor`: draws the polygons of a markup file over an image.
 * The OpenCV image is a `Canvas` whose pixel buffer is abstracted to the
 * list of drawing calls made on it, in the order they were made; what is
 * proved is which calls `apply_markup` makes.
 */
module ImageProcessing {
  import opened Wrappers
  import opened Numbers
  import opened MarkupParser
  import opened Sequences

  /** A colour tuple as OpenCV reads it: blue, green, red. */
  datatype Color = Color(blue: int, green: int, red: int)

  datatype Pixel = Pixel(x: int, y: int)

  /** One OpenCV drawing call; a thickness of -1 means filled. */
  datatype DrawCmd =
    | Circle(center: Pixel, radius: int, color: Color, thickness: int)
    | Line(from: Pixel, to: Pixel, color: Color, thickness: int)
    | Label(text: string, origin: Pixel, scale: real, color: Color, thickness: int)

  const White := Color(255, 255, 255)

  /** The ten class colours set up by the constructor, keyed by class id. */
  const Palette: map<int, Color> := map[
    0 := Color(255, 0, 0),
    1 := Color(0, 255, 0),
    2 := Color(0, 0, 255),
    3 := Color(255, 255, 0),
    4 := Color(255, 0, 255),
    5 := Color(0, 255, 255),
    6 := Color(128, 0, 0),
    7 := Color(0, 128, 0),
    8 := Color(0, 0, 128),
    9 := Color(128, 128, 0)]

  /** `colors.get(class_id, (255, 255, 255))` */
  function ColorFor(colors: map<int, Color>, classId: int): Color {
    if classId in colors then colors[classId] else White
  }

  /** Classes 0 to 9 get their palette entry, every other class white. */
  lemma PaletteColor(classId: int)
    ensures 0 <= classId <= 9 ==> ColorFor(Palette, classId) == Palette[classId]
    ensures !(0 <= classId <= 9) ==> ColorFor(Palette, classId) == White
  {
  }

  /** `(int(x * img_width), int(y * img_height))`: truncation toward zero. */
  function PixelOf(p: Point, width: nat, height: nat): Pixel {
    Pixel(Trunc(p.x * width as real), Trunc(p.y * height as real))
  }

  /** A normalised coordinate in [0, 1) lands on a pixel of the image. */
  lemma PixelInside(p: Point, width: nat, height: nat)
    requires 0.0 <= p.x < 1.0 && 0.0 <= p.y < 1.0
    ensures 0 <= PixelOf(p, width, height).x && (width > 0 ==> PixelOf(p, width, height).x < width)
    ensures 0 <= PixelOf(p, width, height).y && (height > 0 ==> PixelOf(p, width, height).y < height)
  {
    TruncBelow(p.x, width);
    TruncBelow(p.y, height);
  }

  lemma TruncBelow(x: real, n: nat)
    requires 0.0 <= x < 1.0
    ensures 0 <= Trunc(x * n as real) && (n > 0 ==> Trunc(x * n as real) < n)
  {
    var v := x * n as real;
    assert 0.0 <= v;
    if n > 0 {
      assert v < n as real;
    }
  }

  /** The `pixel_points` list of one shape. */
  function PixelPoints(points: seq<Point>, width: nat, height: nat): (pix: seq<Pixel>)
    ensures |pix| == |points|
  {
    seq(|points|, i requires 0 <= i < |points| => PixelOf(points[i], width, height))
  }

  /**
   * The calls made by the `enumerate` loop over the first `n` pixel points:
   * a filled circle of radius 3 on each, and after every circle but the
   * first a 2-pixel segment from the previous point.
   */
  function VertexCalls(color: Color, pix: seq<Pixel>, n: nat): seq<DrawCmd>
    requires n <= |pix|
  {
    if n == 0 then []
    else
      VertexCalls(color, pix, n - 1) + [Circle(pix[n - 1], 3, color, -1)]
      + (if n > 1 then [Line(pix[n - 2], pix[n - 1], color, 2)] else [])
  }

  /** The segment from the last point back to the first, for more than two points. */
  function ClosingCall(color: Color, pix: seq<Pixel>): seq<DrawCmd> {
    if |pix| > 2 then [Line(pix[|pix| - 1], pix[0], color, 2)] else []
  }

  /** `str(class_id)` at the first point moved by (5, 5), when there is one. */
  function LabelCall(color: Color, classId: int, pix: seq<Pixel>): seq<DrawCmd> {
    if |pix| > 0 then [Label(IntToString(classId), Pixel(pix[0].x + 5, pix[0].y + 5), 0.7, color, 2)] else []
  }

  /** Every call made for one markup record. */
  function ShapeCalls(color: Color, classId: int, pix: seq<Pixel>): seq<DrawCmd> {
    VertexCalls(color, pix, |pix|) + ClosingCall(color, pix) + LabelCall(color, classId, pix)
  }

  /** Every call `apply_markup` makes for the records of `markup`, in order. */
  function DrawPlan(colors: map<int, Color>, markup: seq<MarkupRecord>, width: nat, height: nat): seq<DrawCmd>
    decreases |markup|
  {
    if markup == [] then []
    else
      var last := markup[|markup| - 1];
      DrawPlan(colors, markup[..|markup| - 1], width, height)
      + ShapeCalls(ColorFor(colors, last.classId), last.classId, PixelPoints(last.points, width, height))
  }

  lemma DrawPlanSnoc(colors: map<int, Color>, markup: seq<MarkupRecord>, k: nat, width: nat, height: nat)
    requires k < |markup|
    ensures DrawPlan(colors, markup[..k + 1], width, height)
      == DrawPlan(colors, markup[..k], width, height)
         + ShapeCalls(ColorFor(colors, markup[k].classId), markup[k].classId, PixelPoints(markup[k].points, width, height))
  {
    assert markup[..k + 1][..k] == markup[..k];
  }

  // Views of a call list by kind, to state what was drawn.

  function Centers(cmds: seq<DrawCmd>): seq<Pixel> {
    if cmds == [] then []
    else Centers(cmds[..|cmds| - 1]) + (if cmds[|cmds| - 1].Circle? then [cmds[|cmds| - 1].center] else [])
  }

  function Segments(cmds: seq<DrawCmd>): seq<(Pixel, Pixel)> {
    if cmds == [] then []
    else Segments(cmds[..|cmds| - 1]) + (if cmds[|cmds| - 1].Line? then [(cmds[|cmds| - 1].from, cmds[|cmds| - 1].to)] else [])
  }

  function Labels(cmds: seq<DrawCmd>): seq<(string, Pixel)> {
    if cmds == [] then []
    else Labels(cmds[..|cmds| - 1]) + (if cmds[|cmds| - 1].Label? then [(cmds[|cmds| - 1].text, cmds[|cmds| - 1].origin)] else [])
  }

  lemma KindsAppend(a: seq<DrawCmd>, b: seq<DrawCmd>)
    ensures Centers(a + b) == Centers(a) + Centers(b)
    ensures Segments(a + b) == Segments(a) + Segments(b)
    ensures Labels(a + b) == Labels(a) + Labels(b)
  {
    CentersAppend(a, b);
    SegmentsAppend(a, b);
    LabelsAppend(a, b);
  }

  lemma {:induction false} CentersAppend(a: seq<DrawCmd>, b: seq<DrawCmd>)
    ensures Centers(a + b) == Centers(a) + Centers(b)
    decreases |b|
  {
    if b == [] {
      assert a + b == a;
    } else {
      var b' := b[..|b| - 1];
      var c := b[|b| - 1];
      assert (a + b)[..|a + b| - 1] == a + b';
      CentersAppend(a, b');
      AppendAssoc(Centers(a), Centers(b'), if c.Circle? then [c.center] else []);
    }
  }

  lemma {:induction false} SegmentsAppend(a: seq<DrawCmd>, b: seq<DrawCmd>)
    ensures Segments(a + b) == Segments(a) + Segments(b)
    decreases |b|
  {
    if b == [] {
      assert a + b == a;
    } else {
      var b' := b[..|b| - 1];
      var c := b[|b| - 1];
      assert (a + b)[..|a + b| - 1] == a + b';
      SegmentsAppend(a, b');
      AppendAssoc(Segments(a), Segments(b'), if c.Line? then [(c.from, c.to)] else []);
    }
  }

  lemma {:induction false} LabelsAppend(a: seq<DrawCmd>, b: seq<DrawCmd>)
    ensures Labels(a + b) == Labels(a) + Labels(b)
    decreases |b|
  {
    if b == [] {
      assert a + b == a;
    } else {
      var b' := b[..|b| - 1];
      var c := b[|b| - 1];
      assert (a + b)[..|a + b| - 1] == a + b';
      LabelsAppend(a, b');
      AppendAssoc(Labels(a), Labels(b'), if c.Label? then [(c.text, c.origin)] else []);
    }
  }

  /** `(pix[i], pix[i + 1])` for each consecutive pair of points. */
  function Consecutive(pix: seq<Pixel>): (r: seq<(Pixel, Pixel)>)
    ensures |pix| > 0 ==> |r| == |pix| - 1
  {
    if |pix| <= 1 then [] else seq(|pix| - 1, i requires 0 <= i < |pix| - 1 => (pix[i], pix[i + 1]))
  }

  /** What a single call contributes to each view. */
  lemma KindsOfOne(c: DrawCmd)
    ensures Centers([c]) == (if c.Circle? then [c.center] else [])
    ensures Segments([c]) == (if c.Line? then [(c.from, c.to)] else [])
    ensures Labels([c]) == (if c.Label? then [(c.text, c.origin)] else [])
  {
    assert [c][..0] == [];
  }

  lemma ConsecutiveSnoc(pix: seq<Pixel>, n: nat)
    requires 1 < n <= |pix|
    ensures Consecutive(pix[..n]) == Consecutive(pix[..n - 1]) + [(pix[n - 2], pix[n - 1])]
  {
  }

  /** The vertex loop draws one circle per point, in order, and the n - 1 consecutive segments. */
  lemma VertexCallsKinds(color: Color, pix: seq<Pixel>, n: nat)
    requires n <= |pix|
    ensures Centers(VertexCalls(color, pix, n)) == pix[..n]
    ensures Segments(VertexCalls(color, pix, n)) == Consecutive(pix[..n])
    ensures Labels(VertexCalls(color, pix, n)) == []
  {
    VertexCenters(color, pix, n);
    VertexSegments(color, pix, n);
    VertexLabels(color, pix, n);
  }

  /** The calls for the n-th point: its circle, and the segment from the point before. */
  lemma VertexCallsStep(color: Color, pix: seq<Pixel>, n: nat)
    requires 0 < n <= |pix|
    ensures var circle := [Circle(pix[n - 1], 3, color, -1)];
      var line := if n > 1 then [Line(pix[n - 2], pix[n - 1], color, 2)] else [];
      && VertexCalls(color, pix, n) == VertexCalls(color, pix, n - 1) + (circle + line)
      && Centers(circle + line) == [pix[n - 1]]
      && Segments(circle + line) == (if n > 1 then [(pix[n - 2], pix[n - 1])] else [])
      && Labels(circle + line) == []
  {
    var circle := [Circle(pix[n - 1], 3, color, -1)];
    var line := if n > 1 then [Line(pix[n - 2], pix[n - 1], color, 2)] else [];
    AppendAssoc(VertexCalls(color, pix, n - 1), circle, line);
    KindsOfOne(circle[0]);
    KindsAppend(circle, line);
    if n > 1 {
      KindsOfOne(line[0]);
    }
  }

  lemma {:induction false} VertexCenters(color: Color, pix: seq<Pixel>, n: nat)
    requires n <= |pix|
    ensures Centers(VertexCalls(color, pix, n)) == pix[..n]
  {
    if n > 0 {
      VertexCenters(color, pix, n - 1);
      VertexCallsStep(color, pix, n);
      var step := [Circle(pix[n - 1], 3, color, -1)] + (if n > 1 then [Line(pix[n - 2], pix[n - 1], color, 2)] else []);
      KindsAppend(VertexCalls(color, pix, n - 1), step);
      assert pix[..n] == pix[..n - 1] + [pix[n - 1]];
    }
  }

  lemma {:induction false} VertexSegments(color: Color, pix: seq<Pixel>, n: nat)
    requires n <= |pix|
    ensures Segments(VertexCalls(color, pix, n)) == Consecutive(pix[..n])
  {
    if n > 0 {
      var prev := VertexCalls(color, pix, n - 1);
      VertexSegments(color, pix, n - 1);
      VertexCallsStep(color, pix, n);
      var step := [Circle(pix[n - 1], 3, color, -1)] + (if n > 1 then [Line(pix[n - 2], pix[n - 1], color, 2)] else []);
      SegmentsAppend(prev, step);
      assert Segments(VertexCalls(color, pix, n)) == Consecutive(pix[..n - 1]) + Segments(step);
      if n > 1 {
        ConsecutiveSnoc(pix, n);
      } else {
        assert Segments(step) == [];
      }
    }
  }

  lemma {:induction false} VertexLabels(color: Color, pix: seq<Pixel>, n: nat)
    requires n <= |pix|
    ensures Labels(VertexCalls(color, pix, n)) == []
  {
    if n > 0 {
      VertexLabels(color, pix, n - 1);
      VertexCallsStep(color, pix, n);
      var step := [Circle(pix[n - 1], 3, color, -1)] + (if n > 1 then [Line(pix[n - 2], pix[n - 1], color, 2)] else []);
      KindsAppend(VertexCalls(color, pix, n - 1), step);
    }
  }

  /** Every call of the vertex loop is in the shape's colour. */
  lemma {:induction false} VertexCallsColor(color: Color, pix: seq<Pixel>, n: nat)
    requires n <= |pix|
    ensures forall c :: c in VertexCalls(color, pix, n) ==> c.color == color
  {
    if n > 0 {
      VertexCallsColor(color, pix, n - 1);
    }
  }

  /**
   * One record's calls: a circle per vertex in vertex order, the n - 1
   * consecutive segments followed by the closing segment exactly when
   * n > 2, one label `str(class_id)` at the first vertex plus (5, 5)
   * exactly when n >= 1, and all of them in the record's colour.
   */
  lemma ShapeCallsKinds(color: Color, classId: int, pix: seq<Pixel>)
    ensures Centers(ShapeCalls(color, classId, pix)) == pix
    ensures Segments(ShapeCalls(color, classId, pix))
      == Consecutive(pix) + (if |pix| > 2 then [(pix[|pix| - 1], pix[0])] else [])
    ensures Labels(ShapeCalls(color, classId, pix))
      == (if |pix| > 0 then [(IntToString(classId), Pixel(pix[0].x + 5, pix[0].y + 5))] else [])
    ensures forall c :: c in ShapeCalls(color, classId, pix) ==> c.color == color
  {
    ShapeCenters(color, classId, pix);
    ShapeSegments(color, classId, pix);
    ShapeLabels(color, classId, pix);
    ShapeColor(color, classId, pix);
  }

  lemma ShapeColor(color: Color, classId: int, pix: seq<Pixel>)
    ensures forall c :: c in ShapeCalls(color, classId, pix) ==> c.color == color
  {
    VertexCallsColor(color, pix, |pix|);
  }

  /** The closing segment and the label contribute one entry each to their own view. */
  lemma ClosingAndLabelKinds(color: Color, classId: int, pix: seq<Pixel>)
    ensures Centers(ClosingCall(color, pix)) == [] && Labels(ClosingCall(color, pix)) == []
    ensures Segments(ClosingCall(color, pix)) == if |pix| > 2 then [(pix[|pix| - 1], pix[0])] else []
    ensures Centers(LabelCall(color, classId, pix)) == [] && Segments(LabelCall(color, classId, pix)) == []
    ensures Labels(LabelCall(color, classId, pix))
      == if |pix| > 0 then [(IntToString(classId), Pixel(pix[0].x + 5, pix[0].y + 5))] else []
  {
    if |pix| > 2 {
      KindsOfOne(Line(pix[|pix| - 1], pix[0], color, 2));
    }
    if |pix| > 0 {
      KindsOfOne(Label(IntToString(classId), Pixel(pix[0].x + 5, pix[0].y + 5), 0.7, color, 2));
    }
  }

  lemma ShapeCenters(color: Color, classId: int, pix: seq<Pixel>)
    ensures Centers(ShapeCalls(color, classId, pix)) == pix
  {
    var vertices := VertexCalls(color, pix, |pix|);
    VertexCenters(color, pix, |pix|);
    assert pix[..|pix|] == pix;
    ClosingAndLabelKinds(color, classId, pix);
    CentersAppend(vertices, ClosingCall(color, pix));
    CentersAppend(vertices + ClosingCall(color, pix), LabelCall(color, classId, pix));
  }

  lemma ShapeSegments(color: Color, classId: int, pix: seq<Pixel>)
    ensures Segments(ShapeCalls(color, classId, pix))
      == Consecutive(pix) + (if |pix| > 2 then [(pix[|pix| - 1], pix[0])] else [])
  {
    var vertices := VertexCalls(color, pix, |pix|);
    VertexSegments(color, pix, |pix|);
    assert pix[..|pix|] == pix;
    ClosingAndLabelKinds(color, classId, pix);
    SegmentsAppend(vertices, ClosingCall(color, pix));
    SegmentsAppend(vertices + ClosingCall(color, pix), LabelCall(color, classId, pix));
  }

  lemma ShapeLabels(color: Color, classId: int, pix: seq<Pixel>)
    ensures Labels(ShapeCalls(color, classId, pix))
      == (if |pix| > 0 then [(IntToString(classId), Pixel(pix[0].x + 5, pix[0].y + 5))] else [])
  {
    var vertices := VertexCalls(color, pix, |pix|);
    VertexLabels(color, pix, |pix|);
    ClosingAndLabelKinds(color, classId, pix);
    LabelsAppend(vertices, ClosingCall(color, pix));
    LabelsAppend(vertices + ClosingCall(color, pix), LabelCall(color, classId, pix));
  }

  /** The number of vertices over all records: one circle is drawn for each. */
  function VertexCount(markup: seq<MarkupRecord>): nat {
    if markup == [] then 0 else VertexCount(markup[..|markup| - 1]) + |markup[|markup| - 1].points|
  }

  /** Records without vertices draw nothing: no circle, segment or label. */
  function LabelCount(markup: seq<MarkupRecord>): nat {
    if markup == [] then 0 else LabelCount(markup[..|markup| - 1]) + (if markup[|markup| - 1].points != [] then 1 else 0)
  }

  /**
   * Over the whole markup, one circle per vertex, one label per record
   * with at least one vertex, and every call in its record's palette colour.
   */
  lemma DrawPlanCounts(colors: map<int, Color>, markup: seq<MarkupRecord>, width: nat, height: nat)
    ensures |Centers(DrawPlan(colors, markup, width, height))| == VertexCount(markup)
    ensures |Labels(DrawPlan(colors, markup, width, height))| == LabelCount(markup)
    ensures forall c :: c in DrawPlan(colors, markup, width, height) ==>
      exists r :: r in markup && c.color == ColorFor(colors, r.classId)
  {
    DrawPlanCenters(colors, markup, width, height);
    DrawPlanLabels(colors, markup, width, height);
    DrawPlanColors(colors, markup, width, height);
  }

  lemma {:induction false} DrawPlanCenters(colors: map<int, Color>, markup: seq<MarkupRecord>, width: nat, height: nat)
    ensures |Centers(DrawPlan(colors, markup, width, height))| == VertexCount(markup)
    decreases |markup|
  {
    if markup != [] {
      var init := markup[..|markup| - 1];
      var last := markup[|markup| - 1];
      var pix := PixelPoints(last.points, width, height);
      DrawPlanCenters(colors, init, width, height);
      ShapeCenters(ColorFor(colors, last.classId), last.classId, pix);
      CentersAppend(DrawPlan(colors, init, width, height), ShapeCalls(ColorFor(colors, last.classId), last.classId, pix));
    }
  }

  lemma {:induction false} DrawPlanLabels(colors: map<int, Color>, markup: seq<MarkupRecord>, width: nat, height: nat)
    ensures |Labels(DrawPlan(colors, markup, width, height))| == LabelCount(markup)
    decreases |markup|
  {
    if markup != [] {
      var init := markup[..|markup| - 1];
      var last := markup[|markup| - 1];
      var pix := PixelPoints(last.points, width, height);
      DrawPlanLabels(colors, init, width, height);
      ShapeLabels(ColorFor(colors, last.classId), last.classId, pix);
      LabelsAppend(DrawPlan(colors, init, width, height), ShapeCalls(ColorFor(colors, last.classId), last.classId, pix));
    }
  }

  lemma {:induction false} DrawPlanColors(colors: map<int, Color>, markup: seq<MarkupRecord>, width: nat, height: nat)
    ensures forall c :: c in DrawPlan(colors, markup, width, height) ==>
      exists r :: r in markup && c.color == ColorFor(colors, r.classId)
    decreases |markup|
  {
    if markup != [] {
      var init := markup[..|markup| - 1];
      var last := markup[|markup| - 1];
      var color := ColorFor(colors, last.classId);
      var pix := PixelPoints(last.points, width, height);
      DrawPlanColors(colors, init, width, height);
      ShapeColor(color, last.classId, pix);
      forall c | c in DrawPlan(colors, markup, width, height)
        ensures exists r :: r in markup && c.color == ColorFor(colors, r.classId)
      {
        if c in DrawPlan(colors, init, width, height) {
          var r :| r in init && c.color == ColorFor(colors, r.classId);
          assert r in markup;
        } else {
          assert last in markup;
        }
      }
    }
  }

  /** An OpenCV image: its size and the drawing calls made on it so far. */
  class Canvas {
    const width: nat
    const height: nat
    var drawn: seq<DrawCmd>

    constructor (width: nat, height: nat)
      ensures this.width == width && this.height == height && drawn == []
    {
      this.width := width;
      this.height := height;
      drawn := [];
    }

    /** One of `cv2.circle`, `cv2.line`, `cv2.putText` on this image. */
    method Draw(cmd: DrawCmd)
      modifies this
      ensures drawn == old(drawn) + [cmd]
    {
      drawn := drawn + [cmd];
    }
  }

  /** The `pixel_points` loop of `apply_markup`. */
  method ToPixels(points: seq<Point>, width: nat, height: nat) returns (pix: seq<Pixel>)
    ensures pix == PixelPoints(points, width, height)
  {
    pix := [];
    var j := 0;
    while j < |points|
      invariant 0 <= j <= |points|
      invariant pix == PixelPoints(points[..j], width, height)
    {
      pix := pix + [PixelOf(points[j], width, height)];
      j := j + 1;
    }
    assert points[..j] == points;
  }

  /** The drawing calls of `apply_markup` for one record, made on `img`. */
  method DrawShape(img: Canvas, color: Color, classId: int, pix: seq<Pixel>)
    modifies img
    ensures img.drawn == old(img.drawn) + ShapeCalls(color, classId, pix)
  {
    var i := 0;
    while i < |pix|
      invariant 0 <= i <= |pix|
      invariant img.drawn == old(img.drawn) + VertexCalls(color, pix, i)
    {
      ghost var before := img.drawn;
      var circle := Circle(pix[i], 3, color, -1);
      img.Draw(circle);
      if i > 0 {
        img.Draw(Line(pix[i - 1], pix[i], color, 2));
        AppendAssoc(before, [circle], [Line(pix[i - 1], pix[i], color, 2)]);
      }
      VertexCallsStep(color, pix, i + 1);
      AppendAssoc(old(img.drawn), VertexCalls(color, pix, i), [circle] + if i > 0 then [Line(pix[i - 1], pix[i], color, 2)] else []);
      i := i + 1;
    }
    if |pix| > 2 {
      img.Draw(Line(pix[|pix| - 1], pix[0], color, 2));
    }
    if |pix| > 0 {
      img.Draw(Label(IntToString(classId), Pixel(pix[0].x + 5, pix[0].y + 5), 0.7, color, 2));
    }
    AppendAssoc(old(img.drawn), VertexCalls(color, pix, |pix|), ClosingCall(color, pix));
    AppendAssoc(old(img.drawn), VertexCalls(color, pix, |pix|) + ClosingCall(color, pix), LabelCall(color, classId, pix));
  }

  /** What `ImageTk.PhotoImage` is given: the image's size and content. */
  datatype Photo = Photo(width: nat, height: nat, drawn: seq<DrawCmd>)

  /** `width is not None and height is not None` and both positive. */
  predicate ResizeRequested(width: Option<int>, height: Option<int>) {
    width.Some? && height.Some? && width.value > 0 && height.value > 0
  }

  class ImageProcessor {
    const colors: map<int, Color>

    constructor ()
      ensures colors == Palette
    {
      colors := Palette;
    }

    /**
     * `apply_markup`: nothing for a missing image; otherwise the calls of
     * `DrawPlan`, appended in order to what the image already held.
     */
    method ApplyMarkup(img: Canvas?, markup: seq<MarkupRecord>) returns (r: Canvas?)
      modifies img
      ensures img == null ==> r == null
      ensures img != null ==> r == img && img.drawn == old(img.drawn) + DrawPlan(colors, markup, img.width, img.height)
    {
      if img == null {
        return null;
      }
      var width, height := img.width, img.height;
      var k := 0;
      while k < |markup|
        invariant 0 <= k <= |markup|
        invariant img.drawn == old(img.drawn) + DrawPlan(colors, markup[..k], width, height)
      {
        var classId, points := markup[k].classId, markup[k].points;
        var color := ColorFor(colors, classId);
        var pix := ToPixels(points, width, height);
        DrawShape(img, color, classId, pix);
        DrawPlanSnoc(colors, markup, k, width, height);
        AppendAssoc(old(img.drawn), DrawPlan(colors, markup[..k], width, height), ShapeCalls(color, classId, pix));
        k := k + 1;
      }
      assert markup[..k] == markup;
      return img;
    }

    /**
     * `prepare_image_for_tkinter`: nothing for a missing image; the image
     * scaled to `width` x `height` when both are given and positive, and
     * at its own size otherwise.
     */
    function PrepareForTk(cvImg: Canvas?, width: Option<int>, height: Option<int>): (r: Option<Photo>)
      reads cvImg
      ensures r.None? <==> cvImg == null
      ensures r.Some? ==> r.value.drawn == cvImg.drawn
      ensures r.Some? && (r.value.width, r.value.height) != (cvImg.width, cvImg.height) ==> ResizeRequested(width, height)
      ensures r.Some? && ResizeRequested(width, height) ==> r.value.width == width.value && r.value.height == height.value
    {
      if cvImg == null then None
      else if ResizeRequested(width, height) then Some(Photo(width.value, height.value, cvImg.drawn))
      else Some(Photo(cvImg.width, cvImg.height, cvImg.drawn))
    }
  }
}

/**
 * img.py: the page image. What is modelled is the geometry the drawing calls are fed: the
 * affine map from planar data coordinates to pixels, the conversions from font points and
 * paper centimetres to pixels, the anchor chosen for a label, and the strokes `dotted` draws
 * (the dash pattern along each run of the track inside the page). The canvas itself, fonts and
 * the PIL calls are not modelled: a drawing operation returns the strokes it would draw.
 */
module Img {
  import opened Wrappers
  import opened Numerics
  import opened Arrays

  const LINE_WIDTH: real := 1.5
  const DOTTED_LENGTH: real := 7.95
  const DOTTED_RATIO: real := 0.6
  const FONT_SIZE: real := 10.0
  const SPACING: real := 2.0
  const STROKE_WIDTH: real := 1.0

  /** The label anchors of `annotate`, one per 45-degree sector starting at angle 0. */
  const ANCHORS: seq<string> := ["lm", "ls", "ms", "rs", "rm", "rt", "mt", "lt"]

  /** Page limits in planar (Mercator) coordinates. */
  datatype Limits = Limits(xmin: real, xmax: real, ymin: real, ymax: real)

  /** A pixel position; the source keeps these as floats. */
  datatype Pixel = Pixel(i: real, j: real)

  /** A polyline handed to `draw.line`. */
  type Stroke = seq<Pixel>

  /** A label handed to `draw.text`: its position and its anchor. */
  datatype Label = Label(i: real, j: real, anchor: string)

  /** `Img.data2img_i`: x = xmin maps to column 0 and x = xmax to column `width`. */
  function DataToImgI(x: real, xmin: real, xmax: real, width: real): (i: real)
    requires xmax != xmin
    ensures x == xmin ==> i == 0.0
    ensures x == xmax ==> i == width
  {
    (x - xmin) / (xmax - xmin) * width
  }

  /** `Img.data2img_j`: the vertical flip, y = ymax maps to row 0 and y = ymin to row `height`. */
  function DataToImgJ(y: real, ymin: real, ymax: real, height: real): (j: real)
    requires ymax != ymin
    ensures y == ymax ==> j == 0.0
    ensures y == ymin ==> j == height
  {
    (ymax - y) / (ymax - ymin) * height
  }

  /** On a page of non-zero size the pixel maps are invertible: the column gives x back and the
      row gives y back. */
  lemma DataToImgRoundTrip(x: real, xmin: real, xmax: real, width: real,
                           y: real, ymin: real, ymax: real, height: real)
    requires xmax != xmin && ymax != ymin && width != 0.0 && height != 0.0
    ensures xmin + DataToImgI(x, xmin, xmax, width) / width * (xmax - xmin) == x
    ensures ymax - DataToImgJ(y, ymin, ymax, height) / height * (ymax - ymin) == y
  {
    var u := (x - xmin) / (xmax - xmin);
    assert u * width / width == u;
    assert u * (xmax - xmin) == x - xmin;
    var v := (ymax - y) / (ymax - ymin);
    assert v * height / height == v;
    assert v * (ymax - ymin) == ymax - y;
  }

  /** Columns grow with x, and a point strictly inside the limits lands strictly inside the page. */
  lemma DataToImgIIncreasing(x1: real, x2: real, xmin: real, xmax: real, width: real)
    requires xmin < xmax && width > 0.0 && x1 < x2
    ensures DataToImgI(x1, xmin, xmax, width) < DataToImgI(x2, xmin, xmax, width)
    ensures xmin < x1 < xmax ==> 0.0 < DataToImgI(x1, xmin, xmax, width) < width
  {
    var d := xmax - xmin;
    var a := (x1 - xmin) / d;
    var b := (x2 - xmin) / d;
    assert DataToImgI(x1, xmin, xmax, width) == a * width;
    assert DataToImgI(x2, xmin, xmax, width) == b * width;
    DivLt(x1 - xmin, x2 - xmin, d);
    MulLess(a, b, width);
    if xmin < x1 < xmax {
      DataToImgIInside(x1, xmin, xmax, width);
    }
  }

  lemma DataToImgIInside(x: real, xmin: real, xmax: real, width: real)
    requires xmin < x < xmax && width > 0.0
    ensures 0.0 < DataToImgI(x, xmin, xmax, width) < width
  {
    Fraction(x - xmin, xmax - xmin);
    ScaleBetween((x - xmin) / (xmax - xmin), width);
  }

  /** Rows shrink as y grows: the image is flipped vertically. */
  lemma DataToImgJDecreasing(y1: real, y2: real, ymin: real, ymax: real, height: real)
    requires ymin < ymax && height > 0.0 && y1 < y2
    ensures DataToImgJ(y2, ymin, ymax, height) < DataToImgJ(y1, ymin, ymax, height)
    ensures ymin < y1 < ymax ==> 0.0 < DataToImgJ(y1, ymin, ymax, height) < height
  {
    var d := ymax - ymin;
    var a := (ymax - y2) / d;
    var b := (ymax - y1) / d;
    assert DataToImgJ(y2, ymin, ymax, height) == a * height;
    assert DataToImgJ(y1, ymin, ymax, height) == b * height;
    DivLt(ymax - y2, ymax - y1, d);
    MulLess(a, b, height);
    if ymin < y1 < ymax {
      DataToImgJInside(y1, ymin, ymax, height);
    }
  }

  lemma DataToImgJInside(y: real, ymin: real, ymax: real, height: real)
    requires ymin < y < ymax && height > 0.0
    ensures 0.0 < DataToImgJ(y, ymin, ymax, height) < height
  {
    Fraction(ymax - y, ymax - ymin);
    ScaleBetween((ymax - y) / (ymax - ymin), height);
  }

  /** A fraction strictly between 0 and 1 of a positive c lies strictly between 0 and c. */
  lemma ScaleBetween(a: real, c: real)
    requires 0.0 < a < 1.0 && c > 0.0
    ensures 0.0 < a * c < c
  {
    MulLess(0.0, a, c);
    MulLess(a, 1.0, c);
  }

  lemma Fraction(p: real, q: real)
    requires 0.0 < p < q
    ensures 0.0 < p / q < 1.0
  {
    Ratio(p, q);
  }

  lemma MulLess(a: real, b: real, c: real)
    requires a < b && c > 0.0
    ensures a * c < b * c
  {
  }

  /** `Img.font2paper_len`: a typographic point is 0.0353 cm. */
  function FontToPaperLen(fontLen: real): real {
    0.0353 * fontLen
  }

  /** The image's state: the data limits, the resolution and the pixel size of the page. */
  datatype Img = Img(lims: Limits, dpi: real, width: int, height: int) {

    /** `paper2img_len`: centimetres to pixels, truncated toward zero by `int()`. */
    function PaperToImgLen(paperLen: real): (n: int)
      ensures dpi / 2.54 * paperLen >= 0.0 ==> n as real <= dpi / 2.54 * paperLen < n as real + 1.0
      ensures dpi / 2.54 * paperLen < 0.0 ==> n as real - 1.0 < dpi / 2.54 * paperLen <= n as real
    {
      Trunc(dpi / 2.54 * paperLen)
    }

    /** `font2img_len`: font points to pixels, through centimetres. */
    function FontToImgLen(fontLen: real): (n: int)
      ensures dpi / 2.54 * (0.0353 * fontLen) >= 0.0 ==>
                n as real <= dpi / 2.54 * (0.0353 * fontLen) < n as real + 1.0
    {
      PaperToImgLen(FontToPaperLen(fontLen))
    }

    predicate Drawable() {
      lims.xmax != lims.xmin && lims.ymax != lims.ymin
    }

    /** Where a data point lands on the page. */
    function ToPixel(x: real, y: real): Pixel
      requires Drawable()
    {
      Pixel(DataToImgI(x, lims.xmin, lims.xmax, width as real), DataToImgJ(y, lims.ymin, lims.ymax, height as real))
    }

    /** `annotate`: the label sits `distance` pixels from the point in the direction `angle`
        (degrees, counter-clockwise, rows growing downwards) and takes the anchor of the first
        sector that contains the angle. The default distance is half the font size in pixels. */
    method Annotate(m: Transcendentals, x: real, y: real, angle: real, distance: Option<real>) returns (placed: Label)
      requires Drawable() && Pythagorean(m)
      ensures exists k :: 0 <= k < |ANCHORS| && placed.anchor == ANCHORS[k] && FirstFit(angle, k)
      ensures var d := if distance.Some? then distance.value else FontToImgLen(FONT_SIZE) as real / 2.0;
              var p := ToPixel(x, y);
              Sq(placed.i - p.i) + Sq(placed.j - p.j) == Sq(d)
    {
      var d := if distance.Some? then distance.value else FontToImgLen(FONT_SIZE) as real / 2.0;
      var p := ToPixel(x, y);
      var rad := DegToRad(angle);
      var k := Anchor(angle);
      placed := Label(p.i + d * m.cos(rad), p.j - d * m.sin(rad), ANCHORS[k]);
      OffsetLength(m, d, rad, placed.i - p.i, placed.j - p.j);
    }

    /** The strokes of `dotted` for the track (x, y): for every maximal run of points strictly
        inside the limits, widened by one point on each side, the dash pattern of DashLoop. The
        dash and gap lengths are font sizes and default to DOTTED_LENGTH and DOTTED_RATIO. */
    method Dotted(m: Transcendentals, x: seq<real>, y: seq<real>, dottedLength: Option<real>, dottedRatio: Option<real>)
      returns (r: Result<seq<Stroke>>)
      requires Drawable()
      ensures r == DottedStrokes(m, x, y, dottedLength, dottedRatio)
    {
      if |x| != |y| {
        return Failure(ValueError);
      }
      var len := if dottedLength.Some? then dottedLength.value else DOTTED_LENGTH;
      var ratio := if dottedRatio.Some? then dottedRatio.value else DOTTED_RATIO;
      var f := FontToImgLen(len);
      r := DrawRuns(m, x, y, Clumps(InsideMask(x, y)), f, ratio);
    }

    /** The `for` loop of `dotted` over the runs: each run's strokes are drawn after those of
        the runs before it, and the first failing run ends the drawing. */
    method DrawRuns(m: Transcendentals, x: seq<real>, y: seq<real>, runs: seq<Run>, f: int, ratio: real)
      returns (r: Result<seq<Stroke>>)
      requires Drawable() && |x| == |y|
      requires forall n :: 0 <= n < |runs| ==> runs[n].start < runs[n].stop <= |x|
      ensures r == RunsStrokes(m, x, y, runs, f, ratio)
    {
      var acc: seq<Stroke> := [];
      PrefixedNothing(RunsStrokes(m, x, y, runs, f, ratio));
      assert runs[0..] == runs;
      for n := 0 to |runs|
        invariant RunsStrokes(m, x, y, runs, f, ratio) == Prefixed(acc, RunsStrokes(m, x, y, runs[n..], f, ratio))
      {
        RunsStrokesStep(m, x, y, runs, n, f, ratio);
        PrefixedStep(acc, RunStrokes(m, x, y, runs[n], f, ratio), RunsStrokes(m, x, y, runs[n..], f, ratio),
                     RunsStrokes(m, x, y, runs[n + 1..], f, ratio));
        var strokes := DrawRun(m, x, y, runs[n], f, ratio);
        if strokes.Failure? {
          return Failure(strokes.error);
        }
        acc := acc + strokes.value;
      }
      assert runs[|runs|..] == [];
      assert acc + [] == acc;
      return Success(acc);
    }

    /** What `dotted` draws, as a function of its inputs. */
    function DottedStrokes(m: Transcendentals, x: seq<real>, y: seq<real>, dottedLength: Option<real>, dottedRatio: Option<real>)
      : (r: Result<seq<Stroke>>)
      requires Drawable()
    {
      if |x| != |y| then Failure(ValueError)
      else
        var len := if dottedLength.Some? then dottedLength.value else DOTTED_LENGTH;
        var ratio := if dottedRatio.Some? then dottedRatio.value else DOTTED_RATIO;
        RunsStrokes(m, x, y, Clumps(InsideMask(x, y)), FontToImgLen(len), ratio)
    }

    /** The body of the loop over the runs in `dotted`: the run widened by one point on each
        side, its trace, and the dash pattern along it. */
    method DrawRun(m: Transcendentals, x: seq<real>, y: seq<real>, run: Run, f: int, ratio: real)
      returns (r: Result<seq<Stroke>>)
      requires Drawable() && |x| == |y| && run.start < run.stop <= |x|
      ensures r == RunStrokes(m, x, y, run, f, ratio)
    {
      var wide := Widen(run, |x|);
      var trace := RunTrace(m, x[wide.start..wide.stop], y[wide.start..wide.stop]);
      if trace.Failure? {
        return Failure(trace.error);
      }
      r := DashLoop(trace.value, f, ratio);
    }

    /** What DrawRun draws for one run. */
    function RunStrokes(m: Transcendentals, x: seq<real>, y: seq<real>, run: Run, f: int, ratio: real)
      : (r: Result<seq<Stroke>>)
      requires Drawable() && |x| == |y| && run.start < run.stop <= |x|
    {
      var wide := Widen(run, |x|);
      var trace :- RunTrace(m, x[wide.start..wide.stop], y[wide.start..wide.stop]);
      Strokes(trace, f, ratio, 0, None)
    }

    /** The strokes of the given runs, one run after the other; the first failing run stops it.
        RunsStrokes and RunsStrokesCons recurse into each other so that a mention of either
        does not unfold the strokes of a run; RunsStrokesStep does that one run at a time. */
    function RunsStrokes(m: Transcendentals, x: seq<real>, y: seq<real>, runs: seq<Run>, f: int, ratio: real)
      : (r: Result<seq<Stroke>>)
      requires Drawable() && |x| == |y|
      requires forall n :: 0 <= n < |runs| ==> runs[n].start < runs[n].stop <= |x|
      decreases |runs|, 1
    {
      if runs == [] then Success([]) else RunsStrokesCons(m, x, y, runs, f, ratio)
    }

    function RunsStrokesCons(m: Transcendentals, x: seq<real>, y: seq<real>, runs: seq<Run>, f: int, ratio: real)
      : (r: Result<seq<Stroke>>)
      requires Drawable() && |x| == |y| && runs != []
      requires forall n :: 0 <= n < |runs| ==> runs[n].start < runs[n].stop <= |x|
      decreases |runs|, 0
    {
      var first :- RunStrokes(m, x, y, runs[0], f, ratio);
      var rest :- RunsStrokes(m, x, y, runs[1..], f, ratio);
      Success(first + rest)
    }

    /** One step of RunsStrokes: the run at n fails, or its strokes come before those of the
        runs after it. */
    lemma RunsStrokesStep(m: Transcendentals, x: seq<real>, y: seq<real>, runs: seq<Run>, n: nat, f: int, ratio: real)
      requires Drawable() && |x| == |y| && n < |runs|
      requires forall k :: 0 <= k < |runs| ==> runs[k].start < runs[k].stop <= |x|
      ensures var first := RunStrokes(m, x, y, runs[n], f, ratio);
              first.Failure? ==> RunsStrokes(m, x, y, runs[n..], f, ratio) == Failure(first.error)
      ensures var first := RunStrokes(m, x, y, runs[n], f, ratio);
              first.Success? ==> RunsStrokes(m, x, y, runs[n..], f, ratio) == Prefixed(first.value, RunsStrokes(m, x, y, runs[n + 1..], f, ratio))
    {
      assert runs[n..][0] == runs[n];
      assert runs[n..][1..] == runs[n + 1..];
    }

    /** The mask `xmin < x < xmax and ymin < y < ymax` of the points strictly inside the limits. */
    function InsideMask(x: seq<real>, y: seq<real>): (mask: seq<bool>)
      requires |x| == |y|
      ensures |mask| == |x|
      ensures forall k :: 0 <= k < |x| ==>
                mask[k] == (lims.xmin < x[k] < lims.xmax && lims.ymin < y[k] < lims.ymax)
    {
      seq(|x|, k requires 0 <= k < |x| => lims.xmin < x[k] < lims.xmax && lims.ymin < y[k] < lims.ymax)
    }

    /** A run's pixels and its cumulative pixel length, which starts at 0 and adds the length of
        each leg. A run of fewer than two points makes numpy's `apply_along_axis` raise
        ValueError, because there is no leg to apply it to. */
    function RunTrace(m: Transcendentals, x: seq<real>, y: seq<real>): (r: Result<Trace>)
      requires Drawable() && |x| == |y|
      ensures r.Failure? <==> |x| < 2
      ensures r.Failure? ==> r.error == ValueError
      ensures r.Success? ==> r.value.Valid() && r.value.Len() == |x|
    {
      if |x| < 2 then Failure(ValueError)
      else
        var px := seq(|x|, k requires 0 <= k < |x| => ToPixel(x[k], y[k]).i);
        var py := seq(|y|, k requires 0 <= k < |y| => ToPixel(x[k], y[k]).j);
        Success(Trace(px, py, RunLengths(m, px, py)))
    }

    /** The trace of a run holds the pixels of its points, and its length starts at 0 and adds
        the length of each leg. */
    lemma RunTracePoints(m: Transcendentals, x: seq<real>, y: seq<real>)
      requires Drawable() && |x| == |y| && RunTrace(m, x, y).Success?
      ensures var tr := RunTrace(m, x, y).value;
              forall k :: 0 <= k < |x| ==> Pixel(tr.i[k], tr.j[k]) == ToPixel(x[k], y[k])
      ensures var tr := RunTrace(m, x, y).value;
              && tr.len[0] == 0.0
              && forall k :: 0 < k < |x| ==>
                   tr.len[k] == tr.len[k - 1] + LegLength(m, Pixel(tr.i[k - 1], tr.j[k - 1]), Pixel(tr.i[k], tr.j[k]))
    {
      var tr := RunTrace(m, x, y).value;
      RunLengthsSteps(m, tr.i, tr.j);
    }
  }

  /** `Img.__init__`: the page keeps the limits and the resolution, and its pixel width and
      height are the paper size in pixels, truncated by `int()`. */
  function NewImg(lims: Limits, paperWidth: real, paperHeight: real, dpi: real): (r: Img)
    ensures r.lims == lims && r.dpi == dpi
    ensures dpi / 2.54 * paperWidth >= 0.0 ==> r.width as real <= dpi / 2.54 * paperWidth < r.width as real + 1.0
    ensures dpi / 2.54 * paperHeight >= 0.0 ==> r.height as real <= dpi / 2.54 * paperHeight < r.height as real + 1.0
  {
    var page := Img(lims, dpi, 0, 0);
    var width := page.PaperToImgLen(paperWidth);
    var height := page.PaperToImgLen(paperHeight);
    Img(lims, dpi, width, height)
  }

  /** The anchor index of `annotate`'s for/break scan: the first k whose sector
      (k - 1/2)*45 .. (k + 1/2)*45 degrees contains the angle, or the last one if none did. */
  method Anchor(angle: real) returns (k: nat)
    ensures k < |ANCHORS| && FirstFit(angle, k)
  {
    AnchorCover(angle);
    var n := 0;
    k := 0;
    while n < |ANCHORS|
      invariant 0 <= n <= |ANCHORS| && k < |ANCHORS|
      invariant forall j :: 0 <= j < n ==> !AnchorFits(angle, j)
      invariant n > 0 ==> k == n - 1
    {
      k := n;
      if AnchorFits(angle, n) {
        return;
      }
      n := n + 1;
    }
  }

  /** The test in the loop of `annotate`: `(angle - (k - 1/2)*45) % 360 <= 45`. */
  predicate AnchorFits(angle: real, k: nat) {
    Mod360(angle - (k as real - 0.5) * 45.0) <= 45.0
  }

  predicate FirstFit(angle: real, k: nat) {
    AnchorFits(angle, k) && forall j :: 0 <= j < k ==> !AnchorFits(angle, j)
  }

  /** The eight sectors cover the circle: the sector of angle + 22.5 always fits, so the scan
      never falls through to its default. */
  lemma AnchorCover(angle: real)
    ensures var k := (Mod360(angle + 22.5) / 45.0).Floor;
            0 <= k < |ANCHORS| && AnchorFits(angle, k)
  {
    var a := angle + 22.5;
    var u := Mod360(a);
    var k := (u / 45.0).Floor;
    var q := (a / 360.0).Floor;
    assert u == a - 360.0 * q as real;
    assert 45.0 * k as real <= u < 45.0 * k as real + 45.0;
    var v := angle - (k as real - 0.5) * 45.0;
    assert v == u - 45.0 * k as real + 360.0 * q as real;
    assert (v / 360.0).Floor == q;
  }

  /** The label offset (d cos r, -d sin r) has length |d|. */
  lemma OffsetLength(m: Transcendentals, d: real, rad: real, di: real, dj: real)
    requires Pythagorean(m) && di == d * m.cos(rad) && dj == -(d * m.sin(rad))
    ensures Sq(di) + Sq(dj) == Sq(d)
  {
    var c := m.cos(rad);
    var s := m.sin(rad);
    assert Sq(s) + Sq(c) == 1.0;
    assert Sq(di) == Sq(d) * Sq(c);
    assert Sq(dj) == Sq(d) * Sq(s);
    assert Sq(d) * Sq(c) + Sq(d) * Sq(s) == Sq(d) * (Sq(s) + Sq(c));
  }

  /** A run of consecutive indices, `slice(start, stop)`. */
  datatype Run = Run(start: nat, stop: nat)

  /** `np.ma.clump_masked` of the inside mask: the maximal runs where the mask holds, in order. */
  function Clumps(mask: seq<bool>): (runs: seq<Run>)
    ensures MaximalRuns(mask, runs, 0)
  {
    ClumpsFrom(mask, 0)
  }

  /** Runs that lie in mask[from..], are maximal, come in order and cover every set entry there. */
  ghost predicate MaximalRuns(mask: seq<bool>, runs: seq<Run>, from: nat) {
    RunsInside(mask, runs, from) && RunsCover(mask, runs, from)
  }

  /** Every run lies in mask[from..], holds only set entries, is bounded by unset entries (or
      the ends of the mask) on both sides, and comes after the one before it. */
  ghost predicate RunsInside(mask: seq<bool>, runs: seq<Run>, from: nat) {
    && (forall n :: 0 <= n < |runs| ==> from <= runs[n].start < runs[n].stop <= |mask|)
    && (forall n, k :: 0 <= n < |runs| && runs[n].start <= k < runs[n].stop && k < |mask| ==> mask[k])
    && (forall n :: 0 <= n < |runs| && 0 < runs[n].start <= |mask| ==> !mask[runs[n].start - 1])
    && (forall n :: 0 <= n < |runs| && runs[n].stop < |mask| ==> !mask[runs[n].stop])
    && (forall n :: 0 < n < |runs| ==> runs[n - 1].stop < runs[n].start)
  }

  /** Every set entry of mask[from..] lies in one of the runs. */
  ghost predicate RunsCover(mask: seq<bool>, runs: seq<Run>, from: nat) {
    forall k :: from <= k < |mask| && mask[k] ==> Covered(runs, k)
  }

  ghost predicate Covered(runs: seq<Run>, k: nat) {
    exists n :: 0 <= n < |runs| && runs[n].start <= k < runs[n].stop
  }

  function ClumpsFrom(mask: seq<bool>, from: nat): (runs: seq<Run>)
    requires from <= |mask| && (from == 0 || !mask[from - 1])
    ensures MaximalRuns(mask, runs, from)
    decreases |mask| - from
  {
    if from == |mask| then []
    else if !mask[from] then ClumpsFrom(mask, from + 1)
    else
      var stop := RunEnd(mask, from);
      var rest := if stop == |mask| then [] else ClumpsFrom(mask, stop + 1);
      var runs := [Run(from, stop)] + rest;
      ClumpsCons(mask, from, stop, rest);
      runs
  }

  /** A maximal run at `from` followed by the maximal runs after it are the maximal runs from
      `from` on. */
  lemma ClumpsCons(mask: seq<bool>, from: nat, stop: nat, rest: seq<Run>)
    requires from < stop <= |mask| && (from == 0 || !mask[from - 1])
    requires forall k :: from <= k < stop ==> mask[k]
    requires stop < |mask| ==> !mask[stop] && MaximalRuns(mask, rest, stop + 1)
    requires stop == |mask| ==> rest == []
    ensures MaximalRuns(mask, [Run(from, stop)] + rest, from)
  {
    ConsInside(mask, from, stop, rest);
    ConsCovers(mask, from, stop, rest);
  }

  lemma ConsInside(mask: seq<bool>, from: nat, stop: nat, rest: seq<Run>)
    requires from < stop <= |mask| && (from == 0 || !mask[from - 1])
    requires forall k :: from <= k < stop ==> mask[k]
    requires stop < |mask| ==> !mask[stop] && RunsInside(mask, rest, stop + 1)
    requires stop == |mask| ==> rest == []
    ensures RunsInside(mask, [Run(from, stop)] + rest, from)
  {
    ConsBounds(mask, from, stop, rest);
    ConsSet(mask, from, stop, rest);
  }

  /** The bounds, borders and order parts of ConsInside. */
  lemma ConsBounds(mask: seq<bool>, from: nat, stop: nat, rest: seq<Run>)
    requires from < stop <= |mask| && (from == 0 || !mask[from - 1])
    requires stop < |mask| ==> !mask[stop] && RunsInside(mask, rest, stop + 1)
    requires stop == |mask| ==> rest == []
    ensures var runs := [Run(from, stop)] + rest;
            && (forall n :: 0 <= n < |runs| ==> from <= runs[n].start < runs[n].stop <= |mask|)
            && (forall n :: 0 <= n < |runs| && 0 < runs[n].start <= |mask| ==> !mask[runs[n].start - 1])
            && (forall n :: 0 <= n < |runs| && runs[n].stop < |mask| ==> !mask[runs[n].stop])
            && (forall n :: 0 < n < |runs| ==> runs[n - 1].stop < runs[n].start)
  {
    var runs := [Run(from, stop)] + rest;
    forall n | 0 < n < |runs|
      ensures runs[n] == rest[n - 1]
      ensures runs[n - 1].stop < runs[n].start
    {
      if n > 1 {
        assert runs[n - 1] == rest[n - 2];
      }
    }
  }

  /** The membership part of ConsInside: every run holds only set entries. */
  lemma ConsSet(mask: seq<bool>, from: nat, stop: nat, rest: seq<Run>)
    requires from < stop <= |mask|
    requires forall k :: from <= k < stop ==> mask[k]
    requires stop < |mask| ==> RunsInside(mask, rest, stop + 1)
    requires stop == |mask| ==> rest == []
    ensures var runs := [Run(from, stop)] + rest;
            forall n, k :: 0 <= n < |runs| && runs[n].start <= k < runs[n].stop && k < |mask| ==> mask[k]
  {
    var runs := [Run(from, stop)] + rest;
    forall n, k | 0 <= n < |runs| && runs[n].start <= k < runs[n].stop && k < |mask|
      ensures mask[k]
    {
      if n > 0 {
        assert runs[n] == rest[n - 1];
      }
    }
  }

  lemma ConsCovers(mask: seq<bool>, from: nat, stop: nat, rest: seq<Run>)
    requires from < stop <= |mask|
    requires forall k :: from <= k < stop ==> mask[k]
    requires stop < |mask| ==> !mask[stop] && RunsCover(mask, rest, stop + 1)
    requires stop == |mask| ==> rest == []
    ensures RunsCover(mask, [Run(from, stop)] + rest, from)
  {
    var runs := [Run(from, stop)] + rest;
    forall k | from <= k < |mask| && mask[k]
      ensures Covered(runs, k)
    {
      if k < stop {
        assert runs[0].start <= k < runs[0].stop;
      } else {
        assert k != stop;
        var n :| 0 <= n < |rest| && rest[n].start <= k < rest[n].stop;
        assert runs[n + 1] == rest[n];
      }
    }
  }

  /** The end of the run of set entries starting at `from`. */
  function RunEnd(mask: seq<bool>, from: nat): (stop: nat)
    requires from <= |mask|
    ensures from <= stop <= |mask| && (stop < |mask| ==> !mask[stop])
    ensures forall k :: from <= k < stop ==> mask[k]
    decreases |mask| - from
  {
    if from == |mask| || !mask[from] then from else RunEnd(mask, from + 1)
  }

  /** `if start > 0: start -= 1; if stop < x.size-1: stop += 1`: the run with the points just
      outside it, so the track is drawn up to the page border. */
  function Widen(run: Run, size: nat): (w: Run)
    requires run.start < run.stop <= size
    ensures w.start <= run.start && w.stop >= run.stop && w.start < w.stop <= size
    ensures w.start == if run.start > 0 then run.start - 1 else 0
    ensures w.stop == if run.stop < size - 1 then run.stop + 1 else run.stop
  {
    Run(if run.start > 0 then run.start - 1 else 0, if run.stop < size - 1 then run.stop + 1 else run.stop)
  }

  /** A run that stops just before the last point is not widened on that side: the comparison
      is with size - 1, so the last point of the track is left out of the stroke. */
  lemma WidenKeepsLastOut(size: nat, start: nat)
    requires start < size - 1
    ensures Widen(Run(start, size - 1), size).stop == size - 1
  {
  }

  /** A point of a run with its cumulative pixel length. */
  datatype Vertex = Vertex(i: real, j: real, len: real)

  /** The arrays `dotted` works on: pixel columns, rows and cumulative length of a run. */
  datatype Trace = Trace(i: seq<real>, j: seq<real>, len: seq<real>) {

    predicate Valid() {
      |i| == |j| == |len|
    }

    function Len(): nat
      requires Valid()
    {
      |len|
    }

    function At(k: nat): Vertex
      requires Valid() && k < Len()
    {
      Vertex(i[k], j[k], len[k])
    }

    /** The first n points as a polyline. */
    function Pixels(n: nat): (s: Stroke)
      requires Valid() && n <= Len()
      ensures |s| == n && forall k :: 0 <= k < n ==> s[k] == Pixel(i[k], j[k])
    {
      seq(n, k requires 0 <= k < n => Pixel(i[k], j[k]))
    }

    /** `array[p:]` on the three arrays. */
    function Drop(p: nat): (r: Trace)
      requires Valid() && p <= Len()
      ensures r.Valid() && r.Len() == Len() - p
      ensures forall k :: 0 <= k < r.Len() ==> r.At(k) == At(p + k)
    {
      Trace(i[p..], j[p..], len[p..])
    }

    /** `np.insert(array, 0, v)` on the three arrays. */
    function Prepend(v: Vertex): (r: Trace)
      requires Valid()
      ensures r.Valid() && r.Len() == Len() + 1 && r.At(0) == v
      ensures forall k :: 0 < k < r.Len() ==> r.At(k) == At(k - 1)
    {
      Trace([v.i] + i, [v.j] + j, [v.len] + len)
    }

    /** The arrays of one round of the loop in `dotted`: the run from the cursor on, behind the
        carried cut point once there is one. */
    function Window(prev: nat, carry: Option<Vertex>): (w: Trace)
      requires Valid() && prev < Len() && (prev == 0) == carry.None?
      ensures w.Valid() && w.Len() > 0
      ensures w.Len() == if prev == 0 then Len() else Len() - prev + 1
    {
      if prev == 0 then this else Drop(prev).Prepend(carry.value)
    }
  }

  /** The points of a window: the carried cut point first once there is one, then the run's
      points from the cursor on. */
  lemma WindowAt(tr: Trace, prev: nat, carry: Option<Vertex>, k: nat)
    requires tr.Valid() && prev < tr.Len() && (prev == 0) == carry.None?
    requires k < tr.Window(prev, carry).Len()
    ensures prev == 0 ==> tr.Window(prev, carry).At(k) == tr.At(k)
    ensures prev > 0 && k == 0 ==> tr.Window(prev, carry).At(k) == carry.value
    ensures prev > 0 && k > 0 ==> tr.Window(prev, carry).At(k) == tr.At(prev + k - 1)
  {
  }

  /** Two valid traces with the same points are the same trace. */
  lemma SameTrace(a: Trace, b: Trace)
    requires a.Valid() && b.Valid() && a.Len() == b.Len()
    requires forall k :: 0 <= k < a.Len() ==> a.At(k) == b.At(k)
    ensures a == b
  {
    forall k | 0 <= k < a.Len()
      ensures a.i[k] == b.i[k] && a.j[k] == b.j[k] && a.len[k] == b.len[k]
    {
      assert a.At(k) == b.At(k);
    }
    assert a.i == b.i;
    assert a.j == b.j;
    assert a.len == b.len;
  }

  /** `np.insert(np.apply_along_axis(func, 1, ...), 0, 0)`: 0 followed by the pixel length of
      each leg of the polyline (i, j). */
  function Legs(m: Transcendentals, i: seq<real>, j: seq<real>): (d: seq<real>)
    requires |i| == |j| && |i| > 0
    ensures |d| == |i| && d[0] == 0.0
    ensures forall k :: 0 < k < |i| ==> d[k] == LegLength(m, Pixel(i[k - 1], j[k - 1]), Pixel(i[k], j[k]))
  {
    [0.0] + seq(|i| - 1, k requires 0 <= k < |i| - 1 => LegLength(m, Pixel(i[k], j[k]), Pixel(i[k + 1], j[k + 1])))
  }

  /** `np.cumsum` of Legs: the pixel length of the polyline (i, j) up to each point. It is
      written as its own recursion so that it equals CumSum(Legs(m, i, j)) by a lemma
      (RunLengthsCumSum) instead of by unfolding both. */
  function RunLengths(m: Transcendentals, i: seq<real>, j: seq<real>): (len: seq<real>)
    requires |i| == |j| && |i| > 0
    ensures |len| == |i|
  {
    if |i| == 1 then [0.0]
    else
      var p := RunLengths(m, i[..|i| - 1], j[..|j| - 1]);
      p + [p[|p| - 1] + LegLength(m, Pixel(i[|i| - 2], j[|i| - 2]), Pixel(i[|i| - 1], j[|i| - 1]))]
  }

  /** RunLengths starts at 0 and adds the length of each leg. */
  lemma {:induction false} RunLengthsSteps(m: Transcendentals, i: seq<real>, j: seq<real>)
    requires |i| == |j| && |i| > 0
    ensures RunLengths(m, i, j)[0] == 0.0
    ensures forall k :: 0 < k < |i| ==>
              RunLengths(m, i, j)[k] == RunLengths(m, i, j)[k - 1] + LegLength(m, Pixel(i[k - 1], j[k - 1]), Pixel(i[k], j[k]))
  {
    if |i| > 1 {
      var i', j' := i[..|i| - 1], j[..|j| - 1];
      RunLengthsSteps(m, i', j');
      var p := RunLengths(m, i', j');
      assert RunLengths(m, i, j) == p + [p[|p| - 1] + LegLength(m, Pixel(i[|i| - 2], j[|i| - 2]), Pixel(i[|i| - 1], j[|i| - 1]))];
      forall k | 0 < k < |i| - 1
        ensures RunLengths(m, i, j)[k] == RunLengths(m, i, j)[k - 1] + LegLength(m, Pixel(i[k - 1], j[k - 1]), Pixel(i[k], j[k]))
      {
        assert i'[k] == i[k] && i'[k - 1] == i[k - 1] && j'[k] == j[k] && j'[k - 1] == j[k - 1];
      }
    }
  }

  /** RunLengths is the running sum of the leg lengths with 0 in front, as `dotted` computes it. */
  lemma RunLengthsCumSum(m: Transcendentals, i: seq<real>, j: seq<real>)
    requires |i| == |j| && |i| > 0
    ensures RunLengths(m, i, j) == CumSum(Legs(m, i, j))
  {
    var a, d := RunLengths(m, i, j), Legs(m, i, j);
    RunLengthsSteps(m, i, j);
    forall k | 0 < k < |a|
      ensures a[k] == a[k - 1] + d[k]
    {
      assert d[k] == LegLength(m, Pixel(i[k - 1], j[k - 1]), Pixel(i[k], j[k]));
    }
    CumSumUnique(d, a);
  }

  /** The planar length of the leg a -> b: the `func` applied along the legs in `dotted`. */
  function LegLength(m: Transcendentals, a: Pixel, b: Pixel): real {
    m.sqrt(Sq(a.i - b.i) + Sq(a.j - b.j))
  }

  /** With sqrt non-negative, a run's cumulative length is non-decreasing. */
  lemma RunLengthNonDecreasing(img: Img, m: Transcendentals, x: seq<real>, y: seq<real>)
    requires img.Drawable() && |x| == |y| && SqrtAxioms(m)
    requires img.RunTrace(m, x, y).Success?
    ensures NonDecreasing(img.RunTrace(m, x, y).value.len)
  {
    var tr := img.RunTrace(m, x, y).value;
    img.RunTracePoints(m, x, y);
    forall k | 0 <= k < tr.Len() - 1
      ensures tr.len[k] <= tr.len[k + 1]
    {
      assert tr.len[k + 1] == tr.len[k] + LegLength(m, Pixel(tr.i[k], tr.j[k]), Pixel(tr.i[k + 1], tr.j[k + 1]));
    }
    StepwiseNonDecreasing(tr.len);
  }

  /** Where the running length first exceeds `bound` after the window's start: the index of that
      point and the cut point on the leg before it, when there is one. */
  datatype Reached = Reached(idx: nat, t: real, at: Vertex)

  /** `idx = np.argmax(length > bound)` and, when it is not 0, the point `t` back from point idx
      towards point idx-1 whose interpolated length is exactly the bound, t in (0, 1]. */
  function Reach(w: Trace, bound: real): (r: Option<Reached>)
    requires w.Valid() && w.Len() > 0
    ensures r.Some? ==> 0 < r.value.idx < w.Len()
  {
    var idx := FirstAbove(w.len, bound);
    if idx == 0 then None
    else
      var t := CutFraction(w.len[idx], w.len[idx - 1], bound);
      Some(Reached(idx, t, Vertex(w.i[idx] - t * (w.i[idx] - w.i[idx - 1]), w.j[idx] - t * (w.j[idx] - w.j[idx - 1]), bound)))
  }

  /** What Reach finds: no cut exactly when the length starts above the bound or never passes
      it; otherwise the first point above the bound and, on the leg before it, the cut point
      whose length is the bound. */
  lemma ReachFacts(w: Trace, bound: real)
    requires w.Valid() && w.Len() > 0
    ensures Reach(w, bound).None? <==> w.len[0] > bound || forall k :: 0 <= k < w.Len() ==> w.len[k] <= bound
    ensures Reach(w, bound).Some? ==>
              var r := Reach(w, bound).value;
              && (forall k :: 0 <= k < r.idx ==> w.len[k] <= bound) && bound < w.len[r.idx]
              && Reaches(r.t, w.len[r.idx - 1], w.len[r.idx], bound)
              && r.at.len == bound
              && OnLeg(r.t, w.i[r.idx - 1], w.i[r.idx], r.at.i)
              && OnLeg(r.t, w.j[r.idx - 1], w.j[r.idx], r.at.j)
  {
  }

  /** The length at a cut of Reach is the bound, which the window's first length does not pass
      and the length at the point after the cut does. */
  lemma ReachBounds(w: Trace, bound: real)
    requires w.Valid() && w.Len() > 0 && Reach(w, bound).Some?
    ensures var r := Reach(w, bound).value;
            w.len[0] <= bound < w.len[r.idx] && r.at.len == bound
  {
    ReachFacts(w, bound);
  }

  /** The cut point of Reach lies on the leg it cuts, and so does its length. */
  lemma ReachOnLeg(w: Trace, bound: real)
    requires w.Valid() && w.Len() > 0 && Reach(w, bound).Some?
    ensures var r := Reach(w, bound).value;
            && Min(w.i[r.idx - 1], w.i[r.idx]) <= r.at.i <= Max(w.i[r.idx - 1], w.i[r.idx])
            && Min(w.j[r.idx - 1], w.j[r.idx]) <= r.at.j <= Max(w.j[r.idx - 1], w.j[r.idx])
            && w.len[r.idx - 1] <= r.at.len < w.len[r.idx]
  {
    var r := Reach(w, bound).value;
    ReachFacts(w, bound);
    Between(w.i[r.idx - 1], w.i[r.idx], r.t, r.at.i);
    Between(w.j[r.idx - 1], w.j[r.idx], r.t, r.at.j);
  }

  /** The outcome of one round of the loop in `dotted`: either the loop breaks, leaving the
      strokes still to draw (a dash, if one was cut, and then the whole window), or it draws a
      dash and carries the cut point `next` into the next round, `idx` being the index of the
      window's first point behind it. */
  datatype Round = Finish(strokes: seq<Stroke>) | Dash(dash: Stroke, idx: nat, next: Vertex)

  /** One round on the window w with dash length f pixels and dash ratio `ratio`: the dash ends
      where the length reaches `length[0] + ratio*f`, the next window starts where it reaches
      `length[0] + f`. After `break` the whole window is drawn, last; a round that goes on
      resumes at a point inside the window. */
  function DashRound(w: Trace, f: int, ratio: real): (o: Round)
    requires w.Valid() && w.Len() > 0
    ensures o.Finish? ==> 1 <= |o.strokes| <= 2 && o.strokes[|o.strokes| - 1] == w.Pixels(w.Len())
    ensures o.Dash? ==> 0 < o.idx < w.Len()
  {
    var draw := Reach(w, w.len[0] + ratio * f as real);
    if draw.None? then Finish([w.Pixels(w.Len())])
    else
      var d := w.Pixels(draw.value.idx) + [Pixel(draw.value.at.i, draw.value.at.j)];
      var total := Reach(w, w.len[0] + f as real);
      if total.None? then Finish([d, w.Pixels(w.Len())])
      else Dash(d, total.value.idx, total.value.at)
  }

  /** A round draws no dash exactly when the length never passes `length[0] + ratio*f`; a dash
      is the window's points before that place followed by the cut point there. */
  lemma DashRoundShape(w: Trace, f: int, ratio: real)
    requires w.Valid() && w.Len() > 0
    ensures var o := DashRound(w, f, ratio);
            var draw := Reach(w, w.len[0] + ratio * f as real);
            draw.None? <==> o == Finish([w.Pixels(w.Len())])
    ensures var o := DashRound(w, f, ratio);
            var draw := Reach(w, w.len[0] + ratio * f as real);
            draw.Some? ==> var d := w.Pixels(draw.value.idx) + [Pixel(draw.value.at.i, draw.value.at.j)];
                           o == Finish([d, w.Pixels(w.Len())]) || (o.Dash? && o.dash == d)
  {
  }

  /** The loop goes on exactly when the length passes both `length[0] + ratio*f` and
      `length[0] + f`, which needs f >= 0; the next window then starts at the cut point at
      `length[0] + f`, before the point idx. */
  lemma DashRoundCuts(w: Trace, f: int, ratio: real)
    requires w.Valid() && w.Len() > 0
    ensures var o := DashRound(w, f, ratio);
            o.Dash? <==> Reach(w, w.len[0] + ratio * f as real).Some? && Reach(w, w.len[0] + f as real).Some?
    ensures var o := DashRound(w, f, ratio);
            o.Dash? ==> && f >= 0
                        && o.idx == Reach(w, w.len[0] + f as real).value.idx
                        && o.next == Reach(w, w.len[0] + f as real).value.at
                        && 0 < o.idx < w.Len() && o.next.len == w.len[0] + f as real < w.len[o.idx]
  {
    var o := DashRound(w, f, ratio);
    var total := Reach(w, w.len[0] + f as real);
    if o.Dash? {
      assert total.Some? && o.idx == total.value.idx && o.next == total.value.at;
      ReachBounds(w, w.len[0] + f as real);
    }
  }

  /** The cursor after a round: the index the first round jumps to, or the advance by idx - 1
      that later rounds make because their window starts with the carried point. It never
      moves back, and it stays put only for a later round that cuts at index 1. */
  function NextPrev(prev: nat, idx: nat): (next: nat)
    requires idx >= 1
    ensures next >= prev
    ensures next == prev <==> prev > 0 && idx == 1
  {
    if prev == 0 then idx else prev + idx - 1
  }

  /** The loop in `dotted` stalls when a later round cuts at index 1 with a zero dash length:
      the state repeats (see StallRepeats) and the source loops forever. */
  predicate Stalls(prev: nat, o: Round, f: int) {
    o.Dash? && prev > 0 && o.idx == 1 && f == 0
  }

  /** A stalled round leaves the state as it was: the cursor stays put and the new cut point is
      the carried one (t = 1 on the first leg), so the source's loop repeats it forever. */
  lemma StallRepeats(tr: Trace, f: int, ratio: real, prev: nat, carry: Option<Vertex>)
    requires tr.Valid() && prev < tr.Len() && (prev == 0) == carry.None?
    requires Stalls(prev, DashRound(tr.Window(prev, carry), f, ratio), f)
    ensures var o := DashRound(tr.Window(prev, carry), f, ratio);
            NextPrev(prev, o.idx) == prev && o.next == carry.value
  {
    var w := tr.Window(prev, carry);
    var o := DashRound(w, f, ratio);
    DashRoundCuts(w, f, ratio);
    var bound := w.len[0] + f as real;
    ReachFacts(w, bound);
    var r := Reach(w, bound).value;
    assert r.t * (w.len[1] - w.len[0]) == w.len[1] - w.len[0];
    assert r.t == 1.0;
    WindowAt(tr, prev, carry, 0);
  }

  /** After a round that goes on, the next window is the current one from the point idx on,
      behind the new cut point: advancing the cursor by idx - 1 (by idx in the first round)
      accounts for the carried point at the head of later windows. */
  lemma CursorResumes(tr: Trace, f: int, ratio: real, prev: nat, carry: Option<Vertex>)
    requires tr.Valid() && prev < tr.Len() && (prev == 0) == carry.None?
    requires DashRound(tr.Window(prev, carry), f, ratio).Dash?
    ensures var w := tr.Window(prev, carry);
            var o := DashRound(w, f, ratio);
            NextPrev(prev, o.idx) < tr.Len() && tr.Window(NextPrev(prev, o.idx), Some(o.next)) == w.Drop(o.idx).Prepend(o.next)
  {
    var w := tr.Window(prev, carry);
    var o := DashRound(w, f, ratio);
    DashRoundCuts(w, f, ratio);
    WindowResume(tr, prev, carry, o.idx, o.next);
  }

  /** CursorResumes for any index 0 < idx of the window and any point v carried into the next. */
  lemma WindowResume(tr: Trace, prev: nat, carry: Option<Vertex>, idx: nat, v: Vertex)
    requires tr.Valid() && prev < tr.Len() && (prev == 0) == carry.None?
    requires 0 < idx < tr.Window(prev, carry).Len()
    ensures NextPrev(prev, idx) < tr.Len()
    ensures tr.Window(NextPrev(prev, idx), Some(v)) == tr.Window(prev, carry).Drop(idx).Prepend(v)
  {
    var w := tr.Window(prev, carry);
    var next := NextPrev(prev, idx);
    var a := tr.Window(next, Some(v));
    var b := w.Drop(idx).Prepend(v);
    forall k | 0 <= k < a.Len()
      ensures a.At(k) == b.At(k)
    {
      WindowAt(tr, next, Some(v), k);
      if k > 0 {
        WindowAt(tr, prev, carry, idx + k - 1);
      }
    }
    SameTrace(a, b);
  }

  /** The strokes `dotted` draws for one run from the state (prev, carry) on. */
  function Strokes(tr: Trace, f: int, ratio: real, prev: nat, carry: Option<Vertex>): (r: Result<seq<Stroke>>)
    requires tr.Valid() && prev < tr.Len() && (prev == 0) == carry.None?
    ensures r.Failure? ==> r.error == Diverges
    decreases Measure(tr, f, prev, carry), tr.Len() - prev
  {
    var o := DashRound(tr.Window(prev, carry), f, ratio);
    if o.Finish? then Success(o.strokes)
    else if Stalls(prev, o, f) then Failure(Diverges)
    else
      MeasureDecreases(tr, f, ratio, prev, carry);
      var rest :- Strokes(tr, f, ratio, NextPrev(prev, o.idx), Some(o.next));
      Success([o.dash] + rest)
  }

  /** The last stroke of a run ends at the run's last point: the rest of the run is always
      drawn, whatever the dash length. */
  lemma {:induction false} StrokesEnd(tr: Trace, f: int, ratio: real, prev: nat, carry: Option<Vertex>)
    requires tr.Valid() && prev < tr.Len() && (prev == 0) == carry.None?
    requires Strokes(tr, f, ratio, prev, carry).Success?
    ensures EndsAt(Strokes(tr, f, ratio, prev, carry).value, Pixel(tr.i[tr.Len() - 1], tr.j[tr.Len() - 1]))
    decreases Measure(tr, f, prev, carry), tr.Len() - prev
  {
    var w := tr.Window(prev, carry);
    var o := DashRound(w, f, ratio);
    StrokesStep(tr, f, ratio, prev, carry);
    if o.Finish? {
      RoundEnds(w, f, ratio);
      WindowAt(tr, prev, carry, w.Len() - 1);
    } else {
      MeasureDecreases(tr, f, ratio, prev, carry);
      var next := NextPrev(prev, o.idx);
      StrokesEnd(tr, f, ratio, next, Some(o.next));
      ConsEndsAt(o.dash, Strokes(tr, f, ratio, next, Some(o.next)).value, Pixel(tr.i[tr.Len() - 1], tr.j[tr.Len() - 1]));
    }
  }

  /** The strokes of a run start at the first point of the window they are drawn from. */
  lemma StrokesStart(tr: Trace, f: int, ratio: real, prev: nat, carry: Option<Vertex>)
    requires tr.Valid() && prev < tr.Len() && (prev == 0) == carry.None?
    requires Strokes(tr, f, ratio, prev, carry).Success?
    ensures var s := Strokes(tr, f, ratio, prev, carry).value;
            var w := tr.Window(prev, carry);
            |s| >= 1 && |s[0]| >= 1 && s[0][0] == Pixel(w.i[0], w.j[0])
  {
    var w := tr.Window(prev, carry);
    RoundEnds(w, f, ratio);
    StrokesStep(tr, f, ratio, prev, carry);
  }

  /** One step of Strokes: the strokes of a round that goes on are its dash followed by the
      strokes from the next state. */
  lemma StrokesStep(tr: Trace, f: int, ratio: real, prev: nat, carry: Option<Vertex>)
    requires tr.Valid() && prev < tr.Len() && (prev == 0) == carry.None?
    ensures var o := DashRound(tr.Window(prev, carry), f, ratio);
            o.Finish? ==> Strokes(tr, f, ratio, prev, carry) == Success(o.strokes)
    ensures var o := DashRound(tr.Window(prev, carry), f, ratio);
            Stalls(prev, o, f) ==> Strokes(tr, f, ratio, prev, carry) == Failure(Diverges)
    ensures var o := DashRound(tr.Window(prev, carry), f, ratio);
            o.Dash? && !Stalls(prev, o, f) ==>
              && NextPrev(prev, o.idx) < tr.Len()
              && Strokes(tr, f, ratio, prev, carry) == Prefixed([o.dash], Strokes(tr, f, ratio, NextPrev(prev, o.idx), Some(o.next)))
  {
    var o := DashRound(tr.Window(prev, carry), f, ratio);
    if o.Dash? && !Stalls(prev, o, f) {
      MeasureDecreases(tr, f, ratio, prev, carry);
    }
  }

  lemma ConsEndsAt(d: Stroke, rest: seq<Stroke>, b: Pixel)
    requires EndsAt(rest, b)
    ensures EndsAt([d] + rest, b)
  {
    assert ([d] + rest)[|rest|] == rest[|rest| - 1];
  }

  /** The strokes are not empty and the last one ends at the point b. */
  predicate EndsAt(s: seq<Stroke>, b: Pixel) {
    |s| >= 1 && |s[|s| - 1]| > 0 && s[|s| - 1][|s[|s| - 1]| - 1] == b
  }

  /** What a round draws starts at the window's first point; a dash has at least two points,
      and when the loop breaks the last stroke ends at the window's last point. */
  lemma RoundEnds(w: Trace, f: int, ratio: real)
    requires w.Valid() && w.Len() > 0
    ensures var o := DashRound(w, f, ratio);
            o.Dash? ==> |o.dash| >= 2 && o.dash[0] == Pixel(w.i[0], w.j[0])
    ensures var o := DashRound(w, f, ratio);
            o.Finish? ==> |o.strokes[0]| >= 1 && o.strokes[0][0] == Pixel(w.i[0], w.j[0])
    ensures var o := DashRound(w, f, ratio);
            o.Finish? ==> EndsAt(o.strokes, Pixel(w.i[w.Len() - 1], w.j[w.Len() - 1]))
  {
    DashRoundShape(w, f, ratio);
  }

  /** The `while True` loop of `dotted` on one run: each round draws a dash and carries the
      cut point at `length[0] + f` into the next window, until a cut is missing. */
  method DashLoop(tr: Trace, f: int, ratio: real) returns (r: Result<seq<Stroke>>)
    requires tr.Valid() && tr.Len() > 0
    ensures r == Strokes(tr, f, ratio, 0, None)
  {
    var prev: nat := 0;
    var carry: Option<Vertex> := None;
    var acc: seq<Stroke> := [];
    PrefixedNothing(Strokes(tr, f, ratio, 0, None));
    while true
      invariant prev < tr.Len() && (prev == 0) == carry.None?
      invariant Drawn(tr, f, ratio, acc, prev, carry)
      decreases Measure(tr, f, prev, carry), tr.Len() - prev
    {
      var w := tr.Window(prev, carry);
      var o := DashRound(w, f, ratio);
      if o.Finish? {
        DrawnFinish(tr, f, ratio, acc, prev, carry);
        return Success(acc + o.strokes);
      }
      if Stalls(prev, o, f) {
        DrawnStalls(tr, f, ratio, acc, prev, carry);
        return Failure(Diverges);
      }
      DrawnStep(tr, f, ratio, acc, prev, carry);
      acc := acc + [o.dash];
      prev, carry := NextPrev(prev, o.idx), Some(o.next);
    }
  }

  /** The invariant of DashLoop: the strokes of the whole run are the strokes drawn so far,
      acc, followed by those the loop draws from the state (prev, carry) on. */
  ghost predicate Drawn(tr: Trace, f: int, ratio: real, acc: seq<Stroke>, prev: nat, carry: Option<Vertex>)
    requires tr.Valid() && prev < tr.Len() && (prev == 0) == carry.None?
  {
    Strokes(tr, f, ratio, 0, None) == Prefixed(acc, Strokes(tr, f, ratio, prev, carry))
  }

  /** When a round breaks, the strokes of the run are the ones drawn before it and its own. */
  lemma DrawnFinish(tr: Trace, f: int, ratio: real, acc: seq<Stroke>, prev: nat, carry: Option<Vertex>)
    requires tr.Valid() && prev < tr.Len() && (prev == 0) == carry.None?
    requires Drawn(tr, f, ratio, acc, prev, carry) && DashRound(tr.Window(prev, carry), f, ratio).Finish?
    ensures Strokes(tr, f, ratio, 0, None) == Success(acc + DashRound(tr.Window(prev, carry), f, ratio).strokes)
  {
    StrokesStep(tr, f, ratio, prev, carry);
  }

  /** When a round stalls, the run as a whole diverges. */
  lemma DrawnStalls(tr: Trace, f: int, ratio: real, acc: seq<Stroke>, prev: nat, carry: Option<Vertex>)
    requires tr.Valid() && prev < tr.Len() && (prev == 0) == carry.None?
    requires Drawn(tr, f, ratio, acc, prev, carry) && Stalls(prev, DashRound(tr.Window(prev, carry), f, ratio), f)
    ensures Strokes(tr, f, ratio, 0, None) == Failure(Diverges)
  {
    StrokesStep(tr, f, ratio, prev, carry);
  }

  /** A round that draws a dash and does not stall keeps Drawn, with the dash appended, and
      lowers the loop's measure. */
  lemma DrawnStep(tr: Trace, f: int, ratio: real, acc: seq<Stroke>, prev: nat, carry: Option<Vertex>)
    requires tr.Valid() && prev < tr.Len() && (prev == 0) == carry.None?
    requires Drawn(tr, f, ratio, acc, prev, carry)
    requires DashRound(tr.Window(prev, carry), f, ratio).Dash?
    requires !Stalls(prev, DashRound(tr.Window(prev, carry), f, ratio), f)
    ensures var o := DashRound(tr.Window(prev, carry), f, ratio);
            var next := NextPrev(prev, o.idx);
            && next < tr.Len()
            && Drawn(tr, f, ratio, acc + [o.dash], next, Some(o.next))
            && var m0 := Measure(tr, f, prev, carry);
               var m1 := Measure(tr, f, next, Some(o.next));
               (0 <= m0 && m1 < m0) || (m1 == m0 && next > prev)
  {
    var o := DashRound(tr.Window(prev, carry), f, ratio);
    StrokesStep(tr, f, ratio, prev, carry);
    MeasureDecreases(tr, f, ratio, prev, carry);
    PrefixedSnoc(acc, o.dash, Strokes(tr, f, ratio, NextPrev(prev, o.idx), Some(o.next)));
  }

  /** The termination measure of the loop in `dotted`: with a positive dash length the start
      length of the window grows by the whole number f every round and stays below the run's
      largest length; otherwise the cursor moves forward. */
  function Measure(tr: Trace, f: int, prev: nat, carry: Option<Vertex>): int
    requires tr.Valid() && prev < tr.Len() && (prev == 0) == carry.None?
  {
    if f > 0 then (SeqMax(tr.len) - tr.Window(prev, carry).len[0]).Floor else 0
  }

  lemma MeasureDecreases(tr: Trace, f: int, ratio: real, prev: nat, carry: Option<Vertex>)
    requires tr.Valid() && prev < tr.Len() && (prev == 0) == carry.None?
    requires DashRound(tr.Window(prev, carry), f, ratio).Dash?
    requires !Stalls(prev, DashRound(tr.Window(prev, carry), f, ratio), f)
    ensures var o := DashRound(tr.Window(prev, carry), f, ratio);
            NextPrev(prev, o.idx) < tr.Len()
    ensures var o := DashRound(tr.Window(prev, carry), f, ratio);
            var m0 := Measure(tr, f, prev, carry);
            var m1 := Measure(tr, f, NextPrev(prev, o.idx), Some(o.next));
            (0 <= m0 && m1 < m0) || (m1 == m0 && NextPrev(prev, o.idx) > prev)
  {
    var w := tr.Window(prev, carry);
    var o := DashRound(w, f, ratio);
    DashRoundCuts(w, f, ratio);
    var next := NextPrev(prev, o.idx);
    WindowAt(tr, prev, carry, o.idx);
    assert w.At(o.idx) == tr.At(next);
    if f > 0 {
      assert tr.len[next] <= SeqMax(tr.len);
      MeasureStep(tr, f, prev, carry, next, o.next);
    }
  }

  /** Carrying a cut point f further along, still below the run's largest length, lowers the
      measure by one. */
  lemma MeasureStep(tr: Trace, f: int, prev: nat, carry: Option<Vertex>, next: nat, v: Vertex)
    requires tr.Valid() && prev < tr.Len() && (prev == 0) == carry.None? && 0 < next < tr.Len()
    requires f > 0 && v.len == tr.Window(prev, carry).len[0] + f as real && v.len < SeqMax(tr.len)
    ensures 0 <= Measure(tr, f, prev, carry) && Measure(tr, f, next, Some(v)) < Measure(tr, f, prev, carry)
  {
    WindowAt(tr, next, Some(v), 0);
  }

}

/**
 * map.py: one page of the booklet. What is modelled is the page geometry the constructor and
 * `route` compute: the conversion of paper lengths to ground and planar distances for the
 * map's scale, the page limits centred on the map's coordinate, the split of the scale-bar
 * label into number and unit, and the distance markers `route` places along a track.
 */
module Map {
  import opened Wrappers
  import opened Numerics
  import opened Arrays
  import opened Units
  import opened Data
  import opened Img

  /** The map scale `a : b` as the pair of integers the constructor receives. */
  datatype Scale = Scale(a: int, b: int)

  /** Length of the scale bar on paper, in centimetres. */
  const SCALE_LEN: real := 4.0

  /** Distance on paper between two markers, in centimetres. */
  const MARKER_SPACING: real := 2.0

  /** Kilometres per paper centimetre at scale 1 : 1. */
  const CM_PER_KM: real := 100000.0

  /** The fields the constructor stores: the centre, the scale, the paper size and the
      resolution. */
  datatype Map = Map(center: GeoCoord, scale: Scale, paperWidth: real, paperHeight: real, dpi: real) {

    /** `paper2geo_dist`: a paper length in centimetres as a ground distance in kilometres,
        `b/a * paper_dist / 100000`. Python's `/` on the integer a = 0 raises ZeroDivisionError. */
    function PaperToGeoDist(paperDist: real): (r: Result<real>)
      ensures r.Failure? <==> scale.a == 0
      ensures r.Failure? ==> r.error == ZeroDivisionError
      ensures r.Success? ==> r.value * scale.a as real * CM_PER_KM == scale.b as real * paperDist
    {
      if scale.a == 0 then Failure(ZeroDivisionError)
      else Success(scale.b as real / scale.a as real * paperDist / CM_PER_KM)
    }

    /** `geo2mercator_dist`: the planar width of a ground distance along the map's latitude.
        Read back as a longitude it is the longitude difference of two points that far apart on
        that latitude; where the latitude's cosine vanishes there is no finite width. */
    function GeoToMercatorDist(m: Transcendentals, geoDist: real): (r: Result<real>)
      ensures r.Failure? <==> Sq(m.cos(DegToRad(center.lat))) == 0.0
      ensures r.Failure? ==> r.error == NonFinite
      ensures r.Success? ==> MercatorToGeoLon(r.value) == HaversineDeltaLon(m, geoDist, center.lat).value
    {
      var deltaLon :- HaversineDeltaLon(m, geoDist, center.lat);
      Success(GeoToMercatorX(deltaLon))
    }

    /** `paper2mercator_dist`: a paper length as a planar distance, the planar width of its
        ground distance. A zero scale numerator fails first, with ZeroDivisionError. */
    function PaperToMercatorDist(m: Transcendentals, paperDist: real): (r: Result<real>)
      ensures r.Failure? <==> scale.a == 0 || Sq(m.cos(DegToRad(center.lat))) == 0.0
      ensures r.Failure? ==> r.error == if scale.a == 0 then ZeroDivisionError else NonFinite
      ensures r.Success? ==>
                MercatorToGeoLon(r.value) == HaversineDeltaLon(m, PaperToGeoDist(paperDist).value, center.lat).value
    {
      var geoDist :- PaperToGeoDist(paperDist);
      GeoToMercatorDist(m, geoDist)
    }

    /** The page limits of the constructor: a box of the paper's planar width and height centred
        on the map's coordinate. They exist exactly when the scale's a is non-zero and the map's
        latitude is not at a pole of the cosine. */
    function PageLimits(m: Transcendentals): (r: Result<Limits>)
      ensures r.Success? <==> scale.a != 0 && Sq(m.cos(DegToRad(center.lat))) != 0.0
      ensures r.Failure? ==> r.error == if scale.a == 0 then ZeroDivisionError else NonFinite
      ensures r.Success? ==>
                var l, c := r.value, center.ToMercator(m);
                && l.xmax - l.xmin == PaperToMercatorDist(m, paperWidth).value
                && l.ymax - l.ymin == PaperToMercatorDist(m, paperHeight).value
                && (l.xmin + l.xmax) / 2.0 == c.x
                && (l.ymin + l.ymax) / 2.0 == c.y
    {
      var deltaX :- PaperToMercatorDist(m, paperWidth);
      // the height fails exactly when the width does
      var deltaY := PaperToMercatorDist(m, paperHeight).value;
      var c := center.ToMercator(m);
      Success(Limits(c.x - deltaX / 2.0, c.x + deltaX / 2.0, c.y - deltaY / 2.0, c.y + deltaY / 2.0))
    }

    /** The page the constructor creates for these limits. */
    function Page(m: Transcendentals): (r: Result<Img>)
      ensures r.Success? ==> PageLimits(m).Success? && r.value.lims == PageLimits(m).value && r.value.dpi == dpi
      ensures r.Failure? <==> PageLimits(m).Failure?
    {
      var lims :- PageLimits(m);
      Success(NewImg(lims, paperWidth, paperHeight, dpi))
    }

    /** The distance `EngNumber` formats for the scale bar: the bar's ground length in metres. */
    function ScaleDist(): (r: Result<real>)
      ensures r.Failure? <==> scale.a == 0
      ensures r.Success? ==> r.value * scale.a as real * CM_PER_KM == scale.b as real * SCALE_LEN * 1000.0
    {
      var d :- PaperToGeoDist(SCALE_LEN);
      Success(d * 1000.0)
    }

    /** The marker spacing of `route`: `int(np.ceil(paper2geo_dist(2)))` kilometres. */
    function MarkerDelta(): (r: Result<int>)
      ensures r.Failure? <==> scale.a == 0
      ensures r.Success? ==> r.value as real - 1.0 < PaperToGeoDist(MARKER_SPACING).value <= r.value as real
    {
      var d :- PaperToGeoDist(MARKER_SPACING);
      Success(Ceil(d))
    }

    /** The marker loop of `route` on the track g: for every probe distance of the range from
        int(min dist) to int(max dist) in steps of MarkerDelta, the marker at the point
        find_dist returns, skipping the probes it returns None for. `root` stands for the
        numerical solver of find_dist's interpolating branch. */
    method MarkerProbes(m: Transcendentals, g: GeoData, root: (GeoCoord, GeoCoord, real) -> real)
      returns (r: Result<seq<Marker>>)
      requires g.Valid()
      ensures r == RouteMarkers(m, g, root)
    {
      var delta := MarkerDelta();
      if delta.Failure? {
        return Failure(delta.error);
      }
      if g.Len() == 0 {
        return Failure(ValueError);
      }
      if delta.value == 0 {
        return Failure(ValueError);
      }
      var probes := Probes(g, delta.value);
      var acc: seq<Marker> := [];
      for n := 0 to |probes|
        invariant acc == MarkersAt(m, g, root, probes[..n])
      {
        var marker := MarkerAt(m, g, root, probes[n]);
        MarkersAtPrefix(m, g, root, probes, n);
        if marker.Some? {
          acc := acc + [marker.value];
        }
      }
      assert probes[..|probes|] == probes;
      return Success(acc);
    }

    /** What MarkerProbes computes. A zero scale numerator raises ZeroDivisionError in the
        spacing; np.min of an empty track and a zero range step raise ValueError. */
    function RouteMarkers(m: Transcendentals, g: GeoData, root: (GeoCoord, GeoCoord, real) -> real)
      : (r: Result<seq<Marker>>)
      requires g.Valid()
      ensures r.Failure? <==> scale.a == 0 || g.Len() == 0 || MarkerDelta().value == 0
      ensures r.Failure? ==> r.error == if scale.a == 0 then ZeroDivisionError else ValueError
    {
      var delta :- MarkerDelta();
      if g.Len() == 0 || delta == 0 then Failure(ValueError)
      else Success(MarkersAt(m, g, root, Probes(g, delta)))
    }
  }

  /** `haversine_delta_lon`: the longitude difference, in degrees, of two points on the same
      latitude `dist` kilometres apart, `arccos(1 - 2 sin^2(dist/2R) / cos^2(lat))`. numpy
      divides by a zero cosine (at a pole) into an infinity. */
  function HaversineDeltaLon(m: Transcendentals, dist: real, lat: real): (r: Result<real>)
    ensures r.Failure? <==> Sq(m.cos(DegToRad(lat))) == 0.0
    ensures r.Failure? ==> r.error == NonFinite
  {
    var c2 := Sq(m.cos(DegToRad(lat)));
    if c2 == 0.0 then Failure(NonFinite)
    else Success(RadToDeg(m.arccos(1.0 - 2.0 * Sq(m.sin(dist / (2.0 * R))) / c2)))
  }

  /** A zero distance spans no longitude, once sin(0) = 0 and arccos(1) = 0. */
  lemma HaversineDeltaLonZero(m: Transcendentals, lat: real)
    requires m.sin(0.0) == 0.0 && m.arccos(1.0) == 0.0 && Sq(m.cos(DegToRad(lat))) != 0.0
    ensures HaversineDeltaLon(m, 0.0, lat) == Success(0.0)
  {
    var c2 := Sq(m.cos(DegToRad(lat)));
    assert 0.0 / (2.0 * R) == 0.0;
    assert 1.0 - 2.0 * Sq(0.0) / c2 == 1.0;
    assert RadToDeg(0.0) == 0.0;
  }

  /** A paper length of 0 is no distance, and paper lengths add up as ground distances. */
  lemma PaperToGeoDistLinear(sheet: Map, p: real, q: real)
    requires sheet.scale.a != 0
    ensures sheet.PaperToGeoDist(0.0) == Success(0.0)
    ensures sheet.PaperToGeoDist(p + q).value == sheet.PaperToGeoDist(p).value + sheet.PaperToGeoDist(q).value
  {
    var k := sheet.scale.b as real / sheet.scale.a as real;
    assert k * (p + q) / CM_PER_KM == k * p / CM_PER_KM + k * q / CM_PER_KM;
  }

  /** No distance has no planar width, once sin(0) = 0 and arccos(1) = 0; nor, for a non-zero
      scale, has a paper length of 0. */
  lemma MercatorDistZero(sheet: Map, m: Transcendentals)
    requires m.sin(0.0) == 0.0 && m.arccos(1.0) == 0.0 && Sq(m.cos(DegToRad(sheet.center.lat))) != 0.0
    ensures sheet.GeoToMercatorDist(m, 0.0) == Success(0.0)
    ensures sheet.scale.a != 0 ==> sheet.PaperToMercatorDist(m, 0.0) == Success(0.0)
  {
    HaversineDeltaLonZero(m, sheet.center.lat);
    assert GeoToMercatorX(0.0) == 0.0;
    if sheet.scale.a != 0 {
      PaperToGeoDistLinear(sheet, 0.0, 0.0);
    }
  }

  // ---------------------------------------------------------------------------------------------
  // The scale-bar label

  /** The formatted scale distance split into its number and its unit. */
  datatype ScaleLabel = ScaleLabel(number: string, unit: string)

  /** `str.isalpha` on one character, for ASCII letters. */
  predicate IsAlpha(c: char) {
    'a' <= c <= 'z' || 'A' <= c <= 'Z'
  }

  /** The label split of the constructor: an EngNumber string ending in a letter (an SI prefix)
      keeps the number before it and the unit `<prefix>m`; otherwise the whole string is the
      number and the unit is metres. `eng_number[-1]` on an empty string raises IndexError. */
  function SplitScaleLabel(eng: string): (r: Result<ScaleLabel>)
    ensures r.Failure? <==> |eng| == 0
    ensures r.Failure? ==> r.error == IndexError
  {
    if |eng| == 0 then Failure(IndexError)
    else if IsAlpha(eng[|eng| - 1]) then Success(ScaleLabel(eng[..|eng| - 1], [eng[|eng| - 1], 'm']))
    else Success(ScaleLabel(eng, "m"))
  }

  /** The split loses nothing: the unit always ends in `m`, and the number followed by the
      unit's prefix is the original string; the prefix is there exactly when the string ends
      in a letter. */
  lemma SplitScaleLabelRoundTrip(eng: string)
    requires |eng| > 0
    ensures var l := SplitScaleLabel(eng).value;
            && 1 <= |l.unit| <= 2 && l.unit[|l.unit| - 1] == 'm'
            && l.number + l.unit[..|l.unit| - 1] == eng
            && (|l.unit| == 2 <==> IsAlpha(eng[|eng| - 1]))
  {
    var l := SplitScaleLabel(eng).value;
    if IsAlpha(eng[|eng| - 1]) {
      assert l.unit[..1] == [eng[|eng| - 1]];
      assert eng[..|eng| - 1] + [eng[|eng| - 1]] == eng;
    } else {
      assert l.unit[..0] == [];
      assert eng + [] == eng;
    }
  }

  // ---------------------------------------------------------------------------------------------
  // Distance markers

  /** Python's `range(start, stop, step)` for a non-zero step: empty exactly when start is
      already at or past stop in the step's direction. */
  function Range(start: int, stop: int, step: int): (r: seq<int>)
    requires step != 0
    ensures |r| == 0 <==> (step > 0 && start >= stop) || (step < 0 && start <= stop)
    ensures |r| > 0 ==> r[0] == start
    decreases if step > 0 then stop - start else start - stop
  {
    if (step > 0 && start >= stop) || (step < 0 && start <= stop) then []
    else [start] + Range(start + step, stop, step)
  }

  /** A positive-step range holds ceil((stop - start) / step) values when start is below stop. */
  lemma {:induction false} RangeLength(start: int, stop: int, step: int)
    requires step > 0 && start < stop
    ensures var n := |Range(start, stop, step)|;
            (n - 1) * step < stop - start <= n * step
    decreases stop - start
  {
    var n := |Range(start, stop, step)|;
    if start + step < stop {
      RangeLength(start + step, stop, step);
      assert n * step == (n - 1) * step + step;
      assert (n - 1) * step == (n - 2) * step + step;
    }
  }

  /** The elements of a range are start, start + step, ... and, for a positive step, exactly
      those below stop. */
  lemma {:induction false} RangeElements(start: int, stop: int, step: int)
    requires step > 0
    ensures var r := Range(start, stop, step);
            && (forall k :: 0 <= k < |r| ==> r[k] == start + k * step && r[k] < stop)
            && (start + |r| * step >= stop)
    decreases stop - start
  {
    if start < stop {
      RangeElements(start + step, stop, step);
      var r := Range(start, stop, step);
      var rest := Range(start + step, stop, step);
      assert r == [start] + rest;
      forall k | 0 < k < |r|
        ensures r[k] == start + k * step
      {
        assert r[k] == rest[k - 1];
        assert (k - 1) * step + step == k * step;
      }
      assert (|rest| + 1) * step == |rest| * step + step;
    }
  }

  /** What `route` hands to `mark` and `annotate` for one probe: the probe distance, the planar
      point find_dist interpolates and the marker angle in degrees. */
  datatype Marker = Marker(dist: int, at: MercatorCoord, angle: real)

  /** One probe of `route`: None when find_dist returns None; otherwise the interpolated point
      and the angle of the line from the next sample to it, turned by pi/2. */
  function MarkerAt(m: Transcendentals, g: GeoData, root: (GeoCoord, GeoCoord, real) -> real, dist: int)
    : (r: Option<Marker>)
    requires g.Valid() && g.Len() > 0
    ensures r.None? <==> g.FindDist(dist as real, true, root).value.None?
    ensures r.Some? ==> r.value.dist == dist
    ensures r.Some? ==> g.FindDist(dist as real, false, root).value.Some?
    ensures r.Some? ==> r.value.at == g.FindDist(dist as real, true, root).value.value.ToMercator(m)
    ensures r.Some? ==>
              var next := g.FindDist(dist as real, false, root).value.value.ToMercator(m);
              r.value.angle == RadToDeg(r.value.at.Angle(m, next) + PI / 2.0)
  {
    var c1 := g.FindDist(dist as real, true, root).value;
    if c1.None? then None
    else
      var c2 := g.FindDist(dist as real, false, root).value;
      var p1 := c1.value.ToMercator(m);
      var p2 := c2.value.ToMercator(m);
      Some(Marker(dist, p1, RadToDeg(p1.Angle(m, p2) + PI / 2.0)))
  }

  /** The markers of the probes in order, skipping the probes without one. */
  function MarkersAt(m: Transcendentals, g: GeoData, root: (GeoCoord, GeoCoord, real) -> real, probes: seq<int>)
    : (r: seq<Marker>)
    requires g.Valid() && g.Len() > 0
    ensures |r| <= |probes|
  {
    if probes == [] then []
    else
      var rest := MarkersAt(m, g, root, probes[..|probes| - 1]);
      var last := MarkerAt(m, g, root, probes[|probes| - 1]);
      if last.Some? then rest + [last.value] else rest
  }

  lemma MarkersAtSnoc(m: Transcendentals, g: GeoData, root: (GeoCoord, GeoCoord, real) -> real, probes: seq<int>, p: int)
    requires g.Valid() && g.Len() > 0
    ensures var last := MarkerAt(m, g, root, p);
            MarkersAt(m, g, root, probes + [p]) ==
              if last.Some? then MarkersAt(m, g, root, probes) + [last.value] else MarkersAt(m, g, root, probes)
  {
    assert (probes + [p])[..|probes|] == probes;
  }

  /** MarkersAtSnoc for the prefixes of one list of probes. */
  lemma MarkersAtPrefix(m: Transcendentals, g: GeoData, root: (GeoCoord, GeoCoord, real) -> real, probes: seq<int>, n: nat)
    requires g.Valid() && g.Len() > 0 && n < |probes|
    ensures var last := MarkerAt(m, g, root, probes[n]);
            MarkersAt(m, g, root, probes[..n + 1]) ==
              if last.Some? then MarkersAt(m, g, root, probes[..n]) + [last.value] else MarkersAt(m, g, root, probes[..n])
  {
    assert probes[..n + 1][..n] == probes[..n];
  }

  /** Every marker comes from one of the probes. */
  lemma {:induction false} MarkersAtProbes(m: Transcendentals, g: GeoData, root: (GeoCoord, GeoCoord, real) -> real,
                                           probes: seq<int>)
    requires g.Valid() && g.Len() > 0
    ensures var r := MarkersAt(m, g, root, probes);
            forall k :: 0 <= k < |r| ==> r[k].dist in probes
  {
    if probes != [] {
      var init, p := probes[..|probes| - 1], probes[|probes| - 1];
      MarkersAtProbes(m, g, root, init);
      assert probes == init + [p];
      MarkersAtSnoc(m, g, root, init, p);
      var rest := MarkersAt(m, g, root, init);
      var r := MarkersAt(m, g, root, probes);
      var last := MarkerAt(m, g, root, p);
      forall k | 0 <= k < |r|
        ensures r[k].dist in probes
      {
        if k < |rest| {
          assert r[k] == rest[k];
          assert rest[k].dist in init;
        } else {
          assert r[k] == last.value;
        }
      }
    }
  }

  /** Every marker comes from a probe, in order, that find_dist answers. */
  lemma {:induction false} MarkersAtSound(m: Transcendentals, g: GeoData, root: (GeoCoord, GeoCoord, real) -> real,
                                          probes: seq<int>)
    requires g.Valid() && g.Len() > 0
    ensures var r := MarkersAt(m, g, root, probes);
            forall k :: 0 <= k < |r| ==> r[k].dist in probes && g.FindDist(r[k].dist as real, true, root).value.Some?
  {
    if probes != [] {
      var init, p := probes[..|probes| - 1], probes[|probes| - 1];
      MarkersAtSound(m, g, root, init);
      assert probes == init + [p];
      MarkersAtSnoc(m, g, root, init, p);
      var rest := MarkersAt(m, g, root, init);
      var r := MarkersAt(m, g, root, probes);
      var last := MarkerAt(m, g, root, p);
      forall k | 0 <= k < |r|
        ensures r[k].dist in probes && g.FindDist(r[k].dist as real, true, root).value.Some?
      {
        if k < |rest| {
          assert r[k] == rest[k];
          assert rest[k].dist in init;
          assert forall v :: v in init ==> v in probes;
        } else {
          assert r[k] == last.value;
        }
      }
    }
  }

  /** Every probe that find_dist answers has a marker. */
  lemma {:induction false} MarkersAtComplete(m: Transcendentals, g: GeoData, root: (GeoCoord, GeoCoord, real) -> real,
                                             probes: seq<int>, q: int)
    requires g.Valid() && g.Len() > 0
    requires q in probes && g.FindDist(q as real, true, root).value.Some?
    ensures var r := MarkersAt(m, g, root, probes);
            exists k :: 0 <= k < |r| && r[k].dist == q
  {
    var init, p := probes[..|probes| - 1], probes[|probes| - 1];
    assert probes == init + [p];
    MarkersAtSnoc(m, g, root, init, p);
    var rest := MarkersAt(m, g, root, init);
    var r := MarkersAt(m, g, root, probes);
    var last := MarkerAt(m, g, root, p);
    if q in init {
      MarkersAtComplete(m, g, root, init, q);
      var k :| 0 <= k < |rest| && rest[k].dist == q;
      assert r[k] == rest[k];
    } else {
      assert q == p && last.Some?;
      assert r == rest + [last.value];
      assert r[|rest|].dist == q;
    }
  }

  /** The members of a range with a positive step are exactly start + k * step below stop. */
  lemma RangeMembers(start: int, stop: int, step: int, v: int)
    requires step > 0
    ensures v in Range(start, stop, step) <==> exists k: nat :: v == start + k * step && v < stop
  {
    var r := Range(start, stop, step);
    RangeElements(start, stop, step);
    if v in r {
      var k :| 0 <= k < |r| && r[k] == v;
      assert v == start + k * step;
    }
    if exists k: nat :: v == start + k * step && v < stop {
      var k: nat :| v == start + k * step && v < stop;
      if k >= |r| {
        MulMonotone(k, |r|, step);
      }
      assert r[k] == v;
    }
  }

  lemma MulMonotone(a: int, b: int, c: int)
    requires a >= b && c >= 0
    ensures a * c >= b * c
  {
  }

  predicate Increasing(s: seq<int>) {
    forall i, j :: 0 <= i < j < |s| ==> s[i] < s[j]
  }

  /** A range with a positive step is strictly increasing. */
  lemma RangeIncreasing(start: int, stop: int, step: int)
    requires step > 0
    ensures Increasing(Range(start, stop, step))
  {
    var r := Range(start, stop, step);
    RangeElements(start, stop, step);
    forall i, j | 0 <= i < j < |r|
      ensures r[i] < r[j]
    {
      MulMonotone(j - i, 1, step);
      assert j * step == i * step + (j - i) * step;
    }
  }

  /** Strictly increasing distances. */
  predicate MarkersIncreasing(r: seq<Marker>) {
    forall i, j :: 0 <= i < j < |r| ==> r[i].dist < r[j].dist
  }

  /** An increasing list without its last element is increasing and below that element. */
  lemma IncreasingInit(probes: seq<int>)
    requires Increasing(probes) && probes != []
    ensures Increasing(probes[..|probes| - 1])
    ensures var init := probes[..|probes| - 1];
            forall k :: 0 <= k < |init| ==> init[k] < probes[|probes| - 1]
  {
  }

  /** A marker past every distance of an increasing list of markers extends it increasingly. */
  lemma MarkersIncreasingSnoc(rest: seq<Marker>, last: Marker, below: seq<int>)
    requires MarkersIncreasing(rest)
    requires forall k :: 0 <= k < |rest| ==> rest[k].dist in below
    requires forall k :: 0 <= k < |below| ==> below[k] < last.dist
    ensures MarkersIncreasing(rest + [last])
  {
    var r := rest + [last];
    forall i, j | 0 <= i < j < |r|
      ensures r[i].dist < r[j].dist
    {
      assert r[i] == rest[i];
      if j < |rest| {
        assert r[j] == rest[j];
      }
    }
  }

  /** The markers keep the probes' order: over increasing probes their distances increase. */
  lemma {:induction false} MarkersAtIncreasing(m: Transcendentals, g: GeoData, root: (GeoCoord, GeoCoord, real) -> real,
                                               probes: seq<int>)
    requires g.Valid() && g.Len() > 0 && Increasing(probes)
    ensures MarkersIncreasing(MarkersAt(m, g, root, probes))
  {
    if probes != [] {
      var init, p := probes[..|probes| - 1], probes[|probes| - 1];
      IncreasingInit(probes);
      MarkersAtIncreasing(m, g, root, init);
      MarkersAtProbes(m, g, root, init);
      assert forall k :: 0 <= k < |MarkersAt(m, g, root, init)| ==> MarkersAt(m, g, root, init)[k].dist in init;
      var last := MarkerAt(m, g, root, p);
      if last.Some? {
        MarkersIncreasingSnoc(MarkersAt(m, g, root, init), last.value, init);
      }
    }
  }

  /** The probe distances of `route`: `range(int(min dist), int(max dist) + 1, delta)`. */
  function Probes(g: GeoData, delta: int): (r: seq<int>)
    requires g.Valid() && g.Len() > 0 && delta != 0
  {
    Range(Trunc(SeqMin(g.dist)), Trunc(SeqMax(g.dist)) + 1, delta)
  }

  /** For a positive spacing the probes run from int(min dist) in steps of delta, none past
      int(max dist), and the next step would be past it. */
  lemma ProbesElements(g: GeoData, delta: int)
    requires g.Valid() && g.Len() > 0 && delta > 0
    ensures var r, lo, hi := Probes(g, delta), Trunc(SeqMin(g.dist)), Trunc(SeqMax(g.dist));
            && (forall k :: 0 <= k < |r| ==> r[k] == lo + k * delta <= hi)
            && lo + |r| * delta > hi
  {
    var lo, hi := Trunc(SeqMin(g.dist)), Trunc(SeqMax(g.dist));
    RangeThrough(lo, hi, delta);
    assert Probes(g, delta) == Range(lo, hi + 1, delta);
  }

  /** For a positive spacing the probes strictly increase. */
  lemma ProbesIncreasing(g: GeoData, delta: int)
    requires g.Valid() && g.Len() > 0 && delta > 0
    ensures Increasing(Probes(g, delta))
  {
    RangeIncreasing(Trunc(SeqMin(g.dist)), Trunc(SeqMax(g.dist)) + 1, delta);
  }

  /** RangeElements for a range that stops just past hi. */
  lemma RangeThrough(lo: int, hi: int, step: int)
    requires step > 0
    ensures var r := Range(lo, hi + 1, step);
            && (forall k :: 0 <= k < |r| ==> r[k] == lo + k * step <= hi)
            && lo + |r| * step > hi
  {
    var r := Range(lo, hi + 1, step);
    RangeElements(lo, hi + 1, step);
    var n := |r| * step;
    assert lo + n >= hi + 1;
    forall k | 0 <= k < |r|
      ensures r[k] == lo + k * step <= hi
    {
      assert r[k] < hi + 1;
    }
  }

  /** A successful route's markers are the markers of its probes. */
  lemma RouteMarkersAre(sheet: Map, m: Transcendentals, g: GeoData, root: (GeoCoord, GeoCoord, real) -> real)
    requires g.Valid() && sheet.RouteMarkers(m, g, root).Success?
    ensures g.Len() > 0 && sheet.MarkerDelta().Success? && sheet.MarkerDelta().value != 0
    ensures sheet.RouteMarkers(m, g, root).value == MarkersAt(m, g, root, Probes(g, sheet.MarkerDelta().value))
  {
  }

  /** Every marker of `route` is at a probe of its range that find_dist answers. */
  lemma RouteMarkersSound(sheet: Map, m: Transcendentals, g: GeoData, root: (GeoCoord, GeoCoord, real) -> real)
    requires g.Valid() && sheet.RouteMarkers(m, g, root).Success?
    ensures g.Len() > 0 && sheet.MarkerDelta().Success? && sheet.MarkerDelta().value != 0
    ensures var r, probes := sheet.RouteMarkers(m, g, root).value, Probes(g, sheet.MarkerDelta().value);
            forall k :: 0 <= k < |r| ==> r[k].dist in probes && g.FindDist(r[k].dist as real, true, root).value.Some?
  {
    RouteMarkersAre(sheet, m, g, root);
    MarkersAtSound(m, g, root, Probes(g, sheet.MarkerDelta().value));
  }

  /** Every probe of `route` that find_dist answers has a marker. */
  lemma RouteMarkersComplete(sheet: Map, m: Transcendentals, g: GeoData, root: (GeoCoord, GeoCoord, real) -> real, q: int)
    requires g.Valid() && sheet.RouteMarkers(m, g, root).Success?
    requires q in Probes(g, sheet.MarkerDelta().value) && g.FindDist(q as real, true, root).value.Some?
    ensures var r := sheet.RouteMarkers(m, g, root).value;
            exists k :: 0 <= k < |r| && r[k].dist == q
  {
    RouteMarkersAre(sheet, m, g, root);
    MarkersAtComplete(m, g, root, Probes(g, sheet.MarkerDelta().value), q);
  }

  /** For a positive spacing the markers of `route` come in increasing order of distance. */
  lemma RouteMarkersIncreasing(sheet: Map, m: Transcendentals, g: GeoData, root: (GeoCoord, GeoCoord, real) -> real)
    requires g.Valid() && sheet.RouteMarkers(m, g, root).Success? && sheet.MarkerDelta().value > 0
    ensures MarkersIncreasing(sheet.RouteMarkers(m, g, root).value)
  {
    RouteMarkersAre(sheet, m, g, root);
    var delta := sheet.MarkerDelta().value;
    ProbesIncreasing(g, delta);
    MarkersAtIncreasing(m, g, root, Probes(g, delta));
  }

}

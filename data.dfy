/**
 * data.py: a GPS track as five parallel arrays (latitude, longitude, Mercator x and y, cumulative
 * distance), built from a list of coordinates, with its bounding values, its cutting into
 * page-sized pieces and the lookup of the point at a given distance along it.
 */
module Data {
  import opened Wrappers
  import opened Numerics
  import opened Arrays
  import opened Units

  /** The five values the track stores for one point. */
  datatype Sample = Sample(lat: real, lon: real, x: real, y: real, dist: real)

  /** GeoData: numpy arrays are sequences; `len` is the common length. */
  datatype GeoData = GeoData(lat: seq<real>, lon: seq<real>, x: seq<real>, y: seq<real>, dist: seq<real>) {

    /** The invariant __init__ enforces: all five arrays have the same size. */
    predicate Valid() {
      |lon| == |lat| && |x| == |lat| && |y| == |lat| && |dist| == |lat|
    }

    function Len(): nat { |lat| }

    function At(k: nat): Sample
      requires Valid() && k < Len()
    {
      Sample(lat[k], lon[k], x[k], y[k], dist[k])
    }

    function Coord(k: nat): GeoCoord
      requires Valid() && k < Len()
    {
      GeoCoord(lat[k], lon[k])
    }

    function First(): Sample
      requires Valid() && Len() > 0
    {
      At(0)
    }

    function Last(): Sample
      requires Valid() && Len() > 0
    {
      At(Len() - 1)
    }

    /** `array[p:]` on every field. */
    function Drop(p: nat): (r: GeoData)
      requires Valid() && p <= Len()
      ensures r.Valid() && r.Len() == Len() - p
      ensures forall k :: 0 <= k < r.Len() ==> r.At(k) == At(p + k)
    {
      GeoData(lat[p..], lon[p..], x[p..], y[p..], dist[p..])
    }

    /** `array[:n]` on every field. */
    function Take(n: nat): (r: GeoData)
      requires Valid() && n <= Len()
      ensures r.Valid() && r.Len() == n
      ensures forall k :: 0 <= k < n ==> r.At(k) == At(k)
    {
      GeoData(lat[..n], lon[..n], x[..n], y[..n], dist[..n])
    }

    /** `np.insert(array, 0, v)` on every field. */
    function Prepend(s: Sample): (r: GeoData)
      requires Valid()
      ensures r.Valid() && r.Len() == Len() + 1 && r.At(0) == s
      ensures forall k :: 0 <= k < Len() ==> r.At(k + 1) == At(k)
    {
      GeoData([s.lat] + lat, [s.lon] + lon, [s.x] + x, [s.y] + y, [s.dist] + dist)
    }

    /** `np.append(array, v)` on every field. */
    function Append(s: Sample): (r: GeoData)
      requires Valid()
      ensures r.Valid() && r.Len() == Len() + 1 && r.At(Len()) == s
      ensures forall k :: 0 <= k < Len() ==> r.At(k) == At(k)
    {
      GeoData(lat + [s.lat], lon + [s.lon], x + [s.x], y + [s.y], dist + [s.dist])
    }

    /** GeoData.min: the smallest latitude and the smallest longitude (np.min of an empty array
        raises ValueError). */
    function Min(): (r: Result<GeoCoord>)
      requires Valid()
      ensures r.Failure? <==> Len() == 0
      ensures r.Failure? ==> r.error == ValueError
      ensures r.Success? ==> r.value.lat in lat && r.value.lon in lon
      ensures r.Success? ==> forall k :: 0 <= k < Len() ==> r.value.lat <= lat[k] && r.value.lon <= lon[k]
    {
      if Len() == 0 then Failure(ValueError) else Success(GeoCoord(SeqMin(lat), SeqMin(lon)))
    }

    /** GeoData.max: the largest latitude and the largest longitude. */
    function Max(): (r: Result<GeoCoord>)
      requires Valid()
      ensures r.Failure? <==> Len() == 0
      ensures r.Failure? ==> r.error == ValueError
      ensures r.Success? ==> r.value.lat in lat && r.value.lon in lon
      ensures r.Success? ==> forall k :: 0 <= k < Len() ==> lat[k] <= r.value.lat && lon[k] <= r.value.lon
    {
      if Len() == 0 then Failure(ValueError) else Success(GeoCoord(SeqMax(lat), SeqMax(lon)))
    }

    /** GeoData.mean: `(min + max) / 2`, the centre of the bounding box. */
    function Mean(): (r: Result<GeoCoord>)
      requires Valid()
      ensures r.Failure? <==> Len() == 0
      ensures r.Failure? ==> r.error == ValueError
      ensures r.Success? ==> r.value.lat == (Min().value.lat + Max().value.lat) / 2.0
      ensures r.Success? ==> r.value.lon == (Min().value.lon + Max().value.lon) / 2.0
      ensures r.Success? ==> Min().value.lat <= r.value.lat <= Max().value.lat &&
                             Min().value.lon <= r.value.lon <= Max().value.lon
    {
      if Len() == 0 then Failure(ValueError) else Min().value.Add(Max().value).Div(Number(2.0))
    }

    /** GeoData.find_dist: the first sample whose cumulative distance exceeds `target`, or, when
        `interpolate` holds, the point on the leg before it placed by the root finder's
        parameter. None when no sample exceeds the target or the very first one already does.
        np.argmax on an empty array raises ValueError. `root(g1, g2, d)` is what the numerical
        solver returns for the error function of the leg g1 -> g2 and the remaining distance d. */
    function FindDist(target: real, interpolate: bool, root: (GeoCoord, GeoCoord, real) -> real)
      : (r: Result<Option<GeoCoord>>)
      requires Valid()
      ensures r.Failure? <==> Len() == 0
      ensures r.Failure? ==> r.error == ValueError
      ensures r.Success? ==>
                (r.value.None? <==> dist[0] > target || forall k :: 0 <= k < Len() ==> dist[k] <= target)
    {
      if Len() == 0 then Failure(ValueError)
      else
        var i := ArgMax(Greater(dist, target));
        if i == 0 then Success(None)
        else
          var g1 := Coord(i - 1);
          var g2 := Coord(i);
          if !interpolate then Success(Some(g2))
          else
            var t := Abs(root(g1, g2, dist[i] - target));
            Success(Some(GeoInterpolate(g2, g1, t)))
    }

    /** Sample i is the first past the target, and p is that sample or, when interpolating, its
        interpolation towards sample i - 1 by the solver's |t|. */
    predicate FoundAt(target: real, interpolate: bool, root: (GeoCoord, GeoCoord, real) -> real, i: int, p: GeoCoord)
      requires Valid()
    {
      && 0 < i < Len() && (forall k :: 0 <= k < i ==> dist[k] <= target) && target < dist[i]
      && p == if interpolate
              then GeoInterpolate(Coord(i), Coord(i - 1), Abs(root(Coord(i - 1), Coord(i), dist[i] - target)))
              else Coord(i)
    }

    /** What find_dist finds is described by FoundAt. */
    lemma FindDistFound(target: real, interpolate: bool, root: (GeoCoord, GeoCoord, real) -> real)
      requires Valid() && Len() > 0 && FindDist(target, interpolate, root).value.Some?
      ensures exists i :: FoundAt(target, interpolate, root, i, FindDist(target, interpolate, root).value.value)
    {
      var mask := Greater(dist, target);
      var i := ArgMax(mask);
      assert i != 0;
      assert mask[i] && forall k :: 0 <= k < i ==> !mask[k];
      assert FoundAt(target, interpolate, root, i, FindDist(target, interpolate, root).value.value);
    }

    /** GeoData.segment(dx, dy): cut the track into pieces each fitting a dx-by-dy Mercator box.
        Each round takes the rest of the track (after the first round, behind the last cut
        point), finds the first index where the running x- or y-span exceeds its bound, cuts
        the leg before it where the span equals the bound, and moves the cursor by idx - 1.
        A round that would reproduce its own input (a cut at index 1 on the first round, or a
        cut point equal to the previous one) repeats forever in the source and is reported as
        Diverges; `fuel` bounds the number of rounds otherwise. */
    method Segment(m: Transcendentals, dx: real, dy: real, fuel: nat) returns (r: Result<seq<GeoData>>)
      requires Valid()
      ensures (r.Failure? && r.error == ValueError) <==> Len() == 0
      ensures Len() == 1 ==> r == Success([])
      ensures Len() >= 2 && FindCut(m, this, dx, dy).NoCut? ==> r == Failure(UnboundLocalError)
      ensures Len() >= 2 && FindCut(m, this, dx, dy).Cut? && FindCut(m, this, dx, dy).idx == 1 ==>
                r == Failure(Diverges)
      ensures r.Success? && Len() >= 2 ==> |r.value| >= 1
      ensures r.Success? ==> Chained(r.value, First(), dx, dy) && ReachesEnd(m, r.value, Last(), dx, dy)
      ensures r == Segments(m, this, dx, dy, fuel)
    {
      label cutting: {
        if Len() == 0 {
          r := Failure(ValueError);
          break cutting;
        }
        PrefixedNothing(Pieces(m, this, dx, dy, 0, None, fuel));
        var segs: seq<GeoData> := [];
        var prev: nat := 0;
        var carry: Option<Sample> := None;
        var rounds: nat := fuel;
        while true
          invariant prev < Len() && (prev == 0) == carry.None?
          invariant Unrolled(m, this, dx, dy, fuel, segs, prev, carry, rounds)
          decreases rounds
        {
          var w := Rest(prev, carry);
          var c := FindCut(m, w, dx, dy);
          if c.NoCut? {
            PiecesLast(m, this, dx, dy, prev, carry, rounds);
            break;
          }
          if Repeats(prev, carry, c) {
            PiecesUnfold(m, this, dx, dy, prev, carry, rounds);
            r := Failure(Diverges);
            break cutting;
          }
          if rounds == 0 {
            PiecesUnfold(m, this, dx, dy, prev, carry, rounds);
            r := Failure(OutOfFuel);
            break cutting;
          }
          RoundUnrolls(m, this, dx, dy, fuel, segs, prev, carry, rounds, w, c);
          ghost var segs0, prev0, carry0, rounds0 := segs, prev, carry, rounds;
          segs := segs + [Piece(m, w, dx, dy)];
          prev := prev + c.idx - 1;
          carry := Some(c.point);
          rounds := Less(rounds);
          UnrolledNext(m, this, dx, dy, fuel, segs0, prev0, carry0, rounds0, w, c, segs, prev, carry, rounds);
        }
        if prev == Len() - 1 {
          PrefixedTo(segs);
          r := Success(segs);
        } else if carry.None? {
          r := Failure(UnboundLocalError);
        } else {
          r := Success(segs + [Rest(prev, carry)]);
        }
      }
      SegmentsOutcome(m, this, dx, dy, fuel);
    }

    /** The samples a round of segment works on: the whole track in the first round, afterwards
        the previous cut point followed by the samples from the cursor on. */
    function Rest(prev: nat, carry: Option<Sample>): (w: GeoData)
      requires Valid() && prev < Len() && (prev == 0) == carry.None?
      ensures w.Valid() && w.Len() >= 1 && w.Last() == Last()
      ensures w.First() == if prev == 0 then First() else carry.value
      ensures w.Len() == if prev == 0 then Len() else Len() - prev + 1
      ensures prev == 0 ==> w == this
      ensures prev > 0 ==> forall k :: 0 < k < w.Len() ==> w.At(k) == At(prev + k - 1)
    {
      if prev == 0 then this
      else
        ResumeLast(this, prev, carry.value);
        Drop(prev).Prepend(carry.value)
    }
  }

  /** The piece a round cuts off: the samples before the cut index followed by the cut point;
      it starts where the window starts, ends at the cut point and has the footprint. */
  function Piece(m: Transcendentals, w: GeoData, dx: real, dy: real): (p: GeoData)
    requires w.Valid() && w.Len() > 0 && FindCut(m, w, dx, dy).Cut?
    ensures p.Valid() && p.Len() >= 2 && p.First() == w.First() && p.Last() == FindCut(m, w, dx, dy).point
    ensures p.Len() == FindCut(m, w, dx, dy).idx + 1
    ensures forall k :: 0 <= k < FindCut(m, w, dx, dy).idx ==> p.At(k) == w.At(k)
    ensures dx >= 0.0 && dy >= 0.0 ==> Footprint(p, dx, dy)
  {
    var c := FindCut(m, w, dx, dy);
    var p := w.Take(c.idx).Append(c.point);
    TakeAppend(w, c.idx, c.point);
    if dx >= 0.0 && dy >= 0.0 then
      CutFootprint(m, w, dx, dy);
      p
    else
      p
  }

  /** The state of segment between rounds: the cursor prev is on the track, the first round is
      still to come exactly when no piece has been cut and no cut point is carried, after it the
      track's own first round cut at index 2 or later, the pieces are chained from the track's
      first sample, and the last of them ends at the carried cut point. */
  ghost predicate Segmenting(m: Transcendentals, s: GeoData, segs: seq<GeoData>, prev: nat, carry: Option<Sample>,
                             dx: real, dy: real)
    requires s.Valid()
  {
    && prev < s.Len()
    && (prev == 0) == (segs == []) && (prev == 0) == carry.None?
    && (prev > 0 ==> FindCut(m, s, dx, dy).Cut? && FindCut(m, s, dx, dy).idx >= 2)
    && Chained(segs, s.First(), dx, dy)
    && (carry.Some? ==> segs[|segs| - 1].Last() == carry.value)
  }

  /** A round of segment that cuts, and does not cut at index 1 on the first round, keeps
      Segmenting: the cursor moves forward by idx - 1 and the piece is chained on. */
  lemma RoundKeeps(m: Transcendentals, s: GeoData, segs: seq<GeoData>, prev: nat, carry: Option<Sample>,
                   dx: real, dy: real)
    requires s.Valid() && Segmenting(m, s, segs, prev, carry, dx, dy)
    requires FindCut(m, s.Rest(prev, carry), dx, dy).Cut?
    requires prev == 0 ==> FindCut(m, s.Rest(prev, carry), dx, dy).idx != 1
    ensures var w := s.Rest(prev, carry);
            var c := FindCut(m, w, dx, dy);
            Segmenting(m, s, segs + [Piece(m, w, dx, dy)], prev + c.idx - 1, Some(c.point), dx, dy)
  {
    var w := s.Rest(prev, carry);
    var c := FindCut(m, w, dx, dy);
    var piece := Piece(m, w, dx, dy);
    ChainedSnoc(segs, piece, s.First(), dx, dy);
    assert (segs + [piece])[|segs|] == piece;
  }

  /** What segment returns, as a function of the track: ValueError on an empty track (np.argmax
      of an empty mask), otherwise the rounds from the track's start. */
  function Segments(m: Transcendentals, s: GeoData, dx: real, dy: real, fuel: nat): Result<seq<GeoData>>
    requires s.Valid()
  {
    if s.Len() == 0 then Failure(ValueError) else Pieces(m, s, dx, dy, 0, None, fuel)
  }

  /** The rounds of segment from the cursor prev with the carried cut point carry, with at most
      fuel more cutting rounds: the pieces they emit, or how the loop fails. Pieces and
      PiecesOf recurse into each other so that a mention of Pieces does not unfold a round;
      PiecesUnfold and PiecesStep do that one round at a time. */
  function Pieces(m: Transcendentals, s: GeoData, dx: real, dy: real, prev: nat, carry: Option<Sample>, fuel: nat)
    : Result<seq<GeoData>>
    requires s.Valid() && prev < s.Len() && (prev == 0) == carry.None?
    decreases fuel, 1
  {
    PiecesOf(m, s, dx, dy, prev, carry, s.Rest(prev, carry), fuel)
  }

  /** One round of segment on its window w. A round without a cut ends the loop: with nothing
      more when the cursor is on the last sample, with UnboundLocalError when no cut point was
      ever made, and otherwise with the rest of the track behind the carried cut point. A round
      that would reproduce its own window diverges. */
  function PiecesOf(m: Transcendentals, s: GeoData, dx: real, dy: real, prev: nat, carry: Option<Sample>,
                    w: GeoData, fuel: nat): Result<seq<GeoData>>
    requires s.Valid() && prev < s.Len() && (prev == 0) == carry.None? && w == s.Rest(prev, carry)
    decreases fuel, 0
  {
    var c := FindCut(m, w, dx, dy);
    if c.NoCut? then
      if prev == s.Len() - 1 then Success([])
      else if carry.None? then Failure(UnboundLocalError)
      else Success([w])
    else if Repeats(prev, carry, c) then Failure(Diverges)
    else if fuel == 0 then Failure(OutOfFuel)
    else
      Prefixed([Piece(m, w, dx, dy)], Pieces(m, s, dx, dy, prev + c.idx - 1, Some(c.point), Less(fuel)))
  }

  function Less(n: nat): (r: nat)
    requires n > 0
    ensures r < n
  {
    n - 1
  }

  /** Pieces is the round on the window at the cursor. */
  lemma PiecesUnfold(m: Transcendentals, s: GeoData, dx: real, dy: real, prev: nat, carry: Option<Sample>, fuel: nat)
    requires s.Valid() && prev < s.Len() && (prev == 0) == carry.None?
    ensures Pieces(m, s, dx, dy, prev, carry, fuel) == PiecesOf(m, s, dx, dy, prev, carry, s.Rest(prev, carry), fuel)
  {
  }

  /** A cut at index 1 reproduces the round's own window: on the first round the piece would
      be the first sample and the cut point, then the same window again; later the window is
      unchanged when the cut point is the carried one. */
  predicate Repeats(prev: nat, carry: Option<Sample>, c: Cut)
    requires (prev == 0) == carry.None? && c.Cut?
  {
    c.idx == 1 && (prev == 0 || (c.point.x == carry.value.x && c.point.y == carry.value.y))
  }

  /** The loop of segment so far: what the whole loop returns is the pieces emitted so far
      followed by the outcome of the rounds still to come. */
  ghost predicate Unrolled(m: Transcendentals, s: GeoData, dx: real, dy: real, fuel: nat, segs: seq<GeoData>,
                           prev: nat, carry: Option<Sample>, rounds: nat)
    requires s.Valid() && prev < s.Len() && (prev == 0) == carry.None?
  {
    Pieces(m, s, dx, dy, 0, None, fuel) == Prefixed(segs, Pieces(m, s, dx, dy, prev, carry, rounds))
  }

  /** A cutting round that does not reproduce its window emits its piece and leaves the rounds
      from the moved cursor, with one round less, to come. */
  lemma RoundUnrolls(m: Transcendentals, s: GeoData, dx: real, dy: real, fuel: nat, segs: seq<GeoData>,
                     prev: nat, carry: Option<Sample>, rounds: nat, w: GeoData, c: Cut)
    requires s.Valid() && prev < s.Len() && (prev == 0) == carry.None? && rounds > 0
    requires Unrolled(m, s, dx, dy, fuel, segs, prev, carry, rounds)
    requires w == s.Rest(prev, carry) && c == FindCut(m, w, dx, dy) && c.Cut? && !Repeats(prev, carry, c)
    ensures 0 < prev + c.idx - 1 < s.Len()
    ensures Unrolled(m, s, dx, dy, fuel, segs + [Piece(m, w, dx, dy)], prev + c.idx - 1, Some(c.point), Less(rounds))
  {
    PiecesStep(m, s, dx, dy, prev, carry, rounds);
    PrefixedSnoc(segs, Piece(m, w, dx, dy), Pieces(m, s, dx, dy, prev + c.idx - 1, Some(c.point), Less(rounds)));
  }

  /** Unrolled for the state the loop body assigns, once RoundUnrolls has proved it for the
      state's expressions. */
  lemma UnrolledNext(m: Transcendentals, s: GeoData, dx: real, dy: real, fuel: nat, segs: seq<GeoData>,
                     prev: nat, carry: Option<Sample>, rounds: nat, w: GeoData, c: Cut,
                     segs': seq<GeoData>, prev': nat, carry': Option<Sample>, rounds': nat)
    requires s.Valid() && rounds > 0 && w.Valid() && w.Len() > 0 && c == FindCut(m, w, dx, dy) && c.Cut?
    requires 0 < prev + c.idx - 1 < s.Len()
    requires Unrolled(m, s, dx, dy, fuel, segs + [Piece(m, w, dx, dy)], prev + c.idx - 1, Some(c.point), Less(rounds))
    requires segs' == segs + [Piece(m, w, dx, dy)] && prev' == prev + c.idx - 1 && carry' == Some(c.point) && rounds' == Less(rounds)
    ensures Unrolled(m, s, dx, dy, fuel, segs', prev', carry', rounds')
  {
  }

  /** The round without a cut ends the rounds. */
  lemma PiecesLast(m: Transcendentals, s: GeoData, dx: real, dy: real, prev: nat, carry: Option<Sample>, rounds: nat)
    requires s.Valid() && prev < s.Len() && (prev == 0) == carry.None?
    requires FindCut(m, s.Rest(prev, carry), dx, dy).NoCut?
    ensures Pieces(m, s, dx, dy, prev, carry, rounds)
            == if prev == s.Len() - 1 then Success([])
               else if carry.None? then Failure(UnboundLocalError)
               else Success([s.Rest(prev, carry)])
  {
    PiecesUnfold(m, s, dx, dy, prev, carry, rounds);
  }

  /** Pieces unrolled by one cutting round. */
  lemma PiecesStep(m: Transcendentals, s: GeoData, dx: real, dy: real, prev: nat, carry: Option<Sample>, rounds: nat)
    requires s.Valid() && prev < s.Len() && (prev == 0) == carry.None? && rounds > 0
    requires var c := FindCut(m, s.Rest(prev, carry), dx, dy);
             c.Cut? && !Repeats(prev, carry, c)
    ensures var w := s.Rest(prev, carry);
            var c := FindCut(m, w, dx, dy);
            && 0 < prev + c.idx - 1 < s.Len()
            && Pieces(m, s, dx, dy, prev, carry, rounds)
               == Prefixed([Piece(m, w, dx, dy)], Pieces(m, s, dx, dy, prev + c.idx - 1, Some(c.point), Less(rounds)))
  {
    CursorAdvances(m, s, dx, dy, prev, carry);
  }

  /** A cutting round that does not reproduce its window leaves the cursor on the track, past
      its first sample. */
  lemma CursorAdvances(m: Transcendentals, s: GeoData, dx: real, dy: real, prev: nat, carry: Option<Sample>)
    requires s.Valid() && prev < s.Len() && (prev == 0) == carry.None?
    requires var c := FindCut(m, s.Rest(prev, carry), dx, dy);
             c.Cut? && !Repeats(prev, carry, c)
    ensures 0 < prev + FindCut(m, s.Rest(prev, carry), dx, dy).idx - 1 < s.Len()
  {
  }

  /** What segment promises of its outcome: ValueError exactly on an empty track; a single
      sample gives no pieces; a longer track that already fits the box, or whose first cut is
      at index 1, fails; otherwise a successful outcome has at least one piece, and its pieces
      are chained from the track's first sample and reach its end. */
  lemma SegmentsOutcome(m: Transcendentals, s: GeoData, dx: real, dy: real, fuel: nat)
    requires s.Valid()
    ensures var r := Segments(m, s, dx, dy, fuel);
            && ((r.Failure? && r.error == ValueError) <==> s.Len() == 0)
            && (s.Len() == 1 ==> r == Success([]))
            && (s.Len() >= 2 && FindCut(m, s, dx, dy).NoCut? ==> r == Failure(UnboundLocalError))
            && (s.Len() >= 2 && FindCut(m, s, dx, dy).Cut? && FindCut(m, s, dx, dy).idx == 1 ==> r == Failure(Diverges))
            && (r.Success? && s.Len() >= 2 ==> |r.value| >= 1)
            && (r.Success? ==> Chained(r.value, s.First(), dx, dy) && ReachesEnd(m, r.value, s.Last(), dx, dy))
  {
    if s.Len() > 0 {
      FirstRound(m, s, dx, dy, fuel);
      SegmentsKept(m, s, dx, dy, fuel);
    }
  }

  /** The first round of segment, on the whole track. */
  lemma FirstRound(m: Transcendentals, s: GeoData, dx: real, dy: real, fuel: nat)
    requires s.Valid() && s.Len() > 0
    ensures var r := Pieces(m, s, dx, dy, 0, None, fuel);
            && (s.Len() == 1 ==> r == Success([]))
            && (s.Len() >= 2 && FindCut(m, s, dx, dy).NoCut? ==> r == Failure(UnboundLocalError))
            && (s.Len() >= 2 && FindCut(m, s, dx, dy).Cut? && FindCut(m, s, dx, dy).idx == 1 ==> r == Failure(Diverges))
  {
    PiecesUnfold(m, s, dx, dy, 0, None, fuel);
  }

  /** The outcome of segment on a non-empty track keeps its promise. */
  lemma SegmentsKept(m: Transcendentals, s: GeoData, dx: real, dy: real, fuel: nat)
    requires s.Valid() && s.Len() > 0
    ensures Kept(m, s, dx, dy, Pieces(m, s, dx, dy, 0, None, fuel))
  {
    PrefixedNothing(Pieces(m, s, dx, dy, 0, None, fuel));
    PiecesKeep(m, s, dx, dy, [], 0, None, fuel);
    assert KeptAfter(m, s, dx, dy, [], 0, None, fuel);
  }

  /** What segment promises of an outcome on the track s: on success the pieces are chained
      from the track's first sample and reach its end; a failure is never ValueError. */
  ghost predicate Kept(m: Transcendentals, s: GeoData, dx: real, dy: real, r: Result<seq<GeoData>>)
    requires s.Valid() && s.Len() > 0
  {
    && (r.Success? ==> Chained(r.value, s.First(), dx, dy) && ReachesEnd(m, r.value, s.Last(), dx, dy))
    && (r.Success? && s.Len() >= 2 ==> |r.value| >= 1)
    && (r.Failure? ==> r.error != ValueError)
  }

  /** Kept for the pieces segs followed by the rounds from the cursor prev. */
  ghost predicate KeptAfter(m: Transcendentals, s: GeoData, dx: real, dy: real, segs: seq<GeoData>,
                            prev: nat, carry: Option<Sample>, rounds: nat)
    requires s.Valid() && prev < s.Len() && (prev == 0) == carry.None?
  {
    Kept(m, s, dx, dy, Prefixed(segs, Pieces(m, s, dx, dy, prev, carry, rounds)))
  }

  /** PiecesKeep for a cutting round that does not reproduce its window. */
  lemma {:induction false} PiecesCutKeeps(m: Transcendentals, s: GeoData, dx: real, dy: real, segs: seq<GeoData>,
                                          prev: nat, carry: Option<Sample>, rounds: nat)
    requires s.Valid() && Segmenting(m, s, segs, prev, carry, dx, dy) && rounds > 0
    requires var c := FindCut(m, s.Rest(prev, carry), dx, dy);
             c.Cut? && !Repeats(prev, carry, c)
    ensures KeptAfter(m, s, dx, dy, segs, prev, carry, rounds)
    decreases rounds, 0
  {
    var segs', prev', carry', rounds' := Advance(m, s, dx, dy, segs, prev, carry, rounds);
    PiecesKeep(m, s, dx, dy, segs', prev', carry', rounds');
    KeptBack(m, s, dx, dy, segs, prev, carry, rounds, segs', prev', carry', rounds');
  }

  /** The state after a cutting round that does not reproduce its window: the piece is
      appended, the cursor moves forward by idx - 1 onto the cut point, one round is spent,
      and Segmenting still holds. */
  lemma Advance(m: Transcendentals, s: GeoData, dx: real, dy: real, segs: seq<GeoData>,
                prev: nat, carry: Option<Sample>, rounds: nat)
    returns (segs': seq<GeoData>, prev': nat, carry': Option<Sample>, rounds': nat)
    requires s.Valid() && Segmenting(m, s, segs, prev, carry, dx, dy) && rounds > 0
    requires var c := FindCut(m, s.Rest(prev, carry), dx, dy);
             c.Cut? && !Repeats(prev, carry, c)
    ensures var w := s.Rest(prev, carry);
            var c := FindCut(m, w, dx, dy);
            && segs' == segs + [Piece(m, w, dx, dy)] && prev' == prev + c.idx - 1
            && carry' == Some(c.point) && rounds' == Less(rounds)
    ensures Segmenting(m, s, segs', prev', carry', dx, dy)
  {
    var w := s.Rest(prev, carry);
    var c := FindCut(m, w, dx, dy);
    RoundKeeps(m, s, segs, prev, carry, dx, dy);
    segs', prev', carry', rounds' := segs + [Piece(m, w, dx, dy)], prev + c.idx - 1, Some(c.point), Less(rounds);
  }

  /** KeptAfter after a cutting round that does not reproduce its window carries back to the
      state before the round. */
  lemma KeptBack(m: Transcendentals, s: GeoData, dx: real, dy: real, segs: seq<GeoData>,
                 prev: nat, carry: Option<Sample>, rounds: nat,
                 segs': seq<GeoData>, prev': nat, carry': Option<Sample>, rounds': nat)
    requires s.Valid() && prev < s.Len() && (prev == 0) == carry.None? && rounds > 0
    requires var c := FindCut(m, s.Rest(prev, carry), dx, dy);
             c.Cut? && !Repeats(prev, carry, c)
    requires var w := s.Rest(prev, carry);
             var c := FindCut(m, w, dx, dy);
             && segs' == segs + [Piece(m, w, dx, dy)] && prev' == prev + c.idx - 1
             && carry' == Some(c.point) && rounds' == Less(rounds)
    requires prev' < s.Len() && (prev' == 0) == carry'.None?
    requires KeptAfter(m, s, dx, dy, segs', prev', carry', rounds')
    ensures KeptAfter(m, s, dx, dy, segs, prev, carry, rounds)
  {
    var w := s.Rest(prev, carry);
    var c := FindCut(m, w, dx, dy);
    ghost var outcome, next := Pieces(m, s, dx, dy, prev, carry, rounds), Pieces(m, s, dx, dy, prev', carry', rounds');
    Unroll(m, s, dx, dy, prev, carry, rounds, prev', carry', rounds', outcome, next);
    KeptPrefix(m, s, dx, dy, segs, Piece(m, w, dx, dy), outcome, next);
  }

  /** PiecesStep for outcomes named by ghost variables: the rounds from the cursor are the
      round's piece followed by the rounds from the moved cursor. */
  lemma Unroll(m: Transcendentals, s: GeoData, dx: real, dy: real, prev: nat, carry: Option<Sample>, rounds: nat,
                prev': nat, carry': Option<Sample>, rounds': nat, outcome: Result<seq<GeoData>>, next: Result<seq<GeoData>>)
    requires s.Valid() && prev < s.Len() && (prev == 0) == carry.None? && rounds > 0
    requires var c := FindCut(m, s.Rest(prev, carry), dx, dy);
             c.Cut? && !Repeats(prev, carry, c)
    requires var c := FindCut(m, s.Rest(prev, carry), dx, dy);
             prev' == prev + c.idx - 1 && carry' == Some(c.point) && rounds' == Less(rounds)
    requires prev' < s.Len() && (prev' == 0) == carry'.None?
    requires outcome == Pieces(m, s, dx, dy, prev, carry, rounds)
    requires next == Pieces(m, s, dx, dy, prev', carry', rounds')
    ensures outcome == Prefixed([Piece(m, s.Rest(prev, carry), dx, dy)], next)
  {
    PiecesStep(m, s, dx, dy, prev, carry, rounds);
  }

  /** Kept for the pieces segs followed by outcome, when outcome is the piece followed by next. */
  lemma KeptPrefix(m: Transcendentals, s: GeoData, dx: real, dy: real, segs: seq<GeoData>, piece: GeoData,
                   outcome: Result<seq<GeoData>>, next: Result<seq<GeoData>>)
    requires s.Valid() && s.Len() > 0
    requires outcome == Prefixed([piece], next)
    requires Kept(m, s, dx, dy, Prefixed(segs + [piece], next))
    ensures Kept(m, s, dx, dy, Prefixed(segs, outcome))
  {
    PrefixedSnoc(segs, piece, next);
  }

  /** Whatever rounds are still to come from a state that Segmenting describes, the outcome
      keeps its promise: on success the pieces are chained from the track's first sample and
      reach its end, and the loop never fails with ValueError. */
  lemma {:induction false} PiecesKeep(m: Transcendentals, s: GeoData, dx: real, dy: real, segs: seq<GeoData>,
                                      prev: nat, carry: Option<Sample>, rounds: nat)
    requires s.Valid() && Segmenting(m, s, segs, prev, carry, dx, dy)
    ensures KeptAfter(m, s, dx, dy, segs, prev, carry, rounds)
    decreases rounds, 1
  {
    var w := s.Rest(prev, carry);
    var c := FindCut(m, w, dx, dy);
    if c.NoCut? {
      PiecesFinish(m, s, dx, dy, segs, prev, carry, rounds);
    } else if !Repeats(prev, carry, c) && rounds > 0 {
      PiecesCutKeeps(m, s, dx, dy, segs, prev, carry, rounds);
    } else {
      PiecesStop(m, s, dx, dy, segs, prev, carry, rounds);
    }
  }

  /** A cutting round that reproduces its window, or that has no fuel left, fails after the
      pieces segs. */
  lemma PiecesStop(m: Transcendentals, s: GeoData, dx: real, dy: real, segs: seq<GeoData>,
                   prev: nat, carry: Option<Sample>, rounds: nat)
    requires s.Valid() && prev < s.Len() && (prev == 0) == carry.None?
    requires var c := FindCut(m, s.Rest(prev, carry), dx, dy);
             c.Cut? && (Repeats(prev, carry, c) || rounds == 0)
    ensures var r := Prefixed(segs, Pieces(m, s, dx, dy, prev, carry, rounds));
            r.Failure? && (r.error == Diverges || r.error == OutOfFuel)
    ensures KeptAfter(m, s, dx, dy, segs, prev, carry, rounds)
  {
    PiecesUnfold(m, s, dx, dy, prev, carry, rounds);
  }

  /** PiecesKeep for a round without a cut, which ends the loop. */
  lemma PiecesFinish(m: Transcendentals, s: GeoData, dx: real, dy: real, segs: seq<GeoData>,
                     prev: nat, carry: Option<Sample>, rounds: nat)
    requires s.Valid() && Segmenting(m, s, segs, prev, carry, dx, dy)
    requires FindCut(m, s.Rest(prev, carry), dx, dy).NoCut?
    ensures KeptAfter(m, s, dx, dy, segs, prev, carry, rounds)
  {
    PiecesUnfold(m, s, dx, dy, prev, carry, rounds);
    if prev == s.Len() - 1 {
      PrefixedTo(segs);
      if prev > 0 {
        FinalLegFits(m, s, segs, prev, carry.value, dx, dy);
      }
    } else if carry.Some? {
      FinalPiece(m, s, segs, prev, carry.value, dx, dy);
    }
  }

  /** The last piece ends at the track's last sample, or the leg from its end to that sample
      already fits the box (the case where segment drops the final piece). */
  ghost predicate ReachesEnd(m: Transcendentals, segs: seq<GeoData>, last: Sample, dx: real, dy: real) {
    segs != [] && segs[|segs| - 1].Valid() && segs[|segs| - 1].Len() > 0 ==>
      var s := segs[|segs| - 1];
      s.Last() == last || FindCut(m, Leg(s.Last(), last), dx, dy).NoCut?
  }

  /** When the cursor stops on the last sample, what is left is the leg from the last cut
      point, which fits the box: the pieces so far reach the end in the sense of ReachesEnd. */
  lemma FinalLegFits(m: Transcendentals, s: GeoData, segs: seq<GeoData>, prev: nat, c: Sample, dx: real, dy: real)
    requires s.Valid() && 0 < prev == s.Len() - 1
    requires Chained(segs, s.First(), dx, dy) && segs != [] && segs[|segs| - 1].Last() == c
    requires FindCut(m, s.Rest(prev, Some(c)), dx, dy).NoCut?
    ensures ReachesEnd(m, segs, s.Last(), dx, dy)
  {
    ResumeAtEnd(s, prev, c);
  }

  /** The rest of the track behind the last cut point, when it fits the box, is a final piece
      that keeps the pieces chained and ends at the track's last sample. */
  lemma FinalPiece(m: Transcendentals, s: GeoData, segs: seq<GeoData>, prev: nat, c: Sample, dx: real, dy: real)
    requires s.Valid() && 0 < prev < s.Len() - 1
    requires Chained(segs, s.First(), dx, dy) && segs != [] && segs[|segs| - 1].Last() == c
    requires FindCut(m, s.Rest(prev, Some(c)), dx, dy).NoCut?
    ensures Chained(segs + [s.Rest(prev, Some(c))], s.First(), dx, dy)
    ensures ReachesEnd(m, segs + [s.Rest(prev, Some(c))], s.Last(), dx, dy)
  {
    var tail := s.Rest(prev, Some(c));
    if dx >= 0.0 && dy >= 0.0 {
      NoCutIffFits(m, tail, dx, dy);
      FitsFootprint(tail, dx, dy);
    }
    ChainedSnoc(segs, tail, s.First(), dx, dy);
  }

  /** The rest of the track behind a cut point ends where the track ends. */
  lemma ResumeLast(s: GeoData, prev: nat, c: Sample)
    requires s.Valid() && prev < s.Len()
    ensures s.Drop(prev).Prepend(c).Last() == s.Last()
  {
    assert s.Drop(prev).Prepend(c).Last() == s.Drop(prev).At(s.Len() - 1 - prev);
  }

  /** Behind the last sample, the rest of the track is the one leg from the cut point. */
  lemma ResumeAtEnd(s: GeoData, prev: nat, c: Sample)
    requires s.Valid() && s.Len() >= 1 && prev == s.Len() - 1
    ensures s.Drop(prev).Prepend(c) == Leg(c, s.Last())
  {
    var w := s.Drop(prev).Prepend(c);
    assert w.lat == [c.lat, s.Last().lat];
    assert w.lon == [c.lon, s.Last().lon];
    assert w.x == [c.x, s.Last().x];
    assert w.y == [c.y, s.Last().y];
    assert w.dist == [c.dist, s.Last().dist];
  }

  /** What segment keeps of the pieces emitted so far: each is a valid track of at least two
      samples with the footprint, each starts where the one before ends, and the first starts
      at the track's first sample. */
  ghost predicate Chained(segs: seq<GeoData>, first: Sample, dx: real, dy: real) {
    && (forall k :: 0 <= k < |segs| ==> segs[k].Valid() && segs[k].Len() >= 2)
    && (forall k :: 0 < k < |segs| ==> segs[k - 1].Last() == segs[k].First())
    && (segs != [] ==> segs[0].First() == first)
    && (dx >= 0.0 && dy >= 0.0 ==> forall k :: 0 <= k < |segs| ==> Footprint(segs[k], dx, dy))
  }

  lemma ChainedSnoc(segs: seq<GeoData>, piece: GeoData, first: Sample, dx: real, dy: real)
    requires Chained(segs, first, dx, dy) && piece.Valid() && piece.Len() >= 2
    requires segs == [] ==> piece.First() == first
    requires segs != [] ==> segs[|segs| - 1].Last() == piece.First()
    requires dx >= 0.0 && dy >= 0.0 ==> Footprint(piece, dx, dy)
    ensures Chained(segs + [piece], first, dx, dy)
  {
    var r := segs + [piece];
    assert forall k :: 0 <= k < |segs| ==> r[k] == segs[k];
  }

  /** A track that fits the box on both axes has the footprint. */
  lemma FitsFootprint(s: GeoData, dx: real, dy: real)
    requires s.Valid() && s.Len() >= 2 && Span(s.x) <= dx && Span(s.y) <= dy
    ensures Footprint(s, dx, dy)
  {
    PrefixSpanWithin(s.x);
    PrefixSpanWithin(s.y);
    assert PrefixSpan(s.x)[s.Len() - 2] == Span(s.x[..s.Len() - 1]);
    assert PrefixSpan(s.y)[s.Len() - 2] == Span(s.y[..s.Len() - 1]);
  }

  /** GeoData(lat, lon, x, y, dist): TypeError unless the five arrays have one size. */
  function NewGeoData(lat: seq<real>, lon: seq<real>, x: seq<real>, y: seq<real>, dist: seq<real>)
    : (r: Result<GeoData>)
    ensures r.Success? <==> |lon| == |lat| && |x| == |lat| && |y| == |lat| && |dist| == |lat|
    ensures r.Failure? ==> r.error == TypeError
    ensures r.Success? ==> r.value.Valid() && r.value.lat == lat && r.value.lon == lon &&
                           r.value.x == x && r.value.y == y && r.value.dist == dist
  {
    var g := GeoData(lat, lon, x, y, dist);
    if g.Valid() then Success(g) else Failure(TypeError)
  }

  /** A two-sample track. */
  function Leg(a: Sample, b: Sample): (r: GeoData)
    ensures r.Valid() && r.Len() == 2 && r.At(0) == a && r.At(1) == b
  {
    GeoData([a.lat, b.lat], [a.lon, b.lon], [a.x, b.x], [a.y, b.y], [a.dist, b.dist])
  }

  /** Great-circle length of each leg, preceded by 0. */
  function LegLengths(m: Transcendentals, coords: seq<GeoCoord>): (d: seq<real>)
    requires |coords| > 0
    ensures |d| == |coords| && d[0] == 0.0
    ensures forall k :: 0 < k < |coords| ==> d[k] == coords[k - 1].Dist(m, coords[k])
  {
    [0.0] + seq(|coords| - 1, k requires 0 <= k < |coords| - 1 => coords[k].Dist(m, coords[k + 1]))
  }

  /** GeoData.from_geo: latitudes, longitudes, their Mercator projections and the running
      path length. numpy's apply_along_axis refuses the empty array of legs, so fewer than two
      coordinates raise ValueError. */
  function FromGeo(m: Transcendentals, coords: seq<GeoCoord>): (r: Result<GeoData>)
    ensures r.Failure? <==> |coords| < 2
    ensures r.Failure? ==> r.error == ValueError
    ensures r.Success? ==> r.value.Valid() && r.value.Len() == |coords|
    ensures r.Success? ==> forall k :: 0 <= k < |coords| ==>
                             r.value.Coord(k) == coords[k] &&
                             r.value.x[k] == coords[k].ToMercator(m).x && r.value.y[k] == coords[k].ToMercator(m).y
    ensures r.Success? ==> r.value.dist[0] == 0.0
    ensures r.Success? ==> forall k :: 0 < k < |coords| ==>
                             r.value.dist[k] == r.value.dist[k - 1] + coords[k - 1].Dist(m, coords[k])
  {
    if |coords| < 2 then Failure(ValueError)
    else
      RunningDistance(m, coords);
      NewGeoData(Lats(coords), Lons(coords), MercatorXs(m, coords), MercatorYs(m, coords),
                 CumSum(LegLengths(m, coords)))
  }

  /** The columns from_geo stacks: latitudes, longitudes and the two Mercator coordinates. */
  function Lats(coords: seq<GeoCoord>): (r: seq<real>)
    ensures |r| == |coords| && forall k :: 0 <= k < |coords| ==> r[k] == coords[k].lat
  {
    seq(|coords|, k requires 0 <= k < |coords| => coords[k].lat)
  }

  function Lons(coords: seq<GeoCoord>): (r: seq<real>)
    ensures |r| == |coords| && forall k :: 0 <= k < |coords| ==> r[k] == coords[k].lon
  {
    seq(|coords|, k requires 0 <= k < |coords| => coords[k].lon)
  }

  function MercatorXs(m: Transcendentals, coords: seq<GeoCoord>): (r: seq<real>)
    ensures |r| == |coords| && forall k :: 0 <= k < |coords| ==> r[k] == coords[k].ToMercator(m).x
  {
    seq(|coords|, k requires 0 <= k < |coords| => coords[k].ToMercator(m).x)
  }

  function MercatorYs(m: Transcendentals, coords: seq<GeoCoord>): (r: seq<real>)
    ensures |r| == |coords| && forall k :: 0 <= k < |coords| ==> r[k] == coords[k].ToMercator(m).y
  {
    seq(|coords|, k requires 0 <= k < |coords| => coords[k].ToMercator(m).y)
  }

  /** The running sum of the leg lengths adds the length of each leg to the distance before it. */
  lemma RunningDistance(m: Transcendentals, coords: seq<GeoCoord>)
    requires |coords| > 0
    ensures var dist := CumSum(LegLengths(m, coords));
            |dist| == |coords| && dist[0] == 0.0 &&
            forall k :: 0 < k < |coords| ==> dist[k] == dist[k - 1] + coords[k - 1].Dist(m, coords[k])
  {
    var d := LegLengths(m, coords);
    var dist := CumSum(d);
    forall k | 0 < k < |coords|
      ensures dist[k] == dist[k - 1] + coords[k - 1].Dist(m, coords[k])
    {
      assert dist[k] == dist[k - 1] + d[k];
    }
  }

  /** The running distance of a track built from coordinates never decreases. */
  lemma FromGeoDistNonDecreasing(m: Transcendentals, coords: seq<GeoCoord>)
    requires HaversineAxioms(m)
    requires |coords| >= 2
    ensures NonDecreasing(FromGeo(m, coords).value.dist)
  {
    LegLengthsNonNegative(m, coords);
    CumSumNonDecreasing(LegLengths(m, coords));
  }

  /** No leg has a negative great-circle length. */
  lemma LegLengthsNonNegative(m: Transcendentals, coords: seq<GeoCoord>)
    requires HaversineAxioms(m)
    requires |coords| > 0
    ensures forall k :: 0 <= k < |coords| ==> LegLengths(m, coords)[k] >= 0.0
  {
    var d := LegLengths(m, coords);
    forall k | 0 < k < |d|
      ensures d[k] >= 0.0
    {
      GeoDistProperties(m, coords[k - 1], coords[k]);
    }
  }

  /** Projecting the stored Mercator values back gives the stored coordinates, away from the poles. */
  lemma FromGeoProjectionRoundTrip(m: Transcendentals, coords: seq<GeoCoord>, k: nat)
    requires MercatorAxioms(m)
    requires 2 <= |coords| && k < |coords|
    requires -90.0 < coords[k].lat < 90.0
    ensures MercatorCoord(FromGeo(m, coords).value.x[k], FromGeo(m, coords).value.y[k]).ToGeo(m) == coords[k]
  {
    GeoMercatorRoundTrip(m, coords[k]);
  }

  /** On a track whose distance never decreases, find_dist answers None exactly outside
      [dist[0], dist[last]), and otherwise picks the leg whose ends bracket the target. */
  lemma {:induction false} FindDistOnMonotoneTrack(g: GeoData, target: real, interpolate: bool,
                                                   root: (GeoCoord, GeoCoord, real) -> real)
    requires g.Valid() && g.Len() > 0 && NonDecreasing(g.dist)
    ensures g.FindDist(target, interpolate, root).Success?
    ensures g.FindDist(target, interpolate, root).value.None? <==>
              target < g.dist[0] || g.dist[g.Len() - 1] <= target
  {
    var n := g.Len();
    if g.dist[n - 1] <= target {
      assert forall k :: 0 <= k < n ==> g.dist[k] <= g.dist[n - 1];
    }
  }

  /** The path-length reading of find_dist: on a track built from coordinates, every distance
      from the start up to (not including) the total length has a point. */
  lemma FindDistWithinTrack(m: Transcendentals, coords: seq<GeoCoord>, target: real, interpolate: bool,
                            root: (GeoCoord, GeoCoord, real) -> real)
    requires HaversineAxioms(m)
    requires |coords| >= 2
    requires 0.0 <= target < FromGeo(m, coords).value.dist[|coords| - 1]
    ensures FromGeo(m, coords).value.FindDist(target, interpolate, root).Success?
    ensures FromGeo(m, coords).value.FindDist(target, interpolate, root).value.Some?
  {
    FromGeoDistNonDecreasing(m, coords);
    FindDistOnMonotoneTrack(FromGeo(m, coords).value, target, interpolate, root);
  }

  // ---------------------------------------------------------------------------------------------
  // One round of segment

  /** First index where the running span `max.accumulate - min.accumulate` exceeds the bound
      (np.argmax of the mask), 0 when there is none. */
  function Overflow(s: seq<real>, bound: real): (i: nat)
    requires |s| > 0
    ensures i < |s|
    ensures i > 0 ==> PrefixSpan(s)[i] > bound && forall k :: 0 <= k < i ==> PrefixSpan(s)[k] <= bound
  {
    ArgMax(Greater(PrefixSpan(s), bound))
  }

  datatype Cut = NoCut | Cut(idx: nat, t: real, point: Sample)

  /** One round of the loop in segment on the window w: the index idx of the first sample outside
      the box (the earlier axis when both overflow, the one that does otherwise), the fraction
      t of the leg idx-1 -> idx cut off, and the cut point with its coordinates and distance. */
  function FindCut(m: Transcendentals, w: GeoData, dx: real, dy: real): (c: Cut)
    requires w.Valid() && w.Len() > 0
    ensures c.NoCut? <==> Overflow(w.x, dx) == 0 && Overflow(w.y, dy) == 0
    ensures c.Cut? ==> 1 <= c.idx < w.Len()
    // idx is the earliest overflow among the axes that overflow
    ensures c.Cut? ==> c.idx == Overflow(w.x, dx) || c.idx == Overflow(w.y, dy)
    ensures c.Cut? && Overflow(w.x, dx) > 0 ==> c.idx <= Overflow(w.x, dx)
    ensures c.Cut? && Overflow(w.y, dy) > 0 ==> c.idx <= Overflow(w.y, dy)
  {
    var xs := PrefixSpan(w.x);
    var ys := PrefixSpan(w.y);
    var i := Overflow(w.x, dx);
    var j := Overflow(w.y, dy);
    if i == 0 && j == 0 then NoCut
    else
      var idx := CutIndex(i, j);
      var t := if idx == i then CutFraction(xs[idx], xs[idx - 1], dx) else CutFraction(ys[idx], ys[idx - 1], dy);
      Cut(idx, t, CutPoint(m, w, idx, t))
  }

  /** What a round's cut satisfies: idx is the first overflow of an axis that overflows, and no
      later than the other axis's; t, in (0, 1], is where the span of the axis that overflows at
      idx (x on a tie), interpolated linearly along the leg, equals its bound; and p lies on the leg idx - 1 -> idx a fraction t back
      from sample idx. */
  ghost predicate IsCut(w: GeoData, dx: real, dy: real, idx: nat, t: real, p: Sample)
    requires w.Valid()
  {
    && 1 <= idx < w.Len() && 0.0 < t <= 1.0
    && (idx == Overflow(w.x, dx) || idx == Overflow(w.y, dy))
    && (Overflow(w.x, dx) > 0 ==> idx <= Overflow(w.x, dx))
    && (Overflow(w.y, dy) > 0 ==> idx <= Overflow(w.y, dy))
    && (idx == Overflow(w.x, dx) ==> Reaches(t, PrefixSpan(w.x)[idx - 1], PrefixSpan(w.x)[idx], dx))
    && (idx != Overflow(w.x, dx) ==> Reaches(t, PrefixSpan(w.y)[idx - 1], PrefixSpan(w.y)[idx], dy))
    && OnLeg(t, w.x[idx - 1], w.x[idx], p.x) && OnLeg(t, w.y[idx - 1], w.y[idx], p.y)
  }

  /** The cut FindCut makes satisfies IsCut, and its point is CutPoint's. */
  lemma FindCutPoint(m: Transcendentals, w: GeoData, dx: real, dy: real)
    requires w.Valid() && w.Len() > 0 && FindCut(m, w, dx, dy).Cut?
    ensures var c := FindCut(m, w, dx, dy); IsCut(w, dx, dy, c.idx, c.t, c.point)
    ensures var c := FindCut(m, w, dx, dy); c.point == CutPoint(m, w, c.idx, c.t)
  {
    var c := FindCut(m, w, dx, dy);
    var xs, ys := PrefixSpan(w.x), PrefixSpan(w.y);
    if c.idx == Overflow(w.x, dx) {
      assert c.t == CutFraction(xs[c.idx], xs[c.idx - 1], dx);
      assert Reaches(c.t, xs[c.idx - 1], xs[c.idx], dx);
    } else {
      assert c.t == CutFraction(ys[c.idx], ys[c.idx - 1], dy);
      assert Reaches(c.t, ys[c.idx - 1], ys[c.idx], dy);
    }
  }

  /** `min(i, j) if i > 0 and j > 0 else max(i, j)`: the earlier of the axes that overflow. */
  function CutIndex(i: nat, j: nat): (idx: nat)
    requires i > 0 || j > 0
    ensures idx == i || idx == j
    ensures i > 0 ==> 1 <= idx <= i
    ensures j > 0 ==> 1 <= idx <= j
    ensures idx >= 1
  {
    if i > 0 && j > 0 then (if i <= j then i else j) else (if i >= j then i else j)
  }

  /** The cut point a fraction t back from sample idx towards idx - 1: Mercator coordinates
      interpolated, geographic ones projected back, and the distance of sample idx - 1 plus the
      great-circle length from it to the cut point. */
  function CutPoint(m: Transcendentals, w: GeoData, idx: nat, t: real): (p: Sample)
    requires w.Valid() && 1 <= idx < w.Len()
    ensures OnLeg(t, w.x[idx - 1], w.x[idx], p.x) && OnLeg(t, w.y[idx - 1], w.y[idx], p.y)
    ensures p.lat == MercatorToGeoLat(m, p.y) && p.lon == MercatorToGeoLon(p.x)
    ensures p.dist == w.dist[idx - 1] + MercatorCoord(w.x[idx - 1], w.y[idx - 1]).ToGeo(m).Dist(m, GeoCoord(p.lat, p.lon))
  {
    var c2 := MercatorCoord(w.x[idx], w.y[idx]);
    var c1 := MercatorCoord(w.x[idx - 1], w.y[idx - 1]);
    var c0 := MercatorInterpolate(c2, c1, t);
    InterpolateOnLeg(c2, c1, t);
    var g0 := c0.ToGeo(m);
    var dist0 := w.dist[idx - 1] + c1.ToGeo(m).Dist(m, g0);
    Sample(g0.lat, g0.lon, c0.x, c0.y, dist0)
  }

  /** The source's `c2 - t*(c2 - c1)` is the point of the leg c1 -> c2 a fraction t back from c2. */
  lemma InterpolateOnLeg(c2: MercatorCoord, c1: MercatorCoord, t: real)
    ensures OnLeg(t, c1.x, c2.x, MercatorInterpolate(c2, c1, t).x)
    ensures OnLeg(t, c1.y, c2.y, MercatorInterpolate(c2, c1, t).y)
  {
  }

  /** Moving back from v2 towards a lower v1 by the fraction t of the leg: at least the amount
      t covers of the shorter distance gap. */
  lemma LerpDown(t: real, v1: real, v2: real, gap: real, target: real)
    requires 0.0 < t <= 1.0 && t * gap == target && 0.0 < gap <= v2 - v1
    ensures v1 <= v2 - t * (v2 - v1) <= v2 - target
  {
    var e := v2 - v1;
    var d := e - gap;
    var s := 1.0 - t;
    MulNonNeg(t, d);
    MulNonNeg(s, e);
    assert t * e - t * gap == t * d;
    assert e - t * e == s * e;
  }

  /** The mirror image of LerpDown, for v1 above v2. */
  lemma LerpUp(t: real, v1: real, v2: real, gap: real, target: real)
    requires 0.0 < t <= 1.0 && t * gap == target && 0.0 < gap <= v1 - v2
    ensures v2 + target <= v2 - t * (v2 - v1) <= v1
  {
    var e := v1 - v2;
    var d := e - gap;
    var s := 1.0 - t;
    MulNonNeg(t, d);
    MulNonNeg(s, e);
    assert t * e - t * gap == t * d;
    assert e - t * e == s * e;
    assert t * (v2 - v1) == -(t * e);
  }

  /** All but the last sample fit the box on both axes, and the whole piece fits on at least one. */
  ghost predicate Footprint(s: GeoData, dx: real, dy: real)
    requires s.Valid() && s.Len() >= 2
  {
    && Span(s.x[..s.Len() - 1]) <= dx && Span(s.y[..s.Len() - 1]) <= dy
    && (Span(s.x) <= dx || Span(s.y) <= dy)
  }

  lemma PrefixSpanWithin(s: seq<real>)
    requires |s| > 0
    ensures forall k :: 0 <= k < |s| ==> PrefixSpan(s)[k] <= Span(s)
  {
    PrefixSpanShape(s);
    assert s[..|s|] == s;
  }

  /** Overflow is 0 exactly when the bound is negative (the running span starts at 0 and so
      exceeds it at once) or the whole sequence fits. */
  lemma OverflowZero(s: seq<real>, bound: real)
    requires |s| > 0
    ensures Overflow(s, bound) == 0 <==> bound < 0.0 || Span(s) <= bound
  {
    var p := PrefixSpan(s);
    var mask := Greater(p, bound);
    PrefixSpanShape(s);
    PrefixSpanWithin(s);
    assert s[..|s|] == s;
    if bound >= 0.0 && Span(s) > bound {
      assert mask[|s| - 1];
    }
  }

  /** A round finds no cut exactly when the whole window fits the box (for non-negative bounds). */
  lemma NoCutIffFits(m: Transcendentals, w: GeoData, dx: real, dy: real)
    requires w.Valid() && w.Len() > 0 && dx >= 0.0 && dy >= 0.0
    ensures FindCut(m, w, dx, dy).NoCut? <==> Span(w.x) <= dx && Span(w.y) <= dy
  {
    OverflowZero(w.x, dx);
    OverflowZero(w.y, dy);
  }

  /** On the axis whose span reaches the bound in the leg after a, the cut point p keeps the
      span of a plus p within the bound. */
  lemma AxisCut(a: seq<real>, v2: real, bound: real, t: real, p: real, s1: real, s2: real)
    requires |a| > 0 && s1 == Span(a) && s2 == Span(a + [v2]) && s1 <= bound < s2
    requires Reaches(t, s1, s2, bound) && OnLeg(t, a[|a| - 1], v2, p)
    ensures Span(a + [p]) <= bound
  {
    var lo, hi := SeqMin(a), SeqMax(a);
    SnocExtremes(a, v2);
    SnocExtremes(a, p);
    CutWithin(lo, hi, a[|a| - 1], v2, bound, t, p, s1, s2);
  }

  /** The arithmetic of AxisCut: the values so far lie in [lo, hi], v1 the last of them, and v2
      widens the interval beyond the bound. */
  lemma CutWithin(lo: real, hi: real, v1: real, v2: real, bound: real, t: real, p: real,
                   s1: real, s2: real)
    requires lo <= v1 <= hi && s1 == hi - lo && s2 == Max(hi, v2) - Min(lo, v2)
    requires s1 <= bound < s2 && Reaches(t, s1, s2, bound) && OnLeg(t, v1, v2, p)
    ensures Max(hi, p) - Min(lo, p) <= bound
  {
    var gap := s2 - s1;
    var target := s2 - bound;
    if v2 > hi {
      LerpDown(t, v1, v2, gap, target);
    } else {
      LerpUp(t, v1, v2, gap, target);
    }
  }

  /** A point p of the leg after a adds no more span than the leg's far end does. */
  lemma AxisBetween(a: seq<real>, v2: real, t: real, p: real)
    requires |a| > 0 && 0.0 <= t <= 1.0 && OnLeg(t, a[|a| - 1], v2, p)
    ensures Span(a + [p]) <= Span(a + [v2])
  {
    Between(a[|a| - 1], v2, t, p);
    SnocWithin(a, p, v2);
  }

  /** Appending a value between the last one and v2 spans no more than appending v2. */
  lemma SnocWithin(a: seq<real>, p: real, v2: real)
    requires |a| > 0 && Min(a[|a| - 1], v2) <= p <= Max(a[|a| - 1], v2)
    ensures Span(a + [p]) <= Span(a + [v2])
  {
    SnocExtremes(a, v2);
    SnocExtremes(a, p);
    assert SeqMin(a) <= a[|a| - 1] <= SeqMax(a);
  }

  /** The piece a round emits, the window up to the cut plus the cut point, has the footprint;
      when the two axes do not first overflow at the same sample it fits on both. */
  lemma CutFootprint(m: Transcendentals, w: GeoData, dx: real, dy: real)
    requires w.Valid() && w.Len() > 0 && dx >= 0.0 && dy >= 0.0
    requires FindCut(m, w, dx, dy).Cut?
    ensures var c := FindCut(m, w, dx, dy);
            Footprint(w.Take(c.idx).Append(c.point), dx, dy)
    ensures var c := FindCut(m, w, dx, dy);
            var piece := w.Take(c.idx).Append(c.point);
            Overflow(w.x, dx) != Overflow(w.y, dy) ==> Span(piece.x) <= dx && Span(piece.y) <= dy
  {
    var c := FindCut(m, w, dx, dy);
    FindCutPoint(m, w, dx, dy);
    PieceFootprint(w, dx, dy, c.idx, c.t, c.point);
  }

  /** CutFootprint, from the properties of the round's index, fraction and point. */
  lemma PieceFootprint(w: GeoData, dx: real, dy: real, idx: nat, t: real, p: Sample)
    requires w.Valid() && dx >= 0.0 && dy >= 0.0 && IsCut(w, dx, dy, idx, t, p)
    ensures Footprint(w.Take(idx).Append(p), dx, dy)
    ensures Overflow(w.x, dx) != Overflow(w.y, dy) ==>
              Span(w.Take(idx).Append(p).x) <= dx && Span(w.Take(idx).Append(p).y) <= dy
  {
    PieceAxes(w, idx, p);
    if idx == Overflow(w.x, dx) {
      CutSpans(w.x, w.y, dx, dy, idx, t, p.x, p.y);
    } else {
      CutSpans(w.y, w.x, dy, dx, idx, t, p.y, p.x);
    }
  }

  /** The spans of a cut piece, axis by axis: a is the axis that overflows first at idx and is
      cut where its interpolated span is da, b is the other axis. Before the cut both fit, the
      cut axis fits with the cut point, and so does the other one unless it first overflows at
      idx too. */
  lemma CutSpans(a: seq<real>, b: seq<real>, da: real, db: real, idx: nat, t: real, pa: real, pb: real)
    requires |a| == |b| && 1 <= idx < |a| && da >= 0.0 && db >= 0.0
    requires idx == Overflow(a, da) && (Overflow(b, db) == 0 || idx <= Overflow(b, db))
    requires Reaches(t, PrefixSpan(a)[idx - 1], PrefixSpan(a)[idx], da)
    requires OnLeg(t, a[idx - 1], a[idx], pa) && OnLeg(t, b[idx - 1], b[idx], pb)
    ensures Span(a[..idx]) <= da && Span(b[..idx]) <= db && Span(a[..idx] + [pa]) <= da
    ensures Overflow(b, db) != idx ==> Span(b[..idx] + [pb]) <= db
  {
    AxisFits(a, da, idx);
    AxisFits(b, db, idx);
    AxisPieceCut(a, idx, da, t, pa);
    if Overflow(b, db) != idx {
      AxisPieceBetween(b, idx, t, pb);
      AxisFits(b, db, idx + 1);
    }
  }

  /** The first idx samples of w followed by p. */
  lemma TakeAppend(w: GeoData, idx: nat, p: Sample)
    requires w.Valid() && 1 <= idx < w.Len()
    ensures var r := w.Take(idx).Append(p);
            && r.Valid() && r.Len() == idx + 1 && r.First() == w.First() && r.Last() == p
            && forall k :: 0 <= k < idx ==> r.At(k) == w.At(k)
  {
  }

  /** The coordinate sequences of a piece. */
  lemma PieceAxes(w: GeoData, idx: nat, p: Sample)
    requires w.Valid() && 1 <= idx < w.Len()
    ensures w.Take(idx).Append(p).x == w.x[..idx] + [p.x]
    ensures w.Take(idx).Append(p).y == w.y[..idx] + [p.y]
    ensures w.Take(idx).Append(p).x[..idx] == w.x[..idx]
    ensures w.Take(idx).Append(p).y[..idx] == w.y[..idx]
  {
  }

  /** Before the first overflow of a non-negative bound, the running span is within it. */
  lemma AxisFits(s: seq<real>, bound: real, n: nat)
    requires 0 < n <= |s| && bound >= 0.0
    requires Overflow(s, bound) == 0 || n <= Overflow(s, bound)
    ensures Span(s[..n]) <= bound
  {
    OverflowZero(s, bound);
    PrefixSpanWithin(s);
    assert PrefixSpan(s)[n - 1] == Span(s[..n]);
  }

  /** AxisCut for the leg idx-1 -> idx of s. */
  lemma AxisPieceCut(s: seq<real>, idx: nat, bound: real, t: real, p: real)
    requires 1 <= idx < |s| && PrefixSpan(s)[idx - 1] <= bound < PrefixSpan(s)[idx]
    requires Reaches(t, PrefixSpan(s)[idx - 1], PrefixSpan(s)[idx], bound)
    requires OnLeg(t, s[idx - 1], s[idx], p)
    ensures Span(s[..idx] + [p]) <= bound
  {
    LegSpans(s, idx);
    AxisCut(s[..idx], s[idx], bound, t, p, PrefixSpan(s)[idx - 1], PrefixSpan(s)[idx]);
  }

  /** AxisBetween for the leg idx-1 -> idx of s. */
  lemma AxisPieceBetween(s: seq<real>, idx: nat, t: real, p: real)
    requires 1 <= idx < |s| && 0.0 <= t <= 1.0
    requires OnLeg(t, s[idx - 1], s[idx], p)
    ensures Span(s[..idx] + [p]) <= PrefixSpan(s)[idx]
  {
    LegSpans(s, idx);
    AxisBetween(s[..idx], s[idx], t, p);
  }

  /** The running spans before and after the leg idx-1 -> idx of s. */
  lemma LegSpans(s: seq<real>, idx: nat)
    requires 1 <= idx < |s|
    ensures s[..idx][idx - 1] == s[idx - 1]
    ensures PrefixSpan(s)[idx - 1] == Span(s[..idx])
    ensures PrefixSpan(s)[idx] == Span(s[..idx] + [s[idx]])
  {
    assert s[..idx + 1] == s[..idx] + [s[idx]];
  }

  /** When both axes first overflow at the same sample the cut is made on the x axis alone, and
      the piece can leave the box in y: a leg 3 wide and 10 high in a 1-by-1 box is cut a third
      of the way along, where it has already risen 10/3. */
  lemma TieLeavesBox(m: Transcendentals, w: GeoData)
    requires w.Valid() && w.Len() == 2 && w.x[1] == w.x[0] + 3.0 && w.y[1] == w.y[0] + 10.0
    ensures var c := FindCut(m, w, 1.0, 1.0);
            c.Cut? && c.idx == 1 && c.point.x == w.x[0] + 1.0 &&
            Span(w.Take(c.idx).Append(c.point).y) > 1.0
  {
    TieCut(m, w);
    var c := FindCut(m, w, 1.0, 1.0);
    TieFraction(c.t, w.x[0], w.x[1], w.y[0], w.y[1], c.point.x, c.point.y);
    PieceAxes(w, 1, c.point);
    SnocExtremes(w.y[..1], c.point.y);
  }

  /** In TieLeavesBox both axes first overflow at sample 1, and the fraction is the x axis's. */
  lemma TieCut(m: Transcendentals, w: GeoData)
    requires w.Valid() && w.Len() == 2 && w.x[1] == w.x[0] + 3.0 && w.y[1] == w.y[0] + 10.0
    ensures var c := FindCut(m, w, 1.0, 1.0);
            c.Cut? && c.idx == 1 && Reaches(c.t, 0.0, 3.0, 1.0) &&
            OnLeg(c.t, w.x[0], w.x[1], c.point.x) && OnLeg(c.t, w.y[0], w.y[1], c.point.y)
  {
    TieOverflow(w);
    var c := FindCut(m, w, 1.0, 1.0);
    assert c.Cut? && c.idx == 1;
    FindCutPoint(m, w, 1.0, 1.0);
  }

  /** In TieLeavesBox both running spans first exceed 1 at sample 1, x's going from 0 to 3. */
  lemma TieOverflow(w: GeoData)
    requires w.Valid() && w.Len() == 2 && w.x[1] == w.x[0] + 3.0 && w.y[1] == w.y[0] + 10.0
    ensures Overflow(w.x, 1.0) == 1 && Overflow(w.y, 1.0) == 1
    ensures PrefixSpan(w.x)[0] == 0.0 && PrefixSpan(w.x)[1] == 3.0
  {
    TwoPointSpan(w.x);
    TwoPointSpan(w.y);
    OverflowZero(w.x, 1.0);
    OverflowZero(w.y, 1.0);
  }

  /** The running span of two values. */
  lemma TwoPointSpan(s: seq<real>)
    requires |s| == 2 && s[0] <= s[1]
    ensures PrefixSpan(s)[0] == 0.0 && PrefixSpan(s)[1] == s[1] - s[0] && Span(s) == s[1] - s[0]
  {
    PrefixSpanShape(s);
    assert s[..2] == s && s == [s[0]] + [s[1]];
    SnocExtremes([s[0]], s[1]);
  }

  /** The arithmetic of TieLeavesBox. */
  lemma TieFraction(t: real, x1: real, x2: real, y1: real, y2: real, px: real, py: real)
    requires x2 == x1 + 3.0 && y2 == y1 + 10.0
    requires Reaches(t, 0.0, 3.0, 1.0) && OnLeg(t, x1, x2, px) && OnLeg(t, y1, y2, py)
    ensures t == 2.0 / 3.0 && px == x1 + 1.0 && py > y1 + 1.0
  {
  }

  /** The cut point's distance is at least that of the sample before it. */
  lemma CutDistance(m: Transcendentals, w: GeoData, dx: real, dy: real)
    requires SqrtAxioms(m) && ArcsinAxioms(m)
    requires w.Valid() && w.Len() > 0 && FindCut(m, w, dx, dy).Cut?
    ensures FindCut(m, w, dx, dy).point.dist >= w.dist[FindCut(m, w, dx, dy).idx - 1]
  {
    var c := FindCut(m, w, dx, dy);
    FindCutPoint(m, w, dx, dy);
    var idx := c.idx;
    var c1 := MercatorCoord(w.x[idx - 1], w.y[idx - 1]);
    var c0 := MercatorCoord(c.point.x, c.point.y);
    var g1, g0 := c1.ToGeo(m), c0.ToGeo(m);
    assert g1.Dist(m, g0) == HaversineDist(m, g1.Phi(), g1.Lam(), g0.Phi(), g0.Lam());
  }
}

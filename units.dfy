/**
 * Coordinate value types of units.py: geographic (lat/lon in degrees), planar Mercator (x/y) and
 * slippy-map tiles, with their conversions and distances.
 */
module Units {
  import opened Wrappers
  import opened Numerics

  /** Earth radius in kilometres used by the haversine formula. */
  const R: real := 6371.0

  /** The right operand of `*` or `/`: an int or float (as a real), or any other Python object. */
  datatype Scalar = Number(v: real) | NonNumber

  datatype GeoCoord = GeoCoord(lat: real, lon: real) {

    /** Latitude in radians. */
    function Phi(): real { DegToRad(lat) }

    /** Longitude in radians. */
    function Lam(): real { DegToRad(lon) }

    /** Componentwise sum; subtracting `other` again gives this coordinate back. */
    function Add(other: GeoCoord): (r: GeoCoord)
      ensures r.Sub(other) == this
    {
      GeoCoord(lat + other.lat, lon + other.lon)
    }

    /** Componentwise difference: the coordinate that, added to `other`, gives this one. */
    function Sub(other: GeoCoord): (r: GeoCoord)
      ensures r.lat + other.lat == lat && r.lon + other.lon == lon
    {
      GeoCoord(lat - other.lat, lon - other.lon)
    }

    /** `s * self` for a numeric s. */
    function Scaled(s: real): GeoCoord {
      GeoCoord(s * lat, s * lon)
    }

    /** `scalar * self`: componentwise for a number, NotImplementedError otherwise. */
    function RMul(scalar: Scalar): (r: Result<GeoCoord>)
      ensures r.Failure? <==> scalar.NonNumber?
      ensures r.Failure? ==> r.error == NotImplementedError
      ensures r.Success? ==> r.value.lat == scalar.v * lat && r.value.lon == scalar.v * lon
    {
      match scalar
      case Number(s) => Success(Scaled(s))
      case NonNumber => Failure(NotImplementedError)
    }

    /** `self / scalar`: componentwise for a non-zero number; a non-number raises
        NotImplementedError and zero raises ZeroDivisionError. */
    function Div(scalar: Scalar): (r: Result<GeoCoord>)
      ensures r.Failure? <==> scalar.NonNumber? || scalar.v == 0.0
      ensures scalar.NonNumber? ==> r == Failure(NotImplementedError)
      ensures scalar.Number? && scalar.v == 0.0 ==> r == Failure(ZeroDivisionError)
      ensures r.Success? ==> r.value.lat * scalar.v == lat && r.value.lon * scalar.v == lon
    {
      match scalar
      case NonNumber => Failure(NotImplementedError)
      case Number(s) => if s == 0.0 then Failure(ZeroDivisionError) else Success(GeoCoord(lat / s, lon / s))
    }

    /** The Mercator projection: its x gives the longitude back, and off the poles its y gives
        the latitude back. */
    function ToMercator(m: Transcendentals): (r: MercatorCoord)
      ensures MercatorToGeoLon(r.x) == lon
      ensures MercatorAxioms(m) && -90.0 < lat < 90.0 ==> MercatorToGeoLat(m, r.y) == lat
    {
      MercatorLatRoundTrip(m, lat);
      MercatorCoord(GeoToMercatorX(lon), GeoToMercatorY(m, lat))
    }

    /** Great-circle distance in kilometres. */
    function Dist(m: Transcendentals, other: GeoCoord): real {
      HaversineDist(m, Phi(), Lam(), other.Phi(), other.Lam())
    }
  }

  datatype MercatorCoord = MercatorCoord(x: real, y: real) {

    /** Componentwise sum; subtracting `other` again gives this coordinate back. */
    function Add(other: MercatorCoord): (r: MercatorCoord)
      ensures r.Sub(other) == this
    {
      MercatorCoord(x + other.x, y + other.y)
    }

    /** Componentwise difference: the coordinate that, added to `other`, gives this one. */
    function Sub(other: MercatorCoord): (r: MercatorCoord)
      ensures r.x + other.x == x && r.y + other.y == y
    {
      MercatorCoord(x - other.x, y - other.y)
    }

    /** `s * self` for a numeric s. */
    function Scaled(s: real): MercatorCoord {
      MercatorCoord(s * x, s * y)
    }

    /** `scalar * self`: componentwise for a number, NotImplementedError otherwise. */
    function RMul(scalar: Scalar): (r: Result<MercatorCoord>)
      ensures r.Failure? <==> scalar.NonNumber?
      ensures r.Failure? ==> r.error == NotImplementedError
      ensures r.Success? ==> r.value.x == scalar.v * x && r.value.y == scalar.v * y
    {
      match scalar
      case Number(s) => Success(Scaled(s))
      case NonNumber => Failure(NotImplementedError)
    }

    /** `self / scalar`: componentwise for a non-zero number; a non-number raises
        NotImplementedError and zero raises ZeroDivisionError. */
    function Div(scalar: Scalar): (r: Result<MercatorCoord>)
      ensures r.Failure? <==> scalar.NonNumber? || scalar.v == 0.0
      ensures scalar.NonNumber? ==> r == Failure(NotImplementedError)
      ensures scalar.Number? && scalar.v == 0.0 ==> r == Failure(ZeroDivisionError)
      ensures r.Success? ==> r.value.x * scalar.v == x && r.value.y * scalar.v == y
    {
      match scalar
      case NonNumber => Failure(NotImplementedError)
      case Number(s) => if s == 0.0 then Failure(ZeroDivisionError) else Success(MercatorCoord(x / s, y / s))
    }

    /** The inverse projection: its longitude projects back onto x. */
    function ToGeo(m: Transcendentals): (r: GeoCoord)
      ensures GeoToMercatorX(r.lon) == x
    {
      MercatorLonRoundTrip(x);
      GeoCoord(MercatorToGeoLat(m, y), MercatorToGeoLon(x))
    }

    /** Planar Euclidean distance. */
    function Dist(m: Transcendentals, other: MercatorCoord): real {
      EuclidianDist(m, x, y, other.x, other.y)
    }

    /** Bearing of self as seen from other: arctan2 of the coordinate differences. */
    function Angle(m: Transcendentals, other: MercatorCoord): real {
      m.arctan2(y - other.y, x - other.x)
    }
  }

  /** `a - t*(a - b)`, the interpolation the source writes with its coordinate operators. */
  function GeoInterpolate(a: GeoCoord, b: GeoCoord, t: real): GeoCoord {
    a.Sub(a.Sub(b).Scaled(t))
  }

  function MercatorInterpolate(a: MercatorCoord, b: MercatorCoord, t: real): MercatorCoord {
    a.Sub(a.Sub(b).Scaled(t))
  }

  /** The interpolation starts at a for t = 0 and reaches b at t = 1. */
  lemma InterpolateEnds(a: GeoCoord, b: GeoCoord, p: MercatorCoord, q: MercatorCoord)
    ensures GeoInterpolate(a, b, 0.0) == a && GeoInterpolate(a, b, 1.0) == b
    ensures MercatorInterpolate(p, q, 0.0) == p && MercatorInterpolate(p, q, 1.0) == q
  {
  }

  /** Subtraction undoes addition, and division undoes multiplication by a non-zero number. */
  lemma ArithmeticInverses(a: GeoCoord, b: GeoCoord, s: real)
    requires s != 0.0
    ensures a.Add(b).Sub(b) == a
    ensures a.RMul(Number(s)).Success? && a.RMul(Number(s)).value.Div(Number(s)) == Success(a)
  {
    var b := a.Scaled(s);
    assert b.lat / s == a.lat && b.lon / s == a.lon;
    assert b.Div(Number(s)) == Success(GeoCoord(b.lat / s, b.lon / s));
  }

  lemma MercatorArithmeticInverses(a: MercatorCoord, b: MercatorCoord, s: real)
    requires s != 0.0
    ensures a.Add(b).Sub(b) == a
    ensures a.RMul(Number(s)).Success? && a.RMul(Number(s)).value.Div(Number(s)) == Success(a)
  {
    var b := a.Scaled(s);
    assert b.x / s == a.x && b.y / s == a.y;
    assert b.Div(Number(s)) == Success(MercatorCoord(b.x / s, b.y / s));
  }

  /** Planar x of a longitude: the longitude in radians. */
  function GeoToMercatorX(lon: real): (x: real)
    ensures MercatorToGeoLon(x) == lon
  {
    DegToRad(lon)
  }

  /** Planar y of a latitude: ln(tan(phi/2 + pi/4)). */
  function GeoToMercatorY(m: Transcendentals, lat: real): real {
    m.log(m.tan(DegToRad(lat) / 2.0 + PI / 4.0))
  }

  function MercatorToGeoLat(m: Transcendentals, y: real): real {
    RadToDeg(2.0 * m.arctan(m.exp(y)) - PI / 2.0)
  }

  function MercatorToGeoLon(x: real): real {
    RadToDeg(x)
  }

  /** Planar x and longitude determine each other exactly. */
  lemma MercatorLonRoundTrip(x: real)
    ensures GeoToMercatorX(MercatorToGeoLon(x)) == x
  {
  }

  /** Away from the poles the inverse projection recovers the latitude. */
  lemma MercatorLatRoundTrip(m: Transcendentals, lat: real)
    ensures MercatorAxioms(m) && -90.0 < lat < 90.0 ==> MercatorToGeoLat(m, GeoToMercatorY(m, lat)) == lat
  {
    if MercatorAxioms(m) && -90.0 < lat < 90.0 {
      var u := DegToRad(lat) / 2.0 + PI / 4.0;
      assert 0.0 < u < PI / 2.0;
      assert m.exp(m.log(m.tan(u))) == m.tan(u);
      assert m.arctan(m.tan(u)) == u;
      assert 2.0 * u - PI / 2.0 == DegToRad(lat);
    }
  }

  /** Projecting a geographic point and back gives the point itself. */
  lemma GeoMercatorRoundTrip(m: Transcendentals, g: GeoCoord)
    requires MercatorAxioms(m)
    requires -90.0 < g.lat < 90.0
    ensures g.ToMercator(m).ToGeo(m) == g
  {
  }

  /** Haversine distance in kilometres between two points given in radians. */
  function HaversineDist(m: Transcendentals, phi1: real, lam1: real, phi2: real, lam2: real): (r: real)
    ensures SqrtAxioms(m) && ArcsinAxioms(m) ==> r >= 0.0
  {
    2.0 * R * m.arcsin(m.sqrt(Haversine(m, phi1, lam1, phi2, lam2)))
  }

  /** The haversine of the central angle between the two points. */
  function Haversine(m: Transcendentals, phi1: real, lam1: real, phi2: real, lam2: real): real {
    Sq(m.sin((phi2 - phi1) / 2.0)) + m.cos(phi1) * m.cos(phi2) * Sq(m.sin((lam2 - lam1) / 2.0))
  }

  lemma HaversineSymmetric(m: Transcendentals, phi1: real, lam1: real, phi2: real, lam2: real)
    requires SinOdd(m)
    ensures HaversineDist(m, phi1, lam1, phi2, lam2) == HaversineDist(m, phi2, lam2, phi1, lam1)
  {
    var u, v := (phi2 - phi1) / 2.0, (lam2 - lam1) / 2.0;
    assert (phi1 - phi2) / 2.0 == -u && (lam1 - lam2) / 2.0 == -v;
    assert m.sin((phi1 - phi2) / 2.0) == -m.sin(u);
    assert m.sin((lam1 - lam2) / 2.0) == -m.sin(v);
    SwappedArgument(m.sin(u), m.sin((phi1 - phi2) / 2.0), m.cos(phi1), m.cos(phi2),
                    m.sin(v), m.sin((lam1 - lam2) / 2.0));
    assert Haversine(m, phi1, lam1, phi2, lam2) == Haversine(m, phi2, lam2, phi1, lam1);
  }

  lemma SwappedArgument(s1: real, t1: real, c1: real, c2: real, s2: real, t2: real)
    requires t1 == -s1 && t2 == -s2
    ensures Sq(s1) + c1 * c2 * Sq(s2) == Sq(t1) + c2 * c1 * Sq(t2)
  {
    assert Sq(t1) == Sq(s1) && Sq(t2) == Sq(s2);
    assert c1 * c2 == c2 * c1;
  }

  lemma HaversineSame(m: Transcendentals, phi: real, lam: real)
    requires HaversineAxioms(m)
    ensures HaversineDist(m, phi, lam, phi, lam) == 0.0
  {
    assert m.sin(0.0) == -m.sin(0.0);
  }

  /** GeoCoord.dist is non-negative, symmetric and zero from a point to itself. */
  lemma GeoDistProperties(m: Transcendentals, a: GeoCoord, b: GeoCoord)
    requires HaversineAxioms(m)
    ensures a.Dist(m, b) >= 0.0
    ensures a.Dist(m, b) == b.Dist(m, a)
    ensures a.Dist(m, a) == 0.0
  {
    HaversineSymmetric(m, a.Phi(), a.Lam(), b.Phi(), b.Lam());
    HaversineSame(m, a.Phi(), a.Lam());
  }

  /** Euclidean distance sqrt((x1-x2)^2 + (y1-y2)^2). */
  function EuclidianDist(m: Transcendentals, x1: real, y1: real, x2: real, y2: real): (r: real)
    ensures SqrtAxioms(m) ==> r >= 0.0
    ensures SqrtAxioms(m) && x1 == x2 && y1 == y2 ==> r == 0.0
  {
    m.sqrt(Sq(x1 - x2) + Sq(y1 - y2))
  }

  /** The Euclidean distance is symmetric in its two points. */
  lemma EuclidianDistSymmetric(m: Transcendentals, x1: real, y1: real, x2: real, y2: real)
    ensures EuclidianDist(m, x1, y1, x2, y2) == EuclidianDist(m, x2, y2, x1, y1)
  {
    assert Sq(x1 - x2) == Sq(x2 - x1);
    assert Sq(y1 - y2) == Sq(y2 - y1);
  }

  // ---------------------------------------------------------------------------------------------
  // Slippy-map tiles

  datatype Tile = Tile(x: int, y: int, zoom: nat,
                       xmin: int, xmax: int, ymin: int, ymax: int,
                       geoCoordMin: GeoCoord, geoCoordMax: GeoCoord)

  /** Tile(x, y, zoom): the tile spans columns [x, x+1] and rows [y, y+1]; its south-west corner
      is (lat of row y+1, lon of column x) and its north-east corner (lat of row y, lon of column x+1). */
  function NewTile(m: Transcendentals, x: int, y: int, zoom: nat): (t: Tile)
    ensures t.x == x && t.y == y && t.zoom == zoom
    ensures t.xmin == x && t.xmax == x + 1 && t.ymin == y && t.ymax == y + 1
    ensures t.geoCoordMin.lon < t.geoCoordMax.lon
    ensures t.geoCoordMax.lon - t.geoCoordMin.lon == 360.0 / Pow2(zoom) as real
  {
    TileToGeoLonStep(x, zoom);
    Tile(x, y, zoom, x, x + 1, y, y + 1,
         GeoCoord(TileToGeoLat(m, y + 1, zoom), TileToGeoLon(x, zoom)),
         GeoCoord(TileToGeoLat(m, y, zoom), TileToGeoLon(x + 1, zoom)))
  }

  /** Column of the tile containing a longitude. */
  function GeoToTileX(lon: real, zoom: nat): (x: int)
    ensures TileToGeoLon(x, zoom) <= lon < TileToGeoLon(x + 1, zoom)
  {
    var p := Pow2(zoom) as real;
    var v := (lon + 180.0) / 360.0 * p;
    var x := v.Floor;
    TileColumnBracket(lon, p, v, x);
    x
  }

  lemma TileColumnBracket(lon: real, p: real, v: real, x: int)
    requires p >= 1.0 && v == (lon + 180.0) / 360.0 * p && x == v.Floor
    ensures x as real / p * 360.0 - 180.0 <= lon
    ensures lon < (x + 1) as real / p * 360.0 - 180.0
  {
    var w := (lon + 180.0) / 360.0;
    assert v / p == w;
    DivLe(x as real, v, p);
    DivLt(v, (x + 1) as real, p);
  }

  /** Row of the tile containing a latitude. np.power(2, zoom - 1) raises for zoom 0, and
      1/cos(phi) is infinite where cos vanishes. */
  function GeoToTileY(m: Transcendentals, lat: real, zoom: nat): (r: Result<int>)
    ensures r.Failure? <==> zoom == 0 || m.cos(lat * PI / 180.0) == 0.0
    ensures zoom == 0 ==> r == Failure(ValueError)
  {
    var phi := lat * PI / 180.0;
    if zoom == 0 then Failure(ValueError)
    else if m.cos(phi) == 0.0 then Failure(NonFinite)
    else Success(((1.0 - m.log(m.tan(phi) + 1.0 / m.cos(phi)) / PI) * Pow2(zoom - 1) as real).Floor)
  }

  function TileToGeoLat(m: Transcendentals, y: int, zoom: nat): real {
    m.arctan(m.sinh(PI - y as real / Pow2(zoom) as real * 2.0 * PI)) * 180.0 / PI
  }

  /** West edge of tile column x. */
  function TileToGeoLon(x: int, zoom: nat): (lon: real)
    ensures x == 0 ==> lon == -180.0
    ensures x == Pow2(zoom) ==> lon == 180.0
  {
    var p := Pow2(zoom) as real;
    DivSelf(x as real, p);
    x as real / p * 360.0 - 180.0
  }

  /** Each column is 360/2^zoom degrees wide. */
  lemma TileToGeoLonStep(x: int, zoom: nat)
    ensures TileToGeoLon(x + 1, zoom) - TileToGeoLon(x, zoom) == 360.0 / Pow2(zoom) as real
    ensures TileToGeoLon(x, zoom) < TileToGeoLon(x + 1, zoom)
  {
    var p := Pow2(zoom) as real;
    assert (x + 1) as real / p == x as real / p + 1.0 / p;
    assert 1.0 / p * 360.0 == 360.0 / p;
  }

  /** tile2geo_lon is strictly increasing in the column. */
  lemma TileToGeoLonIncreasing(x1: int, x2: int, zoom: nat)
    requires x1 < x2
    ensures TileToGeoLon(x1, zoom) < TileToGeoLon(x2, zoom)
  {
    DivLt(x1 as real, x2 as real, Pow2(zoom) as real);
  }

  /** Tile.from_geo: the tile whose columns bracket the point's longitude. */
  function TileFromGeo(m: Transcendentals, g: GeoCoord, zoom: nat): (r: Result<Tile>)
    ensures r.Failure? <==> GeoToTileY(m, g.lat, zoom).Failure?
    ensures r.Success? ==> r.value.geoCoordMin.lon <= g.lon < r.value.geoCoordMax.lon
  {
    var x := GeoToTileX(g.lon, zoom);
    var y :- GeoToTileY(m, g.lat, zoom);
    Success(NewTile(m, x, y, zoom))
  }

  /** The column of a column's west edge is that column: tile2geo_lon and geo2tile_x are
      inverse on whole columns. */
  lemma TileColumnRoundTrip(x: int, zoom: nat)
    ensures GeoToTileX(TileToGeoLon(x, zoom), zoom) == x
  {
    var c := GeoToTileX(TileToGeoLon(x, zoom), zoom);
    if c > x {
      TileToGeoLonIncreasing(x, c, zoom);
    } else if c + 1 < x {
      TileToGeoLonIncreasing(c + 1, x, zoom);
    }
  }
}

/** The search box of `_bbox` (src/booking_mcp/queries.py), over the reals, with the cosine
    of the latitude as a number in [0, 1], against the flat metric that the box approximates.
 */
module Geo {
  const KM_PER_DEGREE: real := 111.0
  const LEAST_COSINE: real := 0.01

  datatype Box = Box(minLat: real, maxLat: real, minLng: real, maxLng: real)

  function MaxReal(a: real, b: real): (m: real)
    ensures m >= a && m >= b && (m == a || m == b)
  {
    if a >= b then a else b
  }

  /** The width of the box in degrees of longitude, to either side. */
  function LngReach(cosine: real, radius: real): real {
    radius / (KM_PER_DEGREE * MaxReal(cosine, LEAST_COSINE))
  }

  function SearchBox(lat: real, lng: real, radius: real, cosine: real): Box {
    var dlat := radius / KM_PER_DEGREE;
    var dlng := LngReach(cosine, radius);
    Box(lat - dlat, lat + dlat, lng - dlng, lng + dlng)
  }

  predicate Inside(b: Box, lat: real, lng: real) {
    b.minLat <= lat <= b.maxLat && b.minLng <= lng <= b.maxLng
  }

  /** The square of the flat distance, in square kilometres, of two points that differ by
      the given degrees. */
  function FlatSquare(dlat: real, dlng: real, cosine: real): real {
    var y, x := dlat * KM_PER_DEGREE, dlng * (KM_PER_DEGREE * cosine);
    y * y + x * x
  }

  predicate WithinDisc(dlat: real, dlng: real, cosine: real, radius: real) {
    FlatSquare(dlat, dlng, cosine) <= radius * radius
  }

  lemma SquareBound(x: real, r: real)
    requires r >= 0.0
    ensures x * x <= r * r <==> -r <= x <= r
  {
    if x > r {
      assert x * x > r * x && r * x >= r * r;
    } else if x < -r {
      assert (-x) * (-x) > r * (-x) && r * (-x) >= r * r;
    } else if x >= 0.0 {
      assert x * x <= r * x && r * x <= r * r;
    } else {
      assert (-x) * (-x) <= r * (-x) && r * (-x) <= r * r;
    }
  }

  /** Reaching `r` kilometres at `k` kilometres a degree. */
  lemma Reach(x: real, k: real, r: real)
    requires k > 0.0
    ensures -r <= x * k <= r <==> -(r / k) <= x <= r / k
  {
    var d := r / k;
    assert d * k == r;
    if x > d { assert x * k > d * k; }
    if x < -d { assert x * k < (-d) * k; }
    if x <= d { assert x * k <= d * k; }
    if x >= -d { assert x * k >= (-d) * k; }
  }

  lemma SquareNonNegative(x: real)
    ensures x * x >= 0.0
  {
  }

  /** A point of the disc is in the box, where the cosine is not cut off. */
  lemma DiscInBox(lat: real, lng: real, radius: real, cosine: real, y: real, x: real)
    requires radius > 0.0 && LEAST_COSINE <= cosine <= 1.0
    requires WithinDisc(y - lat, x - lng, cosine, radius)
    ensures Inside(SearchBox(lat, lng, radius, cosine), y, x)
  {
    var dy, dx := (y - lat) * KM_PER_DEGREE, (x - lng) * (KM_PER_DEGREE * cosine);
    SquareNonNegative(dy);
    SquareNonNegative(dx);
    SquareBound(dy, radius);
    SquareBound(dx, radius);
    Reach(y - lat, KM_PER_DEGREE, radius);
    Reach(x - lng, KM_PER_DEGREE * cosine, radius);
  }

  /** Where the cosine is cut off, the box misses a point of the disc. */
  lemma BoxMissesPoint(lat: real, lng: real, radius: real, cosine: real) returns (x: real)
    requires radius > 0.0 && 0.0 <= cosine < LEAST_COSINE
    ensures WithinDisc(lat - lat, x - lng, cosine, radius)
    ensures !Inside(SearchBox(lat, lng, radius, cosine), lat, x)
  {
    var k := KM_PER_DEGREE * LEAST_COSINE;
    var reach := radius / k;
    assert reach * k == radius && reach > 0.0;
    var dx := if cosine == 0.0 then 2.0 * reach else radius / (KM_PER_DEGREE * cosine);
    x := lng + dx;
    if cosine == 0.0 {
      assert dx * (KM_PER_DEGREE * cosine) == 0.0;
      SquareNonNegative(radius);
    } else {
      assert dx * (KM_PER_DEGREE * cosine) == radius;
      SmallerDivisor(radius, KM_PER_DEGREE * cosine, k);
    }
  }

  lemma SmallerDivisor(r: real, k: real, l: real)
    requires r > 0.0 && 0.0 < k < l
    ensures r / k > r / l
  {
    var d, e := r / k, r / l;
    assert d * k == r && e * l == r;
    assert d * l > d * k;
    assert (d - e) * l > 0.0;
  }

  /** The box contains the whole disc exactly when the cosine is not cut off. */
  lemma BoxContainsDisc(lat: real, lng: real, radius: real, cosine: real)
    requires radius > 0.0 && 0.0 <= cosine <= 1.0
    ensures (forall y, x | WithinDisc(y - lat, x - lng, cosine, radius) ::
               Inside(SearchBox(lat, lng, radius, cosine), y, x))
            <==> cosine >= LEAST_COSINE
  {
    if cosine >= LEAST_COSINE {
      forall y, x | WithinDisc(y - lat, x - lng, cosine, radius)
        ensures Inside(SearchBox(lat, lng, radius, cosine), y, x)
      {
        DiscInBox(lat, lng, radius, cosine, y, x);
      }
    } else {
      var x := BoxMissesPoint(lat, lng, radius, cosine);
    }
  }

  /** Nothing in the box is further away than the radius times the square root of two. */
  lemma BoxIsTight(lat: real, lng: real, radius: real, cosine: real, y: real, x: real)
    requires radius > 0.0 && 0.0 <= cosine <= 1.0
    requires Inside(SearchBox(lat, lng, radius, cosine), y, x)
    ensures FlatSquare(y - lat, x - lng, cosine) <= 2.0 * (radius * radius)
  {
    var c := MaxReal(cosine, LEAST_COSINE);
    Reach(y - lat, KM_PER_DEGREE, radius);
    Reach(x - lng, KM_PER_DEGREE * c, radius);
    var dy, dx := (y - lat) * KM_PER_DEGREE, (x - lng) * (KM_PER_DEGREE * cosine);
    SquareBound(dy, radius);
    SmallerFactor(x - lng, KM_PER_DEGREE * cosine, KM_PER_DEGREE * c, radius);
    SquareBound(dx, radius);
  }

  lemma SmallerFactor(x: real, k: real, l: real, r: real)
    requires 0.0 <= k <= l && -r <= x * l <= r
    ensures -r <= x * k <= r
  {
    if x >= 0.0 {
      assert 0.0 <= x * k <= x * l;
    } else {
      assert x * l <= x * k <= 0.0;
    }
  }

  /** A larger radius never drops a point. */
  lemma BoxGrows(lat: real, lng: real, radius: real, wider: real, cosine: real, y: real, x: real)
    requires radius <= wider && Inside(SearchBox(lat, lng, radius, cosine), y, x)
    ensures Inside(SearchBox(lat, lng, wider, cosine), y, x)
  {
    var k := KM_PER_DEGREE * MaxReal(cosine, LEAST_COSINE);
    assert (wider - radius) / k >= 0.0 && wider / k == radius / k + (wider - radius) / k;
  }
}

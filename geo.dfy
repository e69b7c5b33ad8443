/** Search-area geometry: per-destination boxes derived from time budgets and
    their intersection, the search boundary (postcode_finder.py, set_boundaries). */
module Geo {
  import opened Wrappers
  import opened Py

  /** A point in degrees. */
  datatype Coord = Coord(lat: real, lon: real)

  /** The direction argument of compute_delta: 'lat' or 'lon'. */
  datatype Axis = Lat | Lon

  type NonNegReal = r: real | r >= 0.0

  /** compute_delta(lat, lon, dist, direction): the coordinate difference in
      degrees along `direction` that corresponds to `dist` kilometres around
      (lat, lon). Its haversine inversion 2*asin(sqrt(...)) is never negative.
      It is taken as total: asin's domain error for very large distances is
      outside the model. */
  type DeltaFn = (real, real, real, Axis) -> NonNegReal

  /** The maximum speed the search reckons with, in kilometres per minute. */
  const MaxSpeed: real := 1.5

  /** A search area in the source's order: (min_lat, min_lon, max_lat, max_lon). */
  datatype Box = Box(minLat: real, minLon: real, maxLat: real, maxLon: real)

  predicate Contains(b: Box, c: Coord) {
    b.minLat <= c.lat <= b.maxLat && b.minLon <= c.lon <= b.maxLon
  }

  /** The check that raises SearchAreaError: a minimum above its maximum. */
  predicate IsEmpty(b: Box) {
    b.minLat > b.maxLat || b.minLon > b.maxLon
  }

  /** Every bound of `inner` lies within the matching bounds of `outer`. */
  predicate Nested(inner: Box, outer: Box) {
    outer.minLat <= inner.minLat && outer.minLon <= inner.minLon &&
    inner.maxLat <= outer.maxLat && inner.maxLon <= outer.maxLon
  }

  /** A point that lies in every box. */
  ghost predicate InAll(boxes: seq<Box>, c: Coord) {
    forall k :: 0 <= k < |boxes| ==> Contains(boxes[k], c)
  }

  /** min_max_lat_lon(dest): the frame around a destination whose budget is
      `minutes`, with half-widths for the distance MaxSpeed * minutes. */
  function DestinationBox(c: Coord, minutes: int, delta: DeltaFn): (b: Box)
    ensures Contains(b, c) && !IsEmpty(b)
    ensures b.maxLat - c.lat == c.lat - b.minLat == delta(c.lat, c.lon, MaxSpeed * minutes as real, Lat)
    ensures b.maxLon - c.lon == c.lon - b.minLon == delta(c.lat, c.lon, MaxSpeed * minutes as real, Lon)
  {
    var dist := MaxSpeed * minutes as real;
    var dLat := delta(c.lat, c.lon, dist, Lat);
    var dLon := delta(c.lat, c.lon, dist, Lon);
    Box(c.lat - dLat, c.lon - dLon, c.lat + dLat, c.lon + dLon)
  }

  /** Python's max() over a non-empty column. */
  function MaxOf(s: seq<real>): (m: real)
    requires |s| > 0
    ensures forall i :: 0 <= i < |s| ==> s[i] <= m
    ensures m in s
  {
    if |s| == 1 then s[0]
    else
      var rest := MaxOf(s[1..]);
      if s[0] >= rest then s[0] else rest
  }

  /** Python's min() over a non-empty column. */
  function MinOf(s: seq<real>): (m: real)
    requires |s| > 0
    ensures forall i :: 0 <= i < |s| ==> m <= s[i]
    ensures m in s
  {
    if |s| == 1 then s[0]
    else
      var rest := MinOf(s[1..]);
      if s[0] <= rest then s[0] else rest
  }

  /** The columns m[:, 0] .. m[:, 3] of the matrix whose rows are `boxes`. */
  function MinLats(boxes: seq<Box>): seq<real> { seq(|boxes|, k requires 0 <= k < |boxes| => boxes[k].minLat) }
  function MinLons(boxes: seq<Box>): seq<real> { seq(|boxes|, k requires 0 <= k < |boxes| => boxes[k].minLon) }
  function MaxLats(boxes: seq<Box>): seq<real> { seq(|boxes|, k requires 0 <= k < |boxes| => boxes[k].maxLat) }
  function MaxLons(boxes: seq<Box>): seq<real> { seq(|boxes|, k requires 0 <= k < |boxes| => boxes[k].maxLon) }

  /** The intersection of the frames: the largest minimums and the smallest maximums. */
  function Intersection(boxes: seq<Box>): Box
    requires |boxes| > 0
  {
    Box(MaxOf(MinLats(boxes)), MaxOf(MinLons(boxes)), MinOf(MaxLats(boxes)), MinOf(MaxLons(boxes)))
  }

  /** The rows of m: one frame per destination, in destination order. */
  function DestinationBoxes(dests: seq<string>, coords: map<string, Coord>,
                            minutes: map<string, int>, delta: DeltaFn): (boxes: seq<Box>)
    requires forall k :: 0 <= k < |dests| ==> dests[k] in coords && dests[k] in minutes
    ensures |boxes| == |dests|
    ensures forall k :: 0 <= k < |dests| ==> Contains(boxes[k], coords[dests[k]])
  {
    seq(|dests|, k requires 0 <= k < |dests| => DestinationBox(coords[dests[k]], minutes[dests[k]], delta))
  }

  /** set_boundaries: the intersection of the destination frames, or the
      exception it raises (max() of no rows raises ValueError). */
  function SearchBoundary(dests: seq<string>, coords: map<string, Coord>,
                          minutes: map<string, int>, delta: DeltaFn): Result<Box, Exception>
    requires forall k :: 0 <= k < |dests| ==> dests[k] in coords && dests[k] in minutes
  {
    if |dests| == 0 then Failure(ValueError)
    else
      var sb := Intersection(DestinationBoxes(dests, coords, minutes, delta));
      if IsEmpty(sb) then Failure(SearchAreaError) else Success(sb)
  }

  // ---- Lemmas -----------------------------------------------------------

  /** The intersection lies inside every frame, and each of its bounds is a
      bound of some frame. */
  lemma IntersectionNested(boxes: seq<Box>)
    requires |boxes| > 0
    ensures forall k :: 0 <= k < |boxes| ==> Nested(Intersection(boxes), boxes[k])
  {
    var r := Intersection(boxes);
    forall k | 0 <= k < |boxes| ensures Nested(r, boxes[k]) {
      assert MinLats(boxes)[k] == boxes[k].minLat && MinLons(boxes)[k] == boxes[k].minLon;
      assert MaxLats(boxes)[k] == boxes[k].maxLat && MaxLons(boxes)[k] == boxes[k].maxLon;
    }
  }

  /** A point is in the search boundary exactly when it is in every frame. */
  lemma IntersectionContains(boxes: seq<Box>, c: Coord)
    requires |boxes| > 0
    ensures Contains(Intersection(boxes), c) <==> InAll(boxes, c)
  {
    var r := Intersection(boxes);
    IntersectionNested(boxes);
    if InAll(boxes, c) {
      var i :| 0 <= i < |boxes| && MinLats(boxes)[i] == r.minLat;
      var j :| 0 <= j < |boxes| && MinLons(boxes)[j] == r.minLon;
      var k :| 0 <= k < |boxes| && MaxLats(boxes)[k] == r.maxLat;
      var l :| 0 <= l < |boxes| && MaxLons(boxes)[l] == r.maxLon;
      assert Contains(boxes[i], c) && Contains(boxes[j], c) && Contains(boxes[k], c) && Contains(boxes[l], c);
    }
  }

  /** The intersection is empty exactly when no point lies in every frame. */
  lemma IntersectionEmpty(boxes: seq<Box>)
    requires |boxes| > 0
    ensures IsEmpty(Intersection(boxes)) <==> !exists c :: InAll(boxes, c)
  {
    var r := Intersection(boxes);
    if !IsEmpty(r) {
      var corner := Coord(r.minLat, r.minLon);
      IntersectionContains(boxes, corner);
    } else {
      forall c | InAll(boxes, c) ensures false {
        IntersectionContains(boxes, c);
      }
    }
  }

  /** set_boundaries either stores a non-empty boundary that is exactly the
      common part of the destination frames, or raises: SearchAreaError
      exactly when the frames have no point in common. */
  lemma SearchBoundaryIsIntersection(dests: seq<string>, coords: map<string, Coord>,
                                     minutes: map<string, int>, delta: DeltaFn)
    requires forall k :: 0 <= k < |dests| ==> dests[k] in coords && dests[k] in minutes
    ensures var boxes := DestinationBoxes(dests, coords, minutes, delta);
            match SearchBoundary(dests, coords, minutes, delta)
            case Success(b) =>
              |dests| > 0 && !IsEmpty(b) &&
              (forall k :: 0 <= k < |dests| ==> Nested(b, boxes[k])) &&
              (forall c :: Contains(b, c) <==> InAll(boxes, c))
            case Failure(e) =>
              (e == ValueError && |dests| == 0) ||
              (e == SearchAreaError && |dests| > 0 && !exists c :: InAll(boxes, c))
  {
    var boxes := DestinationBoxes(dests, coords, minutes, delta);
    if |dests| > 0 {
      IntersectionNested(boxes);
      IntersectionEmpty(boxes);
      forall c ensures Contains(Intersection(boxes), c) <==> InAll(boxes, c) {
        IntersectionContains(boxes, c);
      }
    }
  }

  /** A single destination never gives an empty search area: its frame
      contains the destination itself. */
  lemma SingleDestinationNeverEmpty(dest: string, coords: map<string, Coord>,
                                    minutes: map<string, int>, delta: DeltaFn)
    requires dest in coords && dest in minutes
    ensures SearchBoundary([dest], coords, minutes, delta).Success?
    ensures Contains(SearchBoundary([dest], coords, minutes, delta).value, coords[dest])
  {
    var boxes := DestinationBoxes([dest], coords, minutes, delta);
    IntersectionContains(boxes, coords[dest]);
  }

  /** compute_delta grows with the distance (true of 2*asin(sqrt(tan(d/2R)^2 / (1 + ...)))
      on non-negative distances). */
  ghost predicate GrowsWithDistance(delta: DeltaFn) {
    forall lat, lon, d1, d2, ax :: 0.0 <= d1 <= d2 ==> delta(lat, lon, d1, ax) <= delta(lat, lon, d2, ax)
  }

  lemma DestinationBoxGrows(c: Coord, small: int, large: int, delta: DeltaFn)
    requires 0 <= small <= large && GrowsWithDistance(delta)
    ensures Nested(DestinationBox(c, small, delta), DestinationBox(c, large, delta))
  {
    var ds, dl := MaxSpeed * small as real, MaxSpeed * large as real;
    assert 0.0 <= ds <= dl;
    assert delta(c.lat, c.lon, ds, Lat) <= delta(c.lat, c.lon, dl, Lat);
    assert delta(c.lat, c.lon, ds, Lon) <= delta(c.lat, c.lon, dl, Lon);
  }

  lemma MaxOfMonotone(a: seq<real>, b: seq<real>)
    requires |a| == |b| > 0 && forall i :: 0 <= i < |a| ==> a[i] <= b[i]
    ensures MaxOf(a) <= MaxOf(b)
  {
    var i :| 0 <= i < |a| && a[i] == MaxOf(a);
  }

  lemma MinOfMonotone(a: seq<real>, b: seq<real>)
    requires |a| == |b| > 0 && forall i :: 0 <= i < |a| ==> a[i] <= b[i]
    ensures MinOf(a) <= MinOf(b)
  {
    var i :| 0 <= i < |b| && b[i] == MinOf(b);
  }

  /** Larger budgets never shrink the search boundary, given that
      compute_delta grows with the distance. */
  lemma BoundaryGrowsWithBudget(dests: seq<string>, coords: map<string, Coord>,
                                small: map<string, int>, large: map<string, int>, delta: DeltaFn)
    requires |dests| > 0
    requires forall k :: 0 <= k < |dests| ==> dests[k] in coords && dests[k] in small && dests[k] in large
    requires forall k :: 0 <= k < |dests| ==> 0 <= small[dests[k]] <= large[dests[k]]
    requires GrowsWithDistance(delta)
    ensures Nested(Intersection(DestinationBoxes(dests, coords, small, delta)),
                   Intersection(DestinationBoxes(dests, coords, large, delta)))
  {
    var bs := DestinationBoxes(dests, coords, small, delta);
    var bl := DestinationBoxes(dests, coords, large, delta);
    forall k | 0 <= k < |dests| ensures Nested(bs[k], bl[k]) {
      DestinationBoxGrows(coords[dests[k]], small[dests[k]], large[dests[k]], delta);
    }
    IntersectionMonotone(bs, bl);
  }

  /** Frames that each grow give an intersection that grows. */
  lemma IntersectionMonotone(inner: seq<Box>, outer: seq<Box>)
    requires |inner| == |outer| > 0
    requires forall k :: 0 <= k < |inner| ==> Nested(inner[k], outer[k])
    ensures Nested(Intersection(inner), Intersection(outer))
  {
    MaxOfMonotone(MinLats(outer), MinLats(inner));
    MaxOfMonotone(MinLons(outer), MinLons(inner));
    MinOfMonotone(MaxLats(inner), MaxLats(outer));
    MinOfMonotone(MaxLons(inner), MaxLons(outer));
  }
}

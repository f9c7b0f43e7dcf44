/** The geofence of libs/geoutil: does an alert polygon cover the station?

    Coordinates are real numbers here, where the program uses `float`; rounding
    is not part of the model.
 */
module Geofence {
  import opened Common

  const EPSILON: real := 0.4
  const LARGE_FLOAT: real := 99999.9
  const TOLERANCE: real := EPSILON * EPSILON

  datatype GeoPoint = GeoPoint(x: real, y: real)

  /** What a call of `is_inside` produces: a verdict, or the exception that
      `alertArea_.at(0)` throws on an empty polygon. */
  datatype Outcome = Verdict(covered: bool) | OutOfRange

  /** A property of a polygon edge, given by its two end points. */
  type EdgeRule = (GeoPoint, GeoPoint) -> bool

  predicate Odd(n: nat) { n % 2 == 1 }

  // ---------------------------------------------------------------- the code

  /** The line through p and q, evaluated at s: zero on the line, with opposite
      signs on its two sides. */
  function Line(p: GeoPoint, q: GeoPoint, s: GeoPoint): real {
    (q.y - p.y) * s.x + (p.x - q.x) * s.y + (q.x * p.y - p.x * q.y)
  }

  /** Zero when the lines through a, b and through p, q are parallel. */
  function Skew(a: GeoPoint, b: GeoPoint, p: GeoPoint, q: GeoPoint): real {
    (b.y - a.y) * (p.x - q.x) - (q.y - p.y) * (a.x - b.x)
  }

  predicate SameStrictSide(d1: real, d2: real) {
    (d1 > 0.0 && d2 > 0.0) || (d1 < 0.0 && d2 < 0.0)
  }

  predicate IsOnline(s: GeoPoint, p: GeoPoint, q: GeoPoint) {
    if s.x > p.x && s.x > q.x then false
    else if s.x < p.x && s.x < q.x then false
    else if s.y > p.y && s.y > q.y then false
    else if s.y < p.y && s.y < q.y then false
    else AbsReal((s.x - p.x) * (q.y - p.y) - (q.x - p.x) * (s.y - p.y)) < TOLERANCE
  }

  predicate AreIntersecting(a: GeoPoint, b: GeoPoint, p: GeoPoint, q: GeoPoint) {
    if SameStrictSide(Line(a, b, p), Line(a, b, q)) then false
    else if SameStrictSide(Line(p, q, a), Line(p, q, b)) then false
    else AbsReal(Skew(a, b, p, q)) >= TOLERANCE
  }

  /** The edge pq is hit by the ray that `is_inside` casts from s. */
  predicate Hits(s: GeoPoint, p: GeoPoint, q: GeoPoint) {
    AreIntersecting(s, GeoPoint(LARGE_FLOAT, s.y), p, q)
  }

  function NearRule(s: GeoPoint): EdgeRule { (p, q) => IsOnline(s, p, q) }
  function HitRule(s: GeoPoint): EdgeRule { (p, q) => Hits(s, p, q) }

  /** The number of edges of an open chain of points that satisfy a rule. */
  function CountEdges(ps: seq<GeoPoint>, rule: EdgeRule): nat {
    if |ps| < 2 then 0
    else (if rule(ps[0], ps[1]) then 1 else 0) + CountEdges(ps[1..], rule)
  }

  // -------------------------------------------------- what near an edge means

  /** Twice the signed area of the triangle p, q, s. */
  function Orient(p: GeoPoint, q: GeoPoint, s: GeoPoint): real {
    (q.x - p.x) * (s.y - p.y) - (q.y - p.y) * (s.x - p.x)
  }

  predicate Between(a: real, b: real, v: real) { a <= v <= b || b <= v <= a }

  /** In the edge's bounding box, and spanning with it a triangle of area less than 0.08. */
  predicate NearEdge(s: GeoPoint, p: GeoPoint, q: GeoPoint) {
    Between(p.x, q.x, s.x) && Between(p.y, q.y, s.y) && -0.16 < Orient(p, q, s) < 0.16
  }

  /** The station is near some edge of the outline. */
  predicate IsNear(ps: seq<GeoPoint>, s: GeoPoint) {
    exists i :: 0 < i < |ps| && NearEdge(s, ps[i - 1], ps[i])
  }

  /** The tolerance test is that: box and area. */
  lemma OnlineIff(s: GeoPoint, p: GeoPoint, q: GeoPoint)
    ensures IsOnline(s, p, q) <==> NearEdge(s, p, q)
  {
    var area := (s.x - p.x) * (q.y - p.y) - (q.x - p.x) * (s.y - p.y);
    assert Orient(p, q, s) == -area;
  }

  lemma {:induction false} NearIff(ps: seq<GeoPoint>, s: GeoPoint)
    ensures CountEdges(ps, NearRule(s)) > 0 <==> IsNear(ps, s)
  {
    if |ps| >= 2 {
      NearIff(ps[1..], s);
      OnlineIff(s, ps[0], ps[1]);
      if i :| 0 < i < |ps[1..]| && NearEdge(s, ps[1..][i - 1], ps[1..][i]) {
        assert NearEdge(s, ps[i + 1 - 1], ps[i + 1]);
      }
      if i :| 0 < i < |ps| && NearEdge(s, ps[i - 1], ps[i]) {
        if i == 1 { assert NearEdge(s, ps[0], ps[1]); } else { assert NearEdge(s, ps[1..][i - 1 - 1], ps[1..][i - 1]); }
      }
      if IsOnline(s, ps[0], ps[1]) { assert NearEdge(s, ps[1 - 1], ps[1]); }
    }
  }

  /** The verdict for a polygon with at least one point. */
  predicate Inside(ps: seq<GeoPoint>, s: GeoPoint) {
    CountEdges(ps, NearRule(s)) > 0 || Odd(CountEdges(ps, HitRule(s)))
  }

  /** The value of a 32-bit unsigned counter. */
  function Wrap32(n: nat): nat { n % 0x1_0000_0000 }

  lemma WrapStep(n: nat)
    ensures Wrap32(Wrap32(n) + 1) == Wrap32(n + 1)
  {
  }

  lemma EvenPart(m: nat, r: nat)
    ensures Odd(2 * m + r) == Odd(r)
  {
  }

  /** Wrap-around keeps parity, the only thing the counter is read for. */
  lemma WrapParity(n: nat)
    ensures Odd(Wrap32(n)) == Odd(n)
    ensures Wrap32(n) <= 4_294_967_295 && (n <= 4_294_967_295 ==> Wrap32(n) == n)
  {
    var k := n / 0x1_0000_0000;
    assert n == 2 * (0x8000_0000 * k) + Wrap32(n);
    EvenPart(0x8000_0000 * k, Wrap32(n));
  }

  class GeoUtil {
    var station: GeoPoint
    var alertArea: seq<GeoPoint>

    constructor ()
      ensures station == GeoPoint(0.0, 0.0) && alertArea == []
    {
      station := GeoPoint(0.0, 0.0);
      alertArea := [];
    }

    method SetStation(s: GeoPoint)
      modifies this`station
      ensures station == s
    {
      station := s;
    }

    /** `set_alertArea` after its text has been cut into points. */
    method SetAlertArea(points: seq<GeoPoint>)
      modifies this`alertArea
      ensures alertArea == points
    {
      alertArea := [];
      for i := 0 to |points|
        invariant alertArea == points[..i]
      {
        alertArea := alertArea + [points[i]];
      }
    }

    /** The scan over the edges, with the 32-bit crossing counter. */
    method IsInside() returns (r: Outcome)
      ensures alertArea == [] <==> r.OutOfRange?
      ensures alertArea != [] ==> r.covered == Inside(alertArea, station)
      ensures alertArea != [] ==> (r.covered <==> IsNear(alertArea, station) || Odd(CountEdges(alertArea, HitRule(station))))
    {
      NearIff(alertArea, station);
      if |alertArea| == 0 {
        return OutOfRange;
      }
      var countIntersections: nat := 0;
      ghost var hits: nat := 0;  // what the counter would be without wrap-around
      var i := 0;
      while i < |alertArea| - 1
        invariant 0 <= i < |alertArea|
        invariant CountEdges(alertArea, NearRule(station)) == CountEdges(alertArea[i..], NearRule(station))
        invariant CountEdges(alertArea, HitRule(station)) == hits + CountEdges(alertArea[i..], HitRule(station))
        invariant countIntersections == Wrap32(hits)
      {
        var p, q := alertArea[i], alertArea[i + 1];
        assert alertArea[i..][1..] == alertArea[i + 1..];
        if IsOnline(station, p, q) {
          return Verdict(true);
        }
        if Hits(station, p, q) {
          WrapStep(hits);
          countIntersections := Wrap32(countIntersections + 1);
          hits := hits + 1;
        }
        i := i + 1;
      }
      WrapParity(hits);
      r := Verdict(Odd(countIntersections));
    }
  }
}

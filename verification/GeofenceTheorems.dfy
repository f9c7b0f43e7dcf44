/** What the geofence verdict means: the even-odd rule over the triangles of a
    fan, up to exactly the edges that the ray cast miscounts. */
module GeofenceTheorems {
  import opened Common
  import opened Geofence

  // ------------------------------------------------- reference definitions

  predicate OnSegment(s: GeoPoint, p: GeoPoint, q: GeoPoint) {
    Orient(p, q, s) == 0.0 && Between(p.x, q.x, s.x) && Between(p.y, q.y, s.y)
  }

  /** s lies strictly inside the triangle a, b, c. */
  predicate StrictlyInside(s: GeoPoint, a: GeoPoint, b: GeoPoint, c: GeoPoint) {
    (Orient(a, b, s) > 0.0 && Orient(b, c, s) > 0.0 && Orient(c, a, s) > 0.0) ||
    (Orient(a, b, s) < 0.0 && Orient(b, c, s) < 0.0 && Orient(c, a, s) < 0.0)
  }

  /** Where the line through p and q meets the horizontal line through s. */
  function CrossingX(s: GeoPoint, p: GeoPoint, q: GeoPoint): real
    requires p.y != q.y
  {
    p.x + (s.y - p.y) * (q.x - p.x) / (q.y - p.y)
  }

  predicate Above(s: GeoPoint, p: GeoPoint) { p.y > s.y }

  /** The textbook crossing rule: exactly one end is above the station, and the
      edge meets the station's level at or to the right of the station. */
  predicate Crosses(s: GeoPoint, p: GeoPoint, q: GeoPoint) {
    Above(s, p) != Above(s, q) && CrossingX(s, p, q) >= s.x
  }

  /** The edge is so flat that the parallel test drops it. */
  predicate Dropped(s: GeoPoint, p: GeoPoint, q: GeoPoint) {
    AbsReal(q.y - p.y) * (99999.9 - s.x) < 0.16
  }

  /** One end lies on the ray and the other one below it. */
  predicate TouchesFromBelow(s: GeoPoint, p: GeoPoint, q: GeoPoint) {
    (p.y == s.y && s.x <= p.x <= 99999.9 && q.y < s.y) || (q.y == s.y && s.x <= q.x <= 99999.9 && p.y < s.y)
  }

  /** The edge meets the station's level, but only beyond the far end of the ray. */
  predicate CrossesBeyond(s: GeoPoint, p: GeoPoint, q: GeoPoint) {
    Above(s, p) != Above(s, q) && CrossingX(s, p, q) > 99999.9
  }

  /** The edges on which the code departs from the textbook rule: flat ones, and ones
      beyond the ray, that it should count and does not, and touching ones that it
      counts and should not. */
  predicate Miscounted(s: GeoPoint, p: GeoPoint, q: GeoPoint) {
    if Dropped(s, p, q) then Crosses(s, p, q) else TouchesFromBelow(s, p, q) || CrossesBeyond(s, p, q)
  }

  function CrossRule(s: GeoPoint): EdgeRule { (p, q) => Crosses(s, p, q) }
  function MiscountRule(s: GeoPoint): EdgeRule { (p, q) => Miscounted(s, p, q) }
  function LevelRule(s: GeoPoint): EdgeRule { (p, q) => Above(s, p) != Above(s, q) }
  function FanRule(s: GeoPoint, v: GeoPoint): EdgeRule { (p, q) => StrictlyInside(s, v, p, q) }

  /** How many triangles (v, vi, vi+1) of the fan with apex v strictly contain the station. */
  function FanCount(ps: seq<GeoPoint>, v: GeoPoint, s: GeoPoint): nat { CountEdges(ps, FanRule(s, v)) }

  predicate Closed(ps: seq<GeoPoint>) { ps != [] && ps[0] == ps[|ps| - 1] }

  /** The station is on none of the segments from the apex to a vertex; with a
      vertex for apex these are the diagonals. */
  predicate OffDiagonals(ps: seq<GeoPoint>, v: GeoPoint, s: GeoPoint) {
    forall i :: 0 <= i < |ps| ==> !OnSegment(s, v, ps[i])
  }

  /** Everything lies left of the far end of the ray. */
  predicate InRange(ps: seq<GeoPoint>, s: GeoPoint) {
    s.x < 99999.9 && forall i :: 0 <= i < |ps| ==> ps[i].x < 99999.9
  }

  predicate EdgeAt(ps: seq<GeoPoint>, i: nat, rule: EdgeRule)
    requires i + 1 < |ps|
  {
    rule(ps[i], ps[i + 1])
  }

  // -------------------------------------------------- near, as a distance

  function SqDist(p: GeoPoint, q: GeoPoint): real {
    (p.x - q.x) * (p.x - q.x) + (p.y - q.y) * (p.y - q.y)
  }

  /** The point of the line from p to q at parameter u: p at 0, q at 1. */
  function OnLineAt(p: GeoPoint, q: GeoPoint, u: real): GeoPoint {
    GeoPoint(p.x + u * (q.x - p.x), p.y + u * (q.y - p.y))
  }

  /** Where the perpendicular from s meets the line through p and q. */
  function FootAt(s: GeoPoint, p: GeoPoint, q: GeoPoint): real
    requires SqDist(p, q) != 0.0
  {
    ((s.x - p.x) * (q.x - p.x) + (s.y - p.y) * (q.y - p.y)) / SqDist(p, q)
  }

  lemma DifferentApart(p: GeoPoint, q: GeoPoint)
    ensures SqDist(p, q) >= 0.0 && (SqDist(p, q) == 0.0 <==> p == q)
  {
    SquareSign(p.x - q.x);
    SquareSign(p.y - q.y);
  }

  lemma SquareSign(r: real)
    ensures r * r >= 0.0 && (r * r == 0.0 <==> r == 0.0)
  {
    SignTable(r, r, r * r);
  }

  lemma SquareBelow(r: real, c: real)
    requires c > 0.0
    ensures r * r < c * c <==> -c < r < c
  {
    var down, up := c - r, c + r;
    assert down * up == c * c - r * r;
    SignTable(down, up, down * up);
  }

  /** The squared distance to the point at u: (ax, ay) is s - p, (dx, dy) is q - p. */
  lemma DistanceAt(ax: real, ay: real, dx: real, dy: real, u: real, square: real, k: real, len: real)
    requires square == ax * ax + ay * ay && k == ax * dx + ay * dy && len == dx * dx + dy * dy
    ensures (ax - u * dx) * (ax - u * dx) + (ay - u * dy) * (ay - u * dy) == square - 2.0 * (u * k) + u * (u * len)
  {
    SquareOfDifference(ax, u, dx);
    SquareOfDifference(ay, u, dy);
    TimesSum(u, ax * dx, ay * dy);
    TimesSum(u, dx * dx, dy * dy);
    TimesSum(u, u * (dx * dx), u * (dy * dy));
  }

  lemma TimesSum(u: real, x: real, y: real)
    ensures u * (x + y) == u * x + u * y
  {
  }

  lemma SquareOfDifference(a: real, u: real, d: real)
    ensures (a - u * d) * (a - u * d) == a * a - 2.0 * (u * (a * d)) + u * (u * (d * d))
  {
    var e := u * d;
    assert (a - e) * (a - e) == a * a - 2.0 * (a * e) + e * e;
    assert a * e == u * (a * d);
    assert e * e == u * (u * (d * d));
  }

  lemma Lagrange(ax: real, ay: real, dx: real, dy: real)
    ensures (ax * ax + ay * ay) * (dx * dx + dy * dy)
      == (dx * ay - dy * ax) * (dx * ay - dy * ax) + (ax * dx + ay * dy) * (ax * dx + ay * dy)
  {
  }

  /** The foot is the nearest point of the line, and its distance is twice the
      triangle's area over the edge's length. */
  lemma FootIsNearest(s: GeoPoint, p: GeoPoint, q: GeoPoint, u: real)
    requires p != q
    ensures SqDist(p, q) > 0.0
    ensures SqDist(s, OnLineAt(p, q, FootAt(s, p, q))) <= SqDist(s, OnLineAt(p, q, u))
    ensures SqDist(s, OnLineAt(p, q, FootAt(s, p, q))) * SqDist(p, q) == Orient(p, q, s) * Orient(p, q, s)
  {
    DifferentApart(p, q);
    var t := FootAt(s, p, q);
    var ax, ay, dx, dy, square, k, len := EdgeTerms(s, p, q, t);
    DistanceOnLine(s, p, q, t, ax, ay, dx, dy, square, k, len);
    DistanceOnLine(s, p, q, u, ax, ay, dx, dy, square, k, len);
    FootIsLeast(square, k, len, t, u);
  }

  /** The products that the distances are made of. */
  lemma EdgeTerms(s: GeoPoint, p: GeoPoint, q: GeoPoint, t: real)
    returns (ax: real, ay: real, dx: real, dy: real, square: real, k: real, len: real)
    requires SqDist(p, q) > 0.0 && t == FootAt(s, p, q)
    ensures Terms(s, p, q, ax, ay, dx, dy, square, k, len)
    ensures len == SqDist(p, q) && t * len == k
    ensures square * len - k * k == Orient(p, q, s) * Orient(p, q, s)
  {
    ax, ay, dx, dy := s.x - p.x, s.y - p.y, q.x - p.x, q.y - p.y;
    square, k, len := ax * ax + ay * ay, ax * dx + ay * dy, dx * dx + dy * dy;
    SqDistBy(p, q, -dx, -dy);
    Lagrange(ax, ay, dx, dy);
    assert Orient(p, q, s) == dx * ay - dy * ax;
  }

  lemma SqDistBy(s: GeoPoint, r: GeoPoint, ex: real, ey: real)
    requires ex == s.x - r.x && ey == s.y - r.y
    ensures SqDist(s, r) == ex * ex + ey * ey
  {
  }

  /** The vectors and products of a station and an edge. */
  ghost predicate Terms(s: GeoPoint, p: GeoPoint, q: GeoPoint, ax: real, ay: real, dx: real, dy: real, square: real, k: real, len: real) {
    && ax == s.x - p.x && ay == s.y - p.y && dx == q.x - p.x && dy == q.y - p.y
    && square == ax * ax + ay * ay && k == ax * dx + ay * dy && len == dx * dx + dy * dy
  }

  lemma DistanceOnLine(s: GeoPoint, p: GeoPoint, q: GeoPoint, u: real,
                       ax: real, ay: real, dx: real, dy: real, square: real, k: real, len: real)
    requires Terms(s, p, q, ax, ay, dx, dy, square, k, len)
    ensures SqDist(s, OnLineAt(p, q, u)) == square - 2.0 * (u * k) + u * (u * len)
  {
    SqDistBy(s, OnLineAt(p, q, u), ax - u * dx, ay - u * dy);
    DistanceAt(ax, ay, dx, dy, u, square, k, len);
  }

  lemma FootIsLeast(square: real, k: real, len: real, t: real, u: real)
    requires len > 0.0 && t * len == k
    ensures square - 2.0 * (t * k) + t * (t * len) <= square - 2.0 * (u * k) + u * (u * len)
    ensures (square - 2.0 * (t * k) + t * (t * len)) * len == square * len - k * k
  {
    var w := u - t;
    SquareSign(w);
    assert w * w * len == u * (u * len) - 2.0 * (u * k) + t * k;
    assert t * (t * len) == t * k;
    assert (t * k) * len == k * k;
  }

  /** Near an edge: in its box, and closer to its line than 0.16 over its length. */
  lemma NearByDistance(s: GeoPoint, p: GeoPoint, q: GeoPoint)
    requires p != q
    ensures SqDist(p, q) > 0.0
    ensures NearEdge(s, p, q) <==>
      && Between(p.x, q.x, s.x) && Between(p.y, q.y, s.y)
      && SqDist(s, OnLineAt(p, q, FootAt(s, p, q))) * SqDist(p, q) < 0.16 * 0.16
  {
    FootIsNearest(s, p, q, 0.0);
    SquareBelow(Orient(p, q, s), 0.16);
  }

  /** A degenerate edge is near only for its own point. */
  lemma NearPoint(s: GeoPoint, p: GeoPoint)
    ensures NearEdge(s, p, p) <==> s == p
  {
  }

  // -------------------------------------------------------- counting edges

  lemma {:induction false} CountSplit(a: seq<GeoPoint>, p: GeoPoint, b: seq<GeoPoint>, rule: EdgeRule)
    ensures CountEdges(a + [p] + b, rule) == CountEdges(a + [p], rule) + CountEdges([p] + b, rule)
  {
    if a == [] {
      assert a + [p] + b == [p] + b;
    } else {
      CountSplit(a[1..], p, b, rule);
      assert (a + [p] + b)[1..] == a[1..] + [p] + b;
      assert (a + [p])[1..] == a[1..] + [p];
      assert (a + [p] + b)[1] == (a + [p])[1];
    }
  }

  /** Parity is additive edge by edge. */
  lemma {:induction false} ParityOfXor(ps: seq<GeoPoint>, f: EdgeRule, g: EdgeRule, h: EdgeRule)
    requires forall i: nat :: i + 1 < |ps| ==> EdgeAt(ps, i, f) == (EdgeAt(ps, i, g) != EdgeAt(ps, i, h))
    ensures Odd(CountEdges(ps, f)) == (Odd(CountEdges(ps, g)) != Odd(CountEdges(ps, h)))
  {
    if |ps| >= 2 {
      assert EdgeAt(ps, 0, f) == (EdgeAt(ps, 0, g) != EdgeAt(ps, 0, h));
      forall i: nat | i + 1 < |ps[1..]|
        ensures EdgeAt(ps[1..], i, f) == (EdgeAt(ps[1..], i, g) != EdgeAt(ps[1..], i, h))
      {
        assert EdgeAt(ps, i + 1, f) == (EdgeAt(ps, i + 1, g) != EdgeAt(ps, i + 1, h));
      }
      ParityOfXor(ps[1..], f, g, h);
    }
  }

  lemma {:induction false} CountZero(ps: seq<GeoPoint>, rule: EdgeRule)
    ensures CountEdges(ps, rule) == 0 <==> forall i: nat :: i + 1 < |ps| ==> !EdgeAt(ps, i, rule)
  {
    if |ps| >= 2 {
      CountZero(ps[1..], rule);
      assert forall i: nat :: i + 1 < |ps[1..]| ==> EdgeAt(ps[1..], i, rule) == EdgeAt(ps, i + 1, rule);
      if CountEdges(ps, rule) == 0 {
        forall i: nat | i + 1 < |ps| ensures !EdgeAt(ps, i, rule) {
          if i > 0 { assert EdgeAt(ps[1..], i - 1, rule) == EdgeAt(ps, i, rule); }
        }
      } else if EdgeAt(ps, 0, rule) {
      } else {
        var i: nat :| i + 1 < |ps[1..]| && EdgeAt(ps[1..], i, rule);
        assert EdgeAt(ps, i + 1, rule);
      }
    }
  }

  // --------------------------------------------------- one edge of the code

  lemma LineIsOrient(p: GeoPoint, q: GeoPoint, s: GeoPoint)
    ensures Line(p, q, s) == -Orient(p, q, s)
    ensures Orient(q, p, s) == -Orient(p, q, s)
  {
  }

  /** A product with a positive factor has the sign of the other factor. */
  lemma SignOfProduct(k: real, d: real, product: real)
    requires k > 0.0 && product == k * d
    ensures product > 0.0 <==> d > 0.0
    ensures product < 0.0 <==> d < 0.0
  {
  }

  /** The crossing abscissa against the station, as the sign of an area. */
  lemma CrossingSide(s: GeoPoint, p: GeoPoint, q: GeoPoint)
    requires p.y != q.y
    ensures (CrossingX(s, p, q) - s.x) * (q.y - p.y) == Orient(p, q, s)
  {
    var dy, dx, h := q.y - p.y, q.x - p.x, s.y - p.y;
    var t := h * dx / dy;
    assert t * dy == h * dx;
    assert (p.x + t - s.x) * dy == (p.x - s.x) * dy + t * dy;
  }

  /** An edge that straddles the level crosses on the right exactly when the
      station is on its inner side. */
  lemma CrossesByArea(s: GeoPoint, p: GeoPoint, q: GeoPoint)
    requires Above(s, p) != Above(s, q)
    ensures Crosses(s, p, q) == if Above(s, q) then Orient(p, q, s) >= 0.0 else Orient(p, q, s) <= 0.0
  {
    CrossingSide(s, p, q);
    var d := CrossingX(s, p, q) - s.x;
    if Above(s, q) {
      SignOfProduct(q.y - p.y, d, Orient(p, q, s));
    } else {
      SignOfProduct(p.y - q.y, d, -Orient(p, q, s));
    }
  }

  lemma CrossesSymmetric(s: GeoPoint, p: GeoPoint, q: GeoPoint)
    ensures Crosses(s, p, q) == Crosses(s, q, p)
  {
    if Above(s, p) != Above(s, q) {
      CrossesByArea(s, p, q);
      CrossesByArea(s, q, p);
      LineIsOrient(p, q, s);
    }
  }

  predicate SameLevelSide(s: GeoPoint, p: GeoPoint, q: GeoPoint) {
    (p.y < s.y && q.y < s.y) || (p.y > s.y && q.y > s.y)
  }

  /** The far end of the ray is right of every edge that reaches its level. */
  lemma FarEndSide(s: GeoPoint, p: GeoPoint, q: GeoPoint, far: GeoPoint)
    requires far == GeoPoint(99999.9, s.y)
    requires p.x < 99999.9 && q.x < 99999.9
    requires p.y <= s.y <= q.y && p.y < q.y
    ensures Orient(p, q, far) < 0.0
  {
    var dx, dy, h, w := q.x - p.x, q.y - p.y, s.y - p.y, 99999.9 - p.x;
    assert Orient(p, q, far) == dx * h - dy * w;
    FarEndSign(dx, dy, h, w);
  }

  lemma FarEndSign(dx: real, dy: real, h: real, w: real)
    requires 0.0 <= h <= dy && dy > 0.0 && w > 0.0 && dx < w
    ensures dx * h - dy * w < 0.0
  {
    SignOfProduct(dy, w, dy * w);
    if dx >= 0.0 {
      assert dx * h <= dx * dy;
      SignOfProduct(dy, w - dx, dy * (w - dx));
      assert dy * (w - dx) == dy * w - dx * dy;
    } else {
      assert dx * h <= 0.0;
    }
  }

  lemma AbsOfProduct(a: real, w: real, product: real)
    requires w > 0.0 && product == a * w
    ensures AbsReal(product) == AbsReal(a) * w
  {
    SignOfProduct(w, a, a * w);
  }

  /** The line of the ray, evaluated at a point: the point's height, scaled. */
  lemma LineOfRay(s: GeoPoint, far: GeoPoint, p: GeoPoint)
    requires far.y == s.y
    ensures Line(s, far, p) == (far.x - s.x) * (s.y - p.y)
  {
    var a, c := s.x - far.x, far.x * s.y - s.x * s.y;
    assert Line(s, far, p) == a * p.y + c;
    assert c == -a * s.y;
  }

  lemma RaySide(s: GeoPoint, far: GeoPoint, p: GeoPoint)
    requires far.y == s.y && s.x < far.x
    ensures Line(s, far, p) > 0.0 <==> p.y < s.y
    ensures Line(s, far, p) < 0.0 <==> p.y > s.y
  {
    LineOfRay(s, far, p);
    SignOfProduct(far.x - s.x, s.y - p.y, Line(s, far, p));
  }

  /** The parallel test on the ray. */
  lemma SkewOfRay(s: GeoPoint, far: GeoPoint, p: GeoPoint, q: GeoPoint)
    requires far.y == s.y && s.x < far.x
    ensures AbsReal(Skew(s, far, p, q)) == AbsReal(q.y - p.y) * (far.x - s.x)
  {
    var dy, w := q.y - p.y, far.x - s.x;
    assert (far.y - s.y) * (p.x - q.x) == 0.0;
    assert dy * (s.x - far.x) == -(dy * w);
    AbsOfProduct(dy, w, Skew(s, far, p, q));
  }

  /** The three tests of `are_intersecting`, on the station's ray. */
  lemma HitsUnfolded(s: GeoPoint, p: GeoPoint, q: GeoPoint)
    requires s.x < 99999.9
    ensures Hits(s, p, q) <==>
      !SameLevelSide(s, p, q) && !Dropped(s, p, q) &&
      !SameStrictSide(Orient(p, q, s), Orient(p, q, GeoPoint(99999.9, s.y)))
  {
    var far := GeoPoint(99999.9, s.y);
    assert SameStrictSide(Line(s, far, p), Line(s, far, q)) <==> SameLevelSide(s, p, q) by {
      RaySide(s, far, p);
      RaySide(s, far, q);
    }
    assert SameStrictSide(Line(p, q, s), Line(p, q, far)) <==> SameStrictSide(Orient(p, q, s), Orient(p, q, far)) by {
      LineIsOrient(p, q, s);
      LineIsOrient(p, q, far);
    }
    SkewOfRay(s, far, p, q);
  }

  lemma HitsSymmetric(s: GeoPoint, p: GeoPoint, q: GeoPoint)
    ensures Hits(s, p, q) == Hits(s, q, p)
  {
    IntersectingSymmetric(s, GeoPoint(99999.9, s.y), p, q);
  }

  /** Swapping the ends of the tested edge never changes the answer. */
  lemma IntersectingSymmetric(a: GeoPoint, b: GeoPoint, p: GeoPoint, q: GeoPoint)
    ensures AreIntersecting(a, b, p, q) == AreIntersecting(a, b, q, p)
  {
    assert Line(q, p, a) == -Line(p, q, a);
    assert Line(q, p, b) == -Line(p, q, b);
    assert Skew(a, b, q, p) == -Skew(a, b, p, q);
  }

  lemma OnlineSymmetric(s: GeoPoint, p: GeoPoint, q: GeoPoint)
    ensures IsOnline(s, p, q) == IsOnline(s, q, p)
  {
    assert (s.x - q.x) * (p.y - q.y) - (p.x - q.x) * (s.y - q.y)
        == -((s.x - p.x) * (q.y - p.y) - (q.x - p.x) * (s.y - p.y));
  }

  /** Where the code counts an edge: the textbook rule, except on the miscounted edges. */
  lemma HitsExactly(s: GeoPoint, p: GeoPoint, q: GeoPoint)
    requires s.x < 99999.9
    ensures Hits(s, p, q) == (Crosses(s, p, q) != Miscounted(s, p, q))
  {
    if p.y <= q.y {
      HitsUpward(s, p, q);
    } else {
      HitsUpward(s, q, p);
      HitsSymmetric(s, p, q);
      CrossesSymmetric(s, p, q);
      MiscountedSymmetric(s, p, q);
    }
  }

  lemma DroppedSymmetric(s: GeoPoint, p: GeoPoint, q: GeoPoint)
    ensures Dropped(s, p, q) == Dropped(s, q, p)
  {
    assert AbsReal(q.y - p.y) == AbsReal(p.y - q.y);
  }

  lemma MiscountedSymmetric(s: GeoPoint, p: GeoPoint, q: GeoPoint)
    ensures Miscounted(s, p, q) == Miscounted(s, q, p)
  {
    DroppedSymmetric(s, p, q);
    CrossesSymmetric(s, p, q);
    BeyondSymmetric(s, p, q);
    assert TouchesFromBelow(s, p, q) == TouchesFromBelow(s, q, p);
  }

  lemma BeyondSymmetric(s: GeoPoint, p: GeoPoint, q: GeoPoint)
    ensures CrossesBeyond(s, p, q) == CrossesBeyond(s, q, p)
  {
    if Above(s, p) != Above(s, q) {
      BeyondByArea(s, p, q);
      BeyondByArea(s, q, p);
      LineIsOrient(p, q, GeoPoint(99999.9, s.y));
    }
  }

  /** The same as for `Crosses`, seen from the far end of the ray, and strict. */
  lemma BeyondByArea(s: GeoPoint, p: GeoPoint, q: GeoPoint)
    requires Above(s, p) != Above(s, q)
    ensures var side := Orient(p, q, GeoPoint(99999.9, s.y));
      CrossesBeyond(s, p, q) == if Above(s, q) then side > 0.0 else side < 0.0
  {
    var far := GeoPoint(99999.9, s.y);
    CrossingSide(far, p, q);
    var d := CrossingX(s, p, q) - far.x;
    assert CrossingX(far, p, q) == CrossingX(s, p, q);
    if Above(s, q) {
      SignOfProduct(q.y - p.y, d, Orient(p, q, far));
    } else {
      SignOfProduct(p.y - q.y, d, -Orient(p, q, far));
    }
  }

  /** Along the ray the area of an upward edge only falls. */
  lemma AreaFalls(s: GeoPoint, p: GeoPoint, q: GeoPoint, far: GeoPoint)
    requires far.y == s.y && s.x < far.x && p.y < q.y
    ensures Orient(p, q, far) < Orient(p, q, s)
  {
    var dy, w := q.y - p.y, far.x - s.x;
    SignOfProduct(dy, w, dy * w);
    assert dy * (far.x - p.x) == dy * (s.x - p.x) + dy * w;
  }

  lemma HitsUpward(s: GeoPoint, p: GeoPoint, q: GeoPoint)
    requires s.x < 99999.9 && p.y <= q.y
    ensures Hits(s, p, q) == (Crosses(s, p, q) != Miscounted(s, p, q))
  {
    HitsUnfolded(s, p, q);
    if SameLevelSide(s, p, q) || Dropped(s, p, q) {
    } else if p.y == q.y {
      assert AbsReal(q.y - p.y) == 0.0;
    } else {
      var far := GeoPoint(99999.9, s.y);
      AreaFalls(s, p, q, far);
      assert Hits(s, p, q) <==> Orient(p, q, s) >= 0.0 && Orient(p, q, far) <= 0.0;
      if p.y < s.y && q.y == s.y {
        AreaAtEnd(s, p, q);
        AreaAtEnd(far, p, q);
      } else {
        CrossesByArea(s, p, q);
        BeyondByArea(s, p, q);
      }
    }
  }

  /** An upward edge that ends on the level: the area tells the side of its end. */
  lemma AreaAtEnd(s: GeoPoint, p: GeoPoint, q: GeoPoint)
    requires p.y < q.y == s.y
    ensures Orient(p, q, s) >= 0.0 <==> q.x >= s.x
    ensures Orient(p, q, s) <= 0.0 <==> q.x <= s.x
  {
    var dy, d := q.y - p.y, q.x - s.x;
    assert Orient(p, q, s) == dy * d;
    SignOfProduct(dy, d, Orient(p, q, s));
  }

  // -------------------------------------------------------- one triangle

  lemma StraddleOffSegment(s: GeoPoint, p: GeoPoint, q: GeoPoint)
    requires Above(s, p) != Above(s, q) && !OnSegment(s, p, q)
    ensures Orient(p, q, s) != 0.0
  {
    if Orient(p, q, s) == 0.0 {
      LineIsOrient(p, q, s);
      if Above(s, q) { ZeroAreaBetween(s, p, q); } else { ZeroAreaBetween(s, q, p); }
    }
  }

  lemma ZeroAreaBetween(s: GeoPoint, p: GeoPoint, q: GeoPoint)
    requires p.y <= s.y < q.y && Orient(p, q, s) == 0.0
    ensures Between(p.x, q.x, s.x)
  {
    var dx, dy, h, e := q.x - p.x, q.y - p.y, s.y - p.y, s.x - p.x;
    assert dx * h == dy * e;
    SignOfProduct(dy, e, dx * h);
    SignOfProduct(dy, dx - e, dx * (dy - h));
  }

  /** Weighting the corners by the opposite areas balances at the station. */
  lemma Barycentric(s: GeoPoint, a: GeoPoint, b: GeoPoint, c: GeoPoint)
    ensures Orient(b, c, s) * (a.y - s.y) + Orient(c, a, s) * (b.y - s.y) + Orient(a, b, s) * (c.y - s.y) == 0.0
  {
    BarycentricPlain(GeoPoint(a.x - s.x, a.y - s.y), GeoPoint(b.x - s.x, b.y - s.y), GeoPoint(c.x - s.x, c.y - s.y));
    OrientShifted(s, a, b);
    OrientShifted(s, b, c);
    OrientShifted(s, c, a);
  }

  lemma OrientShifted(s: GeoPoint, p: GeoPoint, q: GeoPoint)
    ensures Orient(p, q, s) == (p.x - s.x) * (q.y - s.y) - (p.y - s.y) * (q.x - s.x)
  {
  }

  lemma BarycentricPlain(a: GeoPoint, b: GeoPoint, c: GeoPoint)
    ensures (b.x * c.y - b.y * c.x) * a.y + (c.x * a.y - c.y * a.x) * b.y + (a.x * b.y - a.y * b.x) * c.y == 0.0
  {
  }

  /** With two corners on the station's level and the station not between them,
      the third corner's two edges cross together or not at all. */
  lemma LevelBase(s: GeoPoint, a: GeoPoint, b: GeoPoint, c: GeoPoint)
    requires a.y == s.y && b.y == s.y && !OnSegment(s, a, b)
    ensures Orient(a, b, s) == 0.0
    ensures Above(s, c) ==> (Orient(b, c, s) > 0.0 && Orient(c, a, s) < 0.0) || (Orient(b, c, s) < 0.0 && Orient(c, a, s) > 0.0)
  {
    OrientShifted(s, a, b);
    OrientShifted(s, b, c);
    OrientShifted(s, c, a);
    if Above(s, c) {
      SignOfProduct(c.y - s.y, b.x - s.x, Orient(b, c, s));
      SignOfProduct(c.y - s.y, s.x - a.x, Orient(c, a, s));
    }
  }

  predicate SignMatches(k: real, d: real, product: real) {
    && (product > 0.0 <==> (k > 0.0 && d > 0.0) || (k < 0.0 && d < 0.0))
    && (product < 0.0 <==> (k > 0.0 && d < 0.0) || (k < 0.0 && d > 0.0))
  }

  lemma SignTable(k: real, d: real, product: real)
    requires product == k * d
    ensures SignMatches(k, d, product)
  {
  }

  /** The crossing rule for an edge with area `area` whose ends are at heights u and v. */
  predicate CrossSign(area: real, u: real, v: real) {
    (u > 0.0) != (v > 0.0) && if v > 0.0 then area >= 0.0 else area <= 0.0
  }

  lemma CrossesBySign(s: GeoPoint, p: GeoPoint, q: GeoPoint)
    ensures Crosses(s, p, q) == CrossSign(Orient(p, q, s), p.y - s.y, q.y - s.y)
  {
    if Above(s, p) != Above(s, q) { CrossesByArea(s, p, q); }
  }

  /** Triangle parity on signs alone: A, B, C are the areas of ab, bc, ca, and
      u, v, w the heights of a, b, c. */
  lemma TriangleSigns(A: real, B: real, C: real, u: real, v: real, w: real, x: real, y: real, z: real)
    requires x + y + z == 0.0
    requires SignMatches(B, u, x) && SignMatches(C, v, y) && SignMatches(A, w, z)
    requires (u > 0.0) != (v > 0.0) ==> A != 0.0
    requires (v > 0.0) != (w > 0.0) ==> B != 0.0
    requires (w > 0.0) != (u > 0.0) ==> C != 0.0
    requires u == 0.0 && v == 0.0 ==> A == 0.0 && (w > 0.0 ==> (B > 0.0 && C < 0.0) || (B < 0.0 && C > 0.0))
    requires v == 0.0 && w == 0.0 ==> B == 0.0 && (u > 0.0 ==> (C > 0.0 && A < 0.0) || (C < 0.0 && A > 0.0))
    requires w == 0.0 && u == 0.0 ==> C == 0.0 && (v > 0.0 ==> (A > 0.0 && B < 0.0) || (A < 0.0 && B > 0.0))
    ensures ((A > 0.0 && B > 0.0 && C > 0.0) || (A < 0.0 && B < 0.0 && C < 0.0))
         == (CrossSign(A, u, v) != (CrossSign(B, v, w) != CrossSign(C, w, u)))
  {
  }

  /** What one side contributes: areas and heights of its ends, and of the third corner's sides. */
  lemma SideFacts(s: GeoPoint, a: GeoPoint, b: GeoPoint, c: GeoPoint)
    requires !OnSegment(s, a, b)
    ensures Crosses(s, a, b) == CrossSign(Orient(a, b, s), a.y - s.y, b.y - s.y)
    ensures (a.y - s.y > 0.0) != (b.y - s.y > 0.0) ==> Orient(a, b, s) != 0.0
    ensures a.y - s.y == 0.0 && b.y - s.y == 0.0 ==> Orient(a, b, s) == 0.0
    ensures a.y - s.y == 0.0 && b.y - s.y == 0.0 && c.y - s.y > 0.0 ==>
      (Orient(b, c, s) > 0.0 && Orient(c, a, s) < 0.0) || (Orient(b, c, s) < 0.0 && Orient(c, a, s) > 0.0)
  {
    CrossesBySign(s, a, b);
    if Above(s, a) != Above(s, b) { StraddleOffSegment(s, a, b); }
    if a.y == s.y && b.y == s.y { LevelBase(s, a, b, c); }
  }

  lemma BarycentricTerms(s: GeoPoint, a: GeoPoint, b: GeoPoint, c: GeoPoint) returns (x: real, y: real, z: real)
    ensures x + y + z == 0.0
    ensures SignMatches(Orient(b, c, s), a.y - s.y, x)
    ensures SignMatches(Orient(c, a, s), b.y - s.y, y)
    ensures SignMatches(Orient(a, b, s), c.y - s.y, z)
  {
    x := Weight(Orient(b, c, s), a.y - s.y);
    y := Weight(Orient(c, a, s), b.y - s.y);
    z := Weight(Orient(a, b, s), c.y - s.y);
    Barycentric(s, a, b, c);
  }

  lemma Weight(k: real, d: real) returns (product: real)
    ensures product == k * d && SignMatches(k, d, product)
  {
    product := k * d;
    SignTable(k, d, product);
  }

  /** The crossing parity of a triangle tells whether it contains the station. */
  lemma TriangleParity(s: GeoPoint, a: GeoPoint, b: GeoPoint, c: GeoPoint)
    requires !OnSegment(s, a, b) && !OnSegment(s, b, c) && !OnSegment(s, c, a)
    ensures StrictlyInside(s, a, b, c) == (Crosses(s, a, b) != (Crosses(s, b, c) != Crosses(s, c, a)))
  {
    var x, y, z := BarycentricTerms(s, a, b, c);
    SideFacts(s, a, b, c);
    SideFacts(s, b, c, a);
    SideFacts(s, c, a, b);
    TriangleSigns(Orient(a, b, s), Orient(b, c, s), Orient(c, a, s), a.y - s.y, b.y - s.y, c.y - s.y, x, y, z);
  }

  // ------------------------------------------------------ the whole polygon

  lemma OnSegmentSymmetric(s: GeoPoint, p: GeoPoint, q: GeoPoint)
    ensures OnSegment(s, p, q) == OnSegment(s, q, p)
  {
    LineIsOrient(p, q, s);
  }

  /** Every diagonal is crossed by two triangles of the fan and cancels. */
  lemma {:induction false} FanParity(s: GeoPoint, v: GeoPoint, chain: seq<GeoPoint>)
    requires chain != []
    requires forall i :: 0 <= i < |chain| ==> !OnSegment(s, v, chain[i])
    requires forall i :: 0 < i < |chain| ==> !OnSegment(s, chain[i - 1], chain[i])
    ensures Odd(CountEdges(chain, CrossRule(s))) ==
      (Odd(CountEdges(chain, FanRule(s, v))) != (Crosses(s, v, chain[0]) != Crosses(s, chain[|chain| - 1], v)))
  {
    if |chain| == 1 {
      CrossesSymmetric(s, v, chain[0]);
    } else {
      var p, q := chain[0], chain[1];
      assert !OnSegment(s, chain[1 - 1], chain[1]);
      FanParity(s, v, chain[1..]);
      OnSegmentSymmetric(s, q, v);
      TriangleParity(s, v, p, q);
      CrossesSymmetric(s, v, q);
    }
  }

  lemma NotNearMeansOff(ps: seq<GeoPoint>, s: GeoPoint)
    requires !IsNear(ps, s)
    ensures forall i :: 0 < i < |ps| ==> !OnSegment(s, ps[i - 1], ps[i])
  {
    forall i | 0 < i < |ps| ensures !OnSegment(s, ps[i - 1], ps[i]) {
      assert !NearEdge(s, ps[i - 1], ps[i]);
    }
  }

  lemma HitParity(ps: seq<GeoPoint>, s: GeoPoint)
    requires s.x < 99999.9
    ensures Odd(CountEdges(ps, HitRule(s))) ==
      (Odd(CountEdges(ps, CrossRule(s))) != Odd(CountEdges(ps, MiscountRule(s))))
  {
    forall i: nat | i + 1 < |ps|
      ensures EdgeAt(ps, i, HitRule(s)) == (EdgeAt(ps, i, CrossRule(s)) != EdgeAt(ps, i, MiscountRule(s)))
    {
      HitsExactly(s, ps[i], ps[i + 1]);
    }
    ParityOfXor(ps, HitRule(s), CrossRule(s), MiscountRule(s));
  }

  /** What `is_inside` answers, for every closed polygon: near an edge, or the
      even-odd rule over a fan, flipped once for each miscounted edge. The apex of
      the fan is any point from which no spoke passes through the station. */
  lemma InsideExactly(ps: seq<GeoPoint>, v: GeoPoint, s: GeoPoint)
    requires Closed(ps) && s.x < 99999.9
    requires IsNear(ps, s) || OffDiagonals(ps, v, s)
    ensures Inside(ps, s) <==>
      IsNear(ps, s) || (Odd(FanCount(ps, v, s)) != Odd(CountEdges(ps, MiscountRule(s))))
  {
    NearIff(ps, s);
    if !IsNear(ps, s) {
      NotNearMeansOff(ps, s);
      FanParity(s, v, ps);
      CrossesSymmetric(s, v, ps[0]);
      HitParity(ps, s);
    }
  }

  /** A slope steeper than every line from the station to a vertex on its left. */
  lemma {:induction false} SteepSlope(ps: seq<GeoPoint>, s: GeoPoint) returns (m: real)
    ensures m >= 0.0
    ensures forall i :: 0 <= i < |ps| && ps[i].x < s.x ==> ps[i].y - s.y > m * (ps[i].x - s.x)
  {
    if ps == [] {
      m := 0.0;
    } else {
      var n := SteepSlope(ps[1..], s);
      m := FirstSlope(ps[0].x - s.x, ps[0].y - s.y, n);
      forall i | 0 < i < |ps| && ps[i].x < s.x ensures ps[i].y - s.y > m * (ps[i].x - s.x) {
        assert ps[1..][i - 1] == ps[i];
        SteeperStill(ps[i].x - s.x, n, m);
      }
    }
  }

  lemma FirstSlope(dx: real, dy: real, n: real) returns (m: real)
    ensures m >= n && (dx < 0.0 ==> dy > m * dx)
  {
    m := if dx < 0.0 && n <= AbsReal(dy / dx) then AbsReal(dy / dx) + 1.0 else n;
    if dx < 0.0 { SteeperThan(dx, dy, m); }
  }

  lemma SteeperThan(dx: real, dy: real, m: real)
    requires dx < 0.0 && m > AbsReal(dy / dx)
    ensures dy > m * dx
  {
    var r := dy / dx;
    assert r * dx == dy;
    SignOfProduct(m - r, -dx, (m - r) * -dx);
    assert (m - r) * -dx == dy - m * dx;
  }

  lemma SteeperStill(dx: real, n: real, m: real)
    requires dx < 0.0 && n <= m
    ensures m * dx <= n * dx
  {
    if n < m { SignOfProduct(m - n, dx, (m - n) * dx); }
  }

  /** For every station that is not a vertex there is such an apex. */
  lemma ApexExists(ps: seq<GeoPoint>, s: GeoPoint) returns (v: GeoPoint)
    requires forall i :: 0 <= i < |ps| ==> ps[i] != s
    ensures OffDiagonals(ps, v, s)
  {
    var m := SteepSlope(ps, s);
    v := GeoPoint(s.x + 1.0, s.y + m);
    forall i | 0 <= i < |ps| ensures !OnSegment(s, v, ps[i]) {
      var p := ps[i];
      OrientShifted(s, v, p);
      assert Orient(v, p, s) == (p.y - s.y) - m * (p.x - s.x);
    }
  }

  lemma NotNearNotVertex(ps: seq<GeoPoint>, s: GeoPoint)
    requires |ps| > 1 && !IsNear(ps, s)
    ensures forall i :: 0 <= i < |ps| ==> ps[i] != s
  {
    forall i | 0 <= i < |ps| ensures ps[i] != s {
      var j := if i == 0 then 1 else i;
      assert !NearEdge(s, ps[j - 1], ps[j]);
    }
  }

  /** So the even-odd rule is defined, by some fan, for every closed polygon with an
      edge and every station that is near none, and all fans agree on it. */
  lemma EvenOddDefined(ps: seq<GeoPoint>, s: GeoPoint, u: GeoPoint, w: GeoPoint) returns (v: GeoPoint)
    requires Closed(ps) && |ps| > 1 && s.x < 99999.9 && !IsNear(ps, s)
    ensures OffDiagonals(ps, v, s)
    ensures OffDiagonals(ps, u, s) && OffDiagonals(ps, w, s) ==> Odd(FanCount(ps, u, s)) == Odd(FanCount(ps, w, s))
  {
    NotNearNotVertex(ps, s);
    v := ApexExists(ps, s);
    if OffDiagonals(ps, u, s) && OffDiagonals(ps, w, s) {
      InsideExactly(ps, u, s);
      InsideExactly(ps, w, s);
    }
  }

  /** Away from the edges the verdict is the even-odd rule if and only if the
      ray meets an even number of edges that the code miscounts. */
  lemma EvenOddIff(ps: seq<GeoPoint>, v: GeoPoint, s: GeoPoint)
    requires Closed(ps) && s.x < 99999.9 && OffDiagonals(ps, v, s) && !IsNear(ps, s)
    ensures (Inside(ps, s) <==> Odd(FanCount(ps, v, s))) <==> !Odd(CountEdges(ps, MiscountRule(s)))
  {
    InsideExactly(ps, v, s);
  }

  /** No vertex is level with the station and no straddling edge is nearly flat. */
  predicate GeneralPosition(ps: seq<GeoPoint>, s: GeoPoint) {
    && (forall i :: 0 <= i < |ps| ==> ps[i].y != s.y)
    && (forall i :: 0 < i < |ps| && Above(s, ps[i - 1]) != Above(s, ps[i]) ==> !Dropped(s, ps[i - 1], ps[i]))
  }

  /** Left of the far end no edge crosses beyond it. */
  lemma NotBeyond(s: GeoPoint, p: GeoPoint, q: GeoPoint)
    requires p.x < 99999.9 && q.x < 99999.9
    ensures !CrossesBeyond(s, p, q)
  {
    var far := GeoPoint(99999.9, s.y);
    if Above(s, p) != Above(s, q) {
      BeyondByArea(s, p, q);
      LineIsOrient(p, q, far);
      if Above(s, q) { FarEndSide(s, p, q, far); } else { FarEndSide(s, q, p, far); }
    }
  }

  lemma {:induction false} GeneralPositionCountsRight(ps: seq<GeoPoint>, s: GeoPoint)
    requires GeneralPosition(ps, s) && InRange(ps, s)
    ensures CountEdges(ps, MiscountRule(s)) == 0
  {
    forall i: nat | i + 1 < |ps| ensures !EdgeAt(ps, i, MiscountRule(s)) {
      assert ps[i + 1 - 1].y != s.y && ps[i + 1].y != s.y;
      assert Above(s, ps[i + 1 - 1]) != Above(s, ps[i + 1]) ==> !Dropped(s, ps[i + 1 - 1], ps[i + 1]);
      NotBeyond(s, ps[i], ps[i + 1]);
    }
    CountZero(ps, MiscountRule(s));
  }

  /** In general position the station is covered exactly when it is near an edge
      or an odd number of fan triangles strictly contain it. */
  lemma InsideInGeneralPosition(ps: seq<GeoPoint>, v: GeoPoint, s: GeoPoint)
    requires Closed(ps) && InRange(ps, s) && GeneralPosition(ps, s)
    requires IsNear(ps, s) || OffDiagonals(ps, v, s)
    ensures Inside(ps, s) <==> IsNear(ps, s) || Odd(FanCount(ps, v, s))
  {
    InsideExactly(ps, v, s);
    GeneralPositionCountsRight(ps, s);
  }

  // ------------------------------------------------ outside the bounding box

  predicate BeyondBox(ps: seq<GeoPoint>, s: GeoPoint) {
    || (forall i :: 0 <= i < |ps| ==> ps[i].y < s.y)
    || (forall i :: 0 <= i < |ps| ==> ps[i].y > s.y)
    || (forall i :: 0 <= i < |ps| ==> ps[i].x < s.x)
  }

  predicate LeftOfBox(ps: seq<GeoPoint>, s: GeoPoint) {
    forall i :: 0 <= i < |ps| ==> s.x < ps[i].x
  }

  lemma NoHitFromRight(s: GeoPoint, p: GeoPoint, q: GeoPoint)
    requires s.x < 99999.9 && p.x < s.x && q.x < s.x
    ensures !Hits(s, p, q)
  {
    HitsExactly(s, p, q);
    CrossesBySign(s, p, q);
    OrientShifted(s, p, q);
    if Above(s, p) != Above(s, q) {
      SignTable(p.x - s.x, q.y - s.y, (p.x - s.x) * (q.y - s.y));
      SignTable(p.y - s.y, q.x - s.x, (p.y - s.y) * (q.x - s.x));
    }
  }

  /** A station strictly above, below or right of every vertex is never covered. */
  lemma OutsideBox(ps: seq<GeoPoint>, s: GeoPoint)
    requires s.x < 99999.9 && BeyondBox(ps, s)
    ensures !Inside(ps, s)
  {
    forall i: nat | i + 1 < |ps| ensures !EdgeAt(ps, i, NearRule(s)) && !EdgeAt(ps, i, HitRule(s)) {
      HitsUnfolded(s, ps[i], ps[i + 1]);
      if ps[i].x < s.x && ps[i + 1].x < s.x { NoHitFromRight(s, ps[i], ps[i + 1]); }
    }
    CountZero(ps, NearRule(s));
    CountZero(ps, HitRule(s));
  }

  lemma CrossesFromLeft(s: GeoPoint, p: GeoPoint, q: GeoPoint)
    requires s.x < p.x && s.x < q.x
    ensures Crosses(s, p, q) == (Above(s, p) != Above(s, q))
  {
    CrossesBySign(s, p, q);
    OrientShifted(s, p, q);
    if Above(s, p) != Above(s, q) {
      SignTable(p.x - s.x, q.y - s.y, (p.x - s.x) * (q.y - s.y));
      SignTable(p.y - s.y, q.x - s.x, (p.y - s.y) * (q.x - s.x));
    }
  }

  /** A chain changes sides of a level an odd number of times exactly when it
      ends on the other side. */
  lemma {:induction false} LevelParity(ps: seq<GeoPoint>, s: GeoPoint)
    requires ps != []
    ensures Odd(CountEdges(ps, LevelRule(s))) == (Above(s, ps[0]) != Above(s, ps[|ps| - 1]))
  {
    if |ps| > 1 { LevelParity(ps[1..], s); }
  }

  /** Left of the box, the station is covered exactly when an odd number of edges are miscounted. */
  lemma LeftOfBoxExactly(ps: seq<GeoPoint>, s: GeoPoint)
    requires Closed(ps) && s.x < 99999.9 && LeftOfBox(ps, s)
    ensures Inside(ps, s) <==> Odd(CountEdges(ps, MiscountRule(s)))
  {
    forall i: nat | i + 1 < |ps| ensures !EdgeAt(ps, i, NearRule(s)) {}
    CountZero(ps, NearRule(s));
    forall i: nat | i + 1 < |ps|
      ensures EdgeAt(ps, i, HitRule(s)) == (EdgeAt(ps, i, LevelRule(s)) != EdgeAt(ps, i, MiscountRule(s)))
    {
      HitsExactly(s, ps[i], ps[i + 1]);
      CrossesFromLeft(s, ps[i], ps[i + 1]);
    }
    ParityOfXor(ps, HitRule(s), LevelRule(s), MiscountRule(s));
    LevelParity(ps, s);
  }

  /** A station left of the box is never covered in general position, because a
      closed outline crosses its level an even number of times. */
  lemma LeftOfBoxInGeneralPosition(ps: seq<GeoPoint>, s: GeoPoint)
    requires Closed(ps) && InRange(ps, s) && LeftOfBox(ps, s) && GeneralPosition(ps, s)
    ensures !Inside(ps, s)
  {
    LeftOfBoxExactly(ps, s);
    GeneralPositionCountsRight(ps, s);
  }

  // ------------------------------------ independence from how it is written

  function RotateStart(ps: seq<GeoPoint>, k: nat): seq<GeoPoint>
    requires k < |ps|
  {
    ps[k..] + ps[1..k + 1]
  }

  function Reversed(ps: seq<GeoPoint>): seq<GeoPoint> {
    seq(|ps|, i requires 0 <= i < |ps| => ps[|ps| - 1 - i])
  }

  /** Two chains that share a point, joined there. */
  lemma JoinCount(a: seq<GeoPoint>, b: seq<GeoPoint>, rule: EdgeRule)
    requires a != [] && b != [] && a[|a| - 1] == b[0]
    ensures CountEdges(a + b[1..], rule) == CountEdges(a, rule) + CountEdges(b, rule)
  {
    var p := b[0];
    var front := a[..|a| - 1];
    assert a == front + [p];
    assert b == [p] + b[1..];
    CountSplit(front, p, b[1..], rule);
  }

  lemma RotateCount(ps: seq<GeoPoint>, k: nat, rule: EdgeRule)
    requires Closed(ps) && k < |ps|
    ensures CountEdges(RotateStart(ps, k), rule) == CountEdges(ps, rule)
  {
    var front, back := ps[..k + 1], ps[k..];
    JoinCount(back, front, rule);
    assert front[1..] == ps[1..k + 1];
    JoinCount(front, back, rule);
    assert front + back[1..] == ps;
  }

  /** The verdict does not depend on the vertex the closed outline starts from. */
  lemma RotationInvariant(ps: seq<GeoPoint>, k: nat, s: GeoPoint)
    requires Closed(ps) && k < |ps|
    ensures Inside(RotateStart(ps, k), s) == Inside(ps, s)
  {
    RotateCount(ps, k, NearRule(s));
    RotateCount(ps, k, HitRule(s));
  }

  lemma {:induction false} ReverseCount(ps: seq<GeoPoint>, rule: EdgeRule)
    requires forall p, q :: rule(p, q) == rule(q, p)
    ensures CountEdges(Reversed(ps), rule) == CountEdges(ps, rule)
  {
    if |ps| >= 2 {
      var rest := Reversed(ps[1..]);
      ReverseCount(ps[1..], rule);
      var body := rest[..|rest| - 1];
      assert Reversed(ps) == body + [ps[1]] + [ps[0]];
      CountSplit(body, ps[1], [ps[0]], rule);
      assert body + [ps[1]] == rest;
      assert CountEdges([ps[1]] + [ps[0]], rule) == if rule(ps[0], ps[1]) then 1 else 0;
    }
  }

  /** Nor does it depend on the direction in which the outline is listed. */
  lemma ReversalInvariant(ps: seq<GeoPoint>, s: GeoPoint)
    ensures Inside(Reversed(ps), s) == Inside(ps, s)
  {
    forall p, q ensures NearRule(s)(p, q) == NearRule(s)(q, p) { OnlineSymmetric(s, p, q); }
    forall p, q ensures HitRule(s)(p, q) == HitRule(s)(q, p) { HitsSymmetric(s, p, q); }
    ReverseCount(ps, NearRule(s));
    ReverseCount(ps, HitRule(s));
  }

  // ---------------------------------------------- where the rule goes wrong

  lemma CountOfTriangle(a: GeoPoint, b: GeoPoint, c: GeoPoint, rule: EdgeRule)
    ensures CountEdges([a, b, c, a], rule) ==
      (if rule(a, b) then 1 else 0) + (if rule(b, c) then 1 else 0) + (if rule(c, a) then 1 else 0)
  {
    var ps := [a, b, c, a];
    assert ps[1..] == [b, c, a];
    assert ps[1..][1..] == [c, a];
    assert ps[1..][1..][1..] == [a];
    assert CountEdges([c, a], rule) == if rule(c, a) then 1 else 0;
    assert CountEdges([b, c, a], rule) == (if rule(b, c) then 1 else 0) + CountEdges([c, a], rule);
  }

  lemma MissedCounts(s: GeoPoint, a: GeoPoint, b: GeoPoint, c: GeoPoint)
    requires a == GeoPoint(0.0, 10.0) && b == GeoPoint(0.0, -10.0) && c == GeoPoint(10.0, 0.0) && s == GeoPoint(2.0, 0.0)
    ensures !IsOnline(s, a, b) && !IsOnline(s, b, c) && !IsOnline(s, c, a)
    ensures !OnSegment(s, a, a) && !OnSegment(s, a, b) && !OnSegment(s, a, c)
    ensures !Miscounted(s, a, b) && Miscounted(s, b, c) && !Miscounted(s, c, a)
    ensures !StrictlyInside(s, a, a, b) && StrictlyInside(s, a, b, c) && !StrictlyInside(s, a, c, a)
  {
  }

  /** A vertex level with the station: a station inside a triangle is missed ... */
  lemma LevelVertexMissed(s: GeoPoint, a: GeoPoint, b: GeoPoint, c: GeoPoint, outline: seq<GeoPoint>)
    requires a == GeoPoint(0.0, 10.0) && b == GeoPoint(0.0, -10.0) && c == GeoPoint(10.0, 0.0) && s == GeoPoint(2.0, 0.0)
    requires outline == [a, b, c, a]
    ensures Closed(outline) && InRange(outline, s) && !IsNear(outline, s)
    ensures FanCount(outline, a, s) == 1 && !Inside(outline, s)
  {
    MissedCounts(s, a, b, c);
    CountOfTriangle(a, b, c, NearRule(s));
    CountOfTriangle(a, b, c, MiscountRule(s));
    CountOfTriangle(a, b, c, FanRule(s, a));
    EvenOddIff(outline, a, s);
  }

  lemma FalseAlarmCounts(s: GeoPoint, a: GeoPoint, b: GeoPoint, c: GeoPoint)
    requires a == GeoPoint(0.0, 10.0) && b == GeoPoint(-10.0, 0.0) && c == GeoPoint(0.0, -10.0) && s == GeoPoint(-20.0, 0.0)
    ensures !Miscounted(s, a, b) && Miscounted(s, b, c) && !Miscounted(s, c, a)
  {
  }

  lemma OneMiscountCovers(s: GeoPoint, a: GeoPoint, b: GeoPoint, c: GeoPoint, outline: seq<GeoPoint>)
    requires outline == [a, b, c, a] && InRange(outline, s) && LeftOfBox(outline, s)
    requires !Miscounted(s, a, b) && Miscounted(s, b, c) && !Miscounted(s, c, a)
    ensures Inside(outline, s)
  {
    CountOfTriangle(a, b, c, MiscountRule(s));
    LeftOfBoxExactly(outline, s);
  }

  /** ... and one left of another triangle's bounding box is reported as covered. */
  lemma LevelVertexFalseAlarm(s: GeoPoint, a: GeoPoint, b: GeoPoint, c: GeoPoint, outline: seq<GeoPoint>)
    requires a == GeoPoint(0.0, 10.0) && b == GeoPoint(-10.0, 0.0) && c == GeoPoint(0.0, -10.0) && s == GeoPoint(-20.0, 0.0)
    requires outline == [a, b, c, a]
    ensures Closed(outline) && InRange(outline, s) && LeftOfBox(outline, s) && Inside(outline, s)
  {
    FalseAlarmCounts(s, a, b, c);
    OneMiscountCovers(s, a, b, c, outline);
  }
}

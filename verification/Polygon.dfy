/** Point in polygon by ray casting, over exact reals. */
module Polygon {
  datatype Point = Point(lat: real, lon: real)

  /** The edge has one end above the latitude and the other not. */
  predicate Straddles(a: Point, b: Point, p: Point) { (a.lat > p.lat) != (b.lat > p.lat) }

  /** The longitude of the line through a and b at a latitude. */
  function LongitudeAt(a: Point, b: Point, lat: real): real
    requires a.lat != b.lat
  {
    (b.lon - a.lon) * (lat - a.lat) / (b.lat - a.lat) + a.lon
  }

  /** The ray from p towards greater longitudes meets the edge from a to b. */
  predicate Crosses(a: Point, b: Point, p: Point) {
    Straddles(a, b, p) && p.lon < LongitudeAt(a, b, p.lat)
  }

  /** The parity of the crossings of an open line. */
  function PathParity(s: seq<Point>, p: Point): bool {
    if |s| < 2 then false else Crosses(s[0], s[1], p) != PathParity(s[1..], p)
  }

  /** The parity of the crossings of a closed line. */
  function Parity(s: seq<Point>, p: Point): bool {
    s != [] && PathParity(s, p) != Crosses(s[0], s[|s| - 1], p)
  }

  method PointInPolygon(p: Point, polygon: seq<Point>) returns (inside: bool)
    ensures inside == Parity(polygon, p)
  {
    var n := |polygon|;
    if n < 3 {
      FewVertices(polygon, p);
      return false;
    }
    inside := false;
    var j := n - 1;
    for i := 0 to n
      invariant j == if i == 0 then n - 1 else i - 1
      invariant inside == (i > 0 && PathParity(polygon[..i], p) != Crosses(polygon[0], polygon[n - 1], p))
    {
      PathGrows(polygon, i, p);
      if (polygon[i].lat > p.lat) != (polygon[j].lat > p.lat) && p.lon < LongitudeAt(polygon[i], polygon[j], p.lat) {
        inside := !inside;
      }
      j := i;
    }
    assert polygon[..n] == polygon;
  }

  lemma PathGrows(s: seq<Point>, i: nat, p: Point)
    requires i < |s|
    ensures PathParity(s[..i + 1], p) == (i > 0 && PathParity(s[..i], p) != Crosses(s[i], s[i - 1], p))
  {
    if i > 0 {
      assert s[..i + 1] == s[..i] + [s[i]];
      PathConcat(s[..i], [s[i]], p);
      CrossesSymmetric(s[i], s[i - 1], p);
    }
  }

  // ----- One edge -----

  /** Positive when p lies to the left of the edge from a to b as latitudes grow. */
  function Side(a: Point, b: Point, p: Point): real {
    (a.lon - p.lon) * (b.lat - p.lat) - (b.lon - p.lon) * (a.lat - p.lat)
  }

  lemma Quotient(n: real, d: real, c: real)
    requires d != 0.0
    ensures d > 0.0 ==> (c < n / d <==> c * d < n)
    ensures d < 0.0 ==> (c < n / d <==> c * d > n)
  {
    var q := n / d;
    assert q * d == n;
    assert c * d - n == (c - q) * d;
  }

  /** A crossing without division: an edge going up is crossed from its left, one going down from
      its right. */
  lemma CrossesBySide(a: Point, b: Point, p: Point)
    ensures Crosses(a, b, p) <==>
      Straddles(a, b, p) && if b.lat > a.lat then Side(a, b, p) > 0.0 else Side(a, b, p) < 0.0
  {
    if Straddles(a, b, p) {
      SideFromFirstEnd(a, b, p);
      Quotient((b.lon - a.lon) * (p.lat - a.lat), b.lat - a.lat, p.lon - a.lon);
    }
  }

  lemma SideFromFirstEnd(a: Point, b: Point, p: Point)
    ensures Side(a, b, p) == (b.lon - a.lon) * (p.lat - a.lat) - (p.lon - a.lon) * (b.lat - a.lat)
  {
    var (x1, y1, x2, y2) := (a.lon - p.lon, a.lat - p.lat, b.lon - p.lon, b.lat - p.lat);
    assert (b.lon - a.lon) * (p.lat - a.lat) == (x2 - x1) * -y1 == x1 * y1 - x2 * y1;
    assert (p.lon - a.lon) * (b.lat - a.lat) == -x1 * (y2 - y1) == x1 * y1 - x1 * y2;
  }

  lemma CrossesSymmetric(a: Point, b: Point, p: Point)
    ensures Crosses(a, b, p) == Crosses(b, a, p)
  {
    CrossesBySide(a, b, p);
    CrossesBySide(b, a, p);
  }

  // ----- Lines -----

  lemma {:induction false} PathConcat(s: seq<Point>, t: seq<Point>, p: Point)
    requires s != [] && t != []
    ensures PathParity(s + t, p) == (PathParity(s, p) != (Crosses(s[|s| - 1], t[0], p) != PathParity(t, p)))
  {
    assert (s + t)[1..] == s[1..] + t;
    if |s| == 1 {
      assert s[1..] + t == t;
    } else {
      PathConcat(s[1..], t, p);
    }
  }

  /** A line may be cut at any of its points. */
  lemma PathCut(s: seq<Point>, k: nat, p: Point)
    requires k < |s|
    ensures PathParity(s, p) == (PathParity(s[..k + 1], p) != PathParity(s[k..], p))
  {
    if k + 1 < |s| {
      assert s == s[..k + 1] + s[k + 1..];
      PathConcat(s[..k + 1], s[k + 1..], p);
      assert s[k..][1..] == s[k + 1..];
    } else {
      assert s[..k + 1] == s;
    }
  }

  lemma FewVertices(s: seq<Point>, p: Point)
    requires |s| < 3
    ensures !Parity(s, p)
  {
    if |s| == 2 {
      assert PathParity(s[1..], p) == false;
    }
  }

  // ----- The same polygon written otherwise -----

  /** It does not matter at which vertex the list starts. */
  lemma RotationInvariant(u: seq<Point>, v: seq<Point>, p: Point)
    ensures Parity(u + v, p) == Parity(v + u, p)
  {
    if u == [] || v == [] {
      assert u + v == v + u;
    } else {
      PathConcat(u, v, p);
      PathConcat(v, u, p);
      CrossesSymmetric(u[|u| - 1], v[0], p);
      CrossesSymmetric(v[|v| - 1], u[0], p);
    }
  }

  function Reversed(s: seq<Point>): (r: seq<Point>)
    ensures |r| == |s| && (s != [] ==> r[0] == s[|s| - 1] && r[|s| - 1] == s[0])
  {
    if s == [] then [] else Reversed(s[1..]) + [s[0]]
  }

  lemma {:induction false} PathReversed(s: seq<Point>, p: Point)
    ensures PathParity(Reversed(s), p) == PathParity(s, p)
  {
    if |s| <= 1 {
    } else {
      PathReversed(s[1..], p);
      PathConcat(Reversed(s[1..]), [s[0]], p);
      CrossesSymmetric(s[0], s[1], p);
    }
  }

  /** Nor in which direction the vertices run. */
  lemma ReversalInvariant(s: seq<Point>, p: Point)
    ensures Parity(Reversed(s), p) == Parity(s, p)
  {
    if s != [] {
      PathReversed(s, p);
      CrossesSymmetric(s[0], s[|s| - 1], p);
    }
  }

  function Between(a: Point, b: Point, t: real): Point {
    Point(a.lat + t * (b.lat - a.lat), a.lon + t * (b.lon - a.lon))
  }

  lemma SideOnEdge(a: Point, b: Point, t: real, p: Point)
    ensures Side(a, Between(a, b, t), p) == t * Side(a, b, p)
    ensures Side(Between(a, b, t), b, p) == (1.0 - t) * Side(a, b, p)
  {
    var (x1, y1, x2, y2) := (a.lon - p.lon, a.lat - p.lat, b.lon - p.lon, b.lat - p.lat);
    CrossProductOnEdge(x1, y1, x2, y2, t);
    var m := Between(a, b, t);
    assert m.lon - p.lon == x1 + t * (x2 - x1) && m.lat - p.lat == y1 + t * (y2 - y1);
  }

  lemma CrossProductOnEdge(x1: real, y1: real, x2: real, y2: real, t: real)
    ensures x1 * (y1 + t * (y2 - y1)) - (x1 + t * (x2 - x1)) * y1 == t * (x1 * y2 - x2 * y1)
    ensures (x1 + t * (x2 - x1)) * y2 - x2 * (y1 + t * (y2 - y1)) == (1.0 - t) * (x1 * y2 - x2 * y1)
  {
  }

  lemma Scaled(t: real, d: real, step: real)
    requires 0.0 <= t <= 1.0 && d >= 0.0 && step == t * d
    ensures 0.0 <= step <= d
  {
  }

  /** A point of an edge, a product of t named: it lies between the ends, and at one only for t = 0 or t = 1. */
  lemma Lerp(a: real, d: real, t: real, step: real)
    requires 0.0 <= t <= 1.0 && step == t * d
    ensures d >= 0.0 ==> a <= a + step <= a + d
    ensures d <= 0.0 ==> a + d <= a + step <= a
    ensures (a + step != a ==> t > 0.0) && (a + step != a + d ==> t < 1.0)
  {
    if d >= 0.0 {
      Scaled(t, d, step);
    } else {
      assert t * -d == -step;
      Scaled(t, -d, -step);
    }
    assert t == 0.0 ==> step == 0.0;
    assert t == 1.0 ==> step == d;
  }

  lemma SignKept(t: real, s: real, product: real)
    requires product == t * s
    ensures t > 0.0 ==> (product > 0.0 <==> s > 0.0) && (product < 0.0 <==> s < 0.0)
  {
  }

  /** Only orders and signs: the latitudes of an edge and of a point on it, and the side of the edge as either
      half sees it. */
  lemma CasesDivide(a: real, m: real, b: real, lat: real, side: real, left: real, right: real, t: real)
    requires a <= m <= b || b <= m <= a
    requires (m != a ==> t > 0.0) && (m != b ==> t < 1.0)
    requires t > 0.0 ==> (left > 0.0 <==> side > 0.0) && (left < 0.0 <==> side < 0.0)
    requires 1.0 - t > 0.0 ==> (right > 0.0 <==> side > 0.0) && (right < 0.0 <==> side < 0.0)
    ensures ((a > lat) != (b > lat) && if b > a then side > 0.0 else side < 0.0)
      == (((a > lat) != (m > lat) && if m > a then left > 0.0 else left < 0.0)
       != ((m > lat) != (b > lat) && if b > m then right > 0.0 else right < 0.0))
  {
  }

  lemma CrossingDivides(a: real, d: real, step: real, lat: real, side: real, left: real, right: real, t: real)
    requires 0.0 <= t <= 1.0 && step == t * d && left == t * side && right == (1.0 - t) * side
    ensures var (m, b) := (a + step, a + d);
      ((a > lat) != (b > lat) && if b > a then side > 0.0 else side < 0.0)
      == (((a > lat) != (m > lat) && if m > a then left > 0.0 else left < 0.0)
       != ((m > lat) != (b > lat) && if b > m then right > 0.0 else right < 0.0))
  {
    Lerp(a, d, t, step);
    SignKept(t, side, left);
    SignKept(1.0 - t, side, right);
    CasesDivide(a, a + step, a + d, lat, side, left, right, t);
  }

  /** A vertex on an edge divides its crossing between the two halves. */
  lemma EdgeDivides(a: Point, b: Point, t: real, p: Point)
    requires 0.0 <= t <= 1.0
    ensures Crosses(a, b, p) == (Crosses(a, Between(a, b, t), p) != Crosses(Between(a, b, t), b, p))
  {
    var m := Between(a, b, t);
    CrossesBySide(a, b, p);
    CrossesBySide(a, m, p);
    CrossesBySide(m, b, p);
    SideOnEdge(a, b, t, p);
    CrossingDivides(a.lat, b.lat - a.lat, m.lat - a.lat, p.lat, Side(a, b, p), Side(a, m, p), Side(m, b, p), t);
  }

  /** A vertex inserted on an edge changes nothing. */
  lemma InsertionInvariant(u: seq<Point>, v: seq<Point>, t: real, p: Point)
    requires u != [] && v != [] && 0.0 <= t <= 1.0
    ensures Parity(u + [Between(u[|u| - 1], v[0], t)] + v, p) == Parity(u + v, p)
  {
    var m := Between(u[|u| - 1], v[0], t);
    assert u + [m] + v == u + ([m] + v);
    PathConcat(u, [m] + v, p);
    PathConcat([m], v, p);
    PathConcat(u, v, p);
    EdgeDivides(u[|u| - 1], v[0], t, p);
  }

  // ----- Cutting -----

  /** A chord between any two vertices cuts any polygon, even a self-crossing one, into two whose
      answers combine by exclusive or. */
  lemma ChordCut(s: seq<Point>, i: nat, j: nat, p: Point)
    requires i < j < |s|
    ensures Parity(s, p) == (Parity(s[i..j + 1], p) != Parity(s[..i + 1] + s[j..], p))
  {
    PathCut(s, j, p);
    PathCut(s[..j + 1], i, p);
    assert s[..j + 1][..i + 1] == s[..i + 1] && s[..j + 1][i..] == s[i..j + 1];
    PathConcat(s[..i + 1], s[j..], p);
    CrossesSymmetric(s[i], s[j], p);
  }

  /** Exclusive or over the triangles that fan out from the first vertex. */
  function Fan(s: seq<Point>, p: Point): bool {
    if |s| < 3 then false else Fan(s[..|s| - 1], p) != Parity([s[0], s[|s| - 2], s[|s| - 1]], p)
  }

  /** The answer for a polygon is the exclusive or of the answers for its fan of triangles. */
  lemma {:induction false} FanOfTriangles(s: seq<Point>, p: Point)
    ensures Parity(s, p) == Fan(s, p)
  {
    var n := |s|;
    if n < 3 {
      FewVertices(s, p);
    } else {
      FanOfTriangles(s[..n - 1], p);
      ChordCut(s, 0, n - 2, p);
      assert s[0..n - 1] == s[..n - 1];
      assert s[..1] + s[n - 2..] == [s[0], s[n - 2], s[n - 1]];
    }
  }

  // ----- What a triangle means -----

  /** p is a weighted mean of the corners, with the sides as weights. */
  lemma Barycentric(a: Point, b: Point, c: Point, p: Point)
    ensures Side(a, b, p) * (c.lat - p.lat) + Side(b, c, p) * (a.lat - p.lat) + Side(c, a, p) * (b.lat - p.lat) == 0.0
  {
    Cyclic(a.lon - p.lon, a.lat - p.lat, b.lon - p.lon, b.lat - p.lat, c.lon - p.lon, c.lat - p.lat);
  }

  lemma Cyclic(x1: real, y1: real, x2: real, y2: real, x3: real, y3: real)
    ensures (x1 * y2 - x2 * y1) * y3 + (x2 * y3 - x3 * y2) * y1 + (x3 * y1 - x1 * y3) * y2 == 0.0
  {
    assert (x1 * y2 - x2 * y1) * y3 == x1 * y2 * y3 - x2 * y1 * y3;
    assert (x2 * y3 - x3 * y2) * y1 == x2 * y3 * y1 - x3 * y2 * y1;
    assert (x3 * y1 - x1 * y3) * y2 == x3 * y1 * y2 - x1 * y3 * y2;
    assert x1 * y2 * y3 == x1 * y3 * y2 && x2 * y1 * y3 == x2 * y3 * y1 && x3 * y2 * y1 == x3 * y1 * y2;
  }

  /** p sees all three directed sides from the same side. */
  predicate StrictlyInside(a: Point, b: Point, c: Point, p: Point) {
    || (Side(a, b, p) > 0.0 && Side(b, c, p) > 0.0 && Side(c, a, p) > 0.0)
    || (Side(a, b, p) < 0.0 && Side(b, c, p) < 0.0 && Side(c, a, p) < 0.0)
  }

  /** p sees two directed sides from opposite sides. */
  predicate StrictlyOutside(a: Point, b: Point, c: Point, p: Point) {
    var (x, y, z) := (Side(a, b, p), Side(b, c, p), Side(c, a, p));
    (x > 0.0 || y > 0.0 || z > 0.0) && (x < 0.0 || y < 0.0 || z < 0.0)
  }

  lemma TriangleParity(a: Point, b: Point, c: Point, p: Point)
    ensures Parity([a, b, c], p) == (Crosses(a, b, p) != (Crosses(b, c, p) != Crosses(c, a, p)))
  {
    assert [a, b, c] == [a, b] + [c];
    PathConcat([a, b], [c], p);
    PathConcat([a], [b], p);
    CrossesSymmetric(a, c, p);
  }

  lemma ApexAlone(a: Point, b: Point, c: Point, p: Point)
    requires (a.lat > p.lat) != (b.lat > p.lat) && (b.lat > p.lat) == (c.lat > p.lat)
    ensures StrictlyInside(a, b, c, p) ==> Parity([a, b, c], p)
    ensures StrictlyOutside(a, b, c, p) ==> !Parity([a, b, c], p)
  {
    TriangleParity(a, b, c, p);
    CrossesBySide(a, b, p);
    CrossesBySide(c, a, p);
    Barycentric(a, b, c, p);
    Products(Side(a, b, p), Side(b, c, p), Side(c, a, p), c.lat - p.lat, a.lat - p.lat, b.lat - p.lat);
  }

  /** Signs in a vanishing sum of three products. */
  lemma Products(x: real, y: real, z: real, c: real, a: real, b: real)
    requires x * c + y * a + z * b == 0.0
    ensures c > 0.0 && b > 0.0 && a <= 0.0 ==> !(x > 0.0 && z >= 0.0 && y < 0.0) && !(x <= 0.0 && z < 0.0 && y > 0.0)
    ensures c > 0.0 && b > 0.0 && a <= 0.0 ==> !(x >= 0.0 && z > 0.0 && y < 0.0) && !(x < 0.0 && z <= 0.0 && y > 0.0)
    ensures c <= 0.0 && b <= 0.0 && a > 0.0 ==> !(x >= 0.0 && z >= 0.0 && y < 0.0) && !(x <= 0.0 && z <= 0.0 && y > 0.0)
  {
    Sign(x, c);
    Sign(y, a);
    Sign(z, b);
  }

  lemma Sign(x: real, y: real)
    ensures x > 0.0 && y > 0.0 ==> x * y > 0.0
    ensures x < 0.0 && y > 0.0 ==> x * y < 0.0
    ensures x < 0.0 && y < 0.0 ==> x * y > 0.0
    ensures x > 0.0 && y < 0.0 ==> x * y < 0.0
    ensures x == 0.0 || y == 0.0 ==> x * y == 0.0
  {
  }

  lemma AllOnOneSide(a: Point, b: Point, c: Point, p: Point)
    requires (a.lat > p.lat) == (b.lat > p.lat) == (c.lat > p.lat)
    ensures !Parity([a, b, c], p) && !StrictlyInside(a, b, c, p)
  {
    TriangleParity(a, b, c, p);
    Barycentric(a, b, c, p);
    if a.lat == b.lat == c.lat == p.lat {
      assert Side(a, b, p) == 0.0;
    } else {
      NoCommonSign(Side(a, b, p), Side(b, c, p), Side(c, a, p), c.lat - p.lat, a.lat - p.lat, b.lat - p.lat);
    }
  }

  lemma NoCommonSign(x: real, y: real, z: real, c: real, a: real, b: real)
    requires x * c + y * a + z * b == 0.0
    requires (a > 0.0) == (b > 0.0) == (c > 0.0) && !(a == b == c == 0.0)
    ensures !(x > 0.0 && y > 0.0 && z > 0.0) && !(x < 0.0 && y < 0.0 && z < 0.0)
  {
    Sign(x, c);
    Sign(y, a);
    Sign(z, b);
  }

  /** For a triangle, in either orientation, the answer is what it should be: yes strictly inside
      and no strictly outside.  With `FanOfTriangles` this gives the answer of every polygon its
      meaning: the parity of the number of fan triangles that contain the point. */
  lemma TriangleMeaning(a: Point, b: Point, c: Point, p: Point)
    ensures StrictlyInside(a, b, c, p) ==> Parity([a, b, c], p)
    ensures StrictlyOutside(a, b, c, p) ==> !Parity([a, b, c], p)
  {
    var (x, y, z) := (a.lat > p.lat, b.lat > p.lat, c.lat > p.lat);
    if x == y == z {
      AllOnOneSide(a, b, c, p);
    } else if y == z {
      ApexAlone(a, b, c, p);
    } else if z == x {
      ApexAlone(b, c, a, p);
      TriangleParity(a, b, c, p);
      TriangleParity(b, c, a, p);
    } else {
      ApexAlone(c, a, b, p);
      TriangleParity(a, b, c, p);
      TriangleParity(c, a, b, p);
    }
  }

  // ----- The bounding box -----

  lemma AcrossLatitude(x1: real, y1: real, x2: real, y2: real)
    requires (y1 > 0.0) != (y2 > 0.0)
    ensures x1 > 0.0 && x2 > 0.0 ==> if y2 > y1 then x1 * y2 - x2 * y1 > 0.0 else x1 * y2 - x2 * y1 < 0.0
    ensures x1 <= 0.0 && x2 <= 0.0 ==> if y2 > y1 then x1 * y2 - x2 * y1 <= 0.0 else x1 * y2 - x2 * y1 >= 0.0
  {
    Sign(x1, y2);
    Sign(x2, y1);
  }

  lemma EastOfEdge(a: Point, b: Point, p: Point)
    requires a.lon <= p.lon && b.lon <= p.lon
    ensures !Crosses(a, b, p)
  {
    CrossesBySide(a, b, p);
    if Straddles(a, b, p) { AcrossLatitude(a.lon - p.lon, a.lat - p.lat, b.lon - p.lon, b.lat - p.lat); }
  }

  lemma WestOfEdge(a: Point, b: Point, p: Point)
    requires a.lon > p.lon && b.lon > p.lon
    ensures Crosses(a, b, p) == Straddles(a, b, p)
  {
    CrossesBySide(a, b, p);
    if Straddles(a, b, p) { AcrossLatitude(a.lon - p.lon, a.lat - p.lat, b.lon - p.lon, b.lat - p.lat); }
  }

  /** West of everything the ray meets every edge that straddles, and a line that starts and ends
      on the same side of a latitude straddles it an even number of times. */
  lemma {:induction false} WestOfPath(s: seq<Point>, p: Point)
    requires s != [] && forall v <- s :: v.lon > p.lon
    ensures PathParity(s, p) == Straddles(s[0], s[|s| - 1], p)
  {
    if |s| <= 1 {
    } else {
      WestOfPath(s[1..], p);
      WestOfEdge(s[0], s[1], p);
    }
  }

  lemma {:induction false} NoCrossings(s: seq<Point>, p: Point)
    requires forall i, j :: 0 <= i < |s| && 0 <= j < |s| ==> !Crosses(s[i], s[j], p)
    ensures !PathParity(s, p)
  {
    if |s| <= 1 {
    } else {
      assert forall i, j :: 0 <= i < |s| - 1 && 0 <= j < |s| - 1 ==> s[1..][i] == s[i + 1] && s[1..][j] == s[j + 1];
      NoCrossings(s[1..], p);
    }
  }

  predicate OutsideBox(s: seq<Point>, p: Point) {
    || (forall v <- s :: v.lat <= p.lat)
    || (forall v <- s :: v.lat > p.lat)
    || (forall v <- s :: v.lon <= p.lon)
    || (forall v <- s :: v.lon > p.lon)
  }

  /** A point outside the bounding box is never inside the polygon. */
  lemma OutsideBoxIsOutside(s: seq<Point>, p: Point)
    requires OutsideBox(s, p)
    ensures !Parity(s, p)
  {
    if s == [] {
    } else if forall v <- s :: v.lon > p.lon {
      WestOfPath(s, p);
      WestOfEdge(s[0], s[|s| - 1], p);
    } else {
      forall i, j | 0 <= i < |s| && 0 <= j < |s| ensures !Crosses(s[i], s[j], p) {
        if forall v <- s :: v.lon <= p.lon { EastOfEdge(s[i], s[j], p); }
      }
      NoCrossings(s, p);
    }
  }

  // ----- The border -----

  /** The upright edge of a rectangle is met from the left, from its lower end inclusive to its upper end exclusive. */
  lemma UprightEdge(south: real, north: real, lon: real, p: Point)
    requires south < north
    ensures Crosses(Point(south, lon), Point(north, lon), p) <==> south <= p.lat < north && p.lon < lon
  {
    CrossesSymmetric(Point(south, lon), Point(north, lon), p);
    if Straddles(Point(south, lon), Point(north, lon), p) {
      assert LongitudeAt(Point(south, lon), Point(north, lon), p.lat) == lon by {
        assert 0.0 * (p.lat - south) / (north - south) == 0.0;
      }
    }
  }

  function Rectangle(south: real, north: real, west: real, east: real): seq<Point> {
    [Point(south, west), Point(south, east), Point(north, east), Point(north, west)]
  }

  lemma FourSides(a: Point, b: Point, c: Point, d: Point, p: Point)
    ensures Parity([a, b, c, d], p)
      <==> (Crosses(a, b, p) != (Crosses(b, c, p) != Crosses(c, d, p))) != Crosses(a, d, p)
  {
    var (four, three, two) := ([a, b, c, d], [b, c, d], [c, d]);
    assert four[1..] == three && three[1..] == two && two[1..] == [d];
    assert PathParity(two, p) == Crosses(c, d, p);
    assert PathParity(three, p) == (Crosses(b, c, p) != Crosses(c, d, p));
  }

  /** Of a rectangle the southern and the western side belong to it, the northern and the eastern do not: rectangles
      side by side share no point and leave none out. */
  lemma RectangleExactly(south: real, north: real, west: real, east: real, p: Point)
    requires south < north && west < east
    ensures Parity(Rectangle(south, north, west, east), p) <==> south <= p.lat < north && west <= p.lon < east
  {
    var s := Rectangle(south, north, west, east);
    UprightEdge(south, north, east, p);
    UprightEdge(south, north, west, p);
    CrossesSymmetric(s[0], s[3], p);
    FourSides(s[0], s[1], s[2], s[3], p);
    assert !Crosses(s[0], s[1], p) && !Crosses(s[2], s[3], p);
  }
}

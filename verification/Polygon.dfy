/**
  The even-odd point-in-polygon test of frontend/scripts/gen_world_dots.py (`inside`), over exact reals.
  The script's grid and its outlines are whole numbers; rounding of the crossing point is not modelled.
 */
module Polygon {
  import opened Common

  datatype Point = Point(x: real, y: real)

  /** The edge from p to q passes the height of y: one end is above it, the other is not. */
  predicate Straddles(y: real, p: Point, q: Point) {
    (p.y > y) != (q.y > y)
  }

  /** Where a straddling edge meets the height of y. */
  function Crossing(y: real, p: Point, q: Point): real
    requires Straddles(y, p, q)
  {
    (q.x - p.x) * (y - p.y) / (q.y - p.y) + p.x
  }

  /** The rightward ray from (x, y) meets the edge. */
  predicate Crosses(x: real, y: real, p: Point, q: Point) {
    Straddles(y, p, q) && x < Crossing(y, p, q)
  }

  type EdgeTest = (Point, Point) -> bool

  /** The edges the rightward ray from (x, y) meets, and those that pass its height. */
  function Ray(x: real, y: real): EdgeTest {
    (p, q) => Crosses(x, y, p, q)
  }

  function Height(y: real): EdgeTest {
    (p, q) => Straddles(y, p, q)
  }

  /** Edges of an open chain of points that pass a test. */
  function Count(test: EdgeTest, chain: seq<Point>): nat {
    if |chain| < 2 then 0
    else
      var n := |chain| - 1;
      Count(test, chain[..n]) + (if test(chain[n - 1], chain[n]) then 1 else 0)
  }

  /** A polygon as a chain that comes back to where it began. */
  function Closed(poly: seq<Point>): seq<Point> {
    if poly == [] then [] else poly + [poly[0]]
  }

  predicate Odd(n: nat) {
    n % 2 == 1
  }

  lemma OddNext(n: nat)
    ensures Odd(n + 1) <==> !Odd(n)
  {
  }

  /** A point is inside iff the ray meets an odd number of edges. */
  predicate IsInside(x: real, y: real, poly: seq<Point>) {
    Odd(Count(Ray(x, y), Closed(poly)))
  }

  lemma CountPrefix(test: EdgeTest, chain: seq<Point>, i: nat)
    requires i + 1 < |chain|
    ensures Count(test, chain[..i + 2])
            == Count(test, chain[..i + 1]) + (if test(chain[i], chain[i + 1]) then 1 else 0)
  {
    assert chain[..i + 2][..i + 1] == chain[..i + 1];
  }

  lemma NextIndex(i: nat, n: nat)
    requires i < n
    ensures (i + 1) % n == if i + 1 < n then i + 1 else 0
  {
  }

  lemma EdgeOfLoop(test: EdgeTest, poly: seq<Point>, i: nat)
    requires i < |poly|
    ensures 0 <= (i + 1) % |poly| < |poly|
    ensures var closed := Closed(poly);
            Count(test, closed[..i + 2])
            == Count(test, closed[..i + 1]) + (if test(poly[i], poly[(i + 1) % |poly|]) then 1 else 0)
  {
    NextIndex(i, |poly|);
    CountPrefix(test, Closed(poly), i);
  }

  /** The loop: toggle at every edge the ray meets, the last edge closing the cycle. */
  method Inside(x: real, y: real, poly: seq<Point>) returns (hit: bool)
    ensures hit <==> IsInside(x, y, poly)
  {
    hit := false;
    var n := |poly|;
    if n == 0 {
      return;
    }
    ghost var closed := Closed(poly);
    ghost var crossings: nat := 0;
    for i := 0 to n
      invariant crossings == Count(Ray(x, y), closed[..i + 1])
      invariant hit <==> Odd(crossings)
    {
      var p := poly[i];
      var q := poly[(i + 1) % n];
      EdgeOfLoop(Ray(x, y), poly, i);
      OddNext(crossings);
      crossings := crossings + (if Crosses(x, y, p, q) then 1 else 0);
      if Straddles(y, p, q) {
        var xint := Crossing(y, p, q);
        if x < xint {
          hit := !hit;
        }
      }
    }
    assert closed[..n + 1] == closed;
  }

  // ---------------------------------------------------------------- the crossing point

  lemma Scale(a: real, b: real, d: real)
    requires d != 0.0
    ensures a * b / d == a * (b / d)
  {
  }

  lemma Product(a: real, b: real)
    requires 0.0 <= a && 0.0 <= b
    ensures 0.0 <= a * b
  {
  }

  lemma Between(a: real, b: real, t: real)
    requires 0.0 <= t <= 1.0
    ensures (if a <= b then a <= (b - a) * t + a <= b else b <= (b - a) * t + a <= a)
  {
    if a <= b {
      Product(b - a, t);
      Product(b - a, 1.0 - t);
      assert (b - a) * (1.0 - t) == b - a - (b - a) * t;
    } else {
      Product(a - b, t);
      Product(a - b, 1.0 - t);
      assert (a - b) * (1.0 - t) == a - b + (b - a) * t;
      assert (a - b) * t == -((b - a) * t);
    }
  }

  lemma Ratio(n: real, d: real)
    requires (0.0 < d && 0.0 <= n <= d) || (d < 0.0 && d <= n <= 0.0)
    ensures 0.0 <= n / d <= 1.0
  {
    var t := n / d;
    assert t * d == n;
    if d > 0.0 {
      assert t < 0.0 ==> t * d < 0.0;
      assert t > 1.0 ==> (t - 1.0) * d > 0.0;
    } else {
      assert t < 0.0 ==> t * d > 0.0;
      assert t > 1.0 ==> (t - 1.0) * d < 0.0;
    }
  }

  /** The crossing point lies between the ends of its edge. */
  lemma CrossingBetween(y: real, p: Point, q: Point)
    requires Straddles(y, p, q)
    ensures (if p.x <= q.x then p.x <= Crossing(y, p, q) <= q.x else q.x <= Crossing(y, p, q) <= p.x)
  {
    var t := (y - p.y) / (q.y - p.y);
    Ratio(y - p.y, q.y - p.y);
    Scale(q.x - p.x, y - p.y, q.y - p.y);
    Between(p.x, q.x, t);
    assert Crossing(y, p, q) == (q.x - p.x) * t + p.x;
  }

  lemma Cancel(u: real, v: real, d: real)
    requires d != 0.0 && u * d == v * d
    ensures u == v
  {
    assert (u - v) * d == 0.0;
  }

  /** Read from either end, an edge is crossed at the same point. */
  lemma CrossingReversed(y: real, p: Point, q: Point)
    requires Straddles(y, p, q)
    ensures Straddles(y, q, p) && Crossing(y, q, p) == Crossing(y, p, q)
  {
    var d, w := q.y - p.y, q.x - p.x;
    var t := (y - p.y) / d;
    var u := (y - q.y) / (p.y - q.y);
    Scale(w, y - p.y, d);
    Scale(p.x - q.x, y - q.y, p.y - q.y);
    assert t * d == y - p.y;
    assert u * (p.y - q.y) == y - q.y;
    assert u * (p.y - q.y) == -(u * d);
    assert (t + u) * d == t * d + u * d;
    Cancel(t + u, 1.0, d);
    assert u == 1.0 - t;
    assert (p.x - q.x) * (1.0 - t) == p.x - q.x + w * t;
  }

  lemma CrossesReversed(x: real, y: real, p: Point, q: Point)
    ensures Crosses(x, y, p, q) <==> Crosses(x, y, q, p)
  {
    if Straddles(y, p, q) {
      CrossingReversed(y, p, q);
    }
  }

  // ---------------------------------------------------------------- chains

  /** Two chains that meet in a point cross as often as the chain they make. */
  lemma {:induction false} ChainsMeet(test: EdgeTest, a: seq<Point>, m: Point, b: seq<Point>)
    ensures Count(test, a + [m] + b) == Count(test, a + [m]) + Count(test, [m] + b)
    decreases |b|
  {
    var whole := a + [m] + b;
    if b == [] {
      assert whole == a + [m] && [m] + b == [m];
    } else {
      var n := |b| - 1;
      ChainsMeet(test, a, m, b[..n]);
      assert whole[..|whole| - 1] == a + [m] + b[..n];
      assert ([m] + b)[..|b|] == [m] + b[..n];
      assert whole[|whole| - 2] == ([m] + b)[|b| - 1];
    }
  }

  lemma {:induction false} ReversedChain(x: real, y: real, chain: seq<Point>)
    ensures Count(Ray(x, y), Reverse(chain)) == Count(Ray(x, y), chain)
    decreases |chain|
  {
    if |chain| >= 2 {
      var p, q := chain[0], chain[1];
      var rest := chain[1..];
      ReversedChain(x, y, rest);
      assert chain == [p] + [q] + rest[1..];
      ChainsMeet(Ray(x, y), [p], q, rest[1..]);
      assert [q] + rest[1..] == rest;
      assert Reverse(chain)[..|rest|] == Reverse(rest);
      assert ([p] + [q])[..1] == [p];
      CrossesReversed(x, y, p, q);
    } else {
      assert Reverse(chain) == chain;
    }
  }

  /** An open chain passes a height an odd number of times iff its ends are on different sides. */
  lemma {:induction false} ChainParity(y: real, chain: seq<Point>)
    requires chain != []
    ensures Odd(Count(Height(y), chain)) <==> (chain[0].y > y) != (chain[|chain| - 1].y > y)
    decreases |chain|
  {
    if |chain| >= 2 {
      ChainParity(y, chain[..|chain| - 1]);
    }
  }

  /** A closed polygon straddles every height an even number of times. */
  lemma EvenStraddles(y: real, poly: seq<Point>)
    ensures !Odd(Count(Height(y), Closed(poly)))
  {
    if poly != [] {
      ChainParity(y, Closed(poly));
    }
  }

  // ---------------------------------------------------------------- beyond the bounding box

  ghost predicate LeftOf(x: real, chain: seq<Point>) {
    forall i :: 0 <= i < |chain| ==> x < chain[i].x
  }

  ghost predicate RightOf(x: real, chain: seq<Point>) {
    forall i :: 0 <= i < |chain| ==> chain[i].x <= x
  }

  ghost predicate Above(y: real, chain: seq<Point>) {
    forall i :: 0 <= i < |chain| ==> chain[i].y <= y
  }

  ghost predicate Below(y: real, chain: seq<Point>) {
    forall i :: 0 <= i < |chain| ==> y < chain[i].y
  }

  lemma {:induction false} LeftMeetsEveryStraddle(x: real, y: real, chain: seq<Point>)
    requires LeftOf(x, chain)
    ensures Count(Ray(x, y), chain) == Count(Height(y), chain)
    decreases |chain|
  {
    if |chain| >= 2 {
      var n := |chain| - 1;
      LeftMeetsEveryStraddle(x, y, chain[..n]);
      if Straddles(y, chain[n - 1], chain[n]) {
        CrossingBetween(y, chain[n - 1], chain[n]);
      }
    }
  }

  lemma {:induction false} BeyondMeetsNothing(x: real, y: real, chain: seq<Point>)
    requires RightOf(x, chain) || Above(y, chain) || Below(y, chain)
    ensures Count(Ray(x, y), chain) == 0
    decreases |chain|
  {
    if |chain| >= 2 {
      var n := |chain| - 1;
      BeyondMeetsNothing(x, y, chain[..n]);
      if Straddles(y, chain[n - 1], chain[n]) {
        CrossingBetween(y, chain[n - 1], chain[n]);
      }
    }
  }

  /** A point beyond the box of the vertices, on whichever side, is outside. */
  lemma OutsideTheBox(x: real, y: real, poly: seq<Point>)
    requires LeftOf(x, poly) || RightOf(x, poly) || Above(y, poly) || Below(y, poly)
    ensures !IsInside(x, y, poly)
  {
    if LeftOf(x, poly) {
      LeftMeetsEveryStraddle(x, y, Closed(poly));
      EvenStraddles(y, poly);
    } else {
      BeyondMeetsNothing(x, y, Closed(poly));
    }
  }

  // ---------------------------------------------------------------- the answer belongs to the shape

  /** A closed polygon is two open chains, each running up to where the other begins. */
  lemma TwoChains(test: EdgeTest, u: seq<Point>, v: seq<Point>)
    requires u != [] && v != []
    ensures Count(test, Closed(u + v)) == Count(test, u + [v[0]]) + Count(test, v + [u[0]])
  {
    ClosedInTwo(u, v);
    ChainsMeet(test, u, v[0], v[1..] + [u[0]]);
  }

  lemma ClosedInTwo(u: seq<Point>, v: seq<Point>)
    requires u != [] && v != []
    ensures Closed(u + v) == u + [v[0]] + (v[1..] + [u[0]])
    ensures [v[0]] + (v[1..] + [u[0]]) == v + [u[0]]
  {
  }

  lemma RotatedCount(test: EdgeTest, u: seq<Point>, v: seq<Point>)
    requires u != [] && v != []
    ensures Count(test, Closed(u + v)) == Count(test, Closed(v + u))
  {
    TwoChains(test, u, v);
    TwoChains(test, v, u);
  }

  /** Starting the vertex list elsewhere changes nothing. */
  lemma RotationInvariant(x: real, y: real, u: seq<Point>, v: seq<Point>)
    ensures IsInside(x, y, u + v) <==> IsInside(x, y, v + u)
  {
    if u == [] || v == [] {
      assert u + v == v + u;
    } else {
      RotatedCount(Ray(x, y), u, v);
    }
  }

  lemma ReverseCons(p: Point, rest: seq<Point>)
    ensures Reverse([p] + rest) == Reverse(rest) + [p]
  {
    assert ([p] + rest)[1..] == rest;
  }

  lemma ReverseSnoc(rest: seq<Point>, p: Point)
    ensures Reverse(rest + [p]) == [p] + Reverse(rest)
  {
    ReverseAppend(rest, [p]);
    assert Reverse([p]) == [p];
  }

  lemma ReversedLoop(p: Point, rest: seq<Point>)
    ensures Reverse([p] + rest + [p]) == [p] + Reverse(rest) + [p]
  {
    ReverseSnoc([p] + rest, p);
    ReverseCons(p, rest);
    assert [p] + (Reverse(rest) + [p]) == [p] + Reverse(rest) + [p];
  }

  lemma ClosedFrom(p: Point, rest: seq<Point>)
    ensures Closed([p] + rest) == [p] + rest + [p]
  {
  }

  /** So does walking it the other way round. */
  lemma ReversalInvariant(x: real, y: real, poly: seq<Point>)
    ensures IsInside(x, y, Reverse(poly)) <==> IsInside(x, y, poly)
  {
    if poly != [] {
      var p, rest := poly[0], poly[1..];
      assert poly == [p] + rest;
      ReversedLoop(p, rest);
      ReverseCons(p, rest);
      ClosedFrom(p, rest);
      ClosedFrom(p, Reverse(rest));
      ReversedChain(x, y, [p] + rest + [p]);
      RotationInvariant(x, y, Reverse(rest), [p]);
    }
  }

  /** A loop of two chains, from p to q and back. */
  lemma ThereAndBack(test: EdgeTest, p: Point, a: seq<Point>, q: Point, b: seq<Point>)
    ensures Count(test, Closed([p] + a + [q] + b)) == Count(test, [p] + a + [q]) + Count(test, [q] + b + [p])
  {
    assert Closed([p] + a + [q] + b) == ([p] + a) + [q] + (b + [p]);
    ChainsMeet(test, [p] + a, q, b + [p]);
    assert [q] + (b + [p]) == [q] + b + [p];
  }

  /** One part of a cut polygon: its own chain and the chord. */
  lemma PartCount(test: EdgeTest, p: Point, a: seq<Point>, q: Point)
    ensures Count(test, Closed([p] + a + [q])) == Count(test, [p] + a + [q]) + Count(test, [q] + [p])
  {
    assert [p] + a + [q] + [] == [p] + a + [q];
    assert [q] + [] + [p] == [q] + [p];
    ThereAndBack(test, p, a, q, []);
  }

  lemma ChordBothWays(x: real, y: real, p: Point, q: Point)
    ensures Count(Ray(x, y), [q] + [p]) == Count(Ray(x, y), [p] + [q])
  {
    CrossesReversed(x, y, p, q);
    assert ([q] + [p])[..1] == [q] && ([p] + [q])[..1] == [p];
  }

  /** The two parts have the edges of the whole, and the chord twice. */
  lemma ChordCounts(x: real, y: real, p: Point, a: seq<Point>, q: Point, b: seq<Point>)
    ensures Count(Ray(x, y), Closed([p] + a + [q])) + Count(Ray(x, y), Closed([q] + b + [p]))
            == Count(Ray(x, y), Closed([p] + a + [q] + b)) + 2 * Count(Ray(x, y), [p] + [q])
  {
    ThereAndBack(Ray(x, y), p, a, q, b);
    PartCount(Ray(x, y), p, a, q);
    PartCount(Ray(x, y), q, b, p);
    ChordBothWays(x, y, p, q);
  }

  /** Cutting a polygon along the chord between the vertices p and q: a point is inside the whole iff it is
      inside exactly one of the two parts. */
  lemma ChordCut(x: real, y: real, p: Point, a: seq<Point>, q: Point, b: seq<Point>)
    ensures IsInside(x, y, [p] + a + [q] + b)
            <==> (IsInside(x, y, [p] + a + [q]) != IsInside(x, y, [q] + b + [p]))
  {
    ChordCounts(x, y, p, a, q, b);
    OddSum(
      Count(Ray(x, y), Closed([p] + a + [q] + b)), Count(Ray(x, y), Closed([p] + a + [q])),
      Count(Ray(x, y), Closed([q] + b + [p])), Count(Ray(x, y), [p] + [q]));
  }

  lemma OddSum(whole: nat, first: nat, second: nat, chord: nat)
    requires first + second == whole + 2 * chord
    ensures Odd(whole) <==> (Odd(first) != Odd(second))
  {
  }

  // ---------------------------------------------------------------- sides and triangles

  /** Positive iff r lies to the left of the way from p to q, negative iff to the right. */
  function Turn(p: Point, q: Point, r: Point): real {
    (q.x - p.x) * (r.y - p.y) - (q.y - p.y) * (r.x - p.x)
  }

  /** The crossing point lies on the line of its edge. */
  lemma CrossingOnLine(y: real, p: Point, q: Point)
    requires Straddles(y, p, q)
    ensures (Crossing(y, p, q) - p.x) * (q.y - p.y) == (q.x - p.x) * (y - p.y)
  {
    var d := q.y - p.y;
    var n := (q.x - p.x) * (y - p.y);
    assert n / d * d == n;
  }

  lemma ScaledOrder(u: real, v: real, d: real)
    ensures 0.0 < d ==> (u < v <==> u * d < v * d)
    ensures d < 0.0 ==> (u < v <==> v * d < u * d)
  {
    if 0.0 < d {
      if u < v {
        assert 0.0 < (v - u) * d;
      }
      if v <= u {
        assert 0.0 <= (u - v) * d;
      }
    }
    if d < 0.0 {
      if u < v {
        assert (v - u) * d < 0.0;
      }
      if v <= u {
        assert (u - v) * d <= 0.0;
      }
    }
  }

  /** The ray meets a straddling edge exactly when the point lies to its left as it goes up, or to its right as it
      goes down. */
  lemma CrossesBySide(x: real, y: real, p: Point, q: Point)
    ensures Crosses(x, y, p, q)
            <==> && Straddles(y, p, q)
                 && if p.y < q.y then 0.0 < Turn(p, q, Point(x, y)) else Turn(p, q, Point(x, y)) < 0.0
  {
    if Straddles(y, p, q) {
      var d, c := q.y - p.y, Crossing(y, p, q);
      CrossingOnLine(y, p, q);
      ScaledOrder(x - p.x, c - p.x, d);
      assert Turn(p, q, Point(x, y)) == (c - p.x) * d - d * (x - p.x);
    }
  }

  lemma TriangleCount(test: EdgeTest, a: Point, b: Point, c: Point)
    ensures Count(test, Closed([a, b, c]))
            == (if test(a, b) then 1 else 0) + (if test(b, c) then 1 else 0) + (if test(c, a) then 1 else 0)
  {
    assert Closed([a, b, c]) == [a, b, c, a];
    assert [a, b, c, a][..3] == [a, b, c] && [a, b, c][..2] == [a, b] && [a, b][..1] == [a];
    assert Count(test, [a]) == 0;
    assert Count(test, [a, b]) == if test(a, b) then 1 else 0;
    assert Count(test, [a, b, c]) == Count(test, [a, b]) + if test(b, c) then 1 else 0;
  }

  /** The three turns are the weights that the corners have at the point. */
  lemma Weights(a: Point, b: Point, c: Point, r: Point)
    ensures Turn(b, c, r) * (a.y - r.y) + Turn(c, a, r) * (b.y - r.y) + Turn(a, b, r) * (c.y - r.y) == 0.0
    ensures Turn(a, b, r) + Turn(b, c, r) + Turn(c, a, r) == Turn(a, b, c)
  {
    var ax, ah, bx, bh, cx, ch := a.x - r.x, a.y - r.y, b.x - r.x, b.y - r.y, c.x - r.x, c.y - r.y;
    TurnFrom(b, c, r);
    TurnFrom(c, a, r);
    TurnFrom(a, b, r);
    assert (bx * ch - bh * cx) * ah == bx * ch * ah - bh * cx * ah;
    assert (cx * ah - ch * ax) * bh == cx * ah * bh - ch * ax * bh;
    assert (ax * bh - ah * bx) * ch == ax * bh * ch - ah * bx * ch;
    assert Turn(a, b, c) == (bx - ax) * (ch - ah) - (bh - ah) * (cx - ax);
  }

  lemma TurnFrom(p: Point, q: Point, r: Point)
    ensures Turn(p, q, r) == (p.x - r.x) * (q.y - r.y) - (p.y - r.y) * (q.x - r.x)
  {
  }

  lemma Signs(w: real, h: real)
    ensures 0.0 <= w && 0.0 <= h ==> 0.0 <= w * h
    ensures w <= 0.0 && h <= 0.0 ==> 0.0 <= w * h
    ensures 0.0 <= w && h <= 0.0 ==> w * h <= 0.0
    ensures w <= 0.0 && 0.0 <= h ==> w * h <= 0.0
    ensures 0.0 < w && 0.0 < h ==> 0.0 < w * h
    ensures w < 0.0 && 0.0 < h ==> w * h < 0.0
    ensures 0.0 < w && h < 0.0 ==> w * h < 0.0
    ensures w < 0.0 && h < 0.0 ==> 0.0 < w * h
  {
  }

  ghost predicate AllLeft(a: Point, b: Point, c: Point, r: Point) {
    0.0 < Turn(a, b, r) && 0.0 < Turn(b, c, r) && 0.0 < Turn(c, a, r)
  }

  ghost predicate SomeRight(a: Point, b: Point, c: Point, r: Point) {
    Turn(a, b, r) < 0.0 || Turn(b, c, r) < 0.0 || Turn(c, a, r) < 0.0
  }

  /** With one height on the other side than the two beside it, three weights that balance and are positive together
      cannot have the signs of an odd count, unless none is negative. */
  lemma LoneHeight(before: real, after: real, opposite: real, hu: real, hv: real, hw: real)
    requires after * hu + opposite * hv + before * hw == 0.0 && 0.0 < before + after + opposite
    requires (hv > 0.0 && hu <= 0.0 && hw <= 0.0) || (hv <= 0.0 && hu > 0.0 && hw > 0.0)
    ensures hv > 0.0 && ((before > 0.0 && after >= 0.0) || (before <= 0.0 && after < 0.0))
            ==> before >= 0.0 && after >= 0.0 && opposite >= 0.0
    ensures hv <= 0.0 && ((before < 0.0 && after <= 0.0) || (before >= 0.0 && after > 0.0))
            ==> before >= 0.0 && after >= 0.0 && opposite >= 0.0
  {
    Signs(after, hu);
    Signs(opposite, hv);
    Signs(before, hw);
  }

  /** A corner alone on its side of the height: of its two edges one goes up and one goes down. Where the triangle
      runs left round, exactly one of them is met by the ray from a point within, both or neither from one beyond. */
  lemma LoneCorner(x: real, y: real, u: Point, v: Point, w: Point)
    requires (v.y > y) != (u.y > y) && (v.y > y) != (w.y > y) && 0.0 < Turn(u, v, w)
    ensures AllLeft(u, v, w, Point(x, y)) ==> Crosses(x, y, u, v) != Crosses(x, y, v, w)
    ensures SomeRight(u, v, w, Point(x, y)) ==> Crosses(x, y, u, v) == Crosses(x, y, v, w)
  {
    var r := Point(x, y);
    CrossesBySide(x, y, u, v);
    CrossesBySide(x, y, v, w);
    Weights(u, v, w, r);
    LoneHeight(Turn(u, v, r), Turn(v, w, r), Turn(w, u, r), u.y - y, v.y - y, w.y - y);
  }

  /** With all corners on one side of the height the point is not within. */
  lemma NotBeside(y: real, x: real, a: Point, b: Point, c: Point)
    requires (a.y > y) == (b.y > y) == (c.y > y)
    requires 0.0 < Turn(a, b, c)
    ensures !AllLeft(a, b, c, Point(x, y))
  {
    var r := Point(x, y);
    if AllLeft(a, b, c, r) {
      Weights(a, b, c, r);
      Signs(Turn(b, c, r), a.y - y);
      Signs(Turn(c, a, r), b.y - y);
      Signs(Turn(a, b, r), c.y - y);
      FlatHasNoTurn(a, b, c, y);
    }
  }

  lemma FlatHasNoTurn(a: Point, b: Point, c: Point, y: real)
    ensures a.y == y && b.y == y && c.y == y ==> Turn(a, b, c) == 0.0
  {
  }

  lemma LeftRoundTriangle(x: real, y: real, a: Point, b: Point, c: Point)
    requires 0.0 < Turn(a, b, c)
    ensures AllLeft(a, b, c, Point(x, y)) ==> IsInside(x, y, [a, b, c])
    ensures SomeRight(a, b, c, Point(x, y)) ==> !IsInside(x, y, [a, b, c])
  {
    TriangleCount(Ray(x, y), a, b, c);
    TurnsAlike(a, b, c);
    if (a.y > y) == (b.y > y) == (c.y > y) {
      NotBeside(y, x, a, b, c);
    } else if (a.y > y) == (b.y > y) {
      LoneCorner(x, y, b, c, a);
    } else if (b.y > y) == (c.y > y) {
      LoneCorner(x, y, c, a, b);
    } else {
      LoneCorner(x, y, a, b, c);
    }
  }

  lemma TurnsAlike(a: Point, b: Point, c: Point)
    ensures Turn(b, c, a) == Turn(a, b, c) && Turn(c, a, b) == Turn(a, b, c)
  {
  }

  lemma TurnReversed(p: Point, q: Point, r: Point)
    ensures Turn(q, p, r) == -Turn(p, q, r)
  {
  }

  /** Strictly within a triangle, however it runs round: the point is on one and the same side of all three edges,
      which is the side of the corners. */
  ghost predicate StrictlyWithin(a: Point, b: Point, c: Point, r: Point) {
    || (0.0 < Turn(a, b, r) && 0.0 < Turn(b, c, r) && 0.0 < Turn(c, a, r))
    || (Turn(a, b, r) < 0.0 && Turn(b, c, r) < 0.0 && Turn(c, a, r) < 0.0)
  }

  /** Strictly beyond one of its edges: on the other side of it than the third corner. */
  ghost predicate StrictlyBeyond(a: Point, b: Point, c: Point, r: Point) {
    || Turn(a, b, r) * Turn(a, b, c) < 0.0
    || Turn(b, c, r) * Turn(a, b, c) < 0.0
    || Turn(c, a, r) * Turn(a, b, c) < 0.0
  }

  /** The test answers true strictly within every triangle and false strictly beyond any edge of it. */
  lemma TriangleAnswers(x: real, y: real, a: Point, b: Point, c: Point)
    ensures StrictlyWithin(a, b, c, Point(x, y)) ==> IsInside(x, y, [a, b, c])
    ensures StrictlyBeyond(a, b, c, Point(x, y)) ==> !IsInside(x, y, [a, b, c])
  {
    var r, whole := Point(x, y), Turn(a, b, c);
    Weights(a, b, c, r);
    Signs(Turn(a, b, r), whole);
    Signs(Turn(b, c, r), whole);
    Signs(Turn(c, a, r), whole);
    if 0.0 < whole {
      LeftRoundTriangle(x, y, a, b, c);
    } else if whole < 0.0 {
      RightRound(x, y, a, b, c);
    }
  }

  /** A triangle that runs right round is one that runs left round, walked backwards. */
  lemma RightRound(x: real, y: real, a: Point, b: Point, c: Point)
    requires Turn(a, b, c) < 0.0
    ensures var r := Point(x, y);
            && (Turn(a, b, r) < 0.0 && Turn(b, c, r) < 0.0 && Turn(c, a, r) < 0.0 ==> IsInside(x, y, [a, b, c]))
            && (0.0 < Turn(a, b, r) || 0.0 < Turn(b, c, r) || 0.0 < Turn(c, a, r) ==> !IsInside(x, y, [a, b, c]))
  {
    var r := Point(x, y);
    assert Reverse([a, b, c]) == [c, b, a];
    ReversalInvariant(x, y, [a, b, c]);
    TurnReversed(a, b, r);
    TurnReversed(b, c, r);
    TurnReversed(c, a, r);
    TurnReversed(c, b, a);
    TurnsAlike(b, c, a);
    LeftRoundTriangle(x, y, c, b, a);
  }
}

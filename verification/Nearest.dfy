/** Keeping the pointer inside a constraint's region, in desktop/de/cwlroots/access.c. A region is a list
    of boxes of whole pixels; the pointer is a real point. */
module Nearest {
  import opened Wrappers

  /** The pixels x1 <= x < x2, y1 <= y < y2. */
  datatype Box = Box(x1: int, y1: int, x2: int, y2: int)

  datatype Point = Point(x: real, y: real)

  /** A region has no empty boxes. */
  predicate Proper(boxes: seq<Box>) {
    forall i :: 0 <= i < |boxes| ==> boxes[i].x1 < boxes[i].x2 && boxes[i].y1 < boxes[i].y2
  }

  predicate HasPixel(b: Box, x: int, y: int) { b.x1 <= x < b.x2 && b.y1 <= y < b.y2 }

  /** tw_constraint_contains: the pixel the point is in belongs to the region. */
  predicate Contains(boxes: seq<Box>, p: Point) {
    exists i :: 0 <= i < |boxes| && HasPixel(boxes[i], p.x.Floor, p.y.Floor)
  }

  /** The points from a box's first pixel corner to its last pixel corner. */
  predicate Within(b: Box, p: Point) {
    b.x1 as real <= p.x <= (b.x2 - 1) as real && b.y1 as real <= p.y <= (b.y2 - 1) as real
  }

  function Min(a: real, b: real): real { if b < a then b else a }

  function Max(a: real, b: real): real { if a < b then b else a }

  function Clamp(b: Box, p: Point): Point {
    Point(Min(Max(p.x, b.x1 as real), (b.x2 - 1) as real), Min(Max(p.y, b.y1 as real), (b.y2 - 1) as real))
  }

  function Square(a: real): real { a * a }

  function Distance(p: Point, q: Point): real { Square(q.x - p.x) + Square(q.y - p.y) }

  /** The first of boxes 0 to n-1 whose clamped point is nearest. */
  function Best(boxes: seq<Box>, p: Point, n: nat): (i: nat)
    requires 0 < n <= |boxes|
    ensures i < n
  {
    if n == 1 then 0
    else
      var before := Best(boxes, p, n - 1);
      if Distance(p, Clamp(boxes[n - 1], p)) < Distance(p, Clamp(boxes[before], p)) then n - 1 else before
  }

  function Nearest(boxes: seq<Box>, p: Point): Option<Point> {
    if boxes == [] then None else Some(Clamp(boxes[Best(boxes, p, |boxes|)], p))
  }

  /** tw_constraint_nearest; `best` is None for infinity. */
  method FindNearest(boxes: seq<Box>, p: Point) returns (r: Option<Point>)
    ensures r == Nearest(boxes, p)
  {
    r := None;
    var best: Option<real> := None;
    for i := 0 to |boxes|
      invariant i == 0 ==> r == None && best == None
      invariant i > 0 ==> r == Some(Clamp(boxes[Best(boxes, p, i)], p)) && best == Some(Distance(p, r.value))
    {
      var c := Clamp(boxes[i], p);
      var d := Distance(p, c);
      if best == None || d < best.value {
        best, r := Some(d), Some(c);
      }
    }
  }

  lemma ClampWithin(b: Box, p: Point)
    requires b.x1 < b.x2 && b.y1 < b.y2
    ensures Within(b, Clamp(b, p))
    ensures Clamp(b, p) == p <==> Within(b, p)
  {
  }

  lemma SquareGrows(a: real, b: real)
    requires -b <= a <= b || b <= a <= -b
    ensures Square(a) <= Square(b)
  {
    var c := if b < 0.0 then -b else b;
    assert Square(b) - Square(a) == (c - a) * (c + a);
  }

  /** No point of a box is nearer than the clamped one. */
  lemma ClampIsNearest(b: Box, p: Point, q: Point)
    requires Within(b, q)
    ensures Distance(p, Clamp(b, p)) <= Distance(p, q)
  {
    var c := Clamp(b, p);
    SquareGrows(c.x - p.x, q.x - p.x);
    SquareGrows(c.y - p.y, q.y - p.y);
  }

  lemma {:induction false} BestIsLeast(boxes: seq<Box>, p: Point, n: nat, k: nat)
    requires k < n <= |boxes|
    ensures Distance(p, Clamp(boxes[Best(boxes, p, n)], p)) <= Distance(p, Clamp(boxes[k], p))
    ensures k < Best(boxes, p, n) ==>
      Distance(p, Clamp(boxes[Best(boxes, p, n)], p)) < Distance(p, Clamp(boxes[k], p))
  {
    if k < n - 1 {
      BestIsLeast(boxes, p, n - 1, k);
    } else if n > 1 {
      BestIsLeast(boxes, p, n - 1, 0);
    }
  }

  lemma WithinIsContained(boxes: seq<Box>, i: nat, q: Point)
    requires i < |boxes| && Within(boxes[i], q)
    ensures Contains(boxes, q)
  {
    var b := boxes[i];
    FloorBetween(q.x, b.x1, b.x2);
    FloorBetween(q.y, b.y1, b.y2);
    assert HasPixel(boxes[i], q.x.Floor, q.y.Floor);
  }

  lemma FloorBetween(x: real, lo: int, hi: int)
    requires lo as real <= x <= (hi - 1) as real
    ensures lo <= x.Floor < hi
  {
  }

  /** A region gives a point exactly when it has a box; the point is in the region, and no point of any
      box, from first pixel corner to last, is nearer. */
  lemma NearestIsNearest(boxes: seq<Box>, p: Point)
    requires Proper(boxes)
    ensures Nearest(boxes, p).Some? <==> boxes != []
    ensures Nearest(boxes, p).Some? ==> Contains(boxes, Nearest(boxes, p).value)
    ensures Nearest(boxes, p).Some? ==> forall k, q :: 0 <= k < |boxes| && Within(boxes[k], q) ==>
      Distance(p, Nearest(boxes, p).value) <= Distance(p, q)
  {
    if boxes != [] {
      var i := Best(boxes, p, |boxes|);
      ClampWithin(boxes[i], p);
      WithinIsContained(boxes, i, Nearest(boxes, p).value);
      forall k, q | 0 <= k < |boxes| && Within(boxes[k], q)
        ensures Distance(p, Nearest(boxes, p).value) <= Distance(p, q)
      {
        BestIsLeast(boxes, p, |boxes|, k);
        ClampIsNearest(boxes[k], p, q);
      }
    }
  }

  lemma NoDistance(p: Point, q: Point)
    ensures Distance(p, q) >= 0.0 && (Distance(p, q) == 0.0 <==> p == q)
  {
    SquareIsZero(q.x - p.x);
    SquareIsZero(q.y - p.y);
  }

  lemma Product(a: real, b: real)
    requires a > 0.0 && b > 0.0
    ensures a * b > 0.0
  {
  }

  lemma Positive(a: real)
    requires a > 0.0
    ensures Square(a) > 0.0
  {
    calc {
      Square(a);
    ==
      a * a;
    >  { Product(a, a); }
      0.0;
    }
  }

  lemma SquareIsZero(a: real)
    ensures Square(a) >= 0.0 && (Square(a) == 0.0 <==> a == 0.0)
  {
    if a > 0.0 {
      Positive(a);
    } else if a < 0.0 {
      Positive(-a);
      assert Square(a) == Square(-a);
    }
  }

  /** A point stays where it is exactly when some box has it between its first and last pixel corners. */
  lemma StaysIff(boxes: seq<Box>, p: Point)
    requires Proper(boxes) && boxes != []
    ensures Nearest(boxes, p) == Some(p) <==> exists k :: 0 <= k < |boxes| && Within(boxes[k], p)
  {
    var i := Best(boxes, p, |boxes|);
    ClampWithin(boxes[i], p);
    if k :| 0 <= k < |boxes| && Within(boxes[k], p) {
      NearestIsNearest(boxes, p);
      NoDistance(p, p);
      NoDistance(p, Nearest(boxes, p).value);
    }
  }

  /** Asking again moves nothing. */
  lemma NearestAgain(boxes: seq<Box>, p: Point)
    requires Proper(boxes) && boxes != []
    ensures Nearest(boxes, Nearest(boxes, p).value) == Nearest(boxes, p)
  {
    var i := Best(boxes, p, |boxes|);
    ClampWithin(boxes[i], p);
    StaysIff(boxes, Nearest(boxes, p).value);
  }

  /** A point inside a box's last pixel is contained, and yet moved to that pixel's corner. */
  lemma InsideTheLastPixel(x: int, y: int)
    ensures var p := Point(x as real + 0.5, y as real); var boxes := [Box(x, y, x + 1, y + 1)];
      Contains(boxes, p) && Nearest(boxes, p) == Some(Point(x as real, y as real))
  {
    var p, boxes := Point(x as real + 0.5, y as real), [Box(x, y, x + 1, y + 1)];
    assert p.x.Floor == x && p.y.Floor == y;
    assert HasPixel(boxes[0], p.x.Floor, p.y.Floor);
  }

  /** A pointer constraint: its region in the surface's coordinates, where the surface starts, and whether
      it locks the pointer instead of confining it. */
  datatype Constraint = Constraint(boxes: seq<Box>, origin: Point, locked: bool)

  function Minus(p: Point, o: Point): Point { Point(p.x - o.x, p.y - o.y) }

  function Plus(p: Point, o: Point): Point { Point(p.x + o.x, p.y + o.y) }

  predicate Holds(c: Constraint, p: Point) { Contains(c.boxes, Minus(p, c.origin)) }

  /** Where a motion from `from` to `to` takes the pointer, in layout coordinates: nowhere when it is
      locked; to the end when the region contains it; else to the nearest point of the region, or back
      when the region is empty. */
  function Constrain(c: Constraint, from: Point, to: Point): Option<Point> {
    if c.locked then None
    else if Holds(c, to) then Some(to)
    else
      match Nearest(c.boxes, Minus(to, c.origin))
      case Some(n) => Some(Plus(c.origin, n))
      case None => Some(from)
  }

  /** A motion goes nowhere exactly when the pointer is locked. Confined to a region with a pixel in it the
      pointer is always in it, and constraining the motion again changes nothing; in an empty region it
      stays where it was. */
  lemma ConstrainedStaysIn(c: Constraint, from: Point, to: Point)
    requires Proper(c.boxes)
    ensures Constrain(c, from, to) == None <==> c.locked
    ensures !c.locked && c.boxes != [] ==> Holds(c, Constrain(c, from, to).value)
    ensures !c.locked && c.boxes == [] ==> Constrain(c, from, to) == Some(from)
    ensures !c.locked ==> Constrain(c, from, Constrain(c, from, to).value) == Constrain(c, from, to)
  {
    var local := Minus(to, c.origin);
    NearestIsNearest(c.boxes, local);
    forall n ensures Minus(Plus(c.origin, n), c.origin) == n {
    }
  }

  /** And no point of the region is nearer to where the motion went. */
  lemma ConstrainedIsNearest(c: Constraint, from: Point, to: Point, i: nat, q: Point)
    requires Proper(c.boxes) && !c.locked && i < |c.boxes| && Within(c.boxes[i], Minus(q, c.origin))
    ensures !Holds(c, to) ==> Distance(to, Constrain(c, from, to).value) <= Distance(to, q)
  {
    NearestIsNearest(c.boxes, Minus(to, c.origin));
    var n := Nearest(c.boxes, Minus(to, c.origin)).value;
    assert Distance(to, Plus(c.origin, n)) == Distance(Minus(to, c.origin), n) by {
      assert c.origin.x + n.x - to.x == n.x - (to.x - c.origin.x);
      assert c.origin.y + n.y - to.y == n.y - (to.y - c.origin.y);
    }
    assert Distance(to, q) == Distance(Minus(to, c.origin), Minus(q, c.origin)) by {
      assert q.x - c.origin.x - (to.x - c.origin.x) == q.x - to.x;
      assert q.y - c.origin.y - (to.y - c.origin.y) == q.y - to.y;
    }
  }
}

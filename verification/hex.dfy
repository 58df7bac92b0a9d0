/** Axial hexagon coordinates and the two grid primitives the services take
    from the hexagon library: the distance between two hexes and the ring of
    hexes at radius 1 around a centre. */
module Hex {

  /** An axial coordinate `{q, r}`; the third cube coordinate is `-q - r`. */
  datatype Coord = Coord(q: int, r: int)

  function Abs(x: int): nat {
    if x < 0 then -x else x
  }

  function Max3(a: int, b: int, c: int): int {
    if a >= b && a >= c then a else if b >= c then b else c
  }

  /** The number of steps between two hexes: half the sum of the three
      cube-coordinate differences. */
  function Distance(a: Coord, b: Coord): nat {
    (Abs(a.q - b.q) + Abs(a.r - b.r) + Abs((a.q - b.q) + (a.r - b.r))) / 2
  }

  /** The same distance as the largest of the three cube-coordinate
      differences, the form the hexagon library computes. */
  function CubeDistance(a: Coord, b: Coord): nat {
    Max3(Abs(a.q - b.q), Abs(a.r - b.r), Abs(S(a) - S(b)))
  }

  /** The third cube coordinate. */
  function S(c: Coord): int {
    -c.q - c.r
  }

  /** The halved-sum form and the largest-difference form agree everywhere. */
  lemma DistanceIsCubeDistance(a: Coord, b: Coord)
    ensures Distance(a, b) == CubeDistance(a, b)
  {
    var x, y := a.q - b.q, a.r - b.r;
    if x >= 0 && y >= 0 {
      assert Abs(x + y) == x + y;
    } else if x <= 0 && y <= 0 {
      assert Abs(x + y) == -(x + y);
    } else if x + y >= 0 {
      assert Abs(x) + Abs(y) + Abs(x + y) == 2 * Max3(Abs(x), Abs(y), Abs(x + y));
    } else {
      assert Abs(x) + Abs(y) + Abs(x + y) == 2 * Max3(Abs(x), Abs(y), Abs(x + y));
    }
  }

  /** Distance is a metric: zero exactly on equal hexes, symmetric, and it
      satisfies the triangle inequality. */
  lemma DistanceZeroIffEqual(a: Coord, b: Coord)
    ensures Distance(a, b) == 0 <==> a == b
  {
    DistanceIsCubeDistance(a, b);
  }

  lemma DistanceSymmetric(a: Coord, b: Coord)
    ensures Distance(a, b) == Distance(b, a)
  {
    DistanceIsCubeDistance(a, b);
    DistanceIsCubeDistance(b, a);
  }

  lemma TriangleInequality(a: Coord, b: Coord, c: Coord)
    ensures Distance(a, c) <= Distance(a, b) + Distance(b, c)
  {
    DistanceIsCubeDistance(a, b);
    DistanceIsCubeDistance(b, c);
    DistanceIsCubeDistance(a, c);
    CubeTriangle(a, b, c);
  }

  lemma CubeTriangle(a: Coord, b: Coord, c: Coord)
    ensures CubeDistance(a, c) <= CubeDistance(a, b) + CubeDistance(b, c)
  {
    CubeDistanceBounds(a, b);
    CubeDistanceBounds(b, c);
    CubeDistanceLeast(a, c, CubeDistance(a, b) + CubeDistance(b, c));
  }

  /** Every cube-coordinate difference lies within the cube distance. */
  lemma CubeDistanceBounds(a: Coord, b: Coord)
    ensures var d: int := CubeDistance(a, b);
      && -d <= a.q - b.q <= d && -d <= a.r - b.r <= d && -d <= S(a) - S(b) <= d
  {
  }

  /** A bound on all three cube-coordinate differences bounds the distance. */
  lemma CubeDistanceLeast(a: Coord, b: Coord, m: int)
    requires -m <= a.q - b.q <= m && -m <= a.r - b.r <= m && -m <= S(a) - S(b) <= m
    ensures CubeDistance(a, b) <= m
  {
  }

  /** The six axial unit offsets, in the order the ring around a hex is
      scanned (the scan order belongs to the hexagon library; this order is
      an assumption of the model). */
  const Directions: seq<Coord> :=
    [Coord(1, 0), Coord(1, -1), Coord(0, -1), Coord(-1, 0), Coord(-1, 1), Coord(0, 1)]

  function Add(c: Coord, d: Coord): Coord {
    Coord(c.q + d.q, c.r + d.r)
  }

  /** The ring of radius 1 around `center`, before filtering to the grid. */
  function Ring1(center: Coord): (ring: seq<Coord>)
    ensures |ring| == 6
  {
    seq(6, i requires 0 <= i < 6 => Add(center, Directions[i]))
  }

  /** A hex lies on the radius-1 ring around `center` exactly when it is one
      step away from it. */
  lemma Ring1IsUnitDistance(center: Coord, c: Coord)
    ensures c in Ring1(center) <==> Distance(center, c) == 1
  {
    var ring := Ring1(center);
    var x, y := c.q - center.q, c.r - center.r;
    if Distance(center, c) == 1 {
      DistanceIsCubeDistance(center, c);
      assert -1 <= x <= 1 && -1 <= y <= 1;
      var i :=
        if x == 1 && y == 0 then 0
        else if x == 1 && y == -1 then 1
        else if x == 0 && y == -1 then 2
        else if x == -1 && y == 0 then 3
        else if x == -1 && y == 1 then 4
        else 5;
      assert ring[i] == c;
    }
    if c in ring {
      var i :| 0 <= i < 6 && ring[i] == c;
      assert c == Add(center, Directions[i]);
    }
  }

  /** `b` is one of the six neighbours of `a`: their difference is one of
      the unit offsets. */
  predicate Adjacent(a: Coord, b: Coord) {
    var x, y := b.q - a.q, b.r - a.r;
    || (x == 1 && y == 0) || (x == 1 && y == -1) || (x == 0 && y == -1)
    || (x == -1 && y == 0) || (x == -1 && y == 1) || (x == 0 && y == 1)
  }

  /** Neighbours are exactly the hexes one step away. */
  lemma AdjacentIsUnitDistance(a: Coord, b: Coord)
    ensures Adjacent(a, b) <==> Distance(a, b) == 1
  {
    DistanceIsCubeDistance(a, b);
  }
}

/** Day 3 helpers: Manhattan distance, vector addition and the unit step of each
    wire direction letter, on points of the grid. */
module Day3 {
  import opened Wrappers

  type Point = (int, int)

  function Abs(x: int): nat
  {
    if x < 0 then -x else x
  }

  /** `dist`: the sum of the coordinate-wise absolute differences; zero exactly on
      equal points. */
  function Dist(p: Point, q: Point): (d: nat)
    ensures d == 0 <==> p == q
  {
    Abs(p.0 - q.0) + Abs(p.1 - q.1)
  }

  /** Dist is a metric: symmetric, and never more than a detour through a third point. */
  lemma DistMetric(p: Point, q: Point, r: Point)
    ensures Dist(p, q) == Dist(q, p)
    ensures Dist(p, q) <= Dist(p, r) + Dist(r, q)
  {
  }

  /** `add`: coordinate-wise sum. Adding a vector moves a point by the vector's length. */
  function Add(p: Point, v: Point): (r: Point)
    ensures Dist(r, p) == Dist(v, (0, 0))
  {
    (p.0 + v.0, p.1 + v.1)
  }

  /** Adding the same vector to two points keeps their distance. */
  lemma AddKeepsDistance(p: Point, q: Point, v: Point)
    ensures Dist(Add(p, v), Add(q, v)) == Dist(p, q)
  {
  }

  /** `get_direction`: U, D, R and L give the four unit steps; any other letter raises. */
  function GetDirection(ch: char): (r: Option<Point>)
    ensures r.Some? <==> ch in "UDRL"
    ensures r.Some? ==> Dist(r.value, (0, 0)) == 1
  {
    if ch == 'U' then Some((0, 1))
    else if ch == 'D' then Some((0, -1))
    else if ch == 'R' then Some((1, 0))
    else if ch == 'L' then Some((-1, 0))
    else None
  }

  /** Opposite letters undo each other; the four steps are distinct. */
  lemma OppositeDirections(p: Point)
    ensures Add(Add(p, GetDirection('U').value), GetDirection('D').value) == p
    ensures Add(Add(p, GetDirection('R').value), GetDirection('L').value) == p
    ensures forall c1, c2 :: c1 in "UDRL" && c2 in "UDRL" && c1 != c2 ==> GetDirection(c1) != GetDirection(c2)
  {
  }
}

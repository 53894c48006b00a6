/**
  The board of long nardy and the position record of the engine.

  A point holds +n for n white checkers and -n for n black ones. White walks
  points 23, 22, .., 0; Black walks 11, 10, .., 0, 23, .., 12.
 */
module Board {
  import opened Wrappers

  const W: int := 1
  const B: int := -1

  type Player = p: int | p == 1 || p == -1 witness 1
  type Point = i: int | 0 <= i < 24
  type Points = b: seq<int> | |b| == 24 witness seq(24, _ => 0)

  /** The dice still to play. The engine replaces an emptied tuple by `None`. */
  type Dice = d: seq<int> | |d| > 0 witness [1]

  /** A position: board, mover, dice left, checkers taken off the head this turn,
      whether the roll is a double, and the borne-off counts of each colour. */
  datatype State = State(b: Points, turn: Player, dice: Option<Dice>, h: int, rd: bool, ow: int, ob: int)

  function Abs(x: int): (r: int)
    ensures r >= 0 && (r == x || r == -x)
  {
    if x < 0 then -x else x
  }

  /** The other colour: the source's `-p`. */
  function Opp(p: Player): Player {
    if p == W then B else W
  }

  /** The sign of a point's content: 1 for White, -1 for Black, 0 for an empty point. */
  function Owner(v: int): int {
    if v > 0 then 1 else if v < 0 then -1 else 0
  }

  /** The number of checkers of `p` on a point holding `v`. */
  function NumAt(v: int, p: Player): nat {
    if Owner(v) == p then Abs(v) else 0
  }

  /** Where point `i` lies on the route of `p`: 0 is the head, 23 the last home point. */
  function PosOf(p: Player, i: Point): Point {
    if p == W then 23 - i else if i <= 11 then 11 - i else 35 - i
  }

  /** The point at position `k` of the route of `p`. */
  function PointAt(p: Player, k: Point): Point {
    if p == W then 23 - k else if k <= 11 then 11 - k else 35 - k
  }

  /** The points in the order `p` walks them. */
  function Route(p: Player): (r: seq<Point>)
    ensures |r| == 24
    ensures forall k: Point :: r[k] == PointAt(p, k)
  {
    seq(24, k requires 0 <= k < 24 => PointAt(p, k))
  }

  function Head(p: Player): Point {
    if p == W then 23 else 11
  }

  predicate InHome(p: Player, i: Point) {
    if p == W then i < 6 else 12 <= i < 18
  }

  /** The routes are the two tables of the engine; positions index them, and heads and homes
      are the listed points. */
  lemma RouteTables(i: Point)
    ensures Route(W) ==
      [23, 22, 21, 20, 19, 18, 17, 16, 15, 14, 13, 12, 11, 10, 9, 8, 7, 6, 5, 4, 3, 2, 1, 0]
    ensures Route(B) ==
      [11, 10, 9, 8, 7, 6, 5, 4, 3, 2, 1, 0, 23, 22, 21, 20, 19, 18, 17, 16, 15, 14, 13, 12]
    ensures forall p: Player, k: Point :: Route(p)[k] == i <==> PosOf(p, i) == k
    ensures Head(W) == 23 && Head(B) == 11
    ensures InHome(W, i) <==> i in [0, 1, 2, 3, 4, 5]
    ensures InHome(B, i) <==> i in [12, 13, 14, 15, 16, 17]
  {
    forall p: Player, k: Point ensures Route(p)[k] == i <==> PosOf(p, i) == k {
      RoutePositions(p, k);
      RoutePositions(p, i);
    }
  }

  /** Route and position are inverse to each other; heads come first and homes
      last on a route. */
  lemma RoutePositions(p: Player, k: Point)
    ensures PosOf(p, PointAt(p, k)) == k
    ensures PointAt(p, PosOf(p, k)) == k
    ensures k == Head(p) <==> PosOf(p, k) == 0
    ensures InHome(p, k) <==> PosOf(p, k) >= 18
  {
  }

  /** The two routes are the same circle, half a turn apart. */
  lemma OpposingPositions(p: Player, k: Point)
    ensures PosOf(Opp(p), PointAt(p, k)) == (k + 12) % 24
    ensures PosOf(Opp(p), (k + 12) % 24) == PosOf(p, k)
  {
  }

  /** The checkers of `p` at position `k` of its route. */
  function Stack(b: Points, p: Player, k: Point): nat {
    NumAt(b[PointAt(p, k)], p)
  }

  function Initial(): State {
    State(seq(24, i => if i == 23 then 15 else if i == 11 then -15 else 0), W, None, 0, false, 0, 0)
  }

  function Off(s: State, p: Player): int {
    if p == W then s.ow else s.ob
  }
}

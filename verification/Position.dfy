/**
  Checker counts and pip totals of a position, what one step does to them, and what
  one step keeps: conservation, home-stays-home, no forbidden wall, the head count.
 */
module Position {
  import opened Board
  import opened Rules
  import opened Sums
  import opened Turn

  function Checkers(b: Points, p: Player): (r: seq<int>)
    ensures |r| == 24 && forall i: Point :: r[i] == NumAt(b[i], p)
  {
    seq(24, i requires 0 <= i < 24 => NumAt(b[i], p))
  }

  /** The checkers of `p` on the board. */
  function OnBoard(b: Points, p: Player): int {
    Sum(Checkers(b, p))
  }

  /** Each checker weighed by the pips it still needs to leave the board. */
  function PipTerms(b: Points, p: Player): (r: seq<int>)
    ensures |r| == 24 && forall i: Point :: r[i] == (24 - PosOf(p, i)) * NumAt(b[i], p)
  {
    seq(24, i requires 0 <= i < 24 => (24 - PosOf(p, i)) * NumAt(b[i], p))
  }

  function PipCount(b: Points, p: Player): int {
    Sum(PipTerms(b, p))
  }

  lemma CountsNonNegative(b: Points, p: Player)
    ensures OnBoard(b, p) >= 0 && PipCount(b, p) >= 0
    ensures forall i: Point :: NumAt(b[i], p) <= OnBoard(b, p)
  {
    SumNonNegative(Checkers(b, p));
    SumNonNegative(PipTerms(b, p));
    forall i: Point ensures NumAt(b[i], p) <= OnBoard(b, p) {
      assert Checkers(b, p)[i] == NumAt(b[i], p);
    }
  }

  /** All pips are gone exactly when all checkers are. */
  lemma PipsAndCheckers(b: Points, p: Player)
    ensures OnBoard(b, p) <= PipCount(b, p) <= 24 * OnBoard(b, p)
  {
    var c, t := Checkers(b, p), PipTerms(b, p);
    forall i: Point ensures c[i] <= t[i] <= 24 * c[i] {
      PosTimes(24 - PosOf(p, i), NumAt(b[i], p));
    }
    SumMonotone(c, t);
    var u := seq(24, i requires 0 <= i < 24 => 24 * c[i]);
    SumMonotone(t, u);
    SumScale(c, u, 24);
  }

  lemma PosTimes(w: int, n: nat)
    requires 1 <= w <= 24
    ensures n <= w * n <= 24 * n
  {
  }

  /** Putting `v` on point `i` shifts both totals of `p` by the change at `i`. */
  lemma PointChange(b: Points, p: Player, i: Point, v: int)
    ensures OnBoard(b[i := v], p) == OnBoard(b, p) + NumAt(v, p) - NumAt(b[i], p)
    ensures PipCount(b[i := v], p) ==
      PipCount(b, p) + (24 - PosOf(p, i)) * NumAt(v, p) - (24 - PosOf(p, i)) * NumAt(b[i], p)
  {
    assert Checkers(b[i := v], p) == Checkers(b, p)[i := NumAt(v, p)];
    SumUpdate(Checkers(b, p), i, NumAt(v, p));
    var w := (24 - PosOf(p, i)) * NumAt(v, p);
    assert PipTerms(b[i := v], p) == PipTerms(b, p)[i := w];
    SumUpdate(PipTerms(b, p), i, w);
  }

  lemma OwnMoveTotals(b: Points, f: Point, t: Point, p: Player)
    requires f != t && Owner(b[f]) == p && Owner(b[t]) != Opp(p)
    ensures
      var c := b[f := b[f] - p][t := (Abs(b[t]) + 1) * p];
      OnBoard(c, p) == OnBoard(b, p) && PipCount(c, p) == PipCount(b, p) - MoveDistance(p, f, t)
  {
    var v, w := b[f] - p, (Abs(b[t]) + 1) * p;
    PointChange(b, p, f, v);
    PointChange(b[f := v], p, t, w);
    assert NumAt(v, p) == NumAt(b[f], p) - 1 && NumAt(w, p) == NumAt(b[t], p) + 1;
    Distribute(24 - PosOf(p, f), NumAt(b[f], p));
    Distribute(24 - PosOf(p, t), NumAt(w, p));
  }

  lemma OtherMoveTotals(b: Points, f: Point, t: Point, p: Player, q: Player)
    requires f != t && q == Opp(p) && Owner(b[f]) == p && Owner(b[t]) != q
    ensures
      var c := b[f := b[f] - p][t := (Abs(b[t]) + 1) * p];
      OnBoard(c, q) == OnBoard(b, q) && PipCount(c, q) == PipCount(b, q)
  {
    var v, w := b[f] - p, (Abs(b[t]) + 1) * p;
    PointChange(b, q, f, v);
    PointChange(b[f := v], q, t, w);
    assert NumAt(v, q) == NumAt(b[f], q) == NumAt(w, q) == NumAt(b[t], q) == 0;
  }

  lemma MoveTotals(s: State, f: Point, t: Point, p: Player)
    requires LegalMove(s, f, t)
    ensures OnBoard(Moved(s, f, t).b, p) == OnBoard(s.b, p)
    ensures PipCount(Moved(s, f, t).b, p) ==
      PipCount(s.b, p) - if p == s.turn then MoveDistance(p, f, t) else 0
  {
    if p == s.turn {
      OwnMoveTotals(s.b, f, t, p);
    } else {
      OtherMoveTotals(s.b, f, t, s.turn, p);
    }
  }

  lemma Distribute(k: int, n: int)
    ensures k * n - k * (n - 1) == k
  {
  }

  lemma BearOffTotals(s: State, f: Point, d: int, p: Player)
    requires BearsOff(s, f, d)
    ensures OnBoard(TakenOff(s, f).b, p) == OnBoard(s.b, p) - if p == s.turn then 1 else 0
    ensures PipCount(TakenOff(s, f).b, p) == PipCount(s.b, p) - if p == s.turn then 24 - PosOf(p, f) else 0
  {
    var m := s.turn;
    var v := s.b[f] - m;
    PointChange(s.b, p, f, v);
    if p == m {
      assert NumAt(v, p) == NumAt(s.b[f], p) - 1;
      Distribute(24 - PosOf(p, f), NumAt(s.b[f], p));
    } else {
      assert NumAt(v, p) == NumAt(s.b[f], p) == 0;
    }
  }

  /** Conservation: a step keeps each colour's checkers on and off the board together. */
  lemma StepConserves(s: State, x: Step, p: Player)
    requires IsStep(s, x)
    ensures OnBoard(Next(s, x).b, p) + Off(Next(s, x), p) == OnBoard(s.b, p) + Off(s, p)
    ensures Off(Next(s, x), p) == Off(s, p) + if p == s.turn && x.to == OFF then 1 else 0
  {
    if x.to == OFF {
      BearOffTotals(s, x.from, x.die, p);
    } else {
      MoveTotals(s, x.from, x.to, p);
    }
  }

  /** The pip potential: a move costs exactly its die, a bear-off at least one pip and
      at most its die; the opponent's total stays. */
  lemma StepPips(s: State, x: Step)
    requires IsStep(s, x)
    ensures x.to != OFF ==> PipCount(Next(s, x).b, s.turn) == PipCount(s.b, s.turn) - x.die
    ensures x.to == OFF ==> 1 <= PipCount(s.b, s.turn) - PipCount(Next(s, x).b, s.turn) <= x.die
    ensures PipCount(Next(s, x).b, s.turn) < PipCount(s.b, s.turn)
    ensures PipCount(Next(s, x).b, Opp(s.turn)) == PipCount(s.b, Opp(s.turn))
  {
    if x.to == OFF {
      BearOffTotals(s, x.from, x.die, s.turn);
      BearOffTotals(s, x.from, x.die, Opp(s.turn));
    } else {
      MoveTotals(s, x.from, x.to, s.turn);
      MoveTotals(s, x.from, x.to, Opp(s.turn));
    }
  }

  // ----- walls

  /** What is on the board after a step. */
  lemma NextBoard(s: State, x: Step)
    requires IsStep(s, x)
    ensures x.to == OFF ==> Next(s, x).b == s.b[x.from := s.b[x.from] - s.turn]
    ensures x.to != OFF ==> x.to != x.from && Owner(s.b[x.to]) != Opp(s.turn)
    ensures x.to != OFF ==>
      Next(s, x).b == s.b[x.from := s.b[x.from] - s.turn][x.to := (Abs(s.b[x.to]) + 1) * s.turn]
    ensures Owner(s.b[x.from]) == s.turn
  {
  }

  lemma OneMore(v: int, p: Player)
    ensures Owner((Abs(v) + 1) * p) == p
    ensures Owner(v) == p ==> Owner(v - p) == p || Owner(v - p) == 0
  {
  }

  /** A step touches its two points only, and never lands on the opponent. */
  lemma MovedPoints(s: State, x: Step, i: Point)
    requires IsStep(s, x)
    ensures i != x.from && i != x.to ==> Next(s, x).b[i] == s.b[i]
    ensures i == x.from ==> Owner(Next(s, x).b[i]) == s.turn || Owner(Next(s, x).b[i]) == 0
    ensures i == x.to ==> Owner(Next(s, x).b[i]) == s.turn && Owner(s.b[i]) != Opp(s.turn)
  {
    NextBoard(s, x);
    OneMore(s.b[i], s.turn);
  }

  /** What else changes while the turn lasts. */
  lemma NextInTurn(s: State, x: Step)
    requires IsStep(s, x) && Next(s, x).dice.Some?
    ensures Next(s, x).turn == s.turn && Next(s, x).rd == s.rd
    ensures Next(s, x).h == s.h + if x.to != OFF && x.from == Head(s.turn) then 1 else 0
    ensures Next(s, x).dice.value == Without(s.dice.value, x.die)
  {
  }

  /** Checkers that are all home stay home, whoever steps. */
  lemma StepKeepsHome(s: State, x: Step, p: Player)
    requires IsStep(s, x)
    ensures AllHome(s.b, p) ==> AllHome(Next(s, x).b, p)
  {
    if AllHome(s.b, p) {
      forall i: Point | Owner(Next(s, x).b[i]) == p ensures InHome(p, i) {
        MovedPoints(s, x, i);
        if i == x.to {
          assert InHome(p, x.from);
          StaysHome(s, x);
        }
      }
    }
  }

  /** A move from home ends at home. */
  lemma StaysHome(s: State, x: Step)
    requires IsStep(s, x) && x.to != OFF && InHome(s.turn, x.from)
    ensures InHome(s.turn, x.to)
  {
    RoutePositions(s.turn, x.from);
    RoutePositions(s.turn, x.to);
  }

  /** A step cannot put a checker behind a wall of the other player: walls of the other
      player do not change, and checkers only move forward. */
  lemma StepKeepsOtherWalls(s: State, x: Step)
    requires IsStep(s, x) && !Walled(s.b, Opp(s.turn))
    ensures !Walled(Next(s, x).b, Opp(s.turn))
  {
    var p, q, b := s.turn, Opp(s.turn), Next(s, x).b;
    if Walled(b, q) {
      var k :| Holds(b, q, k);
      var i: Point :| Traps(b, q, k, i);
      forall j: Point | k <= j < k + 6 ensures Owner(s.b[PointAt(q, j)]) == q {
        MovedPoints(s, x, PointAt(q, j));
      }
      MovedPoints(s, x, i);
      var origin: Point := if i == x.to then x.from else i;
      assert Traps(s.b, q, k, origin);
      assert Holds(s.b, q, k);
    }
  }

  /** Bearing off has no wall test and needs none: it only removes a checker. */
  lemma BearOffKeepsOwnWalls(s: State, x: Step)
    requires IsStep(s, x) && x.to == OFF && !Walled(s.b, s.turn)
    ensures !Walled(Next(s, x).b, s.turn)
  {
    var p, b := s.turn, Next(s, x).b;
    if Walled(b, p) {
      var k :| Holds(b, p, k);
      var i: Point :| Traps(b, p, k, i);
      forall j: Point | k <= j < k + 6 ensures Owner(s.b[PointAt(p, j)]) == p {
        MovedPoints(s, x, PointAt(p, j));
      }
      MovedPoints(s, x, i);
      assert Traps(s.b, p, k, i);
      assert Holds(s.b, p, k);
    }
  }

  ghost predicate NoWalls(b: Points) {
    !Walled(b, W) && !Walled(b, B)
  }

  lemma StepKeepsNoWalls(s: State, x: Step)
    requires IsStep(s, x) && NoWalls(s.b)
    ensures NoWalls(Next(s, x).b)
  {
    StepKeepsOtherWalls(s, x);
    if x.to == OFF {
      BearOffKeepsOwnWalls(s, x);
    }
  }
}

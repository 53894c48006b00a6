/**
  How a game ends: winner, kind of win, the network's outcome vector and its equity, and how
  a game opens. Only the player who has just moved can have won.
 */
module Outcome {
  import opened Wrappers
  import opened Board
  import opened Rules
  import opened Sums
  import opened Chains
  import opened Turn
  import opened Mirror
  import opened Position
  import opened Game

  function Winner(s: State): Option<Player> {
    if s.ow >= 15 then Some(W) else if s.ob >= 15 then Some(B) else None
  }

  function HomeTerms(b: Points, p: Player): (r: seq<int>)
    ensures |r| == 24 && forall i: Point :: r[i] == if InHome(p, i) then NumAt(b[i], p) else 0
  {
    seq(24, i requires 0 <= i < 24 => if InHome(p, i) then NumAt(b[i], p) else 0)
  }

  /** 0 for a game in progress, 1 for a plain win, 2 for a win against a player who bore
      nothing off, 3 if that player has not even a checker home. */
  function WinType(s: State): int {
    match Winner(s)
    case None => 0
    case Some(w) =>
      var loser := Opp(w);
      if Off(s, loser) > 0 then 1
      else if Sum(HomeTerms(s.b, loser)) == 0 then 3
      else 2
  }

  predicate NoneHome(b: Points, p: Player) {
    forall i: Point :: InHome(p, i) ==> Owner(b[i]) != p
  }

  lemma HomeSum(b: Points, p: Player)
    ensures Sum(HomeTerms(b, p)) == 0 <==> NoneHome(b, p)
  {
    var t := HomeTerms(b, p);
    SumNonNegative(t);
    if NoneHome(b, p) {
      SumScale(t, t, 0);
    } else {
      var i: Point :| InHome(p, i) && Owner(b[i]) == p;
      assert t[i] > 0;
    }
  }

  /** What the kinds of win mean for the loser. */
  lemma WinTypeMeaning(s: State, w: Player)
    requires Winner(s) == Some(w)
    ensures WinType(s) == 1 <==> Off(s, Opp(w)) > 0
    ensures WinType(s) == 3 <==> Off(s, Opp(w)) <= 0 && NoneHome(s.b, Opp(w))
    ensures 1 <= WinType(s) <= 3
  {
    HomeSum(s.b, Opp(w));
  }

  lemma AllOffWhenNoPips(s: State, p: Player)
    requires Complete(s, p)
    ensures Off(s, p) >= 15 <==> PipCount(s.b, p) == 0
    ensures Off(s, p) <= 15
  {
    PipsAndCheckers(s.b, p);
    CountsNonNegative(s.b, p);
  }

  /** A player has won exactly when no pip is left to walk. */
  lemma WonWhenNoPips(s: State)
    requires Complete(s, W) && Complete(s, B)
    ensures Winner(s) == Some(W) <==> PipCount(s.b, W) == 0
    ensures Winner(s) == Some(B) <==> PipCount(s.b, B) == 0 && PipCount(s.b, W) != 0
  {
    AllOffWhenNoPips(s, W);
    AllOffWhenNoPips(s, B);
  }

  /** Mirroring swaps the winner and keeps the kind of win. */
  lemma MirrorWin(s: State)
    requires Winner(s).Some? && (s.ow < 15 || s.ob < 15)
    ensures Winner(MirrorState(s)) == Some(Opp(Winner(s).value))
    ensures WinType(MirrorState(s)) == WinType(s)
  {
    var loser := Opp(Winner(s).value);
    MirrorNoneHome(s.b, loser);
    HomeSum(s.b, loser);
    HomeSum(MirrorPoints(s.b), Opp(loser));
  }

  lemma MirrorNoneHome(b: Points, p: Player)
    ensures NoneHome(MirrorPoints(b), Opp(p)) <==> NoneHome(b, p)
  {
    forall i: Point
      ensures InHome(Opp(p), Across(i)) <==> InHome(p, i)
      ensures Owner(MirrorPoints(b)[Across(i)]) == Opp(p) <==> Owner(b[i]) == p
      ensures Across(Across(i)) == i
    {
      AcrossFacts(p, i);
      MirrorOwner(b, p, i);
    }
    if NoneHome(b, p) {
      forall i: Point | InHome(Opp(p), i) ensures Owner(MirrorPoints(b)[i]) != Opp(p) {
        assert Across(Across(i)) == i;
        assert InHome(p, Across(i));
      }
    }
    if NoneHome(MirrorPoints(b), Opp(p)) {
      forall i: Point | InHome(p, i) ensures Owner(b[i]) != p {
        assert InHome(Opp(p), Across(i));
      }
    }
  }

  lemma WonReachable(s: State)
    requires Reachable(s) && Winner(s).Some?
    ensures PipCount(s.b, Winner(s).value) == 0
  {
    ReachableIsSane(s);
    WonWhenNoPips(s);
  }

  // ----- outcome vectors

  /** Win, win by two or more, win by three, loss by two or more, loss by three. */
  type Vector = v: seq<real> | |v| == 5 witness [0.0, 0.0, 0.0, 0.0, 0.0]

  function Equity(v: Vector): real {
    2.0 * v[0] - 1.0 + v[1] + v[2] - v[3] - v[4]
  }

  /** The same forecast for the other player. */
  function Flip(v: Vector): Vector {
    [1.0 - v[0], v[3], v[4], v[1], v[2]]
  }

  /** The exact outcome of a finished game, for `persp`. */
  function OutcomeFor(winner: Player, kind: int, persp: Player): Vector {
    var g, k := if kind >= 2 then 1.0 else 0.0, if kind == 3 then 1.0 else 0.0;
    if winner == persp then [1.0, g, k, 0.0, 0.0] else [0.0, 0.0, 0.0, g, k]
  }

  /** Flipping is an involution, negates the equity, and turns a finished game's outcome
      for one player into the other's; the equity of an outcome is the points won. */
  lemma OutcomeLaws(v: Vector, winner: Player, kind: int, persp: Player)
    requires 1 <= kind <= 3
    ensures Flip(Flip(v)) == v && Equity(Flip(v)) == -Equity(v)
    ensures Flip(OutcomeFor(winner, kind, persp)) == OutcomeFor(winner, kind, Opp(persp))
    ensures Equity(OutcomeFor(winner, kind, persp)) == if winner == persp then kind as real else -(kind as real)
  {
  }

  /** The entries of an outcome: who won, whether by two points or more, whether by three. */
  lemma OutcomeMeaning(winner: Player, kind: int)
    requires 1 <= kind <= 3
    ensures
      var v, w := OutcomeFor(winner, kind, winner), OutcomeFor(winner, kind, Opp(winner));
      && v[0] == 1.0 && w[0] == 0.0
      && v[1] == w[3] == (if kind == 1 then 0.0 else 1.0) && v[2] == w[4] == (if kind == 3 then 1.0 else 0.0)
      && v[3] == v[4] == w[1] == w[2] == 0.0
  {
  }

  /** The equity of a forecast is the expected number of points: one, two or three with the
      chances that the forecast gives to exactly these wins, minus the same for losses. */
  lemma EquityIsExpectedPoints(v: Vector)
    ensures Equity(v) ==
      1.0 * (v[0] - v[1]) + 2.0 * (v[1] - v[2]) + 3.0 * v[2]
      - (1.0 * ((1.0 - v[0]) - v[3]) + 2.0 * (v[3] - v[4]) + 3.0 * v[4])
  {
  }

  // ----- the game

  /** How a game opens: the larger die moves and both are played; each colour has all
      fifteen checkers on its own head. */
  lemma OpeningMeaning(a: int, c: int, p: Player)
    requires a != c
    ensures
      var s := Opening(a, c);
      && (s.turn == W <==> a > c) && DiceLeft(s) == multiset{a, c} && !s.rd && s.h == 0
      && Off(s, p) == 0 && NumAt(s.b[Head(p)], p) == 15 && OnBoard(s.b, p) == 15
  {
    OpeningCounts(p);
  }

  lemma OpeningReachable(a: int, c: int)
    requires 1 <= a <= 6 && 1 <= c <= 6 && a != c
    ensures Reachable(Opening(a, c)) && Opening(a, c).dice.Some? && Winner(Opening(a, c)).None?
  {
    assert GameRun(a, c, []) && Final(Opening(a, c), []) == Opening(a, c);
  }

  /** `t` stands in the turn of `s`, and the other player has borne nothing off meanwhile. */
  predicate OpponentStands(s: State, t: State) {
    DuringTurn(s, t) && Off(t, Opp(s.turn)) == Off(s, Opp(s.turn))
  }

  lemma StepKeepsOpponent(s: State, t: State, x: Step)
    requires OpponentStands(s, t) && IsStep(t, x)
    ensures OpponentStands(s, Next(t, x))
  {
    StepsAre(t);
    EachStepSpendsADie(t, x);
    StepConserves(t, x, Opp(s.turn));
  }

  lemma OpponentStandsAtEnd(s: State, n: nat, e: State)
    requires s.dice.Some? && e in EndsAfter(NARDY, s, n)
    ensures e.turn == Opp(s.turn) && Off(e, Opp(s.turn)) == Off(s, Opp(s.turn))
  {
    EndShape(s, n, e);
    var keep := t => OpponentStands(s, t);
    forall t, x | keep(t) && x in NARDY.steps(t) ensures keep(NARDY.next(t, x)) {
      StepsAre(t);
      StepKeepsOpponent(s, t, x);
    }
    var last := EndsKeep(NARDY, keep, s, n, e);
  }

  /** A turn of the mover cannot make the other player win. */
  lemma OnlyMoverWins(s: State, e: State)
    requires s.dice.Some? && e in ObligedEnds(s) && Winner(s).None?
    ensures e.turn == Opp(s.turn)
    ensures Winner(e).None? || Winner(e) == Some(s.turn)
  {
    ObligedEndsExist(s);
    OpponentStandsAtEnd(s, Longest(NARDY, s), e);
  }
}

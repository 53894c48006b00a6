/**
  What the easy bot's score means on the board: what it rewards and what it punishes, what
  single steps change, and its value at the start.
 */
module Scoring {
  import opened Board
  import opened Rules
  import opened Sums
  import opened Turn
  import opened Position
  import opened Game
  import opened Outcome
  import opened EasyBot

  // ----- the parts of the score

  /** The points that hold two or more checkers of `p`. */
  function MadePoints(b: Points, p: Player): set<int> {
    set i: int | 0 <= i < 24 && NumAt(b[i], p) >= 2
  }

  /** The checkers beyond two on each point. */
  function Surplus(b: Points, p: Player): (r: seq<int>)
    ensures |r| == 24 && forall i: Point :: r[i] == if NumAt(b[i], p) > 2 then NumAt(b[i], p) - 2 else 0
  {
    seq(24, i requires 0 <= i < 24 => if NumAt(b[i], p) > 2 then NumAt(b[i], p) - 2 else 0)
  }

  /** A run of `r` made points that ends at a position brings 20 r squared there, if `r` is at
      least two. */
  function RunBonus(b: Points, p: Player): (r: seq<int>)
    ensures |r| == 24
    ensures forall k: Point :: r[k] == var n := RunLength(b, p, k); if n >= 2 then 20 * (n * n) else 0
  {
    seq(24, k requires 0 <= k < 24 => var n := RunLength(b, p, k); if n >= 2 then 20 * (n * n) else 0)
  }

  /** The length of a run: that many positions up to `k` hold two or more checkers, and the one
      before them does not. */
  lemma {:induction false} RunMeaning(b: Points, p: Player, k: Point)
    ensures
      var n := RunLength(b, p, k);
      && 0 <= n <= k + 1
      && (forall j: Point :: k - n < j <= k ==> Stack(b, p, j) >= 2)
      && (forall j: Point :: j == k - n ==> Stack(b, p, j) < 2)
  {
    if Stack(b, p, k) >= 2 && k > 0 {
      RunMeaning(b, p, k - 1);
    }
  }

  // ----- the score as a whole

  /** A board quantity summed along the route is the same summed point by point. */
  lemma RouteSum(xs: seq<int>, ys: seq<int>, p: Player)
    requires |xs| == |ys| == 24 && forall k: Point :: ys[k] == xs[PointAt(p, k)]
    ensures Sum(ys) == Sum(xs)
  {
    if p == W {
      SumReverse(xs, ys);
    } else {
      var turned := xs[12..] + xs[..12];
      SumRotate(xs, 12);
      forall k: Point ensures ys[k] == turned[23 - k] {
      }
      SumReverse(turned, ys);
    }
  }

  /** A board quantity in the order of the route. */
  function AlongRoute(xs: seq<int>, p: Player): (r: seq<int>)
    requires |xs| == 24
    ensures |r| == 24 && forall k: Point :: r[k] == xs[PointAt(p, k)]
  {
    seq(24, k requires 0 <= k < 24 => xs[PointAt(p, k)])
  }

  /** One for each made point. */
  function MadeTerms(b: Points, p: Player): (r: seq<int>)
    ensures |r| == 24 && forall i: Point :: r[i] == if NumAt(b[i], p) >= 2 then 1 else 0
  {
    seq(24, i requires 0 <= i < 24 => if NumAt(b[i], p) >= 2 then 1 else 0)
  }

  /** What one position contributes to the score. */
  lemma TermParts(b: Points, p: Player, k: Point)
    ensures Term(b, p, k) ==
      - 3 * AlongRoute(PipTerms(b, p), p)[k] + 60 * AlongRoute(MadeTerms(b, p), p)[k]
      - 35 * AlongRoute(Surplus(b, p), p)[k] + 15 * AlongRoute(HomeTerms(b, p), p)[k] + RunBonus(b, p)[k]
  {
    RoutePositions(p, k);
    RoutePositions(p, PointAt(p, k));
  }

  lemma {:induction false} TermsParts(b: Points, p: Player, k: nat)
    requires k <= 24
    ensures Terms(b, p, k) ==
      - 3 * Sum(AlongRoute(PipTerms(b, p), p)[..k]) + 60 * Sum(AlongRoute(MadeTerms(b, p), p)[..k])
      - 35 * Sum(AlongRoute(Surplus(b, p), p)[..k]) + 15 * Sum(AlongRoute(HomeTerms(b, p), p)[..k])
      + Sum(RunBonus(b, p)[..k])
  {
    if k > 0 {
      TermsParts(b, p, k - 1);
      TermParts(b, p, k - 1);
      SumNext(AlongRoute(PipTerms(b, p), p), k - 1);
      SumNext(AlongRoute(MadeTerms(b, p), p), k - 1);
      SumNext(AlongRoute(Surplus(b, p), p), k - 1);
      SumNext(AlongRoute(HomeTerms(b, p), p), k - 1);
      SumNext(RunBonus(b, p), k - 1);
    }
  }

  lemma MadeCount(b: Points, p: Player)
    ensures Sum(MadeTerms(b, p)) == |MadePoints(b, p)|
  {
    var xs := MadeTerms(b, p);
    SumCounts(xs, 24);
    assert xs[..24] == xs;
    assert Ones(xs, 24) == MadePoints(b, p);
  }

  lemma WholeRoute(xs: seq<int>, p: Player)
    requires |xs| == 24
    ensures Sum(AlongRoute(xs, p)[..24]) == Sum(xs)
  {
    RouteSum(xs, AlongRoute(xs, p), p);
    assert AlongRoute(xs, p)[..24] == AlongRoute(xs, p);
  }

  /** The score: 1000 for each checker borne off, minus three for each pip still to walk, 60 for
      each made point, minus 35 for each checker beyond two on a point, 15 for each checker at
      home, and the bonus for runs of made points. */
  lemma ScoreMeaning(s: State, p: Player)
    ensures Score(s, p) ==
      1000 * Off(s, p) - 3 * PipCount(s.b, p) + 60 * |MadePoints(s.b, p)|
      - 35 * Sum(Surplus(s.b, p)) + 15 * Sum(HomeTerms(s.b, p)) + Sum(RunBonus(s.b, p))
  {
    TermsParts(s.b, p, 24);
    WholeRoute(PipTerms(s.b, p), p);
    WholeRoute(MadeTerms(s.b, p), p);
    WholeRoute(Surplus(s.b, p), p);
    WholeRoute(HomeTerms(s.b, p), p);
    MadeCount(s.b, p);
    assert RunBonus(s.b, p)[..24] == RunBonus(s.b, p);
  }

  // ----- what a step changes

  /** The same points are made on both boards. */
  predicate SameMade(b: Points, c: Points, p: Player) {
    forall i: Point :: NumAt(b[i], p) >= 2 <==> NumAt(c[i], p) >= 2
  }

  lemma {:induction false} SameRun(b: Points, c: Points, p: Player, k: Point)
    requires SameMade(b, c, p)
    ensures RunLength(b, p, k) == RunLength(c, p, k)
  {
    if k > 0 {
      SameRun(b, c, p, k - 1);
    }
  }

  lemma SameShape(b: Points, c: Points, p: Player)
    requires SameMade(b, c, p)
    ensures MadePoints(b, p) == MadePoints(c, p) && RunBonus(b, p) == RunBonus(c, p)
  {
    forall k: Point ensures RunLength(b, p, k) == RunLength(c, p, k) {
      SameRun(b, c, p, k);
    }
    assert RunBonus(b, p) == RunBonus(c, p);
  }

  /** The step moves or bears off a checker that stands alone, to a free point if any. */
  predicate Alone(s: State, x: Step) {
    && NumAt(s.b[x.from], s.turn) == 1
    && (0 <= x.to < 24 ==> NumAt(s.b[x.to], s.turn) == 0)
  }

  lemma LonePoint(s: State, x: Step, i: Point)
    requires IsStep(s, x) && Alone(s, x)
    ensures
      var m, n := NumAt(s.b[i], s.turn), NumAt(Next(s, x).b[i], s.turn);
      m == n || (m <= 1 && n <= 1)
  {
    NextBoard(s, x);
  }

  /** Such a step makes and breaks no point. */
  lemma LoneStepShape(s: State, x: Step)
    requires IsStep(s, x) && Alone(s, x)
    ensures SameMade(s.b, Next(s, x).b, s.turn) && Surplus(Next(s, x).b, s.turn) == Surplus(s.b, s.turn)
  {
    var b, c, p := s.b, Next(s, x).b, s.turn;
    NextBoard(s, x);
    forall i: Point ensures NumAt(c[i], p) == NumAt(b[i], p) || (NumAt(c[i], p) <= 1 && NumAt(b[i], p) <= 1) {
      LonePoint(s, x, i);
    }
    assert Surplus(c, p) == Surplus(b, p);
  }

  lemma HomeAfterMove(s: State, x: Step)
    requires IsStep(s, x) && x.to != OFF && !InHome(s.turn, x.to)
    ensures HomeTerms(Next(s, x).b, s.turn) == HomeTerms(s.b, s.turn)
  {
    var b, c, p := s.b, Next(s, x).b, s.turn;
    NextBoard(s, x);
    RoutePositions(p, x.from);
    RoutePositions(p, x.to);
    forall i: Point | InHome(p, i) ensures NumAt(c[i], p) == NumAt(b[i], p) {
    }
    assert HomeTerms(c, p) == HomeTerms(b, p);
  }

  /** Walking a lone checker by a die, outside the home and to a free point, is worth three
      for each pip. */
  lemma LoneMoveScore(s: State, x: Step)
    requires IsStep(s, x) && Alone(s, x) && x.to != OFF && !InHome(s.turn, x.to)
    ensures Score(Next(s, x), s.turn) == Score(s, s.turn) + 3 * x.die
  {
    ScoreMeaning(s, s.turn);
    ScoreMeaning(Next(s, x), s.turn);
    LoneStepShape(s, x);
    SameShape(s.b, Next(s, x).b, s.turn);
    HomeAfterMove(s, x);
    StepPips(s, x);
    StepConserves(s, x, s.turn);
  }

  lemma HomeAfterBearOff(s: State, x: Step)
    requires IsStep(s, x) && x.to == OFF
    ensures Sum(HomeTerms(Next(s, x).b, s.turn)) == Sum(HomeTerms(s.b, s.turn)) - 1
  {
    NextBoard(s, x);
    HomeOneLess(s.b, s.turn, x.from);
  }

  lemma HomeOneLess(b: Points, p: Player, i: Point)
    requires Owner(b[i]) == p && InHome(p, i)
    ensures Sum(HomeTerms(b[i := b[i] - p], p)) == Sum(HomeTerms(b, p)) - 1
  {
    var n := NumAt(b[i], p) - 1;
    assert NumAt(b[i] - p, p) == n;
    assert HomeTerms(b[i := b[i] - p], p) == HomeTerms(b, p)[i := n];
    SumUpdate(HomeTerms(b, p), i, n);
  }

  lemma PipsAfterBearOff(s: State, x: Step)
    requires IsStep(s, x) && x.to == OFF
    ensures PipCount(Next(s, x).b, s.turn) == PipCount(s.b, s.turn) - (24 - PosOf(s.turn, x.from))
  {
    BearOffTotals(s, x.from, x.die, s.turn);
  }

  /** Bearing a lone checker off is worth 1000 and three for each pip it had to go, less the 15
      it had for being home. */
  lemma LoneBearOffScore(s: State, x: Step)
    requires IsStep(s, x) && Alone(s, x) && x.to == OFF
    ensures Score(Next(s, x), s.turn) == Score(s, s.turn) + 1000 + 3 * (24 - PosOf(s.turn, x.from)) - 15
  {
    ScoreMeaning(s, s.turn);
    ScoreMeaning(Next(s, x), s.turn);
    LoneStepShape(s, x);
    SameShape(s.b, Next(s, x).b, s.turn);
    HomeAfterBearOff(s, x);
    PipsAfterBearOff(s, x);
    StepConserves(s, x, s.turn);
  }

  // ----- the start

  lemma OnlyTerm(xs: seq<int>, i: Point)
    requires |xs| == 24 && forall j: Point :: j != i ==> xs[j] == 0
    ensures Sum(xs) == xs[i]
  {
    var z := seq(24, _ => 0);
    SumScale(z, z, 0);
    assert xs == z[i := xs[i]];
    SumUpdate(z, i, xs[i]);
  }

  lemma NoTerms(xs: seq<int>)
    requires |xs| == 24 && forall j: Point :: xs[j] == 0
    ensures Sum(xs) == 0
  {
    OnlyTerm(xs, 0);
  }

  lemma StartRuns(p: Player, k: Point)
    ensures RunLength(Initial().b, p, k) <= 1
  {
    OpeningOwner(p, k);
    if k > 0 {
      OpeningOwner(p, k - 1);
    }
  }

  lemma StartPoint(p: Player, i: Point)
    ensures NumAt(Initial().b[i], p) == if i == Head(p) then 15 else 0
  {
  }

  lemma StartSurplus(p: Player)
    ensures Sum(Surplus(Initial().b, p)) == 13 && Sum(HomeTerms(Initial().b, p)) == 0
  {
    var xs, hs := Surplus(Initial().b, p), HomeTerms(Initial().b, p);
    forall i: Point ensures xs[i] == (if i == Head(p) then 13 else 0) && hs[i] == 0 {
      StartPoint(p, i);
    }
    OnlyTerm(xs, Head(p));
    NoTerms(hs);
  }

  lemma StartBonus(p: Player)
    ensures Sum(RunBonus(Initial().b, p)) == 0
  {
    var xs := RunBonus(Initial().b, p);
    forall k: Point ensures xs[k] == 0 {
      StartRuns(p, k);
    }
    NoTerms(xs);
  }

  lemma StartMade(p: Player)
    ensures MadePoints(Initial().b, p) == {Head(p)}
  {
    forall i: Point ensures i in MadePoints(Initial().b, p) <==> i == Head(p) {
      StartPoint(p, i);
    }
  }

  /** At the start both colours score -1475: 360 pips, one made point, thirteen surplus
      checkers on it. */
  lemma StartScore(p: Player)
    ensures Score(Initial(), p) == -1475
  {
    ScoreMeaning(Initial(), p);
    OpeningCounts(p);
    StartSurplus(p);
    StartBonus(p);
    StartMade(p);
  }
}

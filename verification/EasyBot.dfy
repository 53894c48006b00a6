/**
  The easy bot: it analyses the turn anew after every single step and takes the step with
  the best score. Although it never plans a whole turn, it always completes a legal one.
 */
module EasyBot {
  import opened Board
  import opened Rules
  import opened Chains
  import opened Turn
  import opened Search
  import opened Mirror

  // ----- the score

  /** How many consecutive positions ending at `k` hold two or more checkers of `p`. */
  function RunLength(b: Points, p: Player, k: Point): nat {
    if Stack(b, p, k) < 2 then 0 else if k == 0 then 1 else 1 + RunLength(b, p, k - 1)
  }

  /** What position `k` contributes: pips left, made points, chains, tall stacks, home. */
  function Term(b: Points, p: Player, k: Point): int {
    var n := Stack(b, p, k);
    var r := RunLength(b, p, k);
    - 3 * ((24 - k) * n)
    + (if n >= 2 then 60 - 35 * (n - 2) else 0)
    + (if r >= 2 then r * r * 20 else 0)
    + (if k >= 18 then 15 * n else 0)
  }

  function Terms(b: Points, p: Player, k: int): int
    requires 0 <= k <= 24
  {
    if k == 0 then 0 else Terms(b, p, k - 1) + Term(b, p, k - 1)
  }

  function Score(s: State, p: Player): int {
    Off(s, p) * 1000 + Terms(s.b, p, 24)
  }

  /** The scoring loop, walking the route of `p`. */
  method EvaluateState(s: State, p: Player) returns (r: int)
    ensures r == Score(s, p)
  {
    var score := Off(s, p) * 1000;
    var pip, chain, occupied, overstack, inHome := 0, 0, 0, 0, 0;
    var route := Route(p);
    for k := 0 to 24
      invariant chain == if k == 0 then 0 else RunLength(s.b, p, k - 1)
      invariant score - pip * 3 + occupied * 60 - overstack * 35 + inHome * 15 == Off(s, p) * 1000 + Terms(s.b, p, k)
    {
      RoutePositions(p, k);
      var idx := route[k];
      var v := s.b[idx];
      if Owner(v) == p {
        var n := Abs(v);
        pip := pip + (24 - PosOf(p, idx)) * n;
        if InHome(p, idx) {
          inHome := inHome + n;
        }
        if n >= 2 {
          occupied := occupied + 1;
          overstack := overstack + (n - 2);
          chain := chain + 1;
          if chain >= 2 {
            score := score + chain * chain * 20;
          }
        } else {
          chain := 0;
        }
      } else {
        chain := 0;
      }
    }
    r := score - pip * 3 + occupied * 60 - overstack * 35 + inHome * 15;
  }

  lemma {:induction false} MirrorRunLength(b: Points, p: Player, k: Point)
    ensures RunLength(MirrorPoints(b), Opp(p), k) == RunLength(b, p, k)
  {
    MirrorStack(b, p, k);
    if k > 0 {
      MirrorRunLength(b, p, k - 1);
    }
  }

  lemma {:induction false} MirrorTerms(b: Points, p: Player, k: int)
    requires 0 <= k <= 24
    ensures Terms(MirrorPoints(b), Opp(p), k) == Terms(b, p, k)
  {
    if k > 0 {
      MirrorTerms(b, p, k - 1);
      MirrorStack(b, p, k - 1);
      MirrorRunLength(b, p, k - 1);
    }
  }

  /** The score does not depend on the colour. */
  lemma MirrorScore(s: State, p: Player)
    ensures Score(MirrorState(s), Opp(p)) == Score(s, p)
  {
    MirrorTerms(s.b, p, 24);
  }

  // ----- one step at a time

  /** Moves in the order of their points, bearing off last from each point. */
  predicate PairBefore(a: (Point, int), c: (Point, int)) {
    a.0 < c.0 || (a.0 == c.0 && Rank(a.1) < Rank(c.1))
  }

  /** The steps a turn may start with, in order. */
  method OrderedSteps(s: State) returns (list: seq<(Point, int)>)
    ensures forall a :: a in list <==> a in Pairs(ObligedSteps(s))
    ensures forall i, j :: 0 <= i < j < |list| ==> PairBefore(list[i], list[j])
  {
    var mx, steps, fins := TurnAnalysis(s);
    list := SortPairs(steps);
    ObligedAreSteps(s);
    forall a | a in Pairs(ObligedSteps(s)) ensures a in list {
      var x :| x in ObligedSteps(s) && a == (x.from, x.to);
    }
  }

  /** `sorted` by origin and then target. */
  method SortPairs(steps: set<(Point, int)>) returns (list: seq<(Point, int)>)
    ensures forall a :: a in list <==> a in steps && OFF <= a.1 < 24
    ensures forall i, j :: 0 <= i < j < |list| ==> PairBefore(list[i], list[j])
  {
    list := [];
    for f := 0 to 24
      invariant forall a :: a in list <==> a in steps && OFF <= a.1 < 24 && a.0 < f
      invariant forall i, j :: 0 <= i < j < |list| ==> PairBefore(list[i], list[j])
    {
      for t := 0 to 24
        invariant forall a :: a in list <==>
          a in steps && OFF <= a.1 < 24 && (a.0 < f || (a.0 == f && 0 <= a.1 < t))
        invariant forall i, j :: 0 <= i < j < |list| ==> PairBefore(list[i], list[j])
      {
        if (f, t) in steps {
          list := list + [(f, t)];
        }
      }
      if (f, OFF) in steps {
        list := list + [(f, OFF)];
      }
    }
  }

  lemma ObligedAreSteps(s: State)
    ensures forall x :: x in ObligedSteps(s) ==> x in Steps(s) && IsStep(s, x) && OFF <= x.to < 24
  {
    StepsAre(s);
  }

  /** The obliged step the bot takes: best score for the mover, the first one on ties. */
  ghost predicate Favourite(s: State, x: Step) {
    && x in ObligedSteps(s)
    && forall y :: y in ObligedSteps(s) && y != x ==> Better(s, x, y)
  }

  ghost predicate Better(s: State, x: Step, y: Step) {
    var v, w := Score(Next(s, x), s.turn), Score(Next(s, y), s.turn);
    v > w || (v == w && PairBefore((x.from, x.to), (y.from, y.to)))
  }

  lemma BetterMeaning(s: State, x: Step, y: Step)
    requires OFF <= x.to < 24 && OFF <= y.to < 24
    ensures
      var v, w := Score(Next(s, x), s.turn), Score(Next(s, y), s.turn);
      Better(s, x, y) <==>
        || w < v
        || (w == v && (x.from < y.from || (x.from == y.from && x.to != OFF && (y.to == OFF || x.to < y.to))))
  {
  }

  /** The favourite in plain words: no step leads to a better score, and of those that lead to
      an equal one it comes first by origin, then by target, bearing off last. */
  lemma FavouriteMeaning(s: State, x: Step)
    ensures Favourite(s, x) <==>
      && x in ObligedSteps(s)
      && (forall y :: y in ObligedSteps(s) ==> Score(Next(s, y), s.turn) <= Score(Next(s, x), s.turn))
      && (forall y :: y in ObligedSteps(s) && y != x && Score(Next(s, y), s.turn) == Score(Next(s, x), s.turn) ==>
            || x.from < y.from
            || (x.from == y.from && x.to != OFF && (y.to == OFF || x.to < y.to)))
  {
    ObligedAreSteps(s);
    if x in ObligedSteps(s) {
      forall y | y in ObligedSteps(s) && y != x
        ensures Better(s, x, y) <==>
          || Score(Next(s, y), s.turn) < Score(Next(s, x), s.turn)
          || (Score(Next(s, y), s.turn) == Score(Next(s, x), s.turn)
              && (x.from < y.from || (x.from == y.from && x.to != OFF && (y.to == OFF || x.to < y.to))))
      {
        BetterMeaning(s, x, y);
      }
    }
  }

  /** Where favourite steps lead, one after another. */
  ghost function GreedyTurn(s: State): State
    decreases DiceCount(s)
  {
    if exists x :: Favourite(s, x) then
      var x :| Favourite(s, x);
      EachStepSpendsADie(s, x);
      GreedyTurn(Next(s, x))
    else Settle(s)
  }

  lemma FavouriteIsUnique(s: State, x: Step, y: Step)
    requires Favourite(s, x) && Favourite(s, y)
    ensures x == y
  {
  }

  /** After an obliged step, every way to complete the rest of the turn completes the
      whole turn: re-analysing in the middle loses no die and breaks no rule. */
  lemma ObligedStepStaysOnTurn(s: State, x: Step)
    requires x in ObligedSteps(s)
    ensures Next(s, x).dice.None? ==> Next(s, x) in ObligedEnds(s)
    ensures Next(s, x).dice.Some? ==> ObligedEnds(Next(s, x)) <= ObligedEnds(s)
  {
    var n := NARDY.next(s, x);
    var m := Longest(NARDY, s) - 1;
    NardyBounded();
    NoStepsNoDice(s);
    assert x in BestSteps(NARDY, s);
    assert EndsFrom(NARDY, s, x, m) == LongestEnds(NARDY, n);
    ViaContains(NARDY, s, ObligedSteps(s), x, m);
    if n.dice.None? {
      SettledEnds(n);
    } else {
      ObligedEndsExist(n);
    }
  }

  /** Where a candidate leads, and its score for the mover. */
  ghost function Trial(s: State, a: (Point, int)): (State, int) {
    var n := Next(s, StepOf(s, a));
    (n, Score(n, s.turn))
  }

  ghost predicate AreTrials(s: State, steps: seq<(Point, int)>, trials: seq<(State, int)>) {
    && |trials| == |steps|
    && forall j {:trigger Trial(s, steps[j])} :: 0 <= j < |steps| ==> trials[j] == Trial(s, steps[j])
  }

  /** `k` is the first of the first `n` trials with the largest score. */
  ghost predicate FirstBest(trials: seq<(State, int)>, n: int, k: int) {
    && 0 <= k < n <= |trials|
    && (forall j :: 0 <= j < n ==> trials[j].1 <= trials[k].1)
    && (forall j :: 0 <= j < k ==> trials[j].1 < trials[k].1)
  }

  lemma FirstBestNext(trials: seq<(State, int)>, n: int, k: int)
    requires FirstBest(trials, n, k) && n < |trials|
    ensures FirstBest(trials, n + 1, if trials[n].1 > trials[k].1 then n else k)
  {
  }

  method TryStep(s: State, steps: seq<(Point, int)>, i: nat, ghost trials: seq<(State, int)>)
    returns (n: State, sc: int)
    requires i < |steps| && steps[i] in Pairs(ObligedSteps(s)) && AreTrials(s, steps, trials)
    ensures (n, sc) == trials[i]
  {
    n := StepTo(s, steps[i]);
    sc := EvaluateState(n, s.turn);
    assert trials[i] == Trial(s, steps[i]);
  }

  /** The loop over the candidate steps keeps the first one with the best score. */
  method BestCandidate(s: State, steps: seq<(Point, int)>, ghost trials: seq<(State, int)>)
    returns (best: State, ghost k: nat)
    requires steps != [] && forall a :: a in steps ==> a in Pairs(ObligedSteps(s))
    requires AreTrials(s, steps, trials)
    ensures FirstBest(trials, |trials|, k) && best == trials[k].0
  {
    var bestScore;
    k := 0;
    best, bestScore := TryStep(s, steps, 0, trials);
    for i := 1 to |steps|
      invariant k < i && (best, bestScore) == trials[k]
      invariant FirstBest(trials, i, k)
    {
      var n, sc := TryStep(s, steps, i, trials);
      FirstBestNext(trials, i, k);
      if sc > bestScore {
        best, bestScore := n, sc;
        k := i;
      }
    }
  }

  lemma FirstBestIsFavourite(s: State, steps: seq<(Point, int)>, trials: seq<(State, int)>, k: nat)
    requires forall a :: a in steps <==> a in Pairs(ObligedSteps(s))
    requires forall i, j :: 0 <= i < j < |steps| ==> PairBefore(steps[i], steps[j])
    requires AreTrials(s, steps, trials) && FirstBest(trials, |trials|, k)
    ensures Favourite(s, StepOf(s, steps[k])) && trials[k].0 == Next(s, StepOf(s, steps[k]))
  {
    PairHasStep(s, steps[k]);
    var x := StepOf(s, steps[k]);
    assert trials[k] == Trial(s, steps[k]);
    forall y | y in ObligedSteps(s) && y != x ensures Better(s, x, y) {
      assert (y.from, y.to) in Pairs(ObligedSteps(s));
      var j :| 0 <= j < |steps| && steps[j] == (y.from, y.to);
      StepOfPair(s, y);
      assert trials[j] == Trial(s, steps[j]);
    }
  }

  lemma PairHasStep(s: State, a: (Point, int))
    requires a in Pairs(ObligedSteps(s))
    ensures StepOf(s, a) in ObligedSteps(s) && (StepOf(s, a).from, StepOf(s, a).to) == a
  {
    var y :| y in ObligedSteps(s) && (y.from, y.to) == a;
  }

  /** The raw step with the given points. */
  ghost function StepOf(s: State, a: (Point, int)): Step {
    if exists x :: x in ObligedSteps(s) && (x.from, x.to) == a then
      var x :| x in ObligedSteps(s) && (x.from, x.to) == a; x
    else Step(a.0, a.1, 0)
  }

  lemma StepOfPair(s: State, y: Step)
    requires y in ObligedSteps(s)
    ensures StepOf(s, (y.from, y.to)) == y
  {
    ObligedAreSteps(s);
    forall x | x in ObligedSteps(s) && (x.from, x.to) == (y.from, y.to) ensures x == y {
      StepDie(s, x, y);
    }
  }

  /** Plays a candidate: the die follows from the points. */
  method StepTo(s: State, a: (Point, int)) returns (n: State)
    requires a in Pairs(ObligedSteps(s))
    ensures n == Next(s, StepOf(s, a))
  {
    ObligedAreSteps(s);
    PairHasStep(s, a);
    ghost var x := StepOf(s, a);
    var d := 0;
    if a.1 >= 0 {
      d := MoveDistance(s.turn, a.0, a.1);
    } else {
      var bd := BearDie(s, a.0);
      d := bd.value;
    }
    n := DoStep(s, Step(a.0, a.1, d));
    StepDie(s, x, Step(a.0, a.1, d));
  }

  /** With no obliged step left the turn is burnt. */
  lemma StuckIsBurnt(s: State)
    requires s.dice.Some? && Pairs(ObligedSteps(s)) == {}
    ensures ObligedEnds(s) == {Burn(s)} && GreedyTurn(s) == Burn(s)
  {
    forall x ensures x !in ObligedSteps(s) {
      assert x in ObligedSteps(s) ==> (x.from, x.to) in Pairs(ObligedSteps(s));
    }
    NoStepsNoDice(s);
    if Steps(s) != {} {
      ObligedStepsExist(s);
    }
  }

  lemma NoFavourite(s: State)
    requires s.dice.None?
    ensures GreedyTurn(s) == s
  {
    ObligedAreSteps(s);
  }

  lemma TakesFavourite(s: State, x: Step)
    requires Favourite(s, x)
    ensures GreedyTurn(s) == GreedyTurn(Next(s, x))
    ensures DiceCount(Next(s, x)) < DiceCount(s)
    ensures Next(s, x).dice.None? ==> Next(s, x) in ObligedEnds(s)
    ensures Next(s, x).dice.Some? ==> ObligedEnds(Next(s, x)) <= ObligedEnds(s) && Next(s, x).turn == s.turn
  {
    EachStepSpendsADie(s, x);
    ObligedStepStaysOnTurn(s, x);
    forall y | Favourite(s, y) ensures y == x {
      FavouriteIsUnique(s, x, y);
    }
  }

  lemma BetterTotal(s: State, x: Step, y: Step)
    requires x in ObligedSteps(s) && y in ObligedSteps(s) && x != y
    ensures Better(s, x, y) || Better(s, y, x)
  {
    ObligedAreSteps(s);
    if x.from == y.from && x.to == y.to {
      StepDie(s, x, y);
    }
  }

  lemma BetterTransitive(s: State, x: Step, y: Step, z: Step)
    requires Better(s, x, y) && Better(s, y, z)
    ensures Better(s, x, z)
  {
  }

  lemma {:induction false} BestOf(s: State, xs: set<Step>) returns (x: Step)
    requires xs != {} && xs <= ObligedSteps(s)
    ensures x in xs && forall y :: y in xs && y != x ==> Better(s, x, y)
    decreases |xs|
  {
    x :| x in xs;
    var rest := xs - {x};
    assert forall y :: y in xs && y != x ==> y in rest;
    if rest != {} {
      var best := BestOf(s, rest);
      BetterTotal(s, x, best);
      if Better(s, x, best) {
        forall y | y in rest && y != best ensures Better(s, x, y) {
          BetterTransitive(s, x, best, y);
        }
      } else {
        x := best;
      }
    }
  }

  /** Greedy play obeys the global rule, exactly when there are dice to play: without them
      it leaves the position alone, which is never the end of a turn. */
  lemma {:induction false} GreedyCompletes(s: State)
    ensures GreedyTurn(s) in ObligedEnds(s) <==> s.dice.Some?
    ensures s.dice.None? ==> GreedyTurn(s) == s
    decreases DiceCount(s)
  {
    if s.dice.None? {
      NoFavourite(s);
      NoStepsNoDice(s);
    } else if ObligedSteps(s) == {} {
      StuckIsBurnt(s);
    } else {
      var x := BestOf(s, ObligedSteps(s));
      TakesFavourite(s, x);
      GreedyCompletes(Next(s, x));
    }
  }

  /** A whole turn of the easy bot. */
  method EasyTurn(s0: State) returns (r: State)
    ensures r == GreedyTurn(s0)
    ensures r in ObligedEnds(s0) <==> s0.dice.Some?
  {
    var s := s0;
    var me := s.turn;
    while s.turn == me && s.dice.Some?
      invariant GreedyTurn(s) == GreedyTurn(s0)
      invariant s.dice.Some? ==> s.turn == me
      decreases DiceCount(s)
    {
      var steps := OrderedSteps(s);
      if steps == [] {
        StuckIsBurnt(s);
        GreedyCompletes(s0);
        return Burn(s);
      }
      s := TakeBest(s, steps);
      if s.dice.Some? {
        var more := OrderedSteps(s);
        if more == [] {
          StuckIsBurnt(s);
          s := Burn(s);
          NoFavourite(s);
        }
      }
    }
    NoFavourite(s);
    GreedyCompletes(s0);
    r := s;
  }

  /** One round of the bot's loop: the best of the candidate steps is taken. */
  method TakeBest(s: State, steps: seq<(Point, int)>) returns (t: State)
    requires s.dice.Some? && steps != [] && forall a :: a in steps <==> a in Pairs(ObligedSteps(s))
    requires forall i, j :: 0 <= i < j < |steps| ==> PairBefore(steps[i], steps[j])
    ensures GreedyTurn(t) == GreedyTurn(s) && DiceCount(t) < DiceCount(s) && (t.dice.Some? ==> t.turn == s.turn)
  {
    ghost var trials := seq(|steps|, j requires 0 <= j < |steps| => Trial(s, steps[j]));
    var best, k := BestCandidate(s, steps, trials);
    FirstBestIsFavourite(s, steps, trials, k);
    TakesFavourite(s, StepOf(s, steps[k]));
    t := best;
  }
}

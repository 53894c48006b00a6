/**
  What a full turn is. A chain plays raw steps one after another; a full turn is a
  longest chain, and when only one of two different dice can be played it plays the
  larger one.
 */
module Turn {
  import opened Board
  import opened Rules
  import opened Chains

  ghost function Steps(s: State): set<Step> {
    if s.dice.None? then {} else
    set f: Point, t: int, d: int | OFF <= t < 24 && d in s.dice.value && IsStep(s, Step(f, t, d)) :: Step(f, t, d)
  }

  lemma StepsAre(s: State)
    ensures forall x :: x in Steps(s) <==> IsStep(s, x)
  {
  }

  ghost function Next(s: State, x: Step): State {
    if IsStep(s, x) then DoStep(s, x) else s
  }

  /** Where a turn stands when no further step is made: remaining dice are burnt. */
  function Settle(s: State): State {
    if s.dice.None? then s else Burn(s)
  }

  function DiceCount(s: State): nat {
    if s.dice.None? then 0 else |s.dice.value|
  }

  /** The raw steps of the game as a step system. */
  ghost const NARDY: System<State, Step> := System(Steps, Next, Settle, DiceCount)

  lemma EachStepSpendsADie(s: State, x: Step)
    requires x in Steps(s)
    ensures DiceCount(Next(s, x)) + 1 == DiceCount(s)
    ensures Next(s, x).rd == s.rd
    ensures Next(s, x).dice.None? ==> Next(s, x).turn == Opp(s.turn) && Next(s, x).h == 0
    ensures Next(s, x).dice.Some? ==> Next(s, x).turn == s.turn
  {
  }

  lemma NardyBounded()
    ensures Bounded(NARDY)
  {
    forall s, x | x in NARDY.steps(s) ensures NARDY.bound(NARDY.next(s, x)) < NARDY.bound(s) {
      EachStepSpendsADie(s, x);
    }
  }

  function Larger(d: Dice): (r: int)
    requires |d| == 2
    ensures r in d && forall x :: x in d ==> x <= r
  {
    if d[0] > d[1] then d[0] else d[1]
  }

  predicate TwoDifferentDice(s: State) {
    s.dice.Some? && |s.dice.value| == 2 && s.dice.value[0] != s.dice.value[1]
  }

  /** Only one of two different dice can be played, and the larger one is playable. */
  ghost predicate LargerDieRule(s: State) {
    && Longest(NARDY, s) == 1 && TwoDifferentDice(s)
    && exists x :: x in Steps(s) && x.die == Larger(s.dice.value)
  }

  /** The steps a turn may start with. */
  ghost function ObligedSteps(s: State): set<Step> {
    if LargerDieRule(s) then set x | x in BestSteps(NARDY, s) && x.die == Larger(s.dice.value)
    else BestSteps(NARDY, s)
  }

  /** The positions a turn may end in. Without any step the turn is burnt. */
  ghost function ObligedEnds(s: State): set<State> {
    if Longest(NARDY, s) == 0 then {Burn(s)} else EndsVia(NARDY, s, ObligedSteps(s), Longest(NARDY, s) - 1)
  }

  /** A full turn by the rules, stated on chains alone: as many dice as possible; and where
      only one of two different dice can be played, one as large as any that can. */
  ghost predicate FullTurn(s: State, path: seq<Step>) {
    && PlaysMost(NARDY, s, path)
    && (|path| == 1 && s.dice.Some? && |s.dice.value| == 2 && s.dice.value[0] != s.dice.value[1] ==>
          forall q: seq<Step> :: Chain(NARDY, s, q) && |q| == 1 ==> q[0].die <= path[0].die)
  }

  lemma NoStepsNoDice(s: State)
    ensures Longest(NARDY, s) == 0 <==> Steps(s) == {}
  {
    NardyBounded();
    LongestZero(NARDY, s);
    assert NARDY.steps(s) == Steps(s);
  }

  lemma ObligedStepsExist(s: State)
    requires Steps(s) != {}
    ensures ObligedSteps(s) != {} && ObligedSteps(s) <= BestSteps(NARDY, s)
  {
    NardyBounded();
    LongestZero(NARDY, s);
    assert NARDY.steps(s) == Steps(s);
    if LargerDieRule(s) {
      var x :| x in Steps(s) && x.die == Larger(s.dice.value);
      LongestStep(NARDY, s, x);
      assert x in ObligedSteps(s);
    }
  }

  /** A turn can always be completed, and it plays as many dice as possible. */
  lemma ObligedEndsExist(s: State)
    ensures ObligedEnds(s) != {}
    ensures s.dice.Some? ==> ObligedEnds(s) <= LongestEnds(NARDY, s)
  {
    NardyBounded();
    NoStepsNoDice(s);
    if Steps(s) != {} {
      ObligedStepsExist(s);
      BestStepsReachEnds(NARDY, s, ObligedSteps(s));
    }
  }

  /** `t` is a position of the turn that started in `s`, or its end. */
  predicate DuringTurn(s: State, t: State) {
    && t.rd == s.rd
    && (if t.dice.None? then t.turn == Opp(s.turn) && t.h == 0 else t.turn == s.turn)
  }

  /** After a turn with dice: no dice, the other player to move, nothing counted off
      the head, and the double flag kept. */
  lemma EndShape(s: State, n: nat, e: State)
    requires s.dice.Some? && e in EndsAfter(NARDY, s, n)
    ensures e.dice.None? && e.turn == Opp(s.turn) && e.h == 0 && e.rd == s.rd
  {
    var keep := t => DuringTurn(s, t);
    forall t, x | keep(t) && x in NARDY.steps(t) ensures keep(NARDY.next(t, x)) {
      EachStepSpendsADie(t, x);
    }
    var last := EndsKeep(NARDY, keep, s, n, e);
  }

  lemma ChainOfOne(s: State, q: seq<Step>)
    requires |q| == 1
    ensures Chain(NARDY, s, q) <==> q[0] in Steps(s)
  {
    assert q == [q[0]] + [];
    if q[0] in Steps(s) {
      ChainCons(NARDY, s, q[0], []);
    }
  }

  /** A step plays one of the dice. */
  lemma StepPlaysADie(s: State, x: Step)
    requires x in Steps(s)
    ensures s.dice.Some? && x.die in s.dice.value
  {
  }

  lemma OnlyOneSmaller(d: Dice, a: int, c: int)
    requires |d| == 2 && a in d && c in d && a != Larger(d) && c != Larger(d)
    ensures a == c
  {
  }

  /** Playing the larger die wherever it can be played is playing as large a die as can be. */
  lemma LargestDie(s: State, x: Step)
    requires Longest(NARDY, s) == 1 && TwoDifferentDice(s) && x in Steps(s)
    ensures (LargerDieRule(s) ==> x.die == Larger(s.dice.value)) <==> forall y :: y in Steps(s) ==> y.die <= x.die
  {
    var d := s.dice.value;
    forall y | y in Steps(s)
      ensures y.die <= Larger(d)
      ensures x.die != Larger(d) && y.die != Larger(d) ==> y.die == x.die
    {
      StepPlaysADie(s, x);
      StepPlaysADie(s, y);
      if x.die != Larger(d) && y.die != Larger(d) {
        OnlyOneSmaller(d, x.die, y.die);
      }
    }
  }

  lemma LargestOnChains(s: State, die: int)
    ensures (forall y :: y in Steps(s) ==> y.die <= die) <==>
      forall q: seq<Step> :: Chain(NARDY, s, q) && |q| == 1 ==> q[0].die <= die
  {
    forall q: seq<Step> | |q| == 1 ensures Chain(NARDY, s, q) <==> q[0] in Steps(s) {
      ChainOfOne(s, q);
    }
    if y :| y in Steps(s) && y.die > die {
      ChainOfOne(s, [y]);
      assert [y][0].die > die;
    }
  }

  /** Where only one of two different dice can be played, no step of the position plays a
      larger die than a step that the turn may start with. */
  lemma ObligedStepsPlayLargest(s: State, x: Step, y: Step)
    requires Longest(NARDY, s) == 1 && x in ObligedSteps(s) && y in Steps(s)
    requires s.dice.Some? && |s.dice.value| == 2 && s.dice.value[0] != s.dice.value[1]
    ensures y.die <= x.die
  {
    ObligedStepsExist(s);
    LargestDie(s, x);
  }

  /** Among the best steps the larger-die rule keeps those with as large a die as any. */
  lemma ObligedByDie(s: State, x: Step)
    requires Longest(NARDY, s) == 1 && TwoDifferentDice(s) && x in BestSteps(NARDY, s)
    ensures x in ObligedSteps(s) <==> forall q: seq<Step> :: Chain(NARDY, s, q) && |q| == 1 ==> q[0].die <= x.die
  {
    LargestDie(s, x);
    LargestOnChains(s, x.die);
  }

  /** A full turn is a longest chain that starts with an obliged step. */
  lemma FullTurnStart(s: State, path: seq<Step>)
    ensures FullTurn(s, path) <==> PlaysMost(NARDY, s, path) && (path != [] ==> path[0] in ObligedSteps(s))
  {
    NardyBounded();
    LongestMeaning(NARDY, s, path);
    if path != [] && PlaysMost(NARDY, s, path) {
      BestStepsMeaning(NARDY, s, path[0]);
      if |path| == 1 && TwoDifferentDice(s) {
        ObligedByDie(s, path[0]);
      }
    }
  }

  /** The obliged steps are exactly the first steps of full turns. */
  lemma ObligedStepsMeaning(s: State, x: Step)
    ensures x in ObligedSteps(s) <==> exists path :: FullTurn(s, path) && path != [] && path[0] == x
  {
    NardyBounded();
    BestStepsMeaning(NARDY, s, x);
    if x in ObligedSteps(s) {
      var path :| PlaysMost(NARDY, s, path) && path != [] && path[0] == x;
      FullTurnStart(s, path);
    }
    if path :| FullTurn(s, path) && path != [] && path[0] == x {
      FullTurnStart(s, path);
    }
  }

  lemma BurntTurnMeaning(s: State, path: seq<Step>)
    requires Longest(NARDY, s) == 0
    ensures FullTurn(s, path) <==> path == []
  {
    NardyBounded();
    LongestMeaning(NARDY, s, path);
    FullTurnStart(s, path);
  }

  lemma PlayedTurnMeaning(s: State, path: seq<Step>)
    requires Longest(NARDY, s) > 0
    ensures FullTurn(s, path) <==> PlaysMost(NARDY, s, path) && path != [] && path[0] in ObligedSteps(s)
  {
    NardyBounded();
    LongestMeaning(NARDY, s, path);
    FullTurnStart(s, path);
  }

  /** Some full turn settles in `e`. */
  ghost predicate EndsATurn(s: State, e: State) {
    exists path :: FullTurn(s, path) && Settle(Played(NARDY, s, path)) == e
  }

  lemma BurntEndMeaning(s: State, e: State)
    requires s.dice.Some? && Longest(NARDY, s) == 0
    ensures e in ObligedEnds(s) <==> EndsATurn(s, e)
  {
    BurntTurnMeaning(s, []);
    assert Settle(Played(NARDY, s, [])) == Burn(s);
    forall path | FullTurn(s, path) ensures path == [] {
      BurntTurnMeaning(s, path);
    }
  }

  lemma PlayedEndIsObliged(s: State, path: seq<Step>)
    requires Longest(NARDY, s) > 0 && FullTurn(s, path)
    ensures Settle(Played(NARDY, s, path)) in ObligedEnds(s)
  {
    NardyBounded();
    NoStepsNoDice(s);
    PlayedTurnMeaning(s, path);
    EndsViaMeaning(NARDY, s, ObligedSteps(s), Settle(Played(NARDY, s, path)));
  }

  lemma ObligedEndIsPlayed(s: State, e: State) returns (path: seq<Step>)
    requires Longest(NARDY, s) > 0 && e in ObligedEnds(s)
    ensures FullTurn(s, path) && Settle(Played(NARDY, s, path)) == e
  {
    NardyBounded();
    NoStepsNoDice(s);
    EndsViaMeaning(NARDY, s, ObligedSteps(s), e);
    path :| PlaysMost(NARDY, s, path) && path != [] && path[0] in ObligedSteps(s)
      && NARDY.settle(Played(NARDY, s, path)) == e;
    PlayedTurnMeaning(s, path);
  }

  /** The obliged ends are exactly the settled positions after full turns. */
  lemma ObligedEndsMeaning(s: State, e: State)
    requires s.dice.Some?
    ensures e in ObligedEnds(s) <==> EndsATurn(s, e)
  {
    if Longest(NARDY, s) == 0 {
      BurntEndMeaning(s, e);
    } else if e in ObligedEnds(s) {
      var path := ObligedEndIsPlayed(s, e);
    } else if EndsATurn(s, e) {
      var path :| FullTurn(s, path) && Settle(Played(NARDY, s, path)) == e;
      PlayedEndIsObliged(s, path);
    }
  }
}

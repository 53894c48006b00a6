/**
  Whole games. A run is a sequence of raw steps, burnt turns and throws from an opening;
  everything the players do in `play_game` is such a run. What holds in every reachable
  position is proved step by step and then along runs.
 */
module Game {
  import opened Wrappers
  import opened Board
  import opened Rules
  import opened Sums
  import opened Chains
  import opened Turn
  import opened Position

  function Opening(a: int, c: int): State {
    Initial().(dice := Some([a, c]), turn := if a > c then W else B, rd := false)
  }

  datatype Event = Play(x: Step) | Pass | Throw(a: int, c: int)

  ghost predicate Enabled(s: State, e: Event) {
    match e
    case Play(x) => IsStep(s, x)
    case Pass => s.dice.Some?
    case Throw(a, c) => s.dice.None? && 1 <= a <= 6 && 1 <= c <= 6
  }

  ghost function After(s: State, e: Event): State {
    match e
    case Play(x) => Next(s, x)
    case Pass => Burn(s)
    case Throw(a, c) => Roll(s, a, c)
  }

  ghost predicate Run(s: State, evs: seq<Event>) {
    evs == [] ||
    var n := |evs| - 1;
    Run(s, evs[..n]) && Enabled(Final(s, evs[..n]), evs[n])
  }

  ghost function Final(s: State, evs: seq<Event>): State {
    if evs == [] then s else After(Final(s, evs[..|evs| - 1]), evs[|evs| - 1])
  }

  lemma RunSnoc(s: State, evs: seq<Event>, e: Event)
    requires Run(s, evs) && Enabled(Final(s, evs), e)
    ensures Run(s, evs + [e]) && Final(s, evs + [e]) == After(Final(s, evs), e)
  {
    assert (evs + [e])[..|evs|] == evs;
  }

  /** `evs` is a run from the opening thrown with `a` and `c`. */
  ghost predicate GameRun(a: int, c: int, evs: seq<Event>) {
    1 <= a <= 6 && 1 <= c <= 6 && a != c && Run(Opening(a, c), evs)
  }

  ghost predicate Reachable(s: State) {
    exists a: int, c: int, evs :: GameRun(a, c, evs) && Final(Opening(a, c), evs) == s
  }

  lemma ReachableAfter(s: State, e: Event)
    requires Reachable(s) && Enabled(s, e)
    ensures Reachable(After(s, e))
  {
    var a: int, c: int, evs :| GameRun(a, c, evs) && Final(Opening(a, c), evs) == s;
    RunSnoc(Opening(a, c), evs, e);
    assert GameRun(a, c, evs + [e]);
  }

  /** Every way to complete a turn is a run. */
  lemma ReachableTurn(s: State, e: State)
    requires Reachable(s) && s.dice.Some? && e in ObligedEnds(s)
    ensures Reachable(e)
  {
    var keep := t => Reachable(t);
    forall t, x | keep(t) && x in NARDY.steps(t) ensures keep(NARDY.next(t, x)) {
      StepsAre(t);
      ReachableAfter(t, Play(x));
    }
    ObligedEndsExist(s);
    var last := EndsKeep(NARDY, keep, s, Longest(NARDY, s), e);
    if last.dice.Some? {
      ReachableAfter(last, Pass);
    }
  }

  // ----- invariants of every reachable position

  predicate AllEqual(d: Dice) {
    forall x :: x in d ==> x == d[0]
  }

  /** The dice in play are dice, and a double is four, or fewer, equal ones. */
  predicate DiceInOrder(s: State) {
    && s.h >= 0
    && (s.dice.None? ==> s.h == 0)
    && (s.dice.Some? ==>
        && |s.dice.value| <= 4
        && (forall x :: x in s.dice.value ==> 1 <= x <= 6)
        && (s.rd ==> AllEqual(s.dice.value)))
  }

  /** Fifteen checkers of each colour; after the first one is off the rest are home. */
  ghost predicate Complete(s: State, p: Player) {
    && OnBoard(s.b, p) + Off(s, p) == 15
    && Off(s, p) >= 0
    && (Off(s, p) > 0 ==> AllHome(s.b, p))
  }

  ghost predicate Sane(s: State) {
    NoWalls(s.b) && Complete(s, W) && Complete(s, B) && DiceInOrder(s)
  }

  lemma StepKeepsComplete(s: State, x: Step, p: Player)
    requires IsStep(s, x) && Complete(s, p)
    ensures Complete(Next(s, x), p)
  {
    StepConserves(s, x, p);
    StepKeepsHome(s, x, p);
  }

  lemma StepKeepsDice(s: State, x: Step)
    requires IsStep(s, x) && DiceInOrder(s)
    ensures DiceInOrder(Next(s, x))
  {
    var left := Without(s.dice.value, x.die);
    assert forall y :: y in left ==> y in s.dice.value;
    assert left != [] ==> left[0] in left;
  }

  lemma AfterIsSane(s: State, e: Event)
    requires Sane(s) && Enabled(s, e)
    ensures Sane(After(s, e))
  {
    match e
    case Play(x) =>
      StepKeepsNoWalls(s, x);
      StepKeepsComplete(s, x, W);
      StepKeepsComplete(s, x, B);
      StepKeepsDice(s, x);
    case Pass =>
    case Throw(a, c) =>
  }

  /** A colour whose checkers all stand on one point. */
  lemma OnePoint(b: Points, p: Player, i: Point)
    requires forall j: Point :: j != i ==> NumAt(b[j], p) == 0
    ensures OnBoard(b, p) == NumAt(b[i], p)
    ensures PipCount(b, p) == (24 - PosOf(p, i)) * NumAt(b[i], p)
  {
    var c := Checkers(b, p);
    var z := seq(24, _ => 0);
    SumScale(z, z, 0);
    assert c == z[i := c[i]];
    SumUpdate(z, i, c[i]);
    var t := PipTerms(b, p);
    assert t == z[i := t[i]] by {
      forall j: Point | j != i ensures t[j] == 0 {
        assert NumAt(b[j], p) == 0;
      }
    }
    SumUpdate(z, i, t[i]);
  }

  /** Only the head of `p` carries its checkers at the start. */
  lemma OpeningOwner(p: Player, j: Point)
    ensures Owner(Initial().b[PointAt(p, j)]) == p <==> j == 0
  {
  }

  lemma SixWallSecond(b: Points, p: Player, k: int)
    requires SixWall(b, p, k)
    ensures Owner(b[PointAt(p, k + 1)]) == p
  {
  }

  lemma OpeningHasNoWalls(a: int, c: int)
    ensures NoWalls(Opening(a, c).b)
  {
    forall p: Player, k ensures !SixWall(Initial().b, p, k) {
      if SixWall(Initial().b, p, k) {
        SixWallSecond(Initial().b, p, k);
        OpeningOwner(p, k + 1);
      }
    }
  }

  lemma OpeningCounts(p: Player)
    ensures OnBoard(Initial().b, p) == 15 && PipCount(Initial().b, p) == 360
  {
    OnePoint(Initial().b, p, Head(p));
  }

  lemma OpeningDice(a: int, c: int)
    requires 1 <= a <= 6 && 1 <= c <= 6 && a != c
    ensures DiceInOrder(Opening(a, c)) && Opening(a, c).b == Initial().b
    ensures Off(Opening(a, c), W) == Off(Opening(a, c), B) == 0
  {
  }

  lemma OpeningIsSane(a: int, c: int)
    requires 1 <= a <= 6 && 1 <= c <= 6 && a != c
    ensures Sane(Opening(a, c))
    ensures forall p: Player :: PipCount(Opening(a, c).b, p) == 360
  {
    OpeningHasNoWalls(a, c);
    OpeningDice(a, c);
    OpeningCounts(W);
    OpeningCounts(B);
  }

  lemma {:induction false} RunIsSane(s: State, evs: seq<Event>)
    requires Sane(s) && Run(s, evs)
    ensures Sane(Final(s, evs))
  {
    if evs != [] {
      var n := |evs| - 1;
      RunIsSane(s, evs[..n]);
      AfterIsSane(Final(s, evs[..n]), evs[n]);
    }
  }

  /** In every reachable position: no forbidden wall of either colour, fifteen checkers
      of each, bearing players all home, dice in order. */
  lemma ReachableIsSane(s: State)
    requires Reachable(s)
    ensures Sane(s)
  {
    var a: int, c: int, evs :| GameRun(a, c, evs) && Final(Opening(a, c), evs) == s;
    OpeningIsSane(a, c);
    RunIsSane(Opening(a, c), evs);
  }

  // ----- pips bound the number of steps

  /** The steps of `p` in a run from `s`. */
  ghost function StepsBy(s: State, evs: seq<Event>, p: Player): nat {
    if evs == [] then 0
    else
      var n := |evs| - 1;
      StepsBy(s, evs[..n], p) + if evs[n].Play? && Final(s, evs[..n]).turn == p then 1 else 0
  }

  /** The events of a run that are steps. */
  function StepEvents(evs: seq<Event>): (r: set<int>)
    ensures forall i :: i in r <==> 0 <= i < |evs| && evs[i].Play?
  {
    set i | 0 <= i < |evs| && evs[i].Play?
  }

  /** Every step of a run is made by one of the players. */
  lemma {:induction false} StepsAddUp(s: State, evs: seq<Event>)
    ensures StepsBy(s, evs, W) + StepsBy(s, evs, B) == |StepEvents(evs)|
  {
    if evs == [] {
      assert StepEvents(evs) == {};
    } else {
      var n := |evs| - 1;
      StepsAddUp(s, evs[..n]);
      StepEventsNext(evs);
    }
  }

  lemma StepEventsNext(evs: seq<Event>)
    requires evs != []
    ensures
      var n := |evs| - 1;
      |StepEvents(evs)| == |StepEvents(evs[..n])| + if evs[n].Play? then 1 else 0
  {
    var n := |evs| - 1;
    assert StepEvents(evs) == StepEvents(evs[..n]) + if evs[n].Play? then {n} else {};
  }

  lemma {:induction false} StepsCostPips(s: State, evs: seq<Event>, p: Player)
    requires Run(s, evs)
    ensures StepsBy(s, evs, p) + PipCount(Final(s, evs).b, p) <= PipCount(s.b, p)
  {
    if evs != [] {
      var n := |evs| - 1;
      StepsCostPips(s, evs[..n], p);
      if evs[n].Play? {
        StepPips(Final(s, evs[..n]), evs[n].x);
      }
    }
  }

  /** No player makes more than 360 steps in a game, whatever is thrown; and what has been
      walked and what is left add up to at most the 360 pips of the opening. */
  lemma GameStepsBounded(a: int, c: int, evs: seq<Event>, p: Player)
    requires GameRun(a, c, evs)
    ensures StepsBy(Opening(a, c), evs, p) + PipCount(Final(Opening(a, c), evs).b, p) <= 360
    ensures StepsBy(Opening(a, c), evs, p) <= 360
  {
    OpeningIsSane(a, c);
    StepsCostPips(Opening(a, c), evs, p);
    CountsNonNegative(Final(Opening(a, c), evs).b, p);
  }

  // ----- the dice of a turn

  function DiceLeft(s: State): multiset<int> {
    if s.dice.None? then multiset{} else multiset(s.dice.value)
  }

  function DiceSpent(path: seq<Step>): multiset<int> {
    if path == [] then multiset{} else multiset{path[0].die} + DiceSpent(path[1..])
  }

  lemma StepSpends(s: State, x: Step)
    requires IsStep(s, x)
    ensures DiceLeft(s) == multiset{x.die} + DiceLeft(Next(s, x))
  {
    assert x.die in multiset(s.dice.value);
  }

  /** The dice spent along a chain and the dice left make up the dice it began with. */
  lemma {:induction false} DiceConserved(s: State, path: seq<Step>)
    requires Chain(NARDY, s, path)
    ensures DiceSpent(path) + DiceLeft(Played(NARDY, s, path)) == DiceLeft(s)
    decreases |path|
  {
    if path != [] {
      StepsAre(s);
      StepSpends(s, path[0]);
      DiceConserved(NARDY.next(s, path[0]), path[1..]);
    }
  }

  /** What a turn plays and what it leaves is what was thrown: each die once, or a double
      four times. */
  lemma TurnPlaysTheThrow(s: State, a: int, c: int, path: seq<Step>)
    requires Chain(NARDY, Roll(s, a, c), path)
    ensures DiceSpent(path) + DiceLeft(Played(NARDY, Roll(s, a, c), path)) ==
      if a == c then multiset{a, a, a, a} else multiset{a, c}
  {
    DiceConserved(Roll(s, a, c), path);
    RollMeaning(s, a, c);
  }

  // ----- the head

  /** The steps of a chain that take a checker off the head of `p`. */
  function HeadLeaves(p: Player, path: seq<Step>): nat {
    if path == [] then 0
    else (if path[0].from == Head(p) && path[0].to != OFF then 1 else 0) + HeadLeaves(p, path[1..])
  }

  /** Within a turn, checkers on the head plus checkers taken off it stay the same, and so
      does the number that may leave. */
  lemma HeadConstant(s: State, x: Step)
    requires IsStep(s, x) && (s.rd ==> AllEqual(s.dice.value))
    ensures x.to == OFF ==> x.from != Head(s.turn)
    ensures
      var n := Next(s, x);
      n.dice.Some? ==>
        && Abs(n.b[Head(s.turn)]) + n.h == Abs(s.b[Head(s.turn)]) + s.h
        && n.h == s.h + (if x.from == Head(s.turn) then 1 else 0)
        && (n.rd ==> AllEqual(n.dice.value))
        && HeadLimit(n, s.turn) == HeadLimit(s, s.turn)
  {
    var p := s.turn;
    HeadIsLast(s, x);
    if Next(s, x).dice.Some? {
      NextInTurn(s, x);
      NextBoard(s, x);
      assert Next(s, x).dice.value[0] in s.dice.value;
    }
  }

  /** No step ends on the mover's own head, and none bears a checker off it. */
  lemma HeadIsLast(s: State, x: Step)
    requires IsStep(s, x)
    ensures x.to != Head(s.turn)
    ensures x.to == OFF ==> x.from != Head(s.turn)
  {
    RoutePositions(s.turn, x.from);
    if x.to != OFF {
      RoutePositions(s.turn, x.to);
    }
  }

  lemma NoDiceNoChain(s: State, path: seq<Step>)
    requires s.dice.None? && Chain(NARDY, s, path)
    ensures path == []
  {
  }

  lemma {:induction false} HeadChain(s: State, path: seq<Step>)
    requires Chain(NARDY, s, path)
    requires s.dice.Some? && (s.rd ==> AllEqual(s.dice.value))
    ensures HeadLeaves(s.turn, path) > 0 ==> s.h + HeadLeaves(s.turn, path) <= HeadLimit(s, s.turn)
    decreases |path|
  {
    if path != [] {
      StepsAre(s);
      var n := NARDY.next(s, path[0]);
      HeadConstant(s, path[0]);
      if n.dice.None? {
        NoDiceNoChain(n, path[1..]);
      } else {
        HeadChain(n, path[1..]);
      }
    }
  }

  /** Over a whole turn of a game at most one checker leaves the head, or two when the turn
      began with all fifteen there and a double 3, 4 or 6. */
  lemma HeadRule(s: State, path: seq<Step>)
    requires Sane(s) && s.dice.Some? && s.h == 0 && Chain(NARDY, s, path)
    ensures HeadLeaves(s.turn, path) <=
      if s.rd && s.dice.value[0] in {3, 4, 6} && NumAt(s.b[Head(s.turn)], s.turn) == 15 then 2 else 1
  {
    HeadChain(s, path);
    if HeadLeaves(s.turn, path) > 0 && Owner(s.b[Head(s.turn)]) != s.turn {
      NoHeadNoLeaving(s, path);
    }
  }

  lemma {:induction false} NoHeadNoLeaving(s: State, path: seq<Step>)
    requires Chain(NARDY, s, path) && s.dice.Some?
    requires Owner(s.b[Head(s.turn)]) != s.turn
    ensures HeadLeaves(s.turn, path) == 0
    decreases |path|
  {
    if path != [] {
      StepsAre(s);
      var n := NARDY.next(s, path[0]);
      HeadIsLast(s, path[0]);
      NextBoard(s, path[0]);
      if n.dice.None? {
        NoDiceNoChain(n, path[1..]);
      } else {
        NextInTurn(s, path[0]);
        NoHeadNoLeaving(n, path[1..]);
      }
    }
  }

  // ----- when two checkers leave the head

  /** White has checkers on the head and on position `d` of its route only. */
  lemma TwoPointsNoWall(b: Points, d: int)
    requires forall j: Point :: Owner(b[PointAt(W, j)]) == W ==> j == 0 || j == d
    ensures !Walled(b, W)
  {
    forall k, i: Point ensures !Traps(b, W, k, i) {
      if SixWall(b, W, k) {
        SixWallPoint(b, W, k, if k + 1 != d then k + 1 else k + 2);
      }
    }
  }

  lemma SixWallPoint(b: Points, p: Player, k: int, j: int)
    requires SixWall(b, p, k) && k <= j < k + 6
    ensures Owner(b[PointAt(p, j)]) == p
  {
  }

  /** The board after `n` White checkers have gone from the head by `d`. */
  function HeadMoved(d: int, n: int): (b: Points)
    requires d in [3, 4, 6] && 0 <= n <= 2
  {
    seq(24, i => if i == 23 then 15 - n else if i == 23 - d then n else if i == 11 then -15 else 0)
  }

  lemma HeadMovedStep(s: State, d: int, n: int)
    requires d in [3, 4, 6] && 0 <= n < 2
    requires s.b == HeadMoved(d, n) && s.turn == W && s.rd && s.h == n
    requires s.dice.Some? && |s.dice.value| == 4 - n && forall x :: x in s.dice.value ==> x == d
    ensures IsStep(s, Step(23, 23 - d, d))
    ensures
      var t := Next(s, Step(23, 23 - d, d));
      && t.b == HeadMoved(d, n + 1) && t.turn == W && t.rd && t.h == n + 1
      && t.dice.Some? && |t.dice.value| == 4 - n - 1 && forall x :: x in t.dice.value ==> x == d
  {
    assert s.dice.value[0] in s.dice.value;
    assert Moved(s, 23, 23 - d).b == HeadMoved(d, n + 1);
    forall j: Point ensures Owner(HeadMoved(d, n + 1)[PointAt(W, j)]) == W ==> j == 0 || j == d {
      RoutePositions(W, j);
    }
    TwoPointsNoWall(HeadMoved(d, n + 1), d);
    LegalMoveMeaning(s, 23, 23 - d);
    assert PosOf(W, 23 - d) == PosOf(W, 23) + d;
  }

  lemma TwiceChain(s: State, x: Step)
    requires IsStep(s, x) && IsStep(Next(s, x), x)
    ensures Chain(NARDY, s, [x] + [x])
  {
    var t := Next(s, x);
    StepsAre(s);
    StepsAre(t);
    ChainOfOne(t, [x]);
    ChainCons(NARDY, s, x, [x]);
  }

  lemma TwiceLeaves(p: Player, x: Step)
    requires x.from == Head(p) && x.to != OFF
    ensures HeadLeaves(p, [x] + [x]) == 2
  {
    assert HeadLeaves(p, [x]) == 1 by {
      assert [x][1..] == [];
    }
    assert ([x] + [x])[1..] == [x];
  }

  lemma TwoLeave(d: int) returns (path: seq<Step>)
    requires d in [3, 4, 6]
    ensures Chain(NARDY, Roll(Initial(), d, d), path) && HeadLeaves(W, path) == 2
  {
    var s, x := Roll(Initial(), d, d), Step(23, 23 - d, d);
    assert s.b == HeadMoved(d, 0);
    HeadMovedStep(s, d, 0);
    HeadMovedStep(Next(s, x), d, 1);
    TwiceChain(s, x);
    TwiceLeaves(W, x);
    path := [x] + [x];
  }

  lemma InitialIsSane()
    ensures Sane(Initial())
  {
    OpeningDice(1, 2);
    OpeningHasNoWalls(1, 2);
    OpeningCounts(W);
    OpeningCounts(B);
  }

  lemma StartIsSane(d: int)
    requires 1 <= d <= 6
    ensures Sane(Roll(Initial(), d, d))
  {
    InitialIsSane();
    AfterIsSane(Initial(), Throw(d, d));
  }

  /** From the full head exactly the doubles 3, 4 and 6 let two checkers leave in one turn, and
      no throw lets more. */
  lemma TwoLeaveExactly(d: int)
    requires 1 <= d <= 6
    ensures (exists path :: Chain(NARDY, Roll(Initial(), d, d), path) && HeadLeaves(W, path) >= 2) <==> d in [3, 4, 6]
    ensures forall path :: Chain(NARDY, Roll(Initial(), d, d), path) ==> HeadLeaves(W, path) <= 2
  {
    StartIsSane(d);
    forall path | Chain(NARDY, Roll(Initial(), d, d), path)
      ensures HeadLeaves(W, path) <= if d in [3, 4, 6] then 2 else 1
    {
      HeadRule(Roll(Initial(), d, d), path);
    }
    if d in [3, 4, 6] {
      var path := TwoLeave(d);
    }
  }
}

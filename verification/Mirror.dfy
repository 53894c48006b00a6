/**
  Colour symmetry: swapping colours and turning the board by twelve points commutes
  with every rule, so the mirror image of a turn is a turn of the mirror image.
 */
module Mirror {
  import opened Board
  import opened Rules
  import opened Chains
  import opened Turn

  function Across(i: Point): Point {
    (i + 12) % 24
  }

  function MirrorPoints(b: Points): Points {
    seq(24, i requires 0 <= i < 24 => -b[Across(i)])
  }

  function MirrorState(s: State): State {
    State(MirrorPoints(s.b), Opp(s.turn), s.dice, s.h, s.rd, s.ob, s.ow)
  }

  function MirrorStep(x: Step): Step {
    Step(Across(x.from), if 0 <= x.to < 24 then Across(x.to) else x.to, x.die)
  }

  /** The engine's loop that fills the mirrored board. */
  method MirrorOf(s: State) returns (r: State)
    ensures r == MirrorState(s)
  {
    var b: Points := seq(24, _ => 0);
    for i := 0 to 24
      invariant forall j: Point :: j < i ==> b[Across(j)] == -s.b[j]
    {
      b := b[(i + 12) % 24 := -s.b[i]];
    }
    forall j: Point ensures b[j] == MirrorPoints(s.b)[j] {
      assert Across(Across(j)) == j;
    }
    assert b == MirrorPoints(s.b);
    r := State(b, Opp(s.turn), s.dice, s.h, s.rd, s.ob, s.ow);
  }

  /** Mirroring twice changes nothing. */
  lemma MirrorInvolution(s: State)
    ensures MirrorState(MirrorState(s)) == s
  {
    assert MirrorPoints(MirrorPoints(s.b)) == s.b;
  }

  lemma MirrorStepInvolution(x: Step)
    ensures MirrorStep(MirrorStep(x)) == x
  {
  }

  lemma AcrossFacts(p: Player, i: Point)
    ensures Across(Across(i)) == i
    ensures PosOf(Opp(p), Across(i)) == PosOf(p, i)
    ensures PointAt(Opp(p), i) == Across(PointAt(p, i))
    ensures Across(i) == Head(Opp(p)) <==> i == Head(p)
    ensures InHome(Opp(p), Across(i)) <==> InHome(p, i)
  {
  }

  lemma MirrorOwner(b: Points, p: Player, i: Point)
    ensures MirrorPoints(b)[Across(i)] == -b[i]
    ensures Owner(MirrorPoints(b)[Across(i)]) == Opp(p) <==> Owner(b[i]) == p
  {
  }

  lemma MirrorStack(b: Points, p: Player, k: Point)
    ensures Stack(MirrorPoints(b), Opp(p), k) == Stack(b, p, k)
  {
    AcrossFacts(p, k);
    MirrorOwner(b, p, PointAt(p, k));
  }

  // ----- the rules

  lemma MirrorTraps(b: Points, p: Player, k: int, i: Point)
    requires Traps(b, p, k, i)
    ensures Traps(MirrorPoints(b), Opp(p), k, Across(i))
  {
    forall j: Point | k <= j < k + 6
      ensures Owner(MirrorPoints(b)[PointAt(Opp(p), j)]) == Opp(p)
      ensures PosOf(Opp(Opp(p)), Across(i)) < PosOf(Opp(Opp(p)), PointAt(Opp(p), j))
    {
      AcrossFacts(p, j);
      MirrorOwner(b, p, PointAt(p, j));
      AcrossFacts(Opp(p), i);
      AcrossFacts(Opp(p), PointAt(p, j));
    }
    MirrorOwner(b, Opp(p), i);
  }

  lemma MirrorWalledOneWay(b: Points, p: Player)
    requires Walled(b, p)
    ensures Walled(MirrorPoints(b), Opp(p))
  {
    var k, i: Point :| Traps(b, p, k, i);
    MirrorTraps(b, p, k, i);
    assert Holds(MirrorPoints(b), Opp(p), k);
  }

  /** A forbidden wall mirrors to a forbidden wall of the other colour. */
  lemma MirrorWalled(b: Points, p: Player)
    ensures Walled(MirrorPoints(b), Opp(p)) <==> Walled(b, p)
  {
    assert MirrorPoints(MirrorPoints(b)) == b;
    if Walled(MirrorPoints(b), Opp(p)) {
      MirrorWalledOneWay(MirrorPoints(b), Opp(p));
    } else if Walled(b, p) {
      MirrorWalledOneWay(b, p);
    }
  }

  lemma MirrorUpdate(b: Points, i: Point, v: int)
    ensures MirrorPoints(b[i := v]) == MirrorPoints(b)[Across(i) := -v]
  {
    assert Across(Across(i)) == i;
  }

  lemma MirrorLanding(v: int, m: Player)
    ensures (Abs(-v) + 1) * Opp(m) == -((Abs(v) + 1) * m)
  {
  }

  lemma MirrorMoved(s: State, f: Point, t: Point)
    requires Owner(s.b[f]) != 0
    ensures Owner(MirrorState(s).b[Across(f)]) != 0
    ensures Moved(MirrorState(s), Across(f), Across(t)) == MirrorState(Moved(s, f, t))
  {
    MirrorMovedBoard(s, f, t);
    AcrossFacts(Owner(s.b[f]), f);
  }

  lemma MirrorMovedBoard(s: State, f: Point, t: Point)
    requires Owner(s.b[f]) != 0
    ensures Owner(MirrorState(s).b[Across(f)]) == -Owner(s.b[f])
    ensures Moved(MirrorState(s), Across(f), Across(t)).b == MirrorPoints(Moved(s, f, t).b)
  {
    var m: Player := Owner(s.b[f]);
    MirrorOwner(s.b, m, f);
    MirrorMovedPoints(s.b, m, f, t);
  }

  lemma MirrorMovedPoints(b: Points, m: Player, f: Point, t: Point)
    ensures
      var c, d := b[f := b[f] - m], MirrorPoints(b)[Across(f) := -b[f] + m];
      d[Across(t) := (Abs(d[Across(t)]) + 1) * Opp(m)] == MirrorPoints(c[t := (Abs(c[t]) + 1) * m])
  {
    var c: Points := b[f := b[f] - m];
    MirrorUpdate(b, f, b[f] - m);
    MirrorOwner(c, m, t);
    MirrorLanding(c[t], m);
    MirrorUpdate(c, t, (Abs(c[t]) + 1) * m);
  }

  lemma MirrorLegalMove(s: State, f: Point, t: Point)
    requires LegalMove(s, f, t)
    ensures LegalMove(MirrorState(s), Across(f), Across(t))
    ensures MoveDistance(Opp(s.turn), Across(f), Across(t)) == MoveDistance(s.turn, f, t)
  {
    var p := s.turn;
    AcrossFacts(p, f);
    AcrossFacts(p, t);
    MirrorOwner(s.b, p, f);
    MirrorOwner(s.b, Opp(p), t);
    MirrorOwner(s.b, p, Head(p));
    AcrossFacts(p, Head(p));
    MirrorMoved(s, f, t);
    MirrorWalled(Moved(s, f, t).b, p);
  }

  lemma MirrorBearsOff(s: State, f: Point, d: int)
    requires BearsOff(s, f, d)
    ensures BearsOff(MirrorState(s), Across(f), d)
  {
    var p := s.turn;
    AcrossFacts(p, f);
    MirrorOwner(s.b, p, f);
    forall i: Point | Owner(MirrorPoints(s.b)[i]) == Opp(p)
      ensures InHome(Opp(p), i)
      ensures Rearmost(s.b, p, f) ==> PosOf(Opp(p), Across(f)) <= PosOf(Opp(p), i)
    {
      AcrossFacts(p, Across(i));
      AcrossFacts(p, i);
      MirrorOwner(s.b, p, Across(i));
    }
  }

  lemma MirrorIsStepOneWay(s: State, x: Step)
    requires IsStep(s, x)
    ensures IsStep(MirrorState(s), MirrorStep(x))
  {
    if x.to == OFF {
      MirrorBearsOff(s, x.from, x.die);
    } else {
      MirrorLegalMove(s, x.from, x.to);
    }
  }

  /** The raw steps of the mirror image are the mirror images of the raw steps. */
  lemma MirrorIsStep(s: State, x: Step)
    ensures IsStep(MirrorState(s), MirrorStep(x)) <==> IsStep(s, x)
  {
    MirrorInvolution(s);
    MirrorStepInvolution(x);
    if IsStep(s, x) {
      MirrorIsStepOneWay(s, x);
    } else if IsStep(MirrorState(s), MirrorStep(x)) {
      MirrorIsStepOneWay(MirrorState(s), MirrorStep(x));
    }
  }

  lemma MirrorConsumeDie(t: State, d: int)
    requires t.dice.Some? && d in t.dice.value
    ensures ConsumeDie(MirrorState(t), d) == MirrorState(ConsumeDie(t, d))
  {
  }

  lemma MirrorTakenOff(s: State, f: Point)
    ensures TakenOff(MirrorState(s), Across(f)) == MirrorState(TakenOff(s, f))
  {
    MirrorOwner(s.b, s.turn, f);
    MirrorUpdate(s.b, f, s.b[f] - s.turn);
  }

  lemma MirrorBorneOff(s: State, f: Point, d: int)
    requires s.dice.Some? && d in s.dice.value
    ensures BorneOff(MirrorState(s), Across(f), d) == MirrorState(BorneOff(s, f, d))
  {
    MirrorTakenOff(s, f);
    MirrorConsumeDie(TakenOff(s, f), d);
  }

  lemma MirrorNext(s: State, x: Step)
    requires IsStep(s, x)
    ensures Next(MirrorState(s), MirrorStep(x)) == MirrorState(Next(s, x))
  {
    MirrorIsStepOneWay(s, x);
    if x.to == OFF {
      MirrorBorneOff(s, x.from, x.die);
    } else {
      MirrorMoved(s, x.from, x.to);
      MirrorConsumeDie(Moved(s, x.from, x.to), x.die);
    }
  }

  // ----- whole turns

  lemma MirrorSteps(s: State)
    ensures Steps(MirrorState(s)) == set x | x in Steps(s) :: MirrorStep(x)
  {
    StepsAre(s);
    StepsAre(MirrorState(s));
    forall x | x in Steps(s) ensures MirrorStep(x) in Steps(MirrorState(s)) {
      MirrorIsStep(s, x);
    }
    forall y | y in Steps(MirrorState(s)) ensures MirrorStep(MirrorStep(y)) == y && MirrorStep(y) in Steps(s) {
      MirrorStepInvolution(y);
      MirrorIsStep(s, MirrorStep(y));
    }
  }

  lemma MirrorCommutes(s: State)
    ensures Commutes(NARDY, MirrorState, MirrorStep, s)
  {
    MirrorSteps(s);
    StepsAre(s);
    forall x | x in Steps(s) ensures Next(MirrorState(s), MirrorStep(x)) == MirrorState(Next(s, x)) {
      MirrorNext(s, x);
    }
  }

  lemma NardySymmetry()
    ensures Symmetry(NARDY, MirrorState, MirrorStep)
  {
    forall s ensures Commutes(NARDY, MirrorState, MirrorStep, s) {
      MirrorCommutes(s);
    }
  }

  /** The longest number of dice is the same for both colours. */
  lemma MirrorLongest(s: State)
    ensures Longest(NARDY, MirrorState(s)) == Longest(NARDY, s)
  {
    NardySymmetry();
    SymmetricLongest(NARDY, MirrorState, MirrorStep, s);
  }

  lemma MirrorBestSteps(s: State)
    ensures BestSteps(NARDY, MirrorState(s)) == set x | x in BestSteps(NARDY, s) :: MirrorStep(x)
  {
    MirrorLongest(s);
    MirrorSteps(s);
    forall x | x in Steps(s)
      ensures Longest(NARDY, NARDY.next(MirrorState(s), MirrorStep(x))) == Longest(NARDY, NARDY.next(s, x))
    {
      StepsAre(s);
      MirrorNext(s, x);
      MirrorLongest(Next(s, x));
    }
  }

  lemma MirrorLargerDie(s: State)
    ensures LargerDieRule(MirrorState(s)) <==> LargerDieRule(s)
  {
    MirrorLongest(s);
    MirrorSteps(s);
    if LargerDieRule(s) {
      var x :| x in Steps(s) && x.die == Larger(s.dice.value);
      assert MirrorStep(x) in Steps(MirrorState(s));
    }
  }

  /** The first steps of full turns mirror to first steps of full turns. */
  lemma MirrorObligedSteps(s: State)
    ensures ObligedSteps(MirrorState(s)) == set x | x in ObligedSteps(s) :: MirrorStep(x)
  {
    MirrorBestSteps(s);
    MirrorLargerDie(s);
  }

  /** The ends of full turns of the mirror image are the mirror images of the ends. */
  lemma MirrorObligedEnds(s: State)
    ensures ObligedEnds(MirrorState(s)) == Image(MirrorState, ObligedEnds(s))
  {
    MirrorLongest(s);
    if Longest(NARDY, s) == 0 {
      assert Burn(MirrorState(s)) == MirrorState(Burn(s));
    } else {
      var m := Longest(NARDY, s) - 1;
      NardySymmetry();
      MirrorObligedSteps(s);
      forall x | x in ObligedSteps(s)
        ensures EndsFrom(NARDY, MirrorState(s), MirrorStep(x), m) == Image(MirrorState, EndsFrom(NARDY, s, x, m))
      {
        SymmetricFrom(NARDY, MirrorState, MirrorStep, s, x, m);
      }
      SymmetricVia(NARDY, MirrorState, MirrorStep, s, ObligedSteps(s), m);
    }
  }
}

/**
  The rules of one step: moves, the head limit, the six-point wall and bearing off.
  The predicates state each rule outright; the methods follow the engine's loops
  and are proved to compute them.
 */
module Rules {
  import opened Wrappers
  import opened Board

  // ----- walls

  /** `p` owns the six consecutive points of its route that start at position `k`. */
  ghost predicate SixWall(b: Points, p: Player, k: int) {
    0 <= k <= 18 && forall j: Point :: k <= j < k + 6 ==> Owner(b[PointAt(p, j)]) == p
  }

  /** On the opponent's own route, point `i` comes strictly before all six points of the wall. */
  ghost predicate BehindWall(p: Player, k: int, i: Point) {
    forall j: Point :: k <= j < k + 6 ==> PosOf(Opp(p), i) < PosOf(Opp(p), PointAt(p, j))
  }

  /** A six-wall of `p` at `k` holds the opponent's checker on point `i` back. */
  ghost predicate Traps(b: Points, p: Player, k: int, i: Point) {
    SixWall(b, p, k) && Owner(b[i]) == Opp(p) && BehindWall(p, k, i)
  }

  ghost predicate Holds(b: Points, p: Player, k: int) {
    exists i: Point :: Traps(b, p, k, i)
  }

  /** The forbidden pattern: a six-wall of `p` with an opposing checker behind it. */
  ghost predicate Walled(b: Points, p: Player) {
    exists k: int :: Holds(b, p, k)
  }

  /** The points of `p`'s route from position `lo` to position `hi` inclusive. */
  function Stretch(p: Player, lo: int, hi: int): set<int> {
    set j: Point | lo <= j <= hi :: PointAt(p, j)
  }

  lemma InStretch(p: Player, lo: int, hi: int, i: Point)
    ensures i in Stretch(p, lo, hi) <==> lo <= PosOf(p, i) <= hi
  {
    RoutePositions(p, i);
    if i in Stretch(p, lo, hi) {
      var j: Point :| lo <= j <= hi && PointAt(p, j) == i;
      RoutePositions(p, j);
    }
  }

  /** What one test of the chain scan sees: an opponent outside the stretch and
      before its earliest point. */
  ghost predicate SeenBehind(b: Points, p: Player, lo: int, hi: int, start: int, i: Point) {
    Owner(b[i]) == Opp(p) && !(lo <= PosOf(p, i) <= hi) && PosOf(Opp(p), i) < start
  }

  /** The earliest point, on the opponent's route, of the stretch of `p`'s route
      from `lo` to `hi`: its first point, unless it crosses the opponent's start. */
  function Earliest(lo: int, hi: int): int {
    if lo <= 12 <= hi then 0 else (lo + 12) % 24
  }

  lemma EarliestIsLeast(p: Player, lo: int, hi: int)
    requires 0 <= lo <= hi < 24
    ensures forall j: Point :: lo <= j <= hi ==> Earliest(lo, hi) <= PosOf(Opp(p), PointAt(p, j))
    ensures exists j: Point :: lo <= j <= hi && Earliest(lo, hi) == PosOf(Opp(p), PointAt(p, j))
  {
    forall j: Point ensures PosOf(Opp(p), PointAt(p, j)) == (j + 12) % 24 {
      OpposingPositions(p, j);
    }
    var w: Point := if lo <= 12 <= hi then 12 else lo;
    assert Earliest(lo, hi) == PosOf(Opp(p), PointAt(p, w));
  }

  lemma BehindEarliest(p: Player, k: int, i: Point)
    requires 0 <= k <= 18
    ensures BehindWall(p, k, i) <==> PosOf(Opp(p), i) < Earliest(k, k + 5)
  {
    EarliestIsLeast(p, k, k + 5);
  }

  lemma SameEarliest(q: int, lo: int, hi: int)
    requires 0 <= q < 24 && 0 <= lo && lo + 5 <= hi < 24 && !(lo <= q <= hi)
    ensures (q + 12) % 24 < Earliest(lo, hi) <==> (q + 12) % 24 < Earliest(hi - 5, hi)
  {
  }

  /** Growing the chain to the left of the window changes nothing: an opponent is
      seen behind the whole run exactly when it is behind the last six points. */
  lemma ChainSeesWindow(b: Points, p: Player, lo: int, hi: int, start: int, i: Point)
    requires 0 <= lo && lo + 5 <= hi < 24
    requires forall j: Point :: lo <= j <= hi ==> Owner(b[PointAt(p, j)]) == p
    requires start == Earliest(lo, hi)
    ensures SeenBehind(b, p, lo, hi, start, i) <==> Traps(b, p, hi - 5, i)
  {
    var q := PosOf(p, i);
    assert PointAt(p, q) == i && PosOf(Opp(p), i) == (q + 12) % 24 by {
      RoutePositions(p, i);
      OpposingPositions(p, q);
    }
    BehindEarliest(p, hi - 5, i);
    if lo <= q <= hi {
      assert Owner(b[PointAt(p, q)]) == p;
    } else {
      SameEarliest(q, lo, hi);
    }
  }

  /** The run of `p`'s points that ends just before position `pos` is `chain` long. */
  ghost predicate RunBefore(b: Points, p: Player, pos: int, chain: int) {
    && 0 <= chain <= pos <= 24
    && (forall j: Point :: pos - chain <= j < pos ==> Owner(b[PointAt(p, j)]) == p)
    && (forall j: Point :: j == pos - chain - 1 ==> Owner(b[PointAt(p, j)]) != p)
  }

  lemma ShortRunNoWall(b: Points, p: Player, pos: int, chain: int)
    requires RunBefore(b, p, pos, chain) && chain < 6
    ensures !SixWall(b, p, pos - 6)
  {
    if chain < pos {
      assert Owner(b[PointAt(p, pos - chain - 1)]) != p;
    }
  }

  /** `min(POS[opp][r] for r in wall)`: where the opponent first meets the run. */
  method FirstOnRoute(p: Player, lo: Point, hi: Point) returns (start: int)
    requires lo <= hi
    ensures start == Earliest(lo, hi)
  {
    var opp := Opp(p);
    var route := Route(p);
    start := PosOf(opp, route[hi]);
    RoutePositions(p, hi);
    for q := lo to hi
      invariant forall j: Point :: lo <= j < q || j == hi ==> start <= PosOf(opp, PointAt(p, j))
      invariant exists j: Point :: lo <= j <= hi && start == PosOf(opp, PointAt(p, j))
    {
      RoutePositions(p, q);
      if PosOf(opp, route[q]) < start {
        start := PosOf(opp, route[q]);
      }
    }
    EarliestIsLeast(p, lo, hi);
  }

  /** The test made when the chain from `lo` to `pos` is at least six long. */
  method SeesOpponent(b: Points, p: Player, lo: int, pos: int) returns (found: bool)
    requires 0 <= lo && lo + 5 <= pos < 24
    requires forall j: Point :: lo <= j <= pos ==> Owner(b[PointAt(p, j)]) == p
    ensures found <==> Holds(b, p, pos - 5)
  {
    var opp := Opp(p);
    var wall := Stretch(p, lo, pos);
    var start := FirstOnRoute(p, lo, pos);
    ghost var window := pos - 5;
    for i := 0 to 24
      invariant forall x: Point {:trigger Traps(b, p, window, x)} :: x < i ==> !Traps(b, p, window, x)
    {
      InStretch(p, lo, pos, i);
      ChainSeesWindow(b, p, lo, pos, start, i);
      if Owner(b[i]) == opp && i !in wall && PosOf(opp, i) < start {
        return true;
      }
    }
    return false;
  }

  /** Whether `p`'s last move made a forbidden wall, scanning `p`'s route run by run. */
  method CreatesSixBlock(b: Points, p: Player) returns (found: bool)
    ensures found <==> Walled(b, p)
  {
    var route := Route(p);
    var chain := 0;
    for pos := 0 to 24
      invariant RunBefore(b, p, pos, chain)
      invariant forall k: int :: k + 6 <= pos ==> !Holds(b, p, k)
    {
      RoutePositions(p, pos);
      ghost var window := pos - 5;
      if Owner(b[route[pos]]) == p {
        chain := chain + 1;
        if chain >= 6 {
          found := SeesOpponent(b, p, pos - chain + 1, pos);
          if found {
            return true;
          }
        }
      } else {
        chain := 0;
      }
      if chain < 6 {
        ShortRunNoWall(b, p, pos + 1, chain);
      }
      assert !Holds(b, p, window);
    }
    return false;
  }

  // ----- one step

  /** A step: from a point, to a point or `OFF` the board, spending a die. */
  datatype Step = Step(from: Point, to: int, die: int)

  const OFF: int := -1

  function MoveDistance(p: Player, f: Point, t: Point): int {
    PosOf(p, t) - PosOf(p, f)
  }

  /** One checker of the owner of `f` goes to `t`. */
  function Moved(s: State, f: Point, t: Point): State
    requires Owner(s.b[f]) != 0
  {
    var m: Player := Owner(s.b[f]);
    var b: Points := s.b[f := s.b[f] - m];
    var c: Points := b[t := (Abs(b[t]) + 1) * m];
    s.(b := c, h := s.h + if f == Head(m) then 1 else 0)
  }

  /** The dice without the first `d`. */
  function Without(dice: seq<int>, d: int): (r: seq<int>)
    requires d in dice
    ensures |r| == |dice| - 1
    ensures multiset(r) == multiset(dice) - multiset{d}
    ensures forall x :: x in r ==> x in dice
  {
    if dice[0] == d then
      assert dice == [d] + dice[1..];
      dice[1..]
    else
      assert dice == [dice[0]] + dice[1..];
      [dice[0]] + Without(dice[1..], d)
  }

  /** Ends the turn: no dice, the other player to move, nothing off the head. */
  function Burn(s: State): State {
    s.(dice := None, turn := Opp(s.turn), h := 0)
  }

  function ConsumeDie(s: State, d: int): State
    requires s.dice.Some? && d in s.dice.value
  {
    var left := Without(s.dice.value, d);
    if left == [] then Burn(s) else s.(dice := Some(left))
  }

  /** A fresh throw; equal dice are played four times. */
  function Roll(s: State, a: int, c: int): State {
    s.(dice := Some(if a == c then [a, a, a, a] else [a, c]), rd := a == c)
  }

  /** How many checkers may leave the head of `p` this turn. */
  function HeadLimit(s: State, p: Player): int
    requires s.dice.Some?
  {
    if Abs(s.b[Head(p)]) + s.h == 15 && s.rd && s.dice.value[0] in {6, 4, 3} then 2 else 1
  }

  /** A legal move from `f` to `t`: own checker, head limit respected, target not
      held by the opponent, distance on the dice, and no forbidden wall made. */
  ghost predicate LegalMove(s: State, f: Point, t: Point) {
    var p := s.turn;
    && s.dice.Some?
    && Owner(s.b[f]) == p
    && (f == Head(p) ==> s.h < HeadLimit(s, p))
    && Owner(s.b[t]) != Opp(p)
    && MoveDistance(p, f, t) > 0
    && MoveDistance(p, f, t) in s.dice.value
    && !Walled(Moved(s, f, t).b, p)
  }

  predicate AllHome(b: Points, p: Player) {
    forall i: Point :: Owner(b[i]) == p ==> InHome(p, i)
  }

  /** No checker of `p` is further from home than point `f`. */
  predicate Rearmost(b: Points, p: Player, f: Point) {
    forall i: Point :: Owner(b[i]) == p ==> PosOf(p, f) <= PosOf(p, i)
  }

  /** Die `d` bears a checker off point `f`: all checkers are home, and `d` is
      exact, or is the smallest larger die when no die is exact and `f` is rearmost. */
  predicate BearsOff(s: State, f: Point, d: int) {
    var p := s.turn;
    var need := 24 - PosOf(p, f);
    && s.dice.Some? && Owner(s.b[f]) == p && AllHome(s.b, p)
    && d in s.dice.value
    && (d == need ||
        (&& need !in s.dice.value && d > need && Rearmost(s.b, p, f)
         && forall e :: e in s.dice.value && e > need ==> d <= e))
  }

  /** The mover's checker on `f` leaves the board. */
  function TakenOff(s: State, f: Point): State {
    s.(b := s.b[f := s.b[f] - s.turn],
       ow := s.ow + if s.turn == W then 1 else 0,
       ob := s.ob + if s.turn == B then 1 else 0)
  }

  function BorneOff(s: State, f: Point, d: int): State
    requires s.dice.Some? && d in s.dice.value
  {
    ConsumeDie(TakenOff(s, f), d)
  }

  /** The raw steps of a position. */
  ghost predicate IsStep(s: State, x: Step) {
    if x.to == OFF then
      BearsOff(s, x.from, x.die)
    else
      0 <= x.to < 24 && LegalMove(s, x.from, x.to) && x.die == MoveDistance(s.turn, x.from, x.to)
  }

  function DoStep(s: State, x: Step): State
    requires s.dice.Some? && x.die in s.dice.value && OFF <= x.to < 24
    requires x.to != OFF ==> Owner(s.b[x.from]) != 0
  {
    if x.to == OFF then BorneOff(s, x.from, x.die) else ConsumeDie(Moved(s, x.from, x.to), x.die)
  }

  /** The die is determined by the points of a step. */
  lemma StepDie(s: State, x: Step, y: Step)
    requires IsStep(s, x) && IsStep(s, y) && x.from == y.from && x.to == y.to
    ensures x == y
  {
  }

  // ----- the rules in other words

  /** `p` has checkers on the six points of its route from position `k` on, and the opponent's
      checker on point `i` has all six still before it. */
  ghost predicate HeldBack(b: Points, p: Player, k: int, i: Point) {
    && 0 <= k <= 18 && NumAt(b[i], Opp(p)) > 0
    && (forall j: Point :: k <= j <= k + 5 ==> NumAt(b[PointAt(p, j)], p) > 0)
    && (forall j: Point :: k <= j <= k + 5 ==> PosOf(Opp(p), i) < PosOf(Opp(p), PointAt(p, j)))
  }

  lemma TrapsMeaning(b: Points, p: Player, k: int, i: Point)
    ensures Traps(b, p, k, i) <==> HeldBack(b, p, k, i)
  {
  }

  /** A forbidden wall, checker by checker. */
  lemma WalledMeaning(b: Points, p: Player)
    ensures Walled(b, p) <==> exists k, i :: HeldBack(b, p, k, i)
  {
    if Walled(b, p) {
      var k :| Holds(b, p, k);
      var i: Point :| Traps(b, p, k, i);
      TrapsMeaning(b, p, k, i);
    }
    if k, i :| HeldBack(b, p, k, i) {
      TrapsMeaning(b, p, k, i);
      assert Holds(b, p, k);
    }
  }

  /** When a checker may leave the head: as the first of the turn, or as the second if
      fourteen are left there and the throw is a double 3, 4 or 6. */
  predicate HeadFree(s: State)
    requires s.dice.Some?
  {
    s.h == 0 || (s.h == 1 && Abs(s.b[Head(s.turn)]) == 14 && s.rd && s.dice.value[0] in [3, 4, 6])
  }

  /** The legal moves: an own checker goes forward by a die to a point without opposing
      checkers, makes no forbidden wall, and if it leaves the head, is free to. */
  lemma LegalMoveMeaning(s: State, f: Point, t: Point)
    requires s.dice.Some? && s.h >= 0
    ensures LegalMove(s, f, t) <==>
      && NumAt(s.b[f], s.turn) > 0 && NumAt(s.b[t], Opp(s.turn)) == 0
      && (exists d :: d in s.dice.value && d > 0 && PosOf(s.turn, t) == PosOf(s.turn, f) + d)
      && (PosOf(s.turn, f) == 0 ==> HeadFree(s))
      && !Walled(Moved(s, f, t).b, s.turn)
  {
    RoutePositions(s.turn, f);
    var d := MoveDistance(s.turn, f, t);
    assert PosOf(s.turn, t) == PosOf(s.turn, f) + d;
  }

  /** All checkers of `p` are on the last six positions of its route. */
  predicate AllOnLastSix(b: Points, p: Player) {
    forall i: Point :: NumAt(b[i], p) > 0 ==> PosOf(p, i) >= 18
  }

  lemma HomeIsLastSix(b: Points, p: Player)
    ensures AllHome(b, p) <==> AllOnLastSix(b, p)
  {
    forall i: Point ensures InHome(p, i) <==> PosOf(p, i) >= 18 {
      RoutePositions(p, i);
    }
  }

  /** Bearing off takes an own checker, all of them home, and a die. */
  lemma BearOffNeeds(s: State, f: Point, d: int)
    requires BearsOff(s, f, d)
    ensures NumAt(s.b[f], s.turn) > 0 && AllOnLastSix(s.b, s.turn)
    ensures s.dice.Some? && d in s.dice.value && PosOf(s.turn, f) + d >= 24
  {
    HomeIsLastSix(s.b, s.turn);
  }

  /** With all checkers home, a die that is exactly enough bears a checker off. */
  lemma ExactDieBearsOff(s: State, f: Point)
    requires s.dice.Some? && NumAt(s.b[f], s.turn) > 0 && AllOnLastSix(s.b, s.turn)
    ensures BearsOff(s, f, 24 - PosOf(s.turn, f)) <==> 24 - PosOf(s.turn, f) in s.dice.value
  {
    HomeIsLastSix(s.b, s.turn);
  }

  /** A larger die bears off only a rearmost checker: behind another one nothing but the exact
      die does. */
  lemma NotRearmostNeedsExact(s: State, f: Point, g: Point, d: int)
    requires BearsOff(s, f, d) && NumAt(s.b[g], s.turn) > 0 && PosOf(s.turn, g) < PosOf(s.turn, f)
    ensures PosOf(s.turn, f) + d == 24
  {
  }

  /** When the exact die is missing, a rearmost checker is borne off by the smallest of the
      dice that are more than enough, whenever there is one, and by no other. */
  lemma LargerDieBearsOff(s: State, f: Point, d: int)
    requires s.dice.Some? && NumAt(s.b[f], s.turn) > 0 && AllOnLastSix(s.b, s.turn)
    requires 24 - PosOf(s.turn, f) !in s.dice.value
    requires forall i: Point :: PosOf(s.turn, i) < PosOf(s.turn, f) ==> NumAt(s.b[i], s.turn) == 0
    ensures BearsOff(s, f, d) <==>
      && d in s.dice.value && PosOf(s.turn, f) + d > 24
      && forall e :: e in s.dice.value && PosOf(s.turn, f) + e > 24 ==> d <= e
  {
    HomeIsLastSix(s.b, s.turn);
  }

  /** Throwing: two different dice once each, equal ones four times; nothing else changes. */
  lemma RollMeaning(s: State, a: int, c: int)
    ensures
      var r := Roll(s, a, c);
      && r.dice.Some? && multiset(r.dice.value) == (if a == c then multiset{a, a, a, a} else multiset{a, c})
      && (r.rd <==> a == c)
      && r.b == s.b && r.turn == s.turn && r.h == s.h && r.ow == s.ow && r.ob == s.ob
  {
  }

  /** Burning passes the turn, and leaves board, borne-off counts and double flag alone. */
  lemma BurnMeaning(s: State)
    ensures
      var r := Burn(s);
      && r.dice.None? && r.h == 0 && r.turn == Opp(s.turn)
      && r.b == s.b && r.ow == s.ow && r.ob == s.ob && r.rd == s.rd
  {
  }

  // ----- the engine's procedures

  /** The engine's legality test, early return by early return. */
  method LegalStep(s: State, f: Point, t: int) returns (ok: bool)
    ensures ok <==> 0 <= t < 24 && LegalMove(s, f, t)
  {
    if s.dice.None? || Owner(s.b[f]) != s.turn || !(0 <= t <= 23) {
      return false;
    }
    var p := s.turn;
    if f == Head(p) {
      var special := s.rd && s.dice.value[0] in {6, 4, 3};
      var first := Abs(s.b[f]) + s.h == 15;
      if s.h >= (if first && special then 2 else 1) {
        return false;
      }
    }
    if Owner(s.b[t]) == Opp(p) {
      return false;
    }
    var d := MoveDistance(p, f, t);
    if d <= 0 || d !in s.dice.value {
      return false;
    }
    var blocked := CreatesSixBlock(Moved(s, f, t).b, p);
    return !blocked;
  }

  /** The die that bears a checker off `f`, if any. */
  method BearDie(s: State, f: Point) returns (r: Option<int>)
    ensures r.Some? ==> BearsOff(s, f, r.value)
    ensures r.None? ==> forall d :: !BearsOff(s, f, d)
  {
    var p := s.turn;
    if s.dice.None? || Owner(s.b[f]) != p || !AllHome(s.b, p) {
      return None;
    }
    var dice := s.dice.value;
    var need := 24 - PosOf(p, f);
    if need in dice {
      return Some(need);
    }
    var least: Option<int> := None;
    for i := 0 to |dice|
      invariant least.None? ==> forall j :: 0 <= j < i ==> dice[j] <= need
      invariant least.Some? ==> least.value in dice && least.value > need
      invariant least.Some? ==> forall j :: 0 <= j < i && dice[j] > need ==> least.value <= dice[j]
    {
      if dice[i] > need && (least.None? || dice[i] < least.value) {
        least := Some(dice[i]);
      }
    }
    if least.None? {
      return None;
    }
    if exists i: Point :: Owner(s.b[i]) == p && PosOf(p, i) < PosOf(p, f) {
      return None;
    }
    return least;
  }

  /** The order in which raw steps are listed: by origin, then by target, with the
      bear-off last. */
  predicate Before(x: Step, y: Step) {
    x.from < y.from || (x.from == y.from && Rank(x.to) < Rank(y.to))
  }

  function Rank(t: int): int {
    if t < 0 then 24 else t
  }

  predicate Ascending(xs: seq<Step>) {
    forall i, j :: 0 <= i < j < |xs| ==> Before(xs[i], xs[j])
  }

  /** All raw steps, in order and without repetition. */
  method RawSteps(s: State) returns (out: seq<Step>)
    ensures forall x :: x in out <==> IsStep(s, x)
    ensures Ascending(out)
  {
    out := [];
    if s.dice.None? {
      return;
    }
    for f := 0 to 24
      invariant forall x :: x in out <==> IsStep(s, x) && x.from < f
      invariant Ascending(out)
    {
      if Owner(s.b[f]) != s.turn {
        continue;
      }
      for t := 0 to 24
        invariant forall x :: x in out <==> IsStep(s, x) && (x.from < f || (x.from == f && 0 <= x.to < t))
        invariant Ascending(out)
      {
        var ok := LegalStep(s, f, t);
        if ok {
          out := out + [Step(f, t, MoveDistance(s.turn, f, t))];
        }
      }
      var d := BearDie(s, f);
      if d.Some? {
        out := out + [Step(f, OFF, d.value)];
      }
    }
  }
}

/**
  The network input: the position as seen by the player to move, own checkers along the
  own route and the opponent's along theirs, then borne-off counts and pips. It shows the
  position completely up to swapping colours, and nothing else.
 */
module Encode {
  import opened Board
  import opened Sums
  import opened Mirror
  import opened Position
  import opened Game

  function Flag(c: bool): real {
    if c then 1.0 else 0.0
  }

  /** The four inputs of a point with `n` checkers. */
  function Unary(n: nat, c: int): real
    requires 0 <= c < 4
  {
    if c == 0 then Flag(n >= 1) else if c == 1 then Flag(n >= 2) else if c == 2 then Flag(n >= 3)
    else (if n > 3 then n - 3 else 0) as real / 12.0
  }

  /** The player whose points the board input `j` describes. */
  function Side(s: State, j: int): Player {
    if j < 96 then s.turn else Opp(s.turn)
  }

  function Input(s: State, j: int): real
    requires 0 <= j < 196
  {
    if j < 192 then Unary(Stack(s.b, Side(s, j), j % 96 / 4), j % 4)
    else if j == 192 then Off(s, s.turn) as real / 15.0
    else if j == 193 then Off(s, Opp(s.turn)) as real / 15.0
    else if j == 194 then PipCount(s.b, s.turn) as real / 360.0
    else PipCount(s.b, Opp(s.turn)) as real / 360.0
  }

  /** The 196 inputs. */
  function Encoding(s: State): (x: seq<real>)
    ensures |x| == 196 && forall j :: 0 <= j < 196 ==> x[j] == Input(s, j)
  {
    seq(196, j requires 0 <= j < 196 => Input(s, j))
  }

  // ----- the encoding loop

  /** The point that board input `j` describes. */
  function PointOf(s: State, j: int): Point
    requires 0 <= j < 192
  {
    PointAt(Side(s, j), j % 96 / 4)
  }

  /** Where the block of four inputs of one point begins. */
  function BaseOf(s: State, p: Player, i: Point): nat {
    (if p == s.turn then 0 else 96) + PosOf(p, i) * 4
  }

  lemma BlockArithmetic(half: int, pos: int, j: int)
    requires 0 <= j < 192 && 0 <= pos < 24 && (half == 0 || half == 96)
    ensures half + pos * 4 <= j < half + pos * 4 + 4 <==> (half == 0 <==> j < 96) && j % 96 / 4 == pos
    ensures half + pos * 4 <= j < half + pos * 4 + 4 ==> j % 4 == j - (half + pos * 4)
  {
  }

  lemma BlockOf(s: State, p: Player, i: Point, j: int)
    requires 0 <= j < 192
    ensures BaseOf(s, p, i) <= j < BaseOf(s, p, i) + 4 <==> Side(s, j) == p && PointOf(s, j) == i
    ensures BaseOf(s, p, i) <= j < BaseOf(s, p, i) + 4 ==> j % 4 == j - BaseOf(s, p, i)
  {
    BlockArithmetic(if p == s.turn then 0 else 96, PosOf(p, i), j);
    RoutePositions(p, i);
    RoutePositions(p, j % 96 / 4);
  }

  /** Inputs of points before `i` are final, later ones are still zero. */
  ghost predicate FilledTo(x: seq<real>, s: State, i: int) {
    |x| == 196 && forall j :: 0 <= j < 192 ==> x[j] == if PointOf(s, j) < i then Input(s, j) else 0.0
  }

  lemma FillBlock(x: seq<real>, y: seq<real>, s: State, p: Player, i: Point)
    requires FilledTo(x, s, i) && |y| == 196 && Owner(s.b[i]) == p
    requires forall j :: 0 <= j < 192 ==>
      y[j] == if BaseOf(s, p, i) <= j < BaseOf(s, p, i) + 4 then Unary(Abs(s.b[i]), j - BaseOf(s, p, i)) else x[j]
    ensures FilledTo(y, s, i + 1)
  {
    forall j | 0 <= j < 192 ensures y[j] == if PointOf(s, j) < i + 1 then Input(s, j) else 0.0 {
      BlockOf(s, p, i, j);
    }
  }

  lemma SkipBlock(x: seq<real>, s: State, i: Point)
    requires FilledTo(x, s, i) && Owner(s.b[i]) == 0
    ensures FilledTo(x, s, i + 1)
  {
  }

  /** Writes the four inputs of one point. */
  method WriteUnary(x: array<real>, base: nat, n: nat)
    requires x.Length == 196 && base + 4 <= 192
    modifies x
    ensures forall j :: 0 <= j < 196 ==>
      x[j] == if base <= j < base + 4 then Unary(n, j - base) else old(x[j])
  {
    x[base], x[base + 1], x[base + 2], x[base + 3] := Unary(n, 0), Unary(n, 1), Unary(n, 2), Unary(n, 3);
  }

  /** One pass of the loop over the board. */
  method EncodePoint(s: State, i: Point, x: array<real>, pipMe: int, pipOp: int) returns (me': int, op': int)
    requires x.Length == 196 && FilledTo(x[..], s, i)
    modifies x
    ensures FilledTo(x[..], s, i + 1)
    ensures me' == pipMe + PipTerms(s.b, s.turn)[i] && op' == pipOp + PipTerms(s.b, Opp(s.turn))[i]
  {
    me', op' := pipMe, pipOp;
    var v := s.b[i];
    var o := Owner(v);
    ghost var before := x[..];
    if o == 0 {
      SkipBlock(before, s, i);
    } else {
      var n := Abs(v);
      var pos := PosOf(o, i);
      WriteUnary(x, (if o == s.turn then 0 else 96) + pos * 4, n);
      FillBlock(before, x[..], s, o, i);
      if o == s.turn {
        me' := me' + (24 - pos) * n;
      } else {
        op' := op' + (24 - pos) * n;
      }
    }
  }

  lemma AllFilled(x: seq<real>, s: State)
    requires FilledTo(x, s, 24)
    ensures
      x[..192] + [Input(s, 192), Input(s, 193), Input(s, 194), Input(s, 195)] == Encoding(s)
  {
    var y := x[..192] + [Input(s, 192), Input(s, 193), Input(s, 194), Input(s, 195)];
    forall j | 0 <= j < 196 ensures y[j] == Input(s, j) {
    }
  }

  /** The encoding loop computes the 196 inputs. */
  method EncodeState(s: State) returns (x: array<real>)
    ensures fresh(x) && x[..] == Encoding(s)
  {
    var me, op := s.turn, Opp(s.turn);
    x := new real[196](_ => 0.0);
    var pipMe, pipOp := 0, 0;
    for i := 0 to 24
      invariant x.Length == 196 && FilledTo(x[..], s, i)
      invariant pipMe == Sum(PipTerms(s.b, me)[..i]) && pipOp == Sum(PipTerms(s.b, op)[..i])
    {
      SumNext(PipTerms(s.b, me), i);
      SumNext(PipTerms(s.b, op), i);
      pipMe, pipOp := EncodePoint(s, i, x, pipMe, pipOp);
    }
    assert PipTerms(s.b, me)[..24] == PipTerms(s.b, me) && PipTerms(s.b, op)[..24] == PipTerms(s.b, op);
    WriteTotals(s, x, pipMe, pipOp);
  }

  /** `x[192:196] = ..` */
  method WriteTotals(s: State, x: array<real>, pipMe: int, pipOp: int)
    requires x.Length == 196 && FilledTo(x[..], s, 24)
    requires pipMe == PipCount(s.b, s.turn) && pipOp == PipCount(s.b, Opp(s.turn))
    modifies x
    ensures x[..] == Encoding(s)
  {
    AllFilled(x[..], s);
    ghost var filled := x[..];
    x[192], x[193] := Off(s, s.turn) as real / 15.0, Off(s, Opp(s.turn)) as real / 15.0;
    x[194], x[195] := pipMe as real / 360.0, pipOp as real / 360.0;
    assert x[..] == filled[..192] + [Input(s, 192), Input(s, 193), Input(s, 194), Input(s, 195)];
  }

  // ----- the inputs read back

  lemma InputOf(s: State, theirs: bool, k: Point, c: int)
    requires 0 <= c < 4
    ensures
      var j := (if theirs then 96 else 0) + 4 * k + c;
      Encoding(s)[j] == Unary(Stack(s.b, if theirs then Opp(s.turn) else s.turn, k), c)
  {
    var j := (if theirs then 96 else 0) + 4 * k + c;
    assert j % 96 / 4 == k && j % 4 == c;
  }

  /** The four inputs of a point: the first three say whether there are at least one, two and
      three checkers, and together they add up to the checkers again. */
  lemma PointReadsBack(s: State, theirs: bool, k: Point)
    ensures
      var x, j := Encoding(s), (if theirs then 96 else 0) + 4 * k;
      var n := Stack(s.b, if theirs then Opp(s.turn) else s.turn, k);
      && x[j] + x[j + 1] + x[j + 2] + 12.0 * x[j + 3] == n as real
      && x[j] == (if n >= 1 then 1.0 else 0.0)
      && x[j + 1] == (if n >= 2 then 1.0 else 0.0)
      && x[j + 2] == (if n >= 3 then 1.0 else 0.0)
  {
    var j := (if theirs then 96 else 0) + 4 * k;
    InputOf(s, theirs, k, 0);
    InputOf(s, theirs, k, 1);
    InputOf(s, theirs, k, 2);
    InputOf(s, theirs, k, 3);
  }

  /** The last four inputs: the mover's and the opponent's borne-off checkers as parts of
      fifteen, and their pips as parts of 360. */
  lemma TotalsReadBack(s: State)
    ensures
      var x := Encoding(s);
      && 15.0 * x[192] == Off(s, s.turn) as real && 15.0 * x[193] == Off(s, Opp(s.turn)) as real
      && 360.0 * x[194] == PipCount(s.b, s.turn) as real
      && 360.0 * x[195] == PipCount(s.b, Opp(s.turn)) as real
  {
  }

  // ----- what the encoding shows

  /** The same position: board, mover and borne-off counts. */
  predicate Same(s: State, t: State) {
    s.b == t.b && s.turn == t.turn && s.ow == t.ow && s.ob == t.ob
  }

  lemma UnaryInjective(m: nat, n: nat)
    requires forall c :: 0 <= c < 4 ==> Unary(m, c) == Unary(n, c)
    ensures m == n
  {
    assert Unary(m, 0) == Unary(n, 0) && Unary(m, 1) == Unary(n, 1);
    assert Unary(m, 2) == Unary(n, 2) && Unary(m, 3) == Unary(n, 3);
  }

  /** Equal encodings have equal stacks along both routes, as seen by the movers. */
  lemma EqualStacks(s: State, t: State, op: bool, k: Point)
    requires Encoding(s) == Encoding(t)
    ensures
      var p, q := if op then Opp(s.turn) else s.turn, if op then Opp(t.turn) else t.turn;
      Stack(s.b, p, k) == Stack(t.b, q, k)
  {
    var base := (if op then 96 else 0) + 4 * k;
    var p, q := if op then Opp(s.turn) else s.turn, if op then Opp(t.turn) else t.turn;
    forall c | 0 <= c < 4 ensures Unary(Stack(s.b, p, k), c) == Unary(Stack(t.b, q, k), c) {
      var j := base + c;
      assert j % 96 / 4 == k && j % 4 == c;
      assert Encoding(s)[j] == Encoding(t)[j];
    }
    UnaryInjective(Stack(s.b, p, k), Stack(t.b, q, k));
  }

  lemma EqualOffs(s: State, t: State)
    requires Encoding(s) == Encoding(t)
    ensures Off(s, s.turn) == Off(t, t.turn) && Off(s, Opp(s.turn)) == Off(t, Opp(t.turn))
  {
    assert Encoding(s)[192] == Encoding(t)[192] && Encoding(s)[193] == Encoding(t)[193];
  }

  lemma StacksDetermineBoard(b: Points, c: Points, p: Player)
    requires forall k: Point :: Stack(b, p, k) == Stack(c, p, k) && Stack(b, Opp(p), k) == Stack(c, Opp(p), k)
    ensures b == c
  {
    forall i: Point ensures b[i] == c[i] {
      RoutePositions(p, i);
      RoutePositions(Opp(p), i);
      assert Stack(b, p, PosOf(p, i)) == Stack(c, p, PosOf(p, i));
      assert Stack(b, Opp(p), PosOf(Opp(p), i)) == Stack(c, Opp(p), PosOf(Opp(p), i));
    }
  }

  lemma MirrorTermsAt(b: Points, p: Player, i: Point)
    ensures NumAt(MirrorPoints(b)[i], Opp(p)) == NumAt(b[Across(i)], p)
    ensures PosOf(Opp(p), i) == PosOf(p, Across(i))
  {
    AcrossFacts(p, i);
    AcrossFacts(p, Across(i));
    MirrorOwner(b, p, Across(i));
  }

  lemma MirrorPips(b: Points, p: Player)
    ensures PipCount(MirrorPoints(b), Opp(p)) == PipCount(b, p)
  {
    var c, t := PipTerms(MirrorPoints(b), Opp(p)), PipTerms(b, p);
    forall i: Point ensures c[i] == t[Across(i)] {
      MirrorTermsAt(b, p, i);
    }
    assert c == t[12..] + t[..12];
    SumRotate(t, 12);
  }

  lemma MirrorInput(s: State, j: int)
    requires 0 <= j < 196
    ensures Input(MirrorState(s), j) == Input(s, j)
  {
    if j < 192 {
      MirrorStack(s.b, Side(s, j), j % 96 / 4);
    } else {
      MirrorPips(s.b, s.turn);
      MirrorPips(s.b, Opp(s.turn));
    }
  }

  /** The encoding cannot tell a position from its mirror image. */
  lemma MirrorEncoding(s: State)
    ensures Encoding(MirrorState(s)) == Encoding(s)
  {
    forall j | 0 <= j < 196 ensures Input(MirrorState(s), j) == Input(s, j) {
      MirrorInput(s, j);
    }
  }

  lemma SameMoverLossless(s: State, t: State)
    requires Encoding(s) == Encoding(t) && s.turn == t.turn
    ensures Same(s, t)
  {
    forall k: Point
      ensures Stack(s.b, s.turn, k) == Stack(t.b, s.turn, k)
      ensures Stack(s.b, Opp(s.turn), k) == Stack(t.b, Opp(s.turn), k)
    {
      EqualStacks(s, t, false, k);
      EqualStacks(s, t, true, k);
    }
    StacksDetermineBoard(s.b, t.b, s.turn);
    EqualOffs(s, t);
  }

  lemma SameEncoding(s: State, t: State)
    requires Same(s, t)
    ensures Encoding(s) == Encoding(t)
  {
    forall j | 0 <= j < 196 ensures Input(s, j) == Input(t, j) {
    }
  }

  /** The encoding is canonical and lossless: two positions have the same inputs exactly
      when they are the same position, or one is the mirror image of the other. */
  lemma EncodingLossless(s: State, t: State)
    ensures Encoding(s) == Encoding(t) <==> Same(s, t) || Same(s, MirrorState(t))
  {
    MirrorEncoding(t);
    if Encoding(s) == Encoding(t) {
      if s.turn == t.turn {
        SameMoverLossless(s, t);
      } else {
        SameMoverLossless(s, MirrorState(t));
      }
    }
    if Same(s, t) {
      SameEncoding(s, t);
    } else if Same(s, MirrorState(t)) {
      SameEncoding(s, MirrorState(t));
    }
  }

  lemma ReachableBounds(s: State, p: Player)
    requires Reachable(s)
    ensures 0 <= Off(s, p) <= 15 && 0 <= PipCount(s.b, p) <= 360
    ensures forall k: Point :: Stack(s.b, p, k) <= 15
  {
    ReachableIsSane(s);
    PipsAndCheckers(s.b, p);
    CountsNonNegative(s.b, p);
  }

  lemma FractionInRange(n: int, whole: int)
    requires 0 <= n <= whole && whole > 0
    ensures 0.0 <= n as real / whole as real <= 1.0
  {
  }

  lemma PointInRange(s: State, j: int)
    requires Reachable(s) && 0 <= j < 192
    ensures 0.0 <= Input(s, j) <= 1.0
  {
    ReachableBounds(s, Side(s, j));
    UnaryInRange(Stack(s.b, Side(s, j), j % 96 / 4), j % 4);
  }

  lemma TotalsInRange(s: State, p: Player)
    requires Reachable(s)
    ensures 0.0 <= Off(s, p) as real / 15.0 <= 1.0
    ensures 0.0 <= PipCount(s.b, p) as real / 360.0 <= 1.0
  {
    ReachableBounds(s, p);
    FractionInRange(Off(s, p), 15);
    FractionInRange(PipCount(s.b, p), 360);
  }

  lemma InputInRange(s: State, j: int)
    requires 0 <= j < 196
    requires j < 192 ==> 0.0 <= Input(s, j) <= 1.0
    requires forall p: Player ::
      0.0 <= Off(s, p) as real / 15.0 <= 1.0 && 0.0 <= PipCount(s.b, p) as real / 360.0 <= 1.0
    ensures 0.0 <= Input(s, j) <= 1.0
  {
    if j >= 192 {
      var mine, theirs := Off(s, s.turn) as real / 15.0, Off(s, Opp(s.turn)) as real / 15.0;
      assert 0.0 <= mine <= 1.0 && 0.0 <= theirs <= 1.0;
    }
  }

  /** In every reachable position all inputs lie between 0 and 1. */
  lemma EncodingInRange(s: State, j: int)
    requires Reachable(s) && 0 <= j < 196
    ensures 0.0 <= Encoding(s)[j] <= 1.0
  {
    if j < 192 {
      PointInRange(s, j);
    }
    forall p: Player
      ensures 0.0 <= Off(s, p) as real / 15.0 <= 1.0 && 0.0 <= PipCount(s.b, p) as real / 360.0 <= 1.0
    {
      TotalsInRange(s, p);
    }
    InputInRange(s, j);
  }

  lemma UnaryInRange(n: nat, c: int)
    requires n <= 15 && 0 <= c < 4
    ensures 0.0 <= Unary(n, c) <= 1.0
  {
  }
}

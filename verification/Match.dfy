/**
  Whole games between players: the opening throw, the loop of turns and throws, and the
  players of the repository, each of whom completes every turn by the rules.
 */
module Match {
  import opened Wrappers
  import opened Board
  import opened Rules
  import opened Chains
  import opened Turn
  import opened Position
  import opened Game
  import opened Outcome
  import opened EasyBot
  import opened Choose

  /** A player: any function, the easy bot, a network, or random turns. The random player's
      generator has one draw for each turn of the game. */
  datatype Strategy =
    | Given(play: State -> State)
    | Easy
    | Trained(net: Net)
    | Random(net: Net, draws: nat -> Draw)

  /** The generator draws from the range it is given. */
  ghost predicate Usable(pl: Strategy) {
    pl.Random? ==> forall turn: nat :: InRange(pl.draws(turn))
  }

  /** In the given turn of the game the player answers `s` with `e`. */
  ghost predicate Answers(pl: Strategy, turn: nat, s: State, e: State) {
    match pl
    case Given(play) => e == play(s)
    case Easy => e == GreedyTurn(s)
    case Trained(net) => BestTurn(net, s, e)
    case Random(_, draws) => DrawnTurn(draws(turn), s, e)
  }

  /** The player completes every turn of a game it is given. */
  ghost predicate ObeysTheRules(pl: Strategy) {
    forall turn: nat, s: State, e: State ::
      Reachable(s) && s.dice.Some? && Answers(pl, turn, s, e) ==> e in ObligedEnds(s)
  }

  /** All players of the repository do. */
  lemma PlayersObey(pl: Strategy)
    requires !pl.Given?
    ensures ObeysTheRules(pl)
  {
    forall turn: nat, s: State, e: State | s.dice.Some? && Answers(pl, turn, s, e) ensures e in ObligedEnds(s) {
      GreedyCompletes(s);
    }
  }

  method TakeTurn(pl: Strategy, turn: nat, s: State) returns (e: State)
    requires Usable(pl)
    ensures Answers(pl, turn, s, e)
  {
    match pl
    case Given(play) => e := play(s);
    case Easy => e := EasyTurn(s);
    case Trained(net) => e := ChooseTurn(net, s, None);
    case Random(net, draws) => e := ChooseTurn(net, s, Some(draws(turn)));
  }

  type Die = d: int | 1 <= d <= 6 witness 1

  /** A throw of two dice. */
  datatype Cast = Cast(a: Die, c: Die)

  // ----- the record of a game

  function Side(white: Strategy, black: Strategy, p: Player): Strategy {
    if p == W then white else black
  }

  /** `e` is the answer of the player to move in `s`, and a full turn. */
  ghost predicate TurnPlayed(white: Strategy, black: Strategy, turn: nat, s: State, e: State) {
    Answers(Side(white, black, s.turn), turn, s, e) && e in ObligedEnds(s)
  }

  /** The score sheet of a game: the opening throw and where the first turn ended, then for
      each further turn its throw and its end. */
  datatype Sheet = First(throw: Cast, end: State) | Later(earlier: Sheet, throw: Cast, end: State)

  function Turns(g: Sheet): nat {
    if g.First? then 1 else 1 + Turns(g.earlier)
  }

  /** How many turns the sheet had when its last one was played. */
  function TurnsBefore(g: Sheet): nat {
    if g.First? then 0 else Turns(g.earlier)
  }

  /** The throws of the sheet are those given, from number `first` on, none skipped. */
  predicate OnThrows(g: Sheet, throws: seq<Cast>, first: nat) {
    && first + Turns(g) <= |throws|
    && g.throw == throws[first + Turns(g) - 1]
    && (g.Later? ==> OnThrows(g.earlier, throws, first))
  }

  /** The position before the last turn of the sheet. */
  function Faced(g: Sheet): State {
    match g
    case First(throw, _) => Opening(throw.a, throw.c)
    case Later(earlier, throw, _) => Roll(earlier.end, throw.a, throw.c)
  }

  /** Every turn was played by the player to move, and nobody had won before the last. */
  ghost predicate Fair(white: Strategy, black: Strategy, g: Sheet) {
    && TurnPlayed(white, black, TurnsBefore(g), Faced(g), g.end)
    && (g.Later? ==> Fair(white, black, g.earlier) && Winner(g.earlier.end).None?)
  }

  // ----- the loop

  /** The first unequal throw of all is number `k`. */
  predicate OpensAt(throws: seq<Cast>, k: nat) {
    && k < |throws| && throws[k].a != throws[k].c
    && forall i :: 0 <= i < k ==> throws[i].a == throws[i].c
  }

  /** Throws until the two dice differ; `None` if the throws run out first. */
  method Start(throws: seq<Cast>) returns (first: Option<nat>)
    ensures first.None? ==> forall i :: 0 <= i < |throws| ==> throws[i].a == throws[i].c
    ensures first.Some? ==> OpensAt(throws, first.value)
  {
    for k := 0 to |throws|
      invariant forall i :: 0 <= i < k ==> throws[i].a == throws[i].c
    {
      if throws[k].a != throws[k].c {
        return Some(k);
      }
    }
    return None;
  }

  lemma TurnResult(s: State, e: State)
    requires Reachable(s) && s.dice.Some? && Winner(s).None? && e in ObligedEnds(s)
    ensures Reachable(e) && e.dice.None? && e.turn == Opp(s.turn)
    ensures Winner(e).Some? ==> Winner(e) == Some(s.turn) && PipCount(e.b, s.turn) == 0
  {
    ReachableTurn(s, e);
    ObligedEndsExist(s);
    EndShape(s, Longest(NARDY, s), e);
    OnlyMoverWins(s, e);
    if Winner(e).Some? {
      WonReachable(e);
    }
  }

  /** One turn of the game loop. */
  method PlayTurn(white: Strategy, black: Strategy, turn: nat, s: State) returns (e: State)
    requires Usable(white) && Usable(black) && ObeysTheRules(white) && ObeysTheRules(black)
    requires Reachable(s) && s.dice.Some? && Winner(s).None?
    ensures TurnPlayed(white, black, turn, s, e)
    ensures Reachable(e) && e.dice.None? && e.turn == Opp(s.turn)
    ensures Winner(e).Some? ==> Winner(e) == Some(s.turn) && PipCount(e.b, s.turn) == 0
  {
    e := TakeTurn(Side(white, black, s.turn), turn, s);
    TurnResult(s, e);
  }

  /** The position after a game's last turn: won by the player who has just moved, if there
      is a result, and by nobody otherwise. */
  ghost predicate Concludes(last: State, result: Option<(Player, int)>) {
    && Reachable(last) && last.dice.None?
    && match result
       case None => Winner(last).None?
       case Some((w, kind)) =>
         Winner(last) == Some(w) && kind == WinType(last) && last.turn == Opp(w) && PipCount(last.b, w) == 0
  }

  /** A turn, and what it concludes. */
  method PlayOn(white: Strategy, black: Strategy, turn: nat, s: State)
    returns (e: State, result: Option<(Player, int)>)
    requires Usable(white) && Usable(black) && ObeysTheRules(white) && ObeysTheRules(black)
    requires Reachable(s) && s.dice.Some? && Winner(s).None?
    ensures TurnPlayed(white, black, turn, s, e) && Concludes(e, result)
  {
    e := PlayTurn(white, black, turn, s);
    var w := Winner(e);
    result := if w.Some? then Some((w.value, WinType(e))) else None;
  }

  lemma ThrowResult(last: State, throw: Cast)
    requires Concludes(last, None)
    ensures
      var s := Roll(last, throw.a, throw.c);
      Reachable(s) && s.dice.Some? && Winner(s).None?
  {
    ReachableAfter(last, Event.Throw(throw.a, throw.c));
  }

  /** The sheet `g` of a game on `throws`, which opens with throw number `first`. */
  ghost predicate Keeps(white: Strategy, black: Strategy, g: Sheet, throws: seq<Cast>, first: nat) {
    Fair(white, black, g) && OnThrows(g, throws, first)
  }

  lemma FirstOnThrows(throws: seq<Cast>, first: nat, e: State)
    requires first < |throws|
    ensures OnThrows(First(throws[first], e), throws, first)
  {
  }

  lemma {:induction false} NextOnThrows(g: Sheet, throws: seq<Cast>, first: nat, throw: Cast, e: State)
    requires OnThrows(g, throws, first) && first + Turns(g) < |throws| && throws[first + Turns(g)] == throw
    ensures OnThrows(Later(g, throw, e), throws, first)
  {
  }

  lemma {:induction false} KeepsNext(
    white: Strategy, black: Strategy, g: Sheet, throws: seq<Cast>, first: nat, throw: Cast, e: State)
    requires Keeps(white, black, g, throws, first) && Winner(g.end).None?
    requires first + Turns(g) < |throws| && throws[first + Turns(g)] == throw
    requires TurnPlayed(white, black, Turns(g), Faced(Later(g, throw, e)), e)
    ensures Keeps(white, black, Later(g, throw, e), throws, first)
  {
    NextOnThrows(g, throws, first, throw, e);
  }

  /** The first turn, after the throw that opens. */
  method PlayFirst(white: Strategy, black: Strategy, throws: seq<Cast>, first: nat)
    returns (e: State, result: Option<(Player, int)>, ghost g: Sheet)
    requires Usable(white) && Usable(black) && ObeysTheRules(white) && ObeysTheRules(black)
    requires OpensAt(throws, first)
    ensures Keeps(white, black, g, throws, first) && Turns(g) == 1 && g.end == e && Concludes(e, result)
  {
    var throw := throws[first];
    OpeningReachable(throw.a, throw.c);
    e, result := PlayOn(white, black, 0, Opening(throw.a, throw.c));
    g := First(throw, e);
    FirstOnThrows(throws, first, e);
  }

  /** A further turn, after a throw in a game nobody has won yet. */
  method PlayNext(white: Strategy, black: Strategy, ghost g: Sheet, last: State,
                  throws: seq<Cast>, ghost first: nat, used: nat, turn: nat)
    returns (e: State, result: Option<(Player, int)>, ghost h: Sheet)
    requires Usable(white) && Usable(black) && ObeysTheRules(white) && ObeysTheRules(black)
    requires Keeps(white, black, g, throws, first) && used == first + Turns(g) < |throws|
    requires turn == Turns(g) && last == g.end && Concludes(last, None)
    ensures Keeps(white, black, h, throws, first) && Turns(h) == Turns(g) + 1 && h.end == e && Concludes(e, result)
  {
    var throw := throws[used];
    ThrowResult(last, throw);
    e, result := PlayOn(white, black, turn, Roll(last, throw.a, throw.c));
    h := Later(g, throw, e);
    assert Faced(h) == Roll(last, throw.a, throw.c);
    KeepsNext(white, black, g, throws, first, throw, e);
  }

  /** A game on given throws, with its score sheet; `used` throws have been taken. Without a
      result the throws have run out: either nobody has won yet, or all were equal and no
      game has begun. */
  method PlayGame(white: Strategy, black: Strategy, throws: seq<Cast>)
    returns (result: Option<(Player, int)>, used: nat, ghost sheet: Option<Sheet>)
    requires Usable(white) && Usable(black) && ObeysTheRules(white) && ObeysTheRules(black)
    ensures used <= |throws| && (result.None? ==> used == |throws|)
    ensures sheet.None? ==> result.None? && forall i :: 0 <= i < |throws| ==> throws[i].a == throws[i].c
    ensures sheet.Some? ==> exists first: nat ::
      OpensAt(throws, first) && Keeps(white, black, sheet.value, throws, first) && used == first + Turns(sheet.value)
    ensures sheet.Some? ==> Concludes(sheet.value.end, result)
  {
    var start := Start(throws);
    if start.None? {
      return None, |throws|, None;
    }
    var first: nat := start.value;
    var e;
    ghost var g;
    e, result, g := PlayFirst(white, black, throws, first);
    used := first + 1;
    while result.None? && used < |throws|
      invariant used == first + Turns(g) <= |throws| && e == g.end && Concludes(e, result)
      invariant Keeps(white, black, g, throws, first)
      decreases |throws| - used
    {
      e, result, g := PlayNext(white, black, g, e, throws, first, used, used - first);
      used := used + 1;
    }
    sheet := Some(g);
  }
}

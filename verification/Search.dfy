/**
  The two memoised turn searches. Result sets and dictionaries are objects, as in the
  source, so that copying one and sharing one are different things: a stored result is
  never written to again.
 */
module Search {
  import opened Board
  import opened Rules
  import opened Keys
  import opened Chains
  import opened Turn

  ghost function KeysOf(ends: set<State>): set<string> {
    set e | e in ends :: Key(e)
  }

  lemma KeysOfUnion(a: set<State>, b: set<State>)
    ensures KeysOf(a + b) == KeysOf(a) + KeysOf(b)
  {
  }

  /** The elements of a list. */
  ghost function Elements<T>(xs: seq<T>): set<T> {
    set x | x in xs
  }

  lemma ElementsSnoc<T>(xs: seq<T>, i: nat)
    requires i < |xs|
    ensures Elements(xs[..i + 1]) == Elements(xs[..i]) + {xs[i]}
  {
    assert xs[..i + 1] == xs[..i] + [xs[i]];
  }

  /** The raw steps, seen as the steps of the game's step system. */
  method ListSteps(s: State) returns (out: seq<Step>)
    ensures forall x :: x in out <==> x in NARDY.steps(s)
    ensures Ascending(out)
  {
    out := RawSteps(s);
    StepsAre(s);
  }

  /** The engine's `do_step`. */
  method TakeStep(s: State, x: Step) returns (t: State)
    requires x in NARDY.steps(s)
    ensures t == NARDY.next(s, x) && DiceCount(t) + 1 == DiceCount(s)
  {
    StepsAre(s);
    EachStepSpendsADie(s, x);
    t := DoStep(s, x);
  }

  lemma SettledEnds(t: State)
    requires t.dice.None?
    ensures Longest(NARDY, t) == 0 && LongestEnds(NARDY, t) == {t}
  {
    NoStepsNoDice(t);
  }

  /** A mutable set of keys. */
  class KeySet {
    var elems: set<string>

    constructor (elems: set<string>)
      ensures this.elems == elems
    {
      this.elems := elems;
    }
  }

  /** The dictionary that `_best` and `turn_analysis` share. */
  class KeyMemo {
    var table: map<State, (nat, KeySet)>
    ghost var Repr: set<KeySet>  // the result objects stored in the table

    /** Every stored entry is the true answer for its position. */
    ghost predicate Valid()
      reads this, Repr
    {
      forall s :: s in table ==>
        table[s].1 in Repr &&
        table[s].0 == Longest(NARDY, s) && table[s].1.elems == KeysOf(LongestEnds(NARDY, s))
    }

    /** Entries are only added, with new objects. */
    twostate predicate Grew()
      reads this
    {
      && (forall s :: s in old(table) ==> s in table && table[s] == old(table[s]))
      && fresh(Repr - old(Repr))
    }

    constructor ()
      ensures Valid() && table == map[] && Repr == {}
    {
      table := map[];
      Repr := {};
    }

    /** `memo[s] = (n, fins)` for a new position. */
    method Put(s: State, n: nat, fins: KeySet)
      requires Valid()
      requires n == Longest(NARDY, s) && fins.elems == KeysOf(LongestEnds(NARDY, s))
      modifies this
      ensures Valid()
      ensures table == old(table)[s := (n, fins)] && Repr == old(Repr) + {fins}
    {
      table := table[s := (n, fins)];
      Repr := Repr + {fins};
    }
  }

  /** The tally after one more listed step, in terms of the step's own result. */
  lemma TallyNext(s: State, steps: seq<Step>, i: nat)
    requires i < |steps| && forall x :: x in steps ==> x in NARDY.steps(s)
    ensures
      var t := NARDY.next(s, steps[i]);
      var l, fs := 1 + Longest(NARDY, t), KeysOf(LongestEnds(NARDY, t));
      var best, fins := TallyLength(s, steps[..i]), TallyKeys(s, steps[..i]);
      && TallyLength(s, steps[..i + 1]) == (if l > best then l else best)
      && TallyKeys(s, steps[..i + 1]) == (if l > best then fs else if l == best then fins + fs else fins)
  {
    NardyBounded();
    assert Elements(steps[..i]) <= NARDY.steps(s) by {
      assert forall x :: x in steps[..i] ==> x in steps;
    }
    assert steps[i] in steps;
    TallyStep(NARDY, s, Elements(steps[..i]), steps[i]);
    ElementsSnoc(steps, i);
    KeysOfUnion(TallyEnds(NARDY, s, Elements(steps[..i])), LongestEnds(NARDY, NARDY.next(s, steps[i])));
  }

  lemma TallyBounds(s: State, steps: seq<Step>)
    requires forall x :: x in steps <==> x in NARDY.steps(s)
    ensures TallyLength(s, []) == 0 && TallyKeys(s, []) == {Key(Settle(s))}
    ensures TallyLength(s, steps) == Longest(NARDY, s) && TallyKeys(s, steps) == KeysOf(LongestEnds(NARDY, s))
  {
    NardyBounded();
    TallyNone(NARDY, s);
    assert Elements<Step>([]) == {};
    TallyAll(NARDY, s);
    assert Elements(steps) == NARDY.steps(s);
  }

  /** The best length and end keys over the first steps listed so far. */
  ghost function TallyLength(s: State, steps: seq<Step>): nat {
    TallySize(NARDY, s, Elements(steps))
  }

  ghost function TallyKeys(s: State, steps: seq<Step>): set<string> {
    KeysOf(TallyEnds(NARDY, s, Elements(steps)))
  }

  /** One comparison of the search loop: a longer result is copied over the best one,
      an equal one is added to it. The result is never the object of the new entry. */
  method Merge(best: nat, fins: KeySet, l: nat, fs: KeySet) returns (m: nat, merged: KeySet)
    requires fins != fs && l > 0
    modifies fins
    ensures m == if l > best then l else best
    ensures merged == fins || fresh(merged)
    ensures merged.elems ==
      if l > best then fs.elems else if l == best then old(fins.elems) + fs.elems else old(fins.elems)
  {
    m, merged := best, fins;
    if l > best {
      m := l;
      merged := new KeySet(fs.elems);
    } else if l == best && best > 0 {
      fins.elems := fins.elems + fs.elems;
    }
  }

  /** What one raw step leads to: dice played counting the step, and the end keys. */
  method FromStep(s: State, x: Step, memo: KeyMemo) returns (l: nat, fs: KeySet)
    requires memo.Valid() && x in NARDY.steps(s)
    modifies memo
    ensures memo.Valid() && memo.Grew()
    ensures l == 1 + Longest(NARDY, NARDY.next(s, x))
    ensures fs.elems == KeysOf(LongestEnds(NARDY, NARDY.next(s, x)))
    ensures fs in memo.Repr || fresh(fs)
    decreases DiceCount(s), 0
  {
    var t := TakeStep(s, x);
    if t.dice.None? {
      SettledEnds(t);
      l := 1;
      fs := new KeySet({Key(t)});
    } else {
      l, fs := Best(t, memo);
      l := 1 + l;
    }
  }

  /** One pass of the search loop. */
  method Absorb(s: State, steps: seq<Step>, i: nat, memo: KeyMemo, best: nat, fins: KeySet)
    returns (m: nat, merged: KeySet)
    requires memo.Valid() && fins !in memo.Repr
    requires i < |steps| && forall x :: x in steps ==> x in NARDY.steps(s)
    requires best == TallyLength(s, steps[..i]) && fins.elems == TallyKeys(s, steps[..i])
    modifies memo, fins
    ensures memo.Valid() && memo.Grew()
    ensures (merged == fins || fresh(merged)) && merged !in memo.Repr
    ensures m == TallyLength(s, steps[..i + 1]) && merged.elems == TallyKeys(s, steps[..i + 1])
    decreases DiceCount(s), 1
  {
    var x := steps[i];
    assert x in steps;
    var l, fs := FromStep(s, x, memo);
    TallyNext(s, steps, i);
    m, merged := Merge(best, fins, l, fs);
  }

  /** The search loop, from the result for no steps at all. */
  method AbsorbAll(s: State, steps: seq<Step>, memo: KeyMemo, none: KeySet) returns (best: nat, fins: KeySet)
    requires memo.Valid() && none !in memo.Repr && forall x :: x in steps ==> x in NARDY.steps(s)
    requires TallyLength(s, []) == 0 && none.elems == TallyKeys(s, [])
    modifies memo, none
    ensures memo.Valid() && memo.Grew()
    ensures (fins == none || fresh(fins)) && fins !in memo.Repr
    ensures best == TallyLength(s, steps) && fins.elems == TallyKeys(s, steps)
    decreases DiceCount(s), 2
  {
    best, fins := 0, none;
    assert steps[..0] == [] && steps[..|steps|] == steps;
    for i := 0 to |steps|
      invariant memo.Valid() && memo.Grew()
      invariant (fins == none || fresh(fins)) && fins !in memo.Repr
      invariant best == TallyLength(s, steps[..i]) && fins.elems == TallyKeys(s, steps[..i])
    {
      best, fins := Absorb(s, steps, i, memo, best, fins);
    }
  }

  /** The search of a position that is not in the memo yet. */
  method Explore(s: State, memo: KeyMemo) returns (best: nat, fins: KeySet)
    requires memo.Valid() && s.dice.Some?
    modifies memo
    ensures memo.Valid() && memo.Grew()
    ensures best == Longest(NARDY, s) && fins.elems == KeysOf(LongestEnds(NARDY, s))
    ensures fresh(fins) && fins !in memo.Repr
    decreases DiceCount(s), 3
  {
    var none := new KeySet({Key(Burn(s))});
    var steps := ListSteps(s);
    TallyBounds(s, steps);
    best, fins := AbsorbAll(s, steps, memo, none);
  }

  /** The longest number of dice and the keys of the ends, from the middle of a turn.
      Entries already in the memo are kept, object and content: only `memo` itself
      and new objects are written. */
  method Best(s: State, memo: KeyMemo) returns (n: nat, fins: KeySet)
    requires memo.Valid() && s.dice.Some?
    modifies memo
    ensures memo.Valid() && memo.Grew()
    ensures n == Longest(NARDY, s) && fins.elems == KeysOf(LongestEnds(NARDY, s))
    ensures s in memo.table && memo.table[s] == (n, fins) && fins in memo.Repr
    decreases DiceCount(s), 4
  {
    if s in memo.table {
      return memo.table[s].0, memo.table[s].1;
    }
    n, fins := Explore(s, memo);
    memo.Put(s, n, fins);
  }

  // ----- the whole turn

  /** One raw step with the dice it lets play and the result object it leads to. */
  datatype Entry<R> = Entry(step: Step, len: nat, result: R)

  /** `[x for x in per if x.len == mx]` */
  function OfLength<R>(per: seq<Entry<R>>, mx: nat): (r: seq<Entry<R>>)
    ensures forall x :: x in r ==> x in per && x.len == mx
    ensures forall x :: x in per && x.len == mx ==> x in r
  {
    if per == [] then [] else (if per[0].len == mx then [per[0]] else []) + OfLength(per[1..], mx)
  }

  /** `[x for x in per if x.die == d]` */
  function OfDie<R>(per: seq<Entry<R>>, d: int): (r: seq<Entry<R>>)
    ensures forall x :: x in r ==> x in per && x.step.die == d
    ensures forall x :: x in per && x.step.die == d ==> x in r
  {
    if per == [] then [] else (if per[0].step.die == d then [per[0]] else []) + OfDie(per[1..], d)
  }

  function StepsOf<R>(per: seq<Entry<R>>): (r: set<Step>)
    ensures forall x :: x in per ==> x.step in r
    ensures forall y :: y in r ==> exists x :: x in per && x.step == y
  {
    if per == [] then {} else StepsOf(per[..|per| - 1]) + {per[|per| - 1].step}
  }

  /** The entry's length is the longest its step allows. */
  ghost predicate TrueLength<R>(s: State, x: Entry<R>) {
    x.step in NARDY.steps(s) && x.len == 1 + Longest(NARDY, NARDY.next(s, x.step))
  }

  /** An entry holds the true result of its step. */
  ghost predicate Sound(s: State, x: Entry<KeySet>)
    reads x.result
  {
    TrueLength(s, x) && x.result.elems == KeysOf(LongestEnds(NARDY, NARDY.next(s, x.step)))
  }

  /** The largest entry length is the longest number of dice. */
  lemma MaximumIsLongest(s: State, mx: nat)
    requires exists x :: x in NARDY.steps(s) && 1 + Longest(NARDY, NARDY.next(s, x)) == mx
    requires forall x :: x in NARDY.steps(s) ==> 1 + Longest(NARDY, NARDY.next(s, x)) <= mx
    ensures mx == Longest(NARDY, s)
  {
    NardyBounded();
    var x :| x in NARDY.steps(s) && 1 + Longest(NARDY, NARDY.next(s, x)) == mx;
    LongestStep(NARDY, s, x);
    LongestZero(NARDY, s);
    var y :| y in BestSteps(NARDY, s);
  }

  /** The origin and target points of steps. */
  function Pairs(steps: set<Step>): set<(Point, int)> {
    set x | x in steps :: (x.from, x.to)
  }

  /** The ends gathered from the steps of some entries. */
  ghost function Gathered<R>(s: State, per: seq<Entry<R>>): set<State> {
    if per == [] then {} else Gathered(s, per[..|per| - 1]) + LongestEnds(NARDY, NARDY.next(s, per[|per| - 1].step))
  }

  lemma GatheredSnoc<R>(s: State, per: seq<Entry<R>>, i: nat)
    requires i < |per|
    ensures Gathered(s, per[..i + 1]) == Gathered(s, per[..i]) + LongestEnds(NARDY, NARDY.next(s, per[i].step))
  {
    assert per[..i + 1][..i] == per[..i];
  }

  lemma {:induction false} GatheredEnds<R>(s: State, per: seq<Entry<R>>)
    requires Longest(NARDY, s) > 0 && forall x :: x in per ==> x.step in BestSteps(NARDY, s)
    ensures Gathered(s, per) == EndsVia(NARDY, s, StepsOf(per), Longest(NARDY, s) - 1)
  {
    if per == [] {
      assert EndsVia(NARDY, s, {}, Longest(NARDY, s) - 1) == {};
    } else {
      var n := |per| - 1;
      assert per[n] in per;
      GatheredEnds(s, per[..n]);
      ViaBestStep(NARDY, s, StepsOf(per[..n]), per[n].step);
    }
  }

  /** `set().union(*(x.result for x in keep))` */
  method UnionOfKeys(s: State, keep: seq<Entry<KeySet>>) returns (fins: set<string>)
    requires forall x :: x in keep ==> Sound(s, x)
    ensures fins == KeysOf(Gathered(s, keep))
  {
    fins := {};
    for i := 0 to |keep|
      invariant fins == KeysOf(Gathered(s, keep[..i]))
    {
      assert keep[i] in keep;
      GatheredSnoc(s, keep, i);
      KeysOfUnion(Gathered(s, keep[..i]), LongestEnds(NARDY, NARDY.next(s, keep[i].step)));
      fins := fins + keep[i].result.elems;
    }
    assert keep[..|keep|] == keep;
  }

  lemma {:induction false} AllListed<R>(raw: seq<Step>, per: seq<Entry<R>>)
    requires |per| == |raw| && forall j :: 0 <= j < |raw| ==> per[j].step == raw[j]
    ensures forall y :: y in StepsOf(per) <==> y in raw
  {
    forall y | y in raw ensures y in StepsOf(per) {
      var j :| 0 <= j < |raw| && raw[j] == y;
      assert per[j] in per;
    }
    forall y | y in StepsOf(per) ensures y in raw {
      var x :| x in per && x.step == y;
      var j :| 0 <= j < |per| && per[j] == x;
      assert raw[j] in raw;
    }
  }

  /** All raw steps with what they lead to, searched with one memo. */
  method Entries(s: State) returns (per: seq<Entry<KeySet>>)
    ensures forall x :: x in per ==> Sound(s, x)
    ensures StepsOf(per) == NARDY.steps(s)
  {
    var memo := new KeyMemo();
    var raw := ListSteps(s);
    per := [];
    for i := 0 to |raw|
      invariant memo.Valid() && fresh(memo) && fresh(memo.Repr)
      invariant |per| == i && forall j :: 0 <= j < i ==> per[j].step == raw[j] && Sound(s, per[j])
    {
      assert raw[i] in raw;
      var l, fs := FromStep(s, raw[i], memo);
      per := per + [Entry(raw[i], l, fs)];
    }
    AllListed(raw, per);
  }

  lemma NoEntries(s: State)
    requires NARDY.steps(s) == {}
    ensures Longest(NARDY, s) == 0 && ObligedSteps(s) == {} && ObligedEnds(s) == {Burn(s)}
  {
    NoStepsNoDice(s);
  }

  /** Keeping the entries of the largest length, and of the larger die when only one of
      two different dice plays, keeps exactly the obliged steps. */
  lemma KeptSteps(s: State, kept: set<Step>, larger: set<Step>, mx: nat)
    requires NARDY.steps(s) != {} && mx == Longest(NARDY, s)
    requires forall x :: x in kept <==> x in NARDY.steps(s) && 1 + Longest(NARDY, NARDY.next(s, x)) == mx
    requires TwoDifferentDice(s) ==> forall x :: x in larger <==> x in kept && x.die == Larger(s.dice.value)
    ensures ObligedSteps(s) ==
      (if mx == 1 && TwoDifferentDice(s) && exists x :: x in NARDY.steps(s) && x.die == Larger(s.dice.value)
       then larger else kept)
    ensures kept == BestSteps(NARDY, s)
    ensures mx > 0
  {
    NoStepsNoDice(s);
    assert kept == BestSteps(NARDY, s);
  }

  /** `max(x.len for x in per)` */
  method LargestLength<R>(per: seq<Entry<R>>) returns (mx: nat)
    requires per != []
    ensures exists x :: x in per && x.len == mx
    ensures forall x :: x in per ==> x.len <= mx
  {
    mx := per[0].len;
    for i := 1 to |per|
      invariant exists x :: x in per && x.len == mx
      invariant forall j :: 0 <= j < i ==> per[j].len <= mx
    {
      if per[i].len > mx {
        mx := per[i].len;
      }
    }
  }

  lemma {:induction false} LargestIsLongest<R>(s: State, per: seq<Entry<R>>, mx: nat)
    requires StepsOf(per) == NARDY.steps(s) && forall x :: x in per ==> TrueLength(s, x)
    requires exists x :: x in per && x.len == mx
    requires forall x :: x in per ==> x.len <= mx
    ensures mx == Longest(NARDY, s)
  {
    var x :| x in per && x.len == mx;
    assert TrueLength(s, x) && x.step in StepsOf(per);
    forall y | y in NARDY.steps(s) ensures 1 + Longest(NARDY, NARDY.next(s, y)) <= mx {
      var e :| e in per && e.step == y;
      assert TrueLength(s, e);
    }
    MaximumIsLongest(s, mx);
  }

  lemma {:induction false} StepsOfKept<R>(s: State, per: seq<Entry<R>>, mx: nat)
    requires StepsOf(per) == NARDY.steps(s) && forall x :: x in per ==> TrueLength(s, x)
    ensures forall y :: y in StepsOf(OfLength(per, mx)) <==>
      y in NARDY.steps(s) && 1 + Longest(NARDY, NARDY.next(s, y)) == mx
  {
    forall y | y in NARDY.steps(s) && 1 + Longest(NARDY, NARDY.next(s, y)) == mx
      ensures y in StepsOf(OfLength(per, mx))
    {
      var x :| x in per && x.step == y;
      assert TrueLength(s, x);
    }
    forall y | y in StepsOf(OfLength(per, mx))
      ensures y in NARDY.steps(s) && 1 + Longest(NARDY, NARDY.next(s, y)) == mx
    {
      var x :| x in OfLength(per, mx) && x.step == y;
      assert TrueLength(s, x);
    }
  }

  lemma {:induction false} StepsOfDie<R>(per: seq<Entry<R>>, d: int)
    ensures forall y :: y in StepsOf(OfDie(per, d)) <==> y in StepsOf(per) && y.die == d
  {
    forall y | y in StepsOf(per) && y.die == d ensures y in StepsOf(OfDie(per, d)) {
      var x :| x in per && x.step == y;
    }
  }

  /** The entries a turn may go on with: those of the largest length and, when only one
      of two different dice plays and an entry plays the larger, only the larger die. */
  method KeepObliged<R>(s: State, per: seq<Entry<R>>) returns (mx: nat, keep: seq<Entry<R>>)
    requires per != [] && StepsOf(per) == NARDY.steps(s) && forall x :: x in per ==> TrueLength(s, x)
    ensures mx == Longest(NARDY, s) > 0
    ensures StepsOf(keep) == ObligedSteps(s) && forall x :: x in keep ==> x in per
  {
    assert per[0] in per;
    mx := LargestLength(per);
    LargestIsLongest(s, per, mx);
    keep := OfLength(per, mx);
    ghost var useLarger := false;
    if mx == 1 && TwoDifferentDice(s) {
      var big := Larger(s.dice.value);
      if exists i :: 0 <= i < |per| && per[i].step.die == big {
        keep := OfDie(keep, big);
        useLarger := true;
      }
    }
    KeptAreObliged(s, per, mx, useLarger);
  }

  lemma {:induction false} DieListed<R>(per: seq<Entry<R>>, d: int)
    ensures (exists i :: 0 <= i < |per| && per[i].step.die == d) <==> exists x :: x in StepsOf(per) && x.die == d
  {
    if i :| 0 <= i < |per| && per[i].step.die == d {
      assert per[i] in per && per[i].step in StepsOf(per);
    }
    if x :| x in StepsOf(per) && x.die == d {
      var e :| e in per && e.step == x;
      var i :| 0 <= i < |per| && per[i] == e;
    }
  }

  lemma {:induction false} KeptAreObliged<R>(s: State, per: seq<Entry<R>>, mx: nat, useLarger: bool)
    requires StepsOf(per) == NARDY.steps(s) != {} && forall x :: x in per ==> TrueLength(s, x)
    requires mx == Longest(NARDY, s)
    requires useLarger <==>
      mx == 1 && TwoDifferentDice(s) && exists i :: 0 <= i < |per| && per[i].step.die == Larger(s.dice.value)
    ensures ObligedSteps(s) ==
      StepsOf(if useLarger then OfDie(OfLength(per, mx), Larger(s.dice.value)) else OfLength(per, mx))
    ensures mx > 0
  {
    StepsOfKept(s, per, mx);
    var kept := StepsOf(OfLength(per, mx));
    if TwoDifferentDice(s) {
      var big := Larger(s.dice.value);
      StepsOfDie(OfLength(per, mx), big);
      DieListed(per, big);
      KeptSteps(s, kept, StepsOf(OfDie(OfLength(per, mx), big)), mx);
    } else {
      KeptSteps(s, kept, {}, mx);
    }
  }

  lemma GatheredObliged<R>(s: State, keep: seq<Entry<R>>)
    requires Longest(NARDY, s) > 0 && StepsOf(keep) == ObligedSteps(s)
    ensures Gathered(s, keep) == ObligedEnds(s)
  {
    GatheredEnds(s, keep);
  }

  /** The pair belongs to a step that plays as large a die as any step of the position. */
  ghost predicate PlaysLargest(s: State, a: (Point, int)) {
    exists x :: x in Steps(s) && (x.from, x.to) == a && forall y :: y in Steps(s) ==> y.die <= x.die
  }

  /** Where only one of two different dice can be played, all analysed pairs play as large a
      die as can be played. */
  lemma PairsPlayLargest(s: State, a: (Point, int))
    requires Longest(NARDY, s) == 1 && TwoDifferentDice(s) && a in Pairs(ObligedSteps(s))
    ensures PlaysLargest(s, a)
  {
    var x :| x in ObligedSteps(s) && (x.from, x.to) == a;
    ObligedStepsExistIn(s, x);
    forall y | y in Steps(s) ensures y.die <= x.die {
      ObligedStepsPlayLargest(s, x, y);
    }
  }

  lemma ObligedStepsExistIn(s: State, x: Step)
    requires x in ObligedSteps(s)
    ensures x in Steps(s)
  {
  }

  /** The full-turn analysis: the longest number of dice, the steps the turn may start
      with, and the keys of the positions it may end in. */
  method TurnAnalysis(s: State) returns (mx: nat, steps: set<(Point, int)>, fins: set<string>)
    ensures mx == Longest(NARDY, s)
    ensures steps == Pairs(ObligedSteps(s))
    ensures mx == 1 && s.dice.Some? && |s.dice.value| == 2 && s.dice.value[0] != s.dice.value[1] ==>
      forall a :: a in steps ==> PlaysLargest(s, a)
    ensures fins == KeysOf(ObligedEnds(s))
  {
    if Longest(NARDY, s) == 1 && TwoDifferentDice(s) {
      forall a | a in Pairs(ObligedSteps(s)) ensures PlaysLargest(s, a) {
        PairsPlayLargest(s, a);
      }
    }
    var per := Entries(s);
    if per == [] {
      NoEntries(s);
      return 0, {}, {Key(Burn(s))};
    }
    var keep;
    mx, keep := KeepObliged(s, per);
    GatheredObliged(s, keep);
    steps := Pairs(StepsOf(keep));
    fins := UnionOfKeys(s, keep);
  }
}

/**
  The second search: full turns as a dictionary from end key to end position. It keeps
  its own memo of dictionaries, again as objects that are copied before being extended.
 */
module FinalStates {
  import opened Board
  import opened Rules
  import opened Keys
  import opened Chains
  import opened Turn
  import opened Search

  /** `m` is a dictionary of `ends`: every end's key is present, and every value is an
      end and sits under its own key. */
  ghost predicate Indexes(m: map<string, State>, ends: set<State>) {
    m.Keys == KeysOf(ends) && forall k :: k in m ==> m[k] in ends && Key(m[k]) == k
  }

  lemma IndexOne(e: State)
    ensures Indexes(map[Key(e) := e], {e})
  {
  }

  lemma IndexUnion(m: map<string, State>, a: set<State>, n: map<string, State>, c: set<State>)
    requires Indexes(m, a) && Indexes(n, c)
    ensures Indexes(m + n, a + c)
  {
    KeysOfUnion(a, c);
  }

  /** Ends of one turn differ only in what the key shows, so a dictionary of them has
      each end itself under its key and is unique: merge order cannot matter. */
  lemma IndexUnique(s: State, m: map<string, State>, ends: set<State>)
    requires Indexes(m, ends)
    requires forall e :: e in ends ==> e.dice.None? && e.h == 0 && e.rd == s.rd
    ensures forall e :: e in ends ==> Key(e) in m && m[Key(e)] == e
    ensures forall n :: Indexes(n, ends) ==> n == m
  {
    forall e, f | e in ends && f in ends && Key(e) == Key(f) ensures e == f {
      KeyInjective(e, f);
    }
    forall n | Indexes(n, ends) ensures n == m {
      assert n.Keys == m.Keys;
    }
  }

  /** A mutable dictionary of positions, with the ends it stands for. */
  class StateMap {
    var m: map<string, State>
    ghost var ends: set<State>

    ghost predicate Valid()
      reads this
    {
      Indexes(m, ends)
    }

    constructor (m: map<string, State>, ghost ends: set<State>)
      requires Indexes(m, ends)
      ensures Valid() && this.m == m && this.ends == ends
    {
      this.m := m;
      this.ends := ends;
    }
  }

  class MapMemo {
    var table: map<State, (nat, StateMap)>
    ghost var Repr: set<StateMap>  // the dictionaries stored in the table

    ghost predicate Valid()
      reads this, Repr
    {
      forall s :: s in table ==>
        table[s].1 in Repr &&
        table[s].0 == Longest(NARDY, s) && table[s].1.Valid() && table[s].1.ends == LongestEnds(NARDY, s)
    }

    twostate predicate Grew()
      reads this
    {
      && (forall s :: s in old(table) ==> s in table && table[s] == old(table[s]))
      && fresh(Repr - old(Repr))
    }

    constructor ()
      ensures Valid() && table == map[] && Repr == {}
    {
      table := map[];
      Repr := {};
    }

    method Put(s: State, n: nat, fs: StateMap)
      requires Valid()
      requires n == Longest(NARDY, s) && fs.Valid() && fs.ends == LongestEnds(NARDY, s)
      modifies this
      ensures Valid()
      ensures table == old(table)[s := (n, fs)] && Repr == old(Repr) + {fs}
    {
      table := table[s := (n, fs)];
      Repr := Repr + {fs};
    }
  }

  /** The ends of the longest chains over the first steps listed so far. */
  ghost function TallyStates(s: State, steps: seq<Step>): set<State> {
    TallyEnds(NARDY, s, Elements(steps))
  }

  lemma TallyStatesNext(s: State, steps: seq<Step>, i: nat)
    requires i < |steps| && forall x :: x in steps ==> x in NARDY.steps(s)
    ensures
      var t := NARDY.next(s, steps[i]);
      var l, fs := 1 + Longest(NARDY, t), LongestEnds(NARDY, t);
      var best, ends := TallyLength(s, steps[..i]), TallyStates(s, steps[..i]);
      TallyStates(s, steps[..i + 1]) == (if l > best then fs else if l == best then ends + fs else ends)
  {
    NardyBounded();
    assert Elements(steps[..i]) <= NARDY.steps(s) by {
      assert forall x :: x in steps[..i] ==> x in steps;
    }
    assert steps[i] in steps;
    TallyStep(NARDY, s, Elements(steps[..i]), steps[i]);
    ElementsSnoc(steps, i);
  }

  lemma TallyStatesBounds(s: State, steps: seq<Step>)
    requires forall x :: x in steps <==> x in NARDY.steps(s)
    ensures TallyStates(s, []) == {Settle(s)} && TallyStates(s, steps) == LongestEnds(NARDY, s)
  {
    NardyBounded();
    TallyNone(NARDY, s);
    assert Elements<Step>([]) == {};
    TallyAll(NARDY, s);
    assert Elements(steps) == NARDY.steps(s);
  }

  /** One comparison of the search loop: `dict(fs)` copies, `update` extends in place. */
  method Merge(best: nat, res: StateMap, l: nat, fs: StateMap) returns (m: nat, merged: StateMap)
    requires res != fs && l > 0 && res.Valid() && fs.Valid()
    modifies res
    ensures m == if l > best then l else best
    ensures merged.Valid() && (merged == res || fresh(merged))
    ensures merged.ends ==
      if l > best then fs.ends else if l == best then old(res.ends) + fs.ends else old(res.ends)
  {
    m, merged := best, res;
    if l > best {
      m := l;
      merged := new StateMap(fs.m, fs.ends);
    } else if l == best && l > 0 {
      IndexUnion(res.m, res.ends, fs.m, fs.ends);
      res.m := res.m + fs.m;
      res.ends := res.ends + fs.ends;
    }
  }

  method FromStep(s: State, x: Step, memo: MapMemo) returns (l: nat, fs: StateMap)
    requires memo.Valid() && x in NARDY.steps(s)
    modifies memo
    ensures memo.Valid() && memo.Grew()
    ensures l == 1 + Longest(NARDY, NARDY.next(s, x))
    ensures fs.Valid() && fs.ends == LongestEnds(NARDY, NARDY.next(s, x))
    ensures fs in memo.Repr || fresh(fs)
    decreases DiceCount(s), 0
  {
    var t := TakeStep(s, x);
    if t.dice.None? {
      SettledEnds(t);
      IndexOne(t);
      l := 1;
      fs := new StateMap(map[Key(t) := t], {t});
    } else {
      l, fs := Best(t, memo);
      l := 1 + l;
    }
  }

  method Absorb(s: State, steps: seq<Step>, i: nat, memo: MapMemo, best: nat, res: StateMap)
    returns (m: nat, merged: StateMap)
    requires memo.Valid() && res !in memo.Repr
    requires i < |steps| && forall x :: x in steps ==> x in NARDY.steps(s)
    requires best == TallyLength(s, steps[..i]) && res.Valid() && res.ends == TallyStates(s, steps[..i])
    modifies memo, res
    ensures memo.Valid() && memo.Grew()
    ensures (merged == res || fresh(merged)) && merged !in memo.Repr
    ensures m == TallyLength(s, steps[..i + 1]) && merged.Valid() && merged.ends == TallyStates(s, steps[..i + 1])
    decreases DiceCount(s), 1
  {
    var x := steps[i];
    assert x in steps;
    var l, fs := FromStep(s, x, memo);
    TallyNext(s, steps, i);
    TallyStatesNext(s, steps, i);
    m, merged := Merge(best, res, l, fs);
  }

  /** The search loop, from the result for no steps at all. */
  method AbsorbAll(s: State, steps: seq<Step>, memo: MapMemo, none: StateMap) returns (best: nat, res: StateMap)
    requires memo.Valid() && none !in memo.Repr && forall x :: x in steps ==> x in NARDY.steps(s)
    requires TallyLength(s, []) == 0 && none.Valid() && none.ends == TallyStates(s, [])
    modifies memo, none
    ensures memo.Valid() && memo.Grew()
    ensures (res == none || fresh(res)) && res !in memo.Repr
    ensures best == TallyLength(s, steps) && res.Valid() && res.ends == TallyStates(s, steps)
    decreases DiceCount(s), 2
  {
    best, res := 0, none;
    assert steps[..0] == [] && steps[..|steps|] == steps;
    for i := 0 to |steps|
      invariant memo.Valid() && memo.Grew()
      invariant (res == none || fresh(res)) && res !in memo.Repr
      invariant best == TallyLength(s, steps[..i]) && res.Valid() && res.ends == TallyStates(s, steps[..i])
    {
      best, res := Absorb(s, steps, i, memo, best, res);
    }
  }

  method Explore(s: State, memo: MapMemo) returns (best: nat, res: StateMap)
    requires memo.Valid() && s.dice.Some?
    modifies memo
    ensures memo.Valid() && memo.Grew()
    ensures best == Longest(NARDY, s) && res.Valid() && res.ends == LongestEnds(NARDY, s)
    ensures fresh(res) && res !in memo.Repr
    decreases DiceCount(s), 3
  {
    var b := Burn(s);
    IndexOne(b);
    var none := new StateMap(map[Key(b) := b], {b});
    var steps := ListSteps(s);
    TallyBounds(s, steps);
    TallyStatesBounds(s, steps);
    best, res := AbsorbAll(s, steps, memo, none);
  }

  /** The longest number of dice and the ends, from the middle of a turn. */
  method Best(s: State, memo: MapMemo) returns (n: nat, res: StateMap)
    requires memo.Valid() && s.dice.Some?
    modifies memo
    ensures memo.Valid() && memo.Grew()
    ensures n == Longest(NARDY, s) && res.Valid() && res.ends == LongestEnds(NARDY, s)
    ensures s in memo.table && memo.table[s] == (n, res) && res in memo.Repr
    decreases DiceCount(s), 4
  {
    if s in memo.table {
      return memo.table[s].0, memo.table[s].1;
    }
    n, res := Explore(s, memo);
    memo.Put(s, n, res);
  }

  // ----- the whole turn

  ghost predicate HoldsEnds(s: State, x: Entry<StateMap>)
    reads x.result
  {
    TrueLength(s, x) && x.result.Valid() && x.result.ends == LongestEnds(NARDY, NARDY.next(s, x.step))
  }

  method Entries(s: State) returns (per: seq<Entry<StateMap>>)
    ensures forall x :: x in per ==> HoldsEnds(s, x)
    ensures StepsOf(per) == NARDY.steps(s)
  {
    var memo := new MapMemo();
    var raw := ListSteps(s);
    per := [];
    for i := 0 to |raw|
      invariant memo.Valid() && fresh(memo) && fresh(memo.Repr)
      invariant |per| == i && forall j :: 0 <= j < i ==> per[j].step == raw[j] && HoldsEnds(s, per[j])
    {
      assert raw[i] in raw;
      var l, fs := FromStep(s, raw[i], memo);
      per := per + [Entry(raw[i], l, fs)];
    }
    AllListed(raw, per);
  }

  /** `for x in keep: out.update(x.result)` */
  method UpdateAll(s: State, keep: seq<Entry<StateMap>>) returns (out: map<string, State>)
    requires forall x :: x in keep ==> HoldsEnds(s, x)
    ensures Indexes(out, Gathered(s, keep))
  {
    out := map[];
    for i := 0 to |keep|
      invariant Indexes(out, Gathered(s, keep[..i]))
    {
      assert keep[i] in keep;
      GatheredSnoc(s, keep, i);
      IndexUnion(out, Gathered(s, keep[..i]), keep[i].result.m, keep[i].result.ends);
      out := out + keep[i].result.m;
    }
    assert keep[..|keep|] == keep;
  }

  /** All positions a turn may end in, by key. */
  method FinalStates(s: State) returns (out: map<string, State>)
    ensures Indexes(out, ObligedEnds(s))
  {
    var per := Entries(s);
    if per == [] {
      NoEntries(s);
      var b := Burn(s);
      IndexOne(b);
      return map[Key(b) := b];
    }
    var mx, keep := KeepObliged(s, per);
    GatheredObliged(s, keep);
    out := UpdateAll(s, keep);
  }

  /** After any turn: no dice, nothing counted off the head, the other player to move. */
  lemma ObligedEndShape(s: State, e: State)
    requires e in ObligedEnds(s)
    ensures e.dice.None? && e.h == 0 && e.turn == Opp(s.turn) && e.rd == s.rd
  {
    if s.dice.Some? {
      ObligedEndsExist(s);
      EndShape(s, Longest(NARDY, s), e);
    } else {
      NoStepsNoDice(s);
    }
  }

  /** The two searches agree: whatever they answer, the dictionary has exactly the analysed
      keys, each value is a finished turn of the other player's under its own key, and the
      dictionary is determined, so the order in which results are merged cannot matter. */
  lemma SearchesAgree(s: State, fins: set<string>, out: map<string, State>)
    requires fins == KeysOf(ObligedEnds(s)) && Indexes(out, ObligedEnds(s))
    ensures out.Keys == fins
    ensures forall k :: k in out ==>
      Key(out[k]) == k && out[k].dice.None? && out[k].h == 0 && out[k].turn == Opp(s.turn) && out[k].rd == s.rd
    ensures forall e :: e in ObligedEnds(s) ==> out[Key(e)] == e
    ensures forall other :: Indexes(other, ObligedEnds(s)) ==> other == out
  {
    forall e | e in ObligedEnds(s)
      ensures e.dice.None? && e.h == 0 && e.turn == Opp(s.turn) && e.rd == s.rd
    {
      ObligedEndShape(s, e);
    }
    IndexUnique(s, out, ObligedEnds(s));
  }

  /** Both searches run on one position, and their answers agree. */
  method BothSearches(s: State) returns (fins: set<string>, out: map<string, State>)
    ensures out.Keys == fins
    ensures forall k :: k in out ==>
      Key(out[k]) == k && out[k].dice.None? && out[k].h == 0 && out[k].turn == Opp(s.turn) && out[k].rd == s.rd
    ensures forall e :: e in ObligedEnds(s) <==> Key(e) in out && out[Key(e)] == e
  {
    var mx, steps;
    mx, steps, fins := TurnAnalysis(s);
    out := FinalStates(s);
    SearchesAgree(s, fins, out);
  }
}

/**
  The trained player: of all full turns it takes one that is worth most, the first by key
  on ties. The network is an arbitrary function of the encoding.
 */
module Choose {
  import opened Wrappers
  import opened Board
  import opened Keys
  import opened Chains
  import opened Turn
  import opened Search
  import opened FinalStates
  import opened Mirror
  import opened Encode
  import opened Outcome

  // ----- key order

  /** Lexicographic order of strings by code point. */
  predicate Less(a: string, c: string) {
    c != [] && (a == [] || a[0] < c[0] || (a[0] == c[0] && Less(a[1..], c[1..])))
  }

  lemma {:induction false} LessTotal(a: string, c: string)
    ensures Less(a, c) || Less(c, a) || a == c
    ensures !(Less(a, c) && Less(c, a)) && (a == c ==> !Less(a, c))
  {
    if a != [] && c != [] {
      LessTotal(a[1..], c[1..]);
      assert a == [a[0]] + a[1..] && c == [c[0]] + c[1..];
    }
  }

  lemma {:induction false} LessTransitive(a: string, c: string, d: string)
    requires Less(a, c) && Less(c, d)
    ensures Less(a, d)
  {
    if a != [] && a[0] == c[0] && c[0] == d[0] {
      LessTransitive(a[1..], c[1..], d[1..]);
    }
  }

  /** The order of strings: the first difference decides, and a beginning comes before. */
  lemma {:induction false} LessMeaning(a: string, c: string, i: nat)
    requires i <= |a| && i <= |c| && a[..i] == c[..i]
    ensures i == |a| < |c| ==> Less(a, c)
    ensures i < |a| && i < |c| && a[i] < c[i] ==> Less(a, c)
  {
    if i > 0 {
      assert a[0] == a[..i][0] == c[..i][0] == c[0];
      assert a[1..][..i - 1] == a[..i][1..] && c[1..][..i - 1] == c[..i][1..];
      LessMeaning(a[1..], c[1..], i - 1);
    }
  }

  predicate Sorted(keys: seq<string>) {
    forall i, j :: 0 <= i < j < |keys| ==> Less(keys[i], keys[j])
  }

  /** Puts a new key in its place. */
  method Insert(keys: seq<string>, k: string) returns (r: seq<string>)
    requires Sorted(keys) && k !in keys
    ensures Sorted(r) && forall x :: x in r <==> x in keys || x == k
  {
    var i := 0;
    while i < |keys| && Less(keys[i], k)
      invariant i <= |keys|
      invariant forall j :: 0 <= j < i ==> Less(keys[j], k)
    {
      i := i + 1;
    }
    r := keys[..i] + [k] + keys[i..];
    if i < |keys| {
      LessTotal(keys[i], k);
      forall j | i < j < |keys| ensures Less(k, keys[j]) {
        LessTransitive(k, keys[i], keys[j]);
      }
    }
  }

  /** The keys of the dictionary in order. */
  method SortedKeys(all: set<string>) returns (keys: seq<string>)
    ensures Sorted(keys) && forall x :: x in keys <==> x in all
  {
    keys := [];
    var rest := all;
    while rest != {}
      invariant rest <= all && Sorted(keys)
      invariant forall x :: x in keys <==> x in all - rest
      decreases |rest|
    {
      var k :| k in rest;
      rest := rest - {k};
      keys := Insert(keys, k);
    }
  }

  // ----- choosing

  type Net = seq<real> -> Vector

  /** What a finished turn is worth to the player who made it: the points of a won game,
      otherwise the opponent's equity with the sign turned. */
  function Worth(net: Net, e: State): real {
    if Winner(e).Some? then WinType(e) as real else -Equity(net(Encoding(e)))
  }

  /** Both branches of the worth are on one scale: the equity, for the player who has just
      moved, of the exact outcome or of the network's forecast turned around. */
  lemma WorthIsEquity(net: Net, e: State)
    requires Winner(e).None? || Winner(e) == Some(Opp(e.turn))
    ensures Worth(net, e) == Equity(
      if Winner(e).None? then Flip(net(Encoding(e))) else OutcomeFor(Winner(e).value, WinType(e), Opp(e.turn)))
  {
    var me := Opp(e.turn);
    if Winner(e).Some? {
      WinTypeMeaning(e, me);
      OutcomeLaws(net(Encoding(e)), me, WinType(e), me);
    } else {
      OutcomeLaws(net(Encoding(e)), me, 1, me);
    }
  }

  /** The loop over the sorted keys keeps the first one with the largest value. */
  method FirstBest(keys: seq<string>, vals: map<string, real>) returns (k: string)
    requires keys != [] && Sorted(keys) && forall x :: x in keys ==> x in vals
    ensures k in keys && forall x :: x in keys ==> vals[x] <= vals[k]
    ensures forall x :: x in keys && vals[x] == vals[k] && x != k ==> Less(k, x)
  {
    var b := 0;
    for i := 1 to |keys|
      invariant b < i
      invariant forall j :: 0 <= j < i ==> vals[keys[j]] <= vals[keys[b]]
      invariant forall j :: 0 <= j < b ==> vals[keys[j]] < vals[keys[b]]
    {
      if vals[keys[i]] > vals[keys[b]] {
        b := i;
      }
    }
    k := keys[b];
  }

  /** The worth of every full turn, the network asked only for games still in progress. */
  method Values(net: Net, fins: map<string, State>) returns (vals: map<string, real>)
    ensures vals.Keys == fins.Keys && forall k :: k in fins ==> vals[k] == Worth(net, fins[k])
  {
    vals := map[];
    var rest := fins.Keys;
    while rest != {}
      invariant rest <= fins.Keys && vals.Keys == fins.Keys - rest
      invariant forall k :: k in vals ==> vals[k] == Worth(net, fins[k])
      decreases |rest|
    {
      var k :| k in rest;
      rest := rest - {k};
      var f := fins[k];
      if Winner(f).Some? {
        vals := vals[k := WinType(f) as real];
      } else {
        var x := EncodeState(f);
        vals := vals[k := -Equity(net(x[..]))];
      }
    }
  }

  /** The best key of a dictionary of `ends` is the key of the best end. */
  lemma BestOfAll(net: Net, fins: map<string, State>, ends: set<State>, k: string)
    requires k in fins && fins[k] in ends && Key(fins[k]) == k
    requires forall e :: e in ends ==> Key(e) in fins && fins[Key(e)] == e
    requires forall x :: x in fins ==> Worth(net, fins[x]) <= Worth(net, fins[k])
    requires forall x :: x in fins && Worth(net, fins[x]) == Worth(net, fins[k]) && x != k ==> Less(k, x)
    ensures forall e :: e in ends ==> Worth(net, e) <= Worth(net, fins[k])
    ensures forall e :: e in ends && Worth(net, e) == Worth(net, fins[k]) && e != fins[k] ==> Less(Key(fins[k]), Key(e))
  {
    forall e | e in ends
      ensures Worth(net, e) <= Worth(net, fins[k])
      ensures Worth(net, e) == Worth(net, fins[k]) && e != fins[k] ==> Less(Key(fins[k]), Key(e))
    {
      assert Key(e) in fins && fins[Key(e)] == e;
    }
  }

  /** A draw answers a range with a number from it. */
  type Draw = nat -> nat

  ghost predicate InRange(draw: Draw) {
    forall n: nat :: n > 0 ==> draw(n) < n
  }

  /** In the order of the keys, `k` is where the draw points. */
  ghost predicate DrawnKey(draw: Draw, all: set<string>, k: string) {
    exists keys: seq<string> ::
      && Sorted(keys) && (forall x :: x in keys <==> x in all)
      && draw(|keys|) < |keys| && keys[draw(|keys|)] == k
  }

  /** The key that is chosen: the best one, the first on ties, or with `rng` the drawn one. */
  method ChooseKey(net: Net, fins: map<string, State>, rng: Option<Draw>) returns (k: string)
    requires fins != map[] && (rng.Some? ==> InRange(rng.value))
    ensures k in fins
    ensures rng.Some? ==> DrawnKey(rng.value, fins.Keys, k)
    ensures rng.None? ==> forall x :: x in fins ==> Worth(net, fins[x]) <= Worth(net, fins[k])
    ensures rng.None? ==> forall x :: x in fins && Worth(net, fins[x]) == Worth(net, fins[k]) && x != k ==> Less(k, x)
  {
    var keys := SortedKeys(fins.Keys);
    ghost var k0 :| k0 in fins;
    assert k0 in keys;
    if rng.Some? {
      var i := rng.value(|keys|);
      k := keys[i];
      assert k in keys;
      return;
    }
    var vals := Values(net, fins);
    k := FirstBest(keys, vals);
  }

  /** A full turn worth as much as any other, with the smallest key among equals. */
  ghost predicate BestTurn(net: Net, s: State, best: State) {
    && best in ObligedEnds(s)
    && (forall e :: e in ObligedEnds(s) ==> Worth(net, e) <= Worth(net, best))
    && (forall e :: e in ObligedEnds(s) && Worth(net, e) == Worth(net, best) && e != best ==> Less(Key(best), Key(e)))
  }

  /** There is only one such turn, so the choice is determined. */
  lemma BestTurnUnique(net: Net, s: State, e: State, f: State)
    requires BestTurn(net, s, e) && BestTurn(net, s, f)
    ensures e == f
  {
    LessTotal(Key(e), Key(f));
  }

  /** The full turn that the draw points at, in the order of the keys. */
  ghost predicate DrawnTurn(draw: Draw, s: State, e: State) {
    e in ObligedEnds(s) && DrawnKey(draw, KeysOf(ObligedEnds(s)), Key(e))
  }

  /** The best full turn; with a draw `rng`, the one drawn. */
  method ChooseTurn(net: Net, s: State, rng: Option<Draw>) returns (best: State)
    requires rng.Some? ==> InRange(rng.value)
    ensures best in ObligedEnds(s)
    ensures if rng.Some? then DrawnTurn(rng.value, s, best) else BestTurn(net, s, best)
  {
    var fins := FinalStates.FinalStates(s);
    SearchesAgree(s, KeysOf(ObligedEnds(s)), fins);
    ObligedEndsExist(s);
    var k := ChooseKey(net, fins, rng);
    best := fins[k];
    if rng.None? {
      BestOfAll(net, fins, ObligedEnds(s), k);
    }
  }

  lemma MirrorWorth(net: Net, e: State)
    requires e.ow < 15 || e.ob < 15
    ensures Worth(net, MirrorState(e)) == Worth(net, e)
  {
    if Winner(e).Some? {
      MirrorWin(e);
    } else {
      MirrorEncoding(e);
    }
  }

  /** The trained player is colour-blind: the full turns of the mirror image are the mirror
      images of the full turns, and each is worth the same. */
  lemma ChoiceIsColourBlind(net: Net, s: State, e: State)
    requires e in ObligedEnds(s) && (e.ow < 15 || e.ob < 15)
    ensures MirrorState(e) in ObligedEnds(MirrorState(s))
    ensures Worth(net, MirrorState(e)) == Worth(net, e)
  {
    MirrorObligedEnds(s);
    MirrorWorth(net, e);
  }

  /** A full turn from an unfinished position leaves at most one winner. */
  lemma OneWinner(s: State, e: State)
    requires Winner(s).None? && e in ObligedEnds(s)
    ensures e.ow < 15 || e.ob < 15
  {
    if s.dice.Some? {
      ObligedEndsExist(s);
      OpponentStandsAtEnd(s, Longest(NARDY, s), e);
    } else {
      NoStepsNoDice(s);
    }
  }

  /** `e` is worth more than every other full turn. */
  ghost predicate BestAlone(net: Net, s: State, e: State) {
    e in ObligedEnds(s) && forall f :: f in ObligedEnds(s) && f != e ==> Worth(net, f) < Worth(net, e)
  }

  lemma BestAloneMirrors(net: Net, s: State, e: State)
    requires Winner(s).None? && BestAlone(net, s, e)
    ensures BestAlone(net, MirrorState(s), MirrorState(e))
  {
    MirrorObligedEnds(s);
    OneWinner(s, e);
    MirrorWorth(net, e);
    forall f | f in ObligedEnds(MirrorState(s)) && f != MirrorState(e)
      ensures Worth(net, f) < Worth(net, MirrorState(e))
    {
      var g :| g in ObligedEnds(s) && MirrorState(g) == f;
      OneWinner(s, g);
      MirrorWorth(net, g);
    }
  }

  lemma BestAloneIsBest(net: Net, s: State, e: State)
    requires BestAlone(net, s, e)
    ensures BestTurn(net, s, e)
  {
  }

  /** Where no two full turns share the largest worth, so that the order of the keys does not
      matter, the choice in the mirror image is the mirror image of the choice. */
  lemma BestTurnMirrors(net: Net, s: State, e: State, f: State)
    requires Winner(s).None? && BestAlone(net, s, e)
    requires BestTurn(net, MirrorState(s), f)
    ensures f == MirrorState(e)
  {
    BestAloneMirrors(net, s, e);
    BestAloneIsBest(net, MirrorState(s), MirrorState(e));
    BestTurnUnique(net, MirrorState(s), f, MirrorState(e));
  }
}

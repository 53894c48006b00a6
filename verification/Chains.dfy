/**
  Longest chains of steps in any bounded step system. A chain takes steps one after
  another; it settles where it stops. The level-by-level description (`EndsAfter`,
  `Longest`) is shown to mean the same as the description by chains.
 */
module Chains {
  /** Steps available in a state, the state after a step, where a state settles when
      no further step is taken, and a bound on the number of steps to come. */
  datatype System<!S, !X> = System(steps: S -> set<X>, next: (S, X) -> S, settle: S -> S, bound: S -> nat)

  /** Every step lowers the bound. */
  ghost predicate Bounded<S(!new), X(!new)>(g: System<S, X>) {
    forall s, x :: x in g.steps(s) ==> g.bound(g.next(s, x)) < g.bound(s)
  }

  ghost function EndsFrom<S(!new), X(!new)>(g: System<S, X>, s: S, x: X, n: nat): set<S>
    decreases n, 2
  {
    EndsAfter(g, g.next(s, x), n)
  }

  /** The settled states after a step of `first` and then exactly `n` more steps. */
  ghost function EndsVia<S(!new), X(!new)>(g: System<S, X>, s: S, first: set<X>, n: nat): set<S>
    decreases n, 3
  {
    set x, e | x in first && e in EndsFrom(g, s, x, n) :: e
  }

  /** The settled states after exactly `n` steps. */
  ghost function EndsAfter<S(!new), X(!new)>(g: System<S, X>, s: S, n: nat): set<S>
    decreases n, 1
  {
    if n == 0 then {g.settle(s)} else EndsVia(g, s, g.steps(s), n - 1)
  }

  lemma {:induction false} AtMostBound<S(!new), X(!new)>(g: System<S, X>, s: S, n: nat)
    requires Bounded(g) && n > g.bound(s)
    ensures EndsAfter(g, s, n) == {}
    decreases n
  {
    forall x | x in g.steps(s) ensures EndsFrom(g, s, x, n - 1) == {} {
      AtMostBound(g, g.next(s, x), n - 1);
    }
  }

  ghost function LongestUpTo<S(!new), X(!new)>(g: System<S, X>, s: S, n: nat): (m: nat)
    ensures EndsAfter(g, s, m) != {}
    ensures forall k :: m < k <= n ==> EndsAfter(g, s, k) == {}
  {
    assert g.settle(s) in EndsAfter(g, s, 0);
    if EndsAfter(g, s, n) != {} then n else LongestUpTo(g, s, n - 1)
  }

  /** The length of the longest chains. */
  ghost function Longest<S(!new), X(!new)>(g: System<S, X>, s: S): nat {
    LongestUpTo(g, s, g.bound(s))
  }

  /** Where the longest chains settle. */
  ghost function LongestEnds<S(!new), X(!new)>(g: System<S, X>, s: S): set<S> {
    EndsAfter(g, s, Longest(g, s))
  }

  lemma LongestIsLast<S(!new), X(!new)>(g: System<S, X>, s: S)
    requires Bounded(g)
    ensures LongestEnds(g, s) != {}
    ensures forall k: nat :: Longest(g, s) < k ==> EndsAfter(g, s, k) == {}
  {
    forall k: nat | g.bound(s) < k ensures EndsAfter(g, s, k) == {} { AtMostBound(g, s, k); }
  }

  /** The steps that start a longest chain. */
  ghost function BestSteps<S(!new), X(!new)>(g: System<S, X>, s: S): set<X> {
    set x | x in g.steps(s) && Longest(g, g.next(s, x)) + 1 == Longest(g, s)
  }

  /** A step leaves at most one die fewer; the steps that lose nothing are those with
      an end at full length. */
  lemma LongestStep<S(!new), X(!new)>(g: System<S, X>, s: S, x: X)
    requires Bounded(g) && x in g.steps(s)
    ensures Longest(g, g.next(s, x)) + 1 <= Longest(g, s)
    ensures x in BestSteps(g, s) <==> EndsFrom(g, s, x, Longest(g, s) - 1) != {}
  {
    var t := g.next(s, x);
    var m := Longest(g, t);
    LongestIsLast(g, s);
    LongestIsLast(g, t);
    var e :| e in EndsAfter(g, t, m);
    assert e in EndsFrom(g, s, x, m);
    assert e in EndsVia(g, s, g.steps(s), m);
    assert EndsAfter(g, s, m + 1) != {};
  }

  lemma LongestZero<S(!new), X(!new)>(g: System<S, X>, s: S)
    requires Bounded(g)
    ensures Longest(g, s) == 0 <==> g.steps(s) == {}
    ensures g.steps(s) != {} ==> BestSteps(g, s) != {}
  {
    if x :| x in g.steps(s) {
      LongestStep(g, s, x);
      LongestIsLast(g, s);
      var e :| e in EndsAfter(g, s, Longest(g, s));
      assert e in EndsVia(g, s, g.steps(s), Longest(g, s) - 1);
      var y :| y in g.steps(s) && e in EndsFrom(g, s, y, Longest(g, s) - 1);
      LongestStep(g, s, y);
    } else {
      LongestIsLast(g, s);
      forall n: nat | n > 0 ensures EndsAfter(g, s, n) == {} {
        assert EndsVia(g, s, g.steps(s), n - 1) == {};
      }
    }
  }

  lemma ViaMonotone<S(!new), X(!new)>(g: System<S, X>, s: S, a: set<X>, b: set<X>, n: nat)
    requires a <= b
    ensures EndsVia(g, s, a, n) <= EndsVia(g, s, b, n)
  {
  }

  lemma ViaContains<S(!new), X(!new)>(g: System<S, X>, s: S, first: set<X>, x: X, n: nat)
    requires x in first
    ensures EndsFrom(g, s, x, n) <= EndsVia(g, s, first, n)
  {
  }

  lemma ViaNonEmpty<S(!new), X(!new)>(g: System<S, X>, s: S, first: set<X>, x: X, n: nat)
    requires x in first && EndsFrom(g, s, x, n) != {}
    ensures EndsVia(g, s, first, n) != {}
  {
    var e :| e in EndsFrom(g, s, x, n);
    assert e in EndsVia(g, s, first, n);
  }

  /** Starting with best steps loses nothing, and can be completed. */
  lemma BestStepsReachEnds<S(!new), X(!new)>(g: System<S, X>, s: S, first: set<X>)
    requires Bounded(g) && first != {} && first <= BestSteps(g, s)
    ensures Longest(g, s) > 0
    ensures EndsVia(g, s, first, Longest(g, s) - 1) != {}
    ensures EndsVia(g, s, first, Longest(g, s) - 1) <= LongestEnds(g, s)
  {
    var x :| x in first;
    LongestStep(g, s, x);
    ViaNonEmpty(g, s, first, x, Longest(g, s) - 1);
    ViaMonotone(g, s, first, g.steps(s), Longest(g, s) - 1);
  }

  /** What every step keeps holds wherever a chain settles. */
  lemma {:induction false} EndsKeep<S(!new), X(!new)>(g: System<S, X>, keep: S -> bool, s: S, n: nat, e: S)
    returns (last: S)
    requires forall t, x :: keep(t) && x in g.steps(t) ==> keep(g.next(t, x))
    requires keep(s) && e in EndsAfter(g, s, n)
    ensures keep(last) && g.settle(last) == e
    decreases n
  {
    last := s;
    if n > 0 {
      var x :| x in g.steps(s) && e in EndsFrom(g, s, x, n - 1);
      last := EndsKeep(g, keep, g.next(s, x), n - 1, e);
    }
  }

  // ----- chains

  ghost predicate Chain<S(!new), X(!new)>(g: System<S, X>, s: S, path: seq<X>)
    decreases |path|
  {
    path == [] || (path[0] in g.steps(s) && Chain(g, g.next(s, path[0]), path[1..]))
  }

  ghost function Played<S(!new), X(!new)>(g: System<S, X>, s: S, path: seq<X>): S
    decreases |path|
  {
    if path == [] then s else Played(g, g.next(s, path[0]), path[1..])
  }

  /** `path` is a chain that settles in `e`. */
  ghost predicate Reaches<S(!new), X(!new)>(g: System<S, X>, s: S, path: seq<X>, e: S) {
    Chain(g, s, path) && g.settle(Played(g, s, path)) == e
  }

  /** `path` is a chain and no chain is longer. */
  ghost predicate PlaysMost<S(!new), X(!new)>(g: System<S, X>, s: S, path: seq<X>) {
    Chain(g, s, path) && forall q :: Chain(g, s, q) ==> |q| <= |path|
  }

  lemma {:induction false} ChainEnds<S(!new), X(!new)>(g: System<S, X>, s: S, path: seq<X>)
    requires Chain(g, s, path)
    ensures g.settle(Played(g, s, path)) in EndsAfter(g, s, |path|)
    decreases |path|
  {
    if path != [] {
      ChainEnds(g, g.next(s, path[0]), path[1..]);
      assert g.settle(Played(g, s, path)) in EndsFrom(g, s, path[0], |path| - 1);
    }
  }

  lemma ChainCons<S(!new), X(!new)>(g: System<S, X>, s: S, x: X, rest: seq<X>)
    ensures Chain(g, s, [x] + rest) <==> x in g.steps(s) && Chain(g, g.next(s, x), rest)
    ensures Played(g, s, [x] + rest) == Played(g, g.next(s, x), rest)
  {
    assert ([x] + rest)[1..] == rest;
  }

  lemma {:induction false} EndChain<S(!new), X(!new)>(g: System<S, X>, s: S, n: nat, e: S) returns (path: seq<X>)
    requires e in EndsAfter(g, s, n)
    ensures Reaches(g, s, path, e) && |path| == n
    decreases n
  {
    if n == 0 {
      path := [];
    } else {
      var x :| x in g.steps(s) && e in EndsFrom(g, s, x, n - 1);
      var rest := EndChain(g, g.next(s, x), n - 1, e);
      ChainCons(g, s, x, rest);
      path := [x] + rest;
    }
  }

  /** `Longest` is the length of the longest chains. */
  lemma LongestMeaning<S(!new), X(!new)>(g: System<S, X>, s: S, path: seq<X>)
    requires Bounded(g)
    ensures PlaysMost(g, s, path) <==> Chain(g, s, path) && |path| == Longest(g, s)
  {
    LongestIsLast(g, s);
    var e :| e in EndsAfter(g, s, Longest(g, s));
    var longest := EndChain(g, s, Longest(g, s), e);
    forall q | Chain(g, s, q) ensures |q| <= Longest(g, s) {
      ChainEnds(g, s, q);
    }
  }

  /** The ends reached through chosen first steps at full length are where the longest
      chains with such a first step settle. */
  lemma EndsViaMeaning<S(!new), X(!new)>(g: System<S, X>, s: S, first: set<X>, e: S)
    requires Bounded(g) && g.steps(s) != {} && first <= g.steps(s)
    ensures Longest(g, s) > 0
    ensures e in EndsVia(g, s, first, Longest(g, s) - 1) <==>
      exists path :: PlaysMost(g, s, path) && path != [] && path[0] in first && g.settle(Played(g, s, path)) == e
  {
    LongestZero(g, s);
    var m := Longest(g, s) - 1;
    if e in EndsVia(g, s, first, m) {
      var x :| x in first && e in EndsFrom(g, s, x, m);
      var rest := EndChain(g, g.next(s, x), m, e);
      ChainCons(g, s, x, rest);
      LongestMeaning(g, s, [x] + rest);
      assert PlaysMost(g, s, [x] + rest) && ([x] + rest)[0] in first && g.settle(Played(g, s, [x] + rest)) == e;
    }
    if path :| PlaysMost(g, s, path) && path != [] && path[0] in first && g.settle(Played(g, s, path)) == e {
      LongestMeaning(g, s, path);
      ChainEnds(g, g.next(s, path[0]), path[1..]);
      assert e in EndsFrom(g, s, path[0], m);
    }
  }

  lemma BestStepsMeaning<S(!new), X(!new)>(g: System<S, X>, s: S, x: X)
    requires Bounded(g)
    ensures x in BestSteps(g, s) <==> exists path :: PlaysMost(g, s, path) && path != [] && path[0] == x
  {
    if x in g.steps(s) {
      LongestStep(g, s, x);
      var m := Longest(g, s) - 1;
      if x in BestSteps(g, s) {
        var e :| e in EndsFrom(g, s, x, m);
        EndsViaMeaning(g, s, {x}, e);
        assert e in EndsVia(g, s, {x}, m);
      }
      if path :| PlaysMost(g, s, path) && path != [] && path[0] == x {
        var e := g.settle(Played(g, s, path));
        EndsViaMeaning(g, s, {x}, e);
        var y :| y in {x} && e in EndsFrom(g, s, y, m);
      }
    }
  }

  // ----- tallying the longest chains one first step at a time

  ghost function LongestVia<S(!new), X(!new)>(g: System<S, X>, s: S, first: set<X>, n: nat): (m: nat)
    ensures m <= n && (m > 0 ==> EndsVia(g, s, first, m - 1) != {})
    ensures forall k: nat :: m <= k < n ==> EndsVia(g, s, first, k) == {}
  {
    if n == 0 || EndsVia(g, s, first, n - 1) != {} then n else LongestVia(g, s, first, n - 1)
  }

  /** Among chains that start in `first`, or stop at once if none does: the length of
      the longest, and where these settle. */
  ghost function TallySize<S(!new), X(!new)>(g: System<S, X>, s: S, first: set<X>): nat {
    LongestVia(g, s, first, g.bound(s))
  }

  ghost function TallyEnds<S(!new), X(!new)>(g: System<S, X>, s: S, first: set<X>): set<S> {
    if TallySize(g, s, first) == 0 then {g.settle(s)} else EndsVia(g, s, first, TallySize(g, s, first) - 1)
  }

  /** `best` is one more than the last level that `first` reaches. */
  ghost predicate LastLevel<S(!new), X(!new)>(g: System<S, X>, s: S, first: set<X>, best: nat) {
    && (best > 0 ==> EndsVia(g, s, first, best - 1) != {})
    && (forall k: nat :: best <= k ==> EndsVia(g, s, first, k) == {})
  }

  lemma TallyLevel<S(!new), X(!new)>(g: System<S, X>, s: S, first: set<X>, best: nat)
    requires Bounded(g) && first <= g.steps(s)
    ensures LastLevel(g, s, first, best) <==> best == TallySize(g, s, first)
  {
    forall k: nat | g.bound(s) <= k ensures EndsVia(g, s, first, k) == {} {
      AtMostBound(g, s, k + 1);
      assert EndsVia(g, s, g.steps(s), k) == EndsAfter(g, s, k + 1);
      ViaMonotone(g, s, first, g.steps(s), k);
    }
  }

  lemma TallyNone<S(!new), X(!new)>(g: System<S, X>, s: S)
    ensures TallySize(g, s, {}) == 0 && TallyEnds(g, s, {}) == {g.settle(s)}
  {
    assert forall n: nat :: EndsVia(g, s, {}, n) == {};
  }

  lemma ViaUnion<S(!new), X(!new)>(g: System<S, X>, s: S, first: set<X>, x: X, n: nat)
    ensures EndsVia(g, s, first + {x}, n) == EndsVia(g, s, first, n) + EndsFrom(g, s, x, n)
  {
  }

  lemma TallyStepSize<S(!new), X(!new)>(g: System<S, X>, s: S, first: set<X>, x: X)
    requires Bounded(g) && first <= g.steps(s) && x in g.steps(s)
    ensures
      var best, l := TallySize(g, s, first), 1 + Longest(g, g.next(s, x));
      TallySize(g, s, first + {x}) == if l > best then l else best
  {
    var t := g.next(s, x);
    var best, l := TallySize(g, s, first), 1 + Longest(g, t);
    LongestIsLast(g, t);
    TallyLevel(g, s, first, best);
    forall n: nat ensures EndsVia(g, s, first + {x}, n) == EndsVia(g, s, first, n) + EndsAfter(g, t, n) {
      ViaUnion(g, s, first, x, n);
    }
    TallyLevel(g, s, first + {x}, if l > best then l else best);
  }

  /** Where the tally over `first` settles, level by level. */
  lemma TallyEndsAt<S(!new), X(!new)>(g: System<S, X>, s: S, first: set<X>, n: nat)
    requires TallySize(g, s, first) == n + 1
    ensures TallyEnds(g, s, first) == EndsVia(g, s, first, n)
  {
  }

  /** The chains through `x` at level `n`, counted from the step after it. */
  lemma FromNext<S(!new), X(!new)>(g: System<S, X>, s: S, x: X, n: nat)
    requires Bounded(g) && x in g.steps(s)
    ensures EndsFrom(g, s, x, n) == EndsAfter(g, g.next(s, x), n)
    ensures n > Longest(g, g.next(s, x)) ==> EndsFrom(g, s, x, n) == {}
  {
    LongestIsLast(g, g.next(s, x));
  }

  lemma TallyLonger<S(!new), X(!new)>(g: System<S, X>, s: S, first: set<X>, x: X)
    requires Bounded(g) && first <= g.steps(s) && x in g.steps(s)
    requires Longest(g, g.next(s, x)) >= TallySize(g, s, first)
    ensures TallyEnds(g, s, first + {x}) == LongestEnds(g, g.next(s, x))
  {
    var n := Longest(g, g.next(s, x));
    TallyStepSize(g, s, first, x);
    TallyEndsAt(g, s, first + {x}, n);
    TallyLevel(g, s, first, TallySize(g, s, first));
    ViaUnion(g, s, first, x, n);
    FromNext(g, s, x, n);
  }

  lemma TallyEqual<S(!new), X(!new)>(g: System<S, X>, s: S, first: set<X>, x: X)
    requires Bounded(g) && first <= g.steps(s) && x in g.steps(s)
    requires 1 + Longest(g, g.next(s, x)) == TallySize(g, s, first)
    ensures TallyEnds(g, s, first + {x}) == TallyEnds(g, s, first) + LongestEnds(g, g.next(s, x))
  {
    var n := Longest(g, g.next(s, x));
    TallyStepSize(g, s, first, x);
    TallyEndsAt(g, s, first + {x}, n);
    TallyEndsAt(g, s, first, n);
    ViaUnion(g, s, first, x, n);
    FromNext(g, s, x, n);
  }

  lemma TallyShorter<S(!new), X(!new)>(g: System<S, X>, s: S, first: set<X>, x: X)
    requires Bounded(g) && first <= g.steps(s) && x in g.steps(s)
    requires 1 + Longest(g, g.next(s, x)) < TallySize(g, s, first)
    ensures TallyEnds(g, s, first + {x}) == TallyEnds(g, s, first)
  {
    var n := TallySize(g, s, first) - 1;
    TallyStepSize(g, s, first, x);
    TallyEndsAt(g, s, first + {x}, n);
    TallyEndsAt(g, s, first, n);
    ViaUnion(g, s, first, x, n);
    FromNext(g, s, x, n);
  }

  /** Adding one first step: a longer result replaces the tally, an equal one joins it. */
  lemma TallyStep<S(!new), X(!new)>(g: System<S, X>, s: S, first: set<X>, x: X)
    requires Bounded(g) && first <= g.steps(s) && x in g.steps(s)
    ensures
      var best, l := TallySize(g, s, first), 1 + Longest(g, g.next(s, x));
      var ends, es := TallyEnds(g, s, first), LongestEnds(g, g.next(s, x));
      && TallySize(g, s, first + {x}) == (if l > best then l else best)
      && TallyEnds(g, s, first + {x}) == (if l > best then es else if l == best then ends + es else ends)
  {
    var best, l := TallySize(g, s, first), 1 + Longest(g, g.next(s, x));
    TallyStepSize(g, s, first, x);
    if l > best {
      TallyLonger(g, s, first, x);
    } else if l == best {
      TallyEqual(g, s, first, x);
    } else {
      TallyShorter(g, s, first, x);
    }
  }

  /** The ends of a turn grow step by best step. */
  lemma ViaBestStep<S(!new), X(!new)>(g: System<S, X>, s: S, first: set<X>, x: X)
    requires x in BestSteps(g, s) && Longest(g, s) > 0
    ensures EndsVia(g, s, first + {x}, Longest(g, s) - 1) ==
      EndsVia(g, s, first, Longest(g, s) - 1) + LongestEnds(g, g.next(s, x))
  {
    ViaUnion(g, s, first, x, Longest(g, s) - 1);
  }

  /** The tally over all first steps is the answer. */
  lemma TallyAll<S(!new), X(!new)>(g: System<S, X>, s: S)
    requires Bounded(g)
    ensures TallySize(g, s, g.steps(s)) == Longest(g, s) && TallyEnds(g, s, g.steps(s)) == LongestEnds(g, s)
  {
    LongestIsLast(g, s);
    forall n: nat ensures EndsVia(g, s, g.steps(s), n) == EndsAfter(g, s, n + 1) {
    }
    TallyLevel(g, s, g.steps(s), Longest(g, s));
  }

  // ----- symmetries

  /** At `s`, `f` on states and `h` on steps commute with everything the system does. */
  ghost predicate Commutes<S(!new), X(!new)>(g: System<S, X>, f: S -> S, h: X -> X, s: S) {
    && g.steps(f(s)) == (set x | x in g.steps(s) :: h(x))
    && (forall x :: x in g.steps(s) ==> g.next(f(s), h(x)) == f(g.next(s, x)))
    && g.settle(f(s)) == f(g.settle(s))
    && g.bound(f(s)) == g.bound(s)
  }

  ghost predicate Symmetry<S(!new), X(!new)>(g: System<S, X>, f: S -> S, h: X -> X) {
    forall s :: Commutes(g, f, h, s)
  }

  ghost function Image<S, T>(f: S -> T, es: set<S>): set<T> {
    set e | e in es :: f(e)
  }

  /** A symmetry carries the ends of a state to the ends of its image. */
  lemma {:induction false} SymmetricEnds<S(!new), X(!new)>(g: System<S, X>, f: S -> S, h: X -> X, s: S, n: nat)
    requires Symmetry(g, f, h)
    ensures EndsAfter(g, f(s), n) == Image(f, EndsAfter(g, s, n))
    decreases n, 1
  {
    assert Commutes(g, f, h, s);
    if n > 0 {
      forall x | x in g.steps(s)
        ensures EndsFrom(g, f(s), h(x), n - 1) == Image(f, EndsFrom(g, s, x, n - 1))
      {
        SymmetricFrom(g, f, h, s, x, n - 1);
      }
      SymmetricVia(g, f, h, s, g.steps(s), n - 1);
    }
  }

  lemma {:induction false} SymmetricFrom<S(!new), X(!new)>(g: System<S, X>, f: S -> S, h: X -> X, s: S, x: X, n: nat)
    requires Symmetry(g, f, h) && x in g.steps(s)
    ensures EndsFrom(g, f(s), h(x), n) == Image(f, EndsFrom(g, s, x, n))
    decreases n, 2
  {
    assert Commutes(g, f, h, s);
    SymmetricEnds(g, f, h, g.next(s, x), n);
  }

  lemma SymmetricVia<S(!new), X(!new)>(g: System<S, X>, f: S -> S, h: X -> X, s: S, first: set<X>, n: nat)
    requires forall x :: x in first ==> EndsFrom(g, f(s), h(x), n) == Image(f, EndsFrom(g, s, x, n))
    ensures EndsVia(g, f(s), (set x | x in first :: h(x)), n) == Image(f, EndsVia(g, s, first, n))
  {
    var left, right := EndsVia(g, f(s), (set x | x in first :: h(x)), n), Image(f, EndsVia(g, s, first, n));
    forall e | e in left ensures e in right {
      var y :| y in (set x | x in first :: h(x)) && e in EndsFrom(g, f(s), y, n);
      var x :| x in first && y == h(x);
      var e' :| e' in EndsFrom(g, s, x, n) && f(e') == e;
      assert e' in EndsVia(g, s, first, n);
    }
    forall e | e in right ensures e in left {
      var e' :| e' in EndsVia(g, s, first, n) && f(e') == e;
      var x :| x in first && e' in EndsFrom(g, s, x, n);
      assert e in EndsFrom(g, f(s), h(x), n);
    }
  }

  lemma {:induction false} SymmetricUpTo<S(!new), X(!new)>(g: System<S, X>, f: S -> S, h: X -> X, s: S, n: nat)
    requires Symmetry(g, f, h)
    ensures LongestUpTo(g, f(s), n) == LongestUpTo(g, s, n)
  {
    SymmetricEnds(g, f, h, s, n);
    assert Commutes(g, f, h, s);
    if EndsAfter(g, s, n) == {} {
      assert g.settle(s) in EndsAfter(g, s, 0);
      SymmetricUpTo(g, f, h, s, n - 1);
    } else {
      var e :| e in EndsAfter(g, s, n);
      assert f(e) in EndsAfter(g, f(s), n);
    }
  }

  /** A symmetry keeps the length of the longest chains. */
  lemma SymmetricLongest<S(!new), X(!new)>(g: System<S, X>, f: S -> S, h: X -> X, s: S)
    requires Symmetry(g, f, h)
    ensures Longest(g, f(s)) == Longest(g, s)
  {
    assert Commutes(g, f, h, s);
    SymmetricUpTo(g, f, h, s, g.bound(s));
  }
}

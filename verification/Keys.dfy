/**
  The string key of a position: the points in decimal joined by commas, the two
  borne-off counts and the mover, separated by bars. Keys are injective.
 */
module Keys {
  import opened Board

  function Digit(d: int): char
    requires 0 <= d < 10
  {
    '0' + d as char
  }

  /** Decimal digits of a natural number. */
  function Decimal(n: nat): string {
    if n < 10 then [Digit(n)] else Decimal(n / 10) + [Digit(n % 10)]
  }

  /** Decimal notation of an integer. */
  function Str(n: int): string {
    if n < 0 then "-" + Decimal(-n) else Decimal(n)
  }

  function Join(xs: seq<int>): string
    requires xs != []
  {
    if |xs| == 1 then Str(xs[0]) else Str(xs[0]) + "," + Join(xs[1..])
  }

  function Colour(p: Player): string {
    if p == W then "W" else "B"
  }

  function Key(s: State): string {
    Join(s.b) + "|" + (Str(s.ow) + "|" + (Str(s.ob) + "|" + Colour(s.turn)))
  }

  // ----- numerals

  /** The value of a string of decimal digits. */
  function Value(t: string): int {
    if t == [] then 0 else 10 * Value(t[..|t| - 1]) + (t[|t| - 1] as int - '0' as int)
  }

  predicate Numeral(c: char) {
    c == '-' || '0' <= c <= '9'
  }

  lemma {:induction false} DecimalRoundTrip(n: nat)
    ensures Decimal(n) != [] && forall c :: c in Decimal(n) ==> '0' <= c <= '9'
    ensures Value(Decimal(n)) == n
  {
    if n < 10 {
      assert Decimal(n)[..0] == [];
    } else {
      DecimalRoundTrip(n / 10);
      assert Decimal(n)[..|Decimal(n)| - 1] == Decimal(n / 10);
    }
  }

  lemma StrInjective(m: int, n: int)
    ensures forall c :: c in Str(m) ==> Numeral(c)
    ensures Str(m) == Str(n) ==> m == n
  {
    DecimalRoundTrip(Abs(m));
    DecimalRoundTrip(Abs(n));
    if Str(m) == Str(n) {
      assert m < 0 ==> Str(m)[0] == '-' && Str(m)[1..] == Decimal(-m);
      assert n < 0 ==> Str(n)[0] == '-' && Str(n)[1..] == Decimal(-n);
      assert m >= 0 ==> Str(m)[0] in Decimal(m);
      assert n >= 0 ==> Str(n)[0] in Decimal(n);
    }
  }

  // ----- separators

  /** The number of numeral characters a string starts with. */
  function Lead(t: string): nat {
    if t == [] || !Numeral(t[0]) then 0 else 1 + Lead(t[1..])
  }

  lemma {:induction false} LeadOfSplit(u: string, c: char, v: string)
    requires (forall x :: x in u ==> Numeral(x)) && !Numeral(c)
    ensures Lead(u + [c] + v) == |u|
  {
    if u != [] {
      assert (u + [c] + v)[1..] == u[1..] + [c] + v;
      LeadOfSplit(u[1..], c, v);
    }
  }

  /** The first character outside the numerals splits a string in one way only. */
  lemma SplitUnique(u: string, c: char, v: string, u': string, c': char, v': string)
    requires (forall x :: x in u ==> Numeral(x)) && (forall x :: x in u' ==> Numeral(x))
    requires !Numeral(c) && !Numeral(c')
    requires u + [c] + v == u' + [c'] + v'
    ensures u == u' && c == c' && v == v'
  {
    var t, t' := u + [c] + v, u' + [c'] + v';
    LeadOfSplit(u, c, v);
    LeadOfSplit(u', c', v');
    assert t[|u|] == c && t'[|u'|] == c';
    assert u == t[..|u|] && u' == t'[..|u|];
    assert v == t[|u| + 1..] && v' == t'[|u| + 1..];
  }

  lemma SplitNumber(m: int, c: char, v: string, n: int, c': char, v': string)
    requires !Numeral(c) && !Numeral(c')
    requires Str(m) + [c] + v == Str(n) + [c'] + v'
    ensures m == n && c == c' && v == v'
  {
    StrInjective(m, n);
    StrInjective(n, m);
    SplitUnique(Str(m), c, v, Str(n), c', v');
  }

  function Separator(xs: seq<int>): char {
    if |xs| == 1 then '|' else ','
  }

  function Remainder(xs: seq<int>, u: string): string
    requires xs != []
  {
    if |xs| == 1 then u else Join(xs[1..]) + "|" + u
  }

  lemma JoinHead(xs: seq<int>, u: string)
    requires xs != []
    ensures Join(xs) + "|" + u == Str(xs[0]) + [Separator(xs)] + Remainder(xs, u)
  {
  }

  /** A comma-joined list followed by a bar can be read back. */
  lemma {:induction false} JoinInjective(xs: seq<int>, ys: seq<int>, u: string, v: string)
    requires xs != [] && ys != []
    requires Join(xs) + "|" + u == Join(ys) + "|" + v
    ensures xs == ys && u == v
  {
    JoinHead(xs, u);
    JoinHead(ys, v);
    SplitNumber(xs[0], Separator(xs), Remainder(xs, u), ys[0], Separator(ys), Remainder(ys, v));
    if |xs| > 1 {
      JoinInjective(xs[1..], ys[1..], u, v);
      assert xs == [xs[0]] + xs[1..] && ys == [ys[0]] + ys[1..];
    }
  }

  /** Equal keys mean equal boards, borne-off counts and movers, and conversely. */
  lemma KeyInjective(s: State, t: State)
    ensures Key(s) == Key(t) <==> s.b == t.b && s.ow == t.ow && s.ob == t.ob && s.turn == t.turn
  {
    if Key(s) == Key(t) {
      var u := Str(s.ow) + "|" + (Str(s.ob) + "|" + Colour(s.turn));
      var v := Str(t.ow) + "|" + (Str(t.ob) + "|" + Colour(t.turn));
      JoinInjective(s.b, t.b, u, v);
      SplitNumber(s.ow, '|', Str(s.ob) + "|" + Colour(s.turn), t.ow, '|', Str(t.ob) + "|" + Colour(t.turn));
      SplitNumber(s.ob, '|', Colour(s.turn), t.ob, '|', Colour(t.turn));
      assert Colour(s.turn)[0] == Colour(t.turn)[0];
    }
  }

  lemma NumbersAsUsual()
    ensures Str(0) == "0" && Str(7) == "7" && Str(-3) == "-3" && Str(15) == "15" && Str(-15) == "-15"
  {
    assert Decimal(1) == "1" && Decimal(15) == Decimal(1) + "5";
  }

  /** The digits are those of the decimal system. */
  lemma DigitText(d: int)
    requires 0 <= d < 10
    ensures Decimal(d) == ["0123456789"[d]]
  {
  }

  lemma ListAsUsual()
    ensures Join([1, -2, 0]) == "1,-2,0"
  {
    assert [1, -2, 0][1..] == [-2, 0] && [-2, 0][1..] == [0];
    assert Join([0]) == "0";
    assert Join([-2, 0]) == "-2,0";
  }

  /** The key in the order board, White's and Black's borne-off counts, W or B. */
  lemma KeyText(s: State)
    ensures Key(s) == Join(s.b) + "|" + Str(s.ow) + "|" + Str(s.ob) + "|" + (if s.turn == 1 then "W" else "B")
  {
  }
}

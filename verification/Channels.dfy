/**
  Channel posts: an append-only table read in pages of a hundred. A reader who asks again
  from the last sequence number received gets every post once, exactly when no post
  arrives below the cursor while it reads.
 */
module Channels {
  import opened Wrappers
  import opened RelayTypes

  type Table = map<(string, int), string>

  const PAGE: nat := 100

  /** The first post under a channel and sequence number stays; later ones are ignored. */
  function Publish(t: Table, channel: string, number: Option<int>, payload: string): Table {
    if channel == "" || number.None? || payload == "" then t
    else if (channel, ToInt32(number.value)) in t then t
    else t[(channel, ToInt32(number.value)) := payload]
  }

  predicate Grows(t: Table, u: Table) {
    forall k :: k in t ==> k in u && u[k] == t[k]
  }

  /** A stored post never changes or disappears, and a new one is stored as it came. */
  lemma PublishAppends(t: Table, channel: string, s: int, payload: string)
    ensures
      var u := Publish(t, channel, Some(s), payload);
      && Grows(t, u)
      && (channel != "" && payload != "" ==>
            && (channel, ToInt32(s)) in u
            && ((channel, ToInt32(s)) !in t ==> u[(channel, ToInt32(s))] == payload))
      && (forall k :: k in u && k !in t ==> k == (channel, ToInt32(s)))
  {
  }

  // ----- pages

  predicate Ascending(page: seq<(int, string)>) {
    forall i, j :: 0 <= i < j < |page| ==> page[i].0 < page[j].0
  }

  /** What a fetch returns: the posts above the cursor in ascending order, without gaps,
      all of them or the first hundred. */
  ghost predicate IsPage(t: Table, channel: string, cursor: int, page: seq<(int, string)>) {
    && |page| <= PAGE && Ascending(page)
    && (forall i :: 0 <= i < |page| ==>
          page[i].0 > cursor && (channel, page[i].0) in t && t[(channel, page[i].0)] == page[i].1)
    && (forall q :: (channel, q) in t && q > cursor && !Shows(page, q) ==>
          |page| == PAGE && page[PAGE - 1].0 < q)
  }

  predicate Shows(page: seq<(int, string)>, q: int) {
    exists i :: 0 <= i < |page| && page[i].0 == q
  }

  function Seqs(page: seq<(int, string)>): set<int> {
    set i | 0 <= i < |page| :: page[i].0
  }

  /** The reader's next cursor: the last sequence number received. */
  function Advance(cursor: int, page: seq<(int, string)>): int {
    if page == [] then cursor else page[|page| - 1].0
  }

  ghost function Between(t: Table, channel: string, lo: int, hi: int): set<int> {
    set k | k in t && k.0 == channel && lo < k.1 <= hi :: k.1
  }

  lemma InBetween(t: Table, channel: string, lo: int, hi: int, q: int)
    ensures q in Between(t, channel, lo, hi) <==> (channel, q) in t && lo < q <= hi
  {
    if (channel, q) in t && lo < q <= hi {
      var k := (channel, q);
      assert k in t && k.0 == channel && k.1 == q;
    }
  }

  /** A page is exactly the stretch of the channel between two cursors. */
  lemma PageIsStretch(t: Table, channel: string, cursor: int, page: seq<(int, string)>)
    requires IsPage(t, channel, cursor, page)
    ensures cursor <= Advance(cursor, page)
    ensures Seqs(page) == Between(t, channel, cursor, Advance(cursor, page))
    ensures page == [] ==> forall q :: (channel, q) in t ==> q <= cursor
  {
    var hi := Advance(cursor, page);
    forall q ensures q in Seqs(page) <==> q in Between(t, channel, cursor, hi) {
      InBetween(t, channel, cursor, hi, q);
      if q in Seqs(page) {
        var i :| 0 <= i < |page| && page[i].0 == q;
        assert page[i].0 <= page[|page| - 1].0;
      }
    }
    forall q | page == [] && (channel, q) in t ensures q <= cursor {
      assert !Shows(page, q);
    }
  }

  // ----- reading a channel to its end

  /** One fetch: the table it was answered from, and the page. */
  datatype Round = Round(table: Table, page: seq<(int, string)>)

  ghost function Cursor(rounds: seq<Round>, start: int): int {
    if rounds == [] then start
    else Advance(Cursor(rounds[..|rounds| - 1], start), rounds[|rounds| - 1].page)
  }

  /** Each fetch starts from the last sequence number received; the table may grow
      between fetches. */
  ghost predicate Session(rounds: seq<Round>, channel: string, start: int) {
    rounds == [] ||
    var n := |rounds| - 1;
    && Session(rounds[..n], channel, start)
    && IsPage(rounds[n].table, channel, Cursor(rounds[..n], start), rounds[n].page)
    && (n > 0 ==> Grows(rounds[n - 1].table, rounds[n].table))
  }

  lemma SessionSnoc(rounds: seq<Round>, r: Round, channel: string, start: int)
    requires Session(rounds, channel, start) && IsPage(r.table, channel, Cursor(rounds, start), r.page)
    requires rounds != [] ==> Grows(rounds[|rounds| - 1].table, r.table)
    ensures Session(rounds + [r], channel, start)
  {
    assert (rounds + [r])[..|rounds|] == rounds;
  }

  /** All pages one after another. */
  function Received(rounds: seq<Round>): seq<(int, string)> {
    if rounds == [] then [] else Received(rounds[..|rounds| - 1]) + rounds[|rounds| - 1].page
  }

  /** No post has arrived between two fetches at or below the cursor reached. */
  ghost predicate NoneLate(rounds: seq<Round>, channel: string, start: int) {
    rounds == [] ||
    var n := |rounds| - 1;
    && NoneLate(rounds[..n], channel, start)
    && (n > 0 ==>
          Between(rounds[n].table, channel, start, Cursor(rounds[..n], start)) ==
          Between(rounds[n - 1].table, channel, start, Cursor(rounds[..n], start)))
  }

  /** Up to the cursor `posts` has what the last answer was taken from. */
  ghost predicate Unchanged(rounds: seq<Round>, posts: Table, channel: string, start: int) {
    rounds != [] ==>
      var y := Cursor(rounds, start);
      Between(posts, channel, start, y) == Between(rounds[|rounds| - 1].table, channel, start, y)
  }

  lemma NoneLateSnoc(rounds: seq<Round>, r: Round, channel: string, start: int)
    ensures NoneLate(rounds + [r], channel, start) <==>
      NoneLate(rounds, channel, start) && Unchanged(rounds, r.table, channel, start)
  {
    assert (rounds + [r])[..|rounds|] == rounds;
  }

  /** What has been received is in ascending order, so nothing comes twice; every post is
      above the start, not above the cursor, and as stored. */
  lemma {:induction false} ReceivedInOrder(rounds: seq<Round>, channel: string, start: int)
    requires Session(rounds, channel, start)
    ensures start <= Cursor(rounds, start)
    ensures Ascending(Received(rounds))
    ensures forall i :: 0 <= i < |Received(rounds)| ==>
      var (q, p) := Received(rounds)[i];
      start < q <= Cursor(rounds, start)
      && (channel, q) in rounds[|rounds| - 1].table && rounds[|rounds| - 1].table[(channel, q)] == p
  {
    if rounds != [] {
      var n := |rounds| - 1;
      ReceivedInOrder(rounds[..n], channel, start);
      PageIsStretch(rounds[n].table, channel, Cursor(rounds[..n], start), rounds[n].page);
      OrderStep(rounds, channel, start);
    }
  }

  lemma OrderStep(rounds: seq<Round>, channel: string, start: int)
    requires rounds != [] && Session(rounds, channel, start)
    requires
      var before := rounds[..|rounds| - 1];
      && start <= Cursor(before, start) && Ascending(Received(before))
      && forall i :: 0 <= i < |Received(before)| ==>
        var (q, p) := Received(before)[i];
        start < q <= Cursor(before, start)
        && (channel, q) in before[|before| - 1].table && before[|before| - 1].table[(channel, q)] == p
    requires Cursor(rounds[..|rounds| - 1], start) <= Cursor(rounds, start)
    ensures Ascending(Received(rounds))
    ensures forall i :: 0 <= i < |Received(rounds)| ==>
      var (q, p) := Received(rounds)[i];
      start < q <= Cursor(rounds, start)
      && (channel, q) in rounds[|rounds| - 1].table && rounds[|rounds| - 1].table[(channel, q)] == p
  {
    var n := |rounds| - 1;
    var before, page := Received(rounds[..n]), rounds[n].page;
    assert Received(rounds) == before + page;
    if n > 0 {
      assert rounds[..n][n - 1] == rounds[n - 1];
    }
    forall i | 0 <= i < |before + page|
      ensures
        var (q, p) := (before + page)[i];
        start < q <= Cursor(rounds, start)
        && (channel, q) in rounds[n].table && rounds[n].table[(channel, q)] == p
    {
      if i < |before| {
        assert (before + page)[i] == before[i];
      } else {
        assert (before + page)[i] == page[i - |before|];
        assert page[i - |before|].0 <= page[|page| - 1].0;
      }
    }
  }

  lemma SeqsAppend(a: seq<(int, string)>, b: seq<(int, string)>)
    ensures Seqs(a + b) == Seqs(a) + Seqs(b)
  {
    forall q | q in Seqs(a) + Seqs(b) ensures q in Seqs(a + b) {
      if q in Seqs(a) {
        var i :| 0 <= i < |a| && a[i].0 == q;
        assert (a + b)[i] == a[i];
      } else {
        var i :| 0 <= i < |b| && b[i].0 == q;
        assert (a + b)[|a| + i] == b[i];
      }
    }
  }

  lemma BetweenSplit(t: Table, channel: string, lo: int, mid: int, hi: int)
    requires lo <= mid <= hi
    ensures Between(t, channel, lo, hi) == Between(t, channel, lo, mid) + Between(t, channel, mid, hi)
    ensures Between(t, channel, lo, mid) !! Between(t, channel, mid, hi)
  {
    forall q
      ensures q in Between(t, channel, lo, hi) <==>
        q in Between(t, channel, lo, mid) || q in Between(t, channel, mid, hi)
      ensures !(q in Between(t, channel, lo, mid) && q in Between(t, channel, mid, hi))
    {
      InBetween(t, channel, lo, hi, q);
      InBetween(t, channel, lo, mid, q);
      InBetween(t, channel, mid, hi, q);
    }
  }

  /** Up to its cursor the reader has everything, exactly when no post came late. */
  lemma {:induction false} ReceivedUpToCursor(rounds: seq<Round>, channel: string, start: int)
    requires Session(rounds, channel, start) && rounds != []
    ensures
      var due := Between(rounds[|rounds| - 1].table, channel, start, Cursor(rounds, start));
      && Seqs(Received(rounds)) <= due
      && (Seqs(Received(rounds)) == due <==> NoneLate(rounds, channel, start))
  {
    var n := |rounds| - 1;
    var x, y := Cursor(rounds[..n], start), Cursor(rounds, start);
    var t := rounds[n].table;
    ReceivedInOrder(rounds[..n], channel, start);
    PageIsStretch(t, channel, x, rounds[n].page);
    BetweenSplit(t, channel, start, x, y);
    SeqsAppend(Received(rounds[..n]), rounds[n].page);
    if n > 0 {
      ReceivedUpToCursor(rounds[..n], channel, start);
      assert rounds[..n][n - 1] == rounds[n - 1];
      GrowsBetween(rounds[n - 1].table, t, channel, start, x);
    } else {
      assert rounds[..0] == [];
      forall q ensures q !in Between(t, channel, start, start) {
        InBetween(t, channel, start, start, q);
      }
      assert NoneLate(rounds[..0], channel, start);
    }
  }

  lemma GrowsBetween(t: Table, u: Table, channel: string, lo: int, hi: int)
    requires Grows(t, u)
    ensures Between(t, channel, lo, hi) <= Between(u, channel, lo, hi)
  {
    forall q | q in Between(t, channel, lo, hi) ensures q in Between(u, channel, lo, hi) {
      InBetween(t, channel, lo, hi, q);
      InBetween(u, channel, lo, hi, q);
    }
  }

  /** Reading until a page comes empty: each post above the start is received exactly once
      and in order, if and only if no post arrived between two fetches at or below the
      cursor reached by then. */
  lemma ReadToEnd(rounds: seq<Round>, channel: string, start: int)
    requires Session(rounds, channel, start) && rounds != [] && rounds[|rounds| - 1].page == []
    ensures Ascending(Received(rounds))
    ensures
      var t := rounds[|rounds| - 1].table;
      NoneLate(rounds, channel, start) <==>
      (forall q :: (channel, q) in t && q > start <==> q in Seqs(Received(rounds)))
  {
    var n := |rounds| - 1;
    var t, y := rounds[n].table, Cursor(rounds, start);
    ReceivedInOrder(rounds, channel, start);
    ReceivedUpToCursor(rounds, channel, start);
    PageIsStretch(t, channel, Cursor(rounds[..n], start), []);
    forall q ensures q in Between(t, channel, start, y) <==> (channel, q) in t && q > start {
      InBetween(t, channel, start, y, q);
    }
  }

  // ----- reading ends

  /** All answers were taken from one table, and none was empty. */
  predicate Steady(rounds: seq<Round>, t: Table) {
    forall i :: 0 <= i < |rounds| ==> rounds[i].table == t && rounds[i].page != []
  }

  /** A page that another one follows is full. */
  lemma FollowedPageIsFull(t: Table, channel: string, cursor: int, page: seq<(int, string)>, next: seq<(int, string)>)
    requires IsPage(t, channel, cursor, page) && IsPage(t, channel, Advance(cursor, page), next) && next != []
    ensures |page| == PAGE
  {
    var q := next[0].0;
    PageIsStretch(t, channel, cursor, page);
    if page != [] && Shows(page, q) {
      var i :| 0 <= i < |page| && page[i].0 == q;
      assert page[i].0 <= page[|page| - 1].0;
    }
  }

  /** All answers but the last are full pages. */
  lemma {:induction false} AnswersAreFull(rounds: seq<Round>, t: Table, channel: string, start: int)
    requires Session(rounds, channel, start) && Steady(rounds, t) && rounds != []
    ensures |Received(rounds)| > PAGE * (|rounds| - 1)
  {
    var n := |rounds| - 1;
    if n > 0 {
      var before := rounds[..n];
      AnswersAreFull(before, t, channel, start);
      FullSoFar(rounds, t, channel, start);
    }
  }

  lemma {:induction false} FullSoFar(rounds: seq<Round>, t: Table, channel: string, start: int)
    requires Session(rounds, channel, start) && Steady(rounds, t) && rounds != []
    ensures |Received(rounds[..|rounds| - 1])| == PAGE * (|rounds| - 1)
  {
    var n := |rounds| - 1;
    if n > 0 {
      var before := rounds[..n];
      FullSoFar(before, t, channel, start);
      assert before[..n - 1] == rounds[..n - 1] && before[n - 1] == rounds[n - 1];
      FollowedPageIsFull(t, channel, Cursor(before[..n - 1], start), before[n - 1].page, rounds[n].page);
    }
  }

  /** Numbers in ascending order are as many as they seem. */
  lemma {:induction false} AscendingSize(page: seq<(int, string)>)
    requires Ascending(page)
    ensures |Seqs(page)| == |page|
  {
    if page == [] {
      assert Seqs(page) == {};
    } else {
      var n := |page| - 1;
      AscendingSize(page[..n]);
      assert page == page[..n] + [page[n]];
      SeqsAppend(page[..n], [page[n]]);
      assert Seqs([page[n]]) == {page[n].0};
      assert page[n].0 !in Seqs(page[..n]);
    }
  }

  lemma SubsetSize(a: set<int>, b: set<int>)
    requires a <= b
    ensures |a| <= |b|
  {
    assert b == a + (b - a);
  }

  /** A reader stops: while nothing new is posted, an empty page comes as soon as the pages,
      a hundred posts each, have used up the posts above its start. */
  lemma ReadingEnds(rounds: seq<Round>, t: Table, channel: string, start: int)
    requires Session(rounds, channel, start) && Steady(rounds, t) && rounds != []
    ensures PAGE * (|rounds| - 1) < |SeqsAbove(t, channel, start)|
  {
    AnswersAreFull(rounds, t, channel, start);
    ReceivedInOrder(rounds, channel, start);
    AscendingSize(Received(rounds));
    forall q | q in Seqs(Received(rounds)) ensures q in SeqsAbove(t, channel, start) {
      var i :| 0 <= i < |Received(rounds)| && Received(rounds)[i].0 == q;
      InSeqsAbove(t, channel, start, q);
    }
    SubsetSize(Seqs(Received(rounds)), SeqsAbove(t, channel, start));
  }

  // ----- serving a page

  method AnyOf<T>(s: set<T>) returns (x: T)
    requires s != {}
    ensures x in s
  {
    x :| x in s;
  }

  /** The smallest element of a set. */
  method Least(s: set<int>) returns (m: int)
    requires s != {}
    ensures m in s && forall y :: y in s ==> m <= y
  {
    m := AnyOf(s);
    var rest := s - {m};
    while rest != {}
      invariant rest <= s && m in s
      invariant forall y :: y in s && y !in rest ==> m <= y
      decreases |rest|
    {
      var x := AnyOf(rest);
      rest := rest - {x};
      if x < m {
        m := x;
      }
    }
  }

  /** The sequence numbers of a channel above a cursor. */
  function SeqsAbove(t: Table, channel: string, cursor: int): set<int> {
    set k | k in t && k.0 == channel && k.1 > cursor :: k.1
  }

  lemma InSeqsAbove(t: Table, channel: string, cursor: int, q: int)
    ensures q in SeqsAbove(t, channel, cursor) <==> (channel, q) in t && q > cursor
  {
    if (channel, q) in t && q > cursor {
      var k := (channel, q);
      assert k in t && k.0 == channel && k.1 == q;
    }
  }

  lemma ShowsNext(page: seq<(int, string)>, e: (int, string), q: int)
    ensures Shows(page + [e], q) <==> Shows(page, q) || q == e.0
  {
    if Shows(page, q) {
      var i :| 0 <= i < |page| && page[i].0 == q;
      assert (page + [e])[i].0 == q;
    } else if q == e.0 {
      assert (page + [e])[|page|].0 == q;
    }
  }

  /** The page so far and the numbers still to come, all above those on the page. */
  ghost predicate Serving(t: Table, channel: string, all: set<int>, page: seq<(int, string)>, left: set<int>) {
    && Ascending(page)
    && (forall i :: 0 <= i < |page| ==>
          page[i].0 in all && (channel, page[i].0) in t && t[(channel, page[i].0)] == page[i].1)
    && (forall q :: q in all <==> q in left || Shows(page, q))
    && (forall i, q :: 0 <= i < |page| && q in left ==> page[i].0 < q)
  }

  lemma ServeNext(t: Table, channel: string, all: set<int>, page: seq<(int, string)>, left: set<int>, q: int)
    requires Serving(t, channel, all, page, left) && q in left && (channel, q) in t
    requires forall y :: y in left ==> q <= y
    ensures Serving(t, channel, all, page + [(q, t[(channel, q)])], left - {q})
  {
    forall x ensures Shows(page + [(q, t[(channel, q)])], x) <==> Shows(page, x) || x == q {
      ShowsNext(page, (q, t[(channel, q)]), x);
    }
  }

  /** `SELECT .. WHERE channel_id=? AND seq>? ORDER BY seq ASC LIMIT 100` */
  method Fetch(t: Table, channel: string, since: int) returns (page: seq<(int, string)>)
    ensures IsPage(t, channel, ToInt32(since), page)
  {
    var cursor := ToInt32(since);
    var all := SeqsAbove(t, channel, cursor);
    forall q ensures q in all <==> (channel, q) in t && q > cursor {
      InSeqsAbove(t, channel, cursor, q);
    }
    var left := all;
    page := [];
    while left != {} && |page| < PAGE
      invariant |page| <= PAGE && left <= all && Serving(t, channel, all, page, left)
      decreases |left|
    {
      var q := Least(left);
      ServeNext(t, channel, all, page, left, q);
      left := left - {q};
      page := page + [(q, t[(channel, q)])];
    }
  }
}

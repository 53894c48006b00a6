/**
  Readers of channels in runs of the relay: whatever else happens, a reader who asks from
  the last number received gets every post, unless one arrives behind its cursor.
 */
module Reading {
  import opened Wrappers
  import opened RelayTypes
  import opened Relay
  import opened Replies
  import M = Mailbox
  import P = Prekeys
  import C = Channels

  /** The event answers the reader on the channel: a fetch over a connection that is open. */
  predicate FetchedBy<K>(st: Server<K>, e: Event<K>, reader: K, channel: string) {
    && e.FetchFrame? && e.k == reader && e.channel == channel && channel != ""
    && reader in st.mail.socks && st.mail.socks[reader].open
  }

  /** The answers a reader has got on a channel, each with the table it was taken from. */
  ghost function Fetches<K>(st: Server<K>, evs: seq<Event<K>>, reader: K, channel: string): seq<C.Round> {
    if evs == [] then []
    else
      var n := |evs| - 1;
      Fetched(Final(st, evs[..n]), evs[n], Fetches(st, evs[..n], reader, channel), reader, channel)
  }

  /** The answers after one more event. */
  ghost function Fetched<K>(
    st: Server<K>, e: Event<K>, rounds: seq<C.Round>, reader: K, channel: string): seq<C.Round>
  {
    if FetchedBy(st, e, reader, channel) then rounds + [C.Round(st.posts, e.page)] else rounds
  }

  /** The reader always asks from the last number it received. */
  ghost predicate Follows<K>(st: Server<K>, evs: seq<Event<K>>, reader: K, channel: string, start: int) {
    evs == [] ||
    var n := |evs| - 1;
    && Follows(st, evs[..n], reader, channel, start)
    && (FetchedBy(Final(st, evs[..n]), evs[n], reader, channel) ==>
          ToInt32(evs[n].since) == C.Cursor(Fetches(st, evs[..n], reader, channel), start))
  }

  /** A session whose last table is still part of the posts. */
  ghost predicate SessionOn(rounds: seq<C.Round>, posts: C.Table, channel: string, start: int) {
    C.Session(rounds, channel, start) && (rounds != [] ==> C.Grows(rounds[|rounds| - 1].table, posts))
  }

  lemma SessionAfter<K>(
    st: Server<K>, e: Event<K>, rounds: seq<C.Round>, reader: K, channel: string, start: int)
    requires channel != "" && Possible(st, e) && SessionOn(rounds, st.posts, channel, start)
    requires FetchedBy(st, e, reader, channel) ==> ToInt32(e.since) == C.Cursor(rounds, start)
    ensures SessionOn(Fetched(st, e, rounds, reader, channel), After(st, e).posts, channel, start)
  {
    GrowsAfter(st, e);
    if FetchedBy(st, e, reader, channel) {
      C.SessionSnoc(rounds, C.Round(st.posts, e.page), channel, start);
    }
  }

  /** Whatever else happens in a run, such a reader's answers form one reading session, to
      which all that is proved of sessions applies. */
  lemma {:induction false} FetchesAreSession<K>(
    st: Server<K>, evs: seq<Event<K>>, reader: K, channel: string, start: int)
    requires channel != "" && Run(st, evs) && Follows(st, evs, reader, channel, start)
    ensures SessionOn(Fetches(st, evs, reader, channel), Final(st, evs).posts, channel, start)
  {
    if evs != [] {
      var n := |evs| - 1;
      FetchesAreSession(st, evs[..n], reader, channel, start);
      SessionAfter(Final(st, evs[..n]), evs[n], Fetches(st, evs[..n], reader, channel), reader, channel, start);
    }
  }

  // ----- the answers are what is sent

  /** The pages of a channel among the frames of a connection. */
  function PagesOn(sent: seq<Frame>, channel: string): seq<seq<(int, string)>> {
    if sent == [] then []
    else
      var n := |sent| - 1;
      PagesOn(sent[..n], channel) +
      if sent[n].Posts? && sent[n].channel == channel then [sent[n].posts] else []
  }

  /** The posts of a list of pages, one after another. */
  function Flat(pages: seq<seq<(int, string)>>): seq<(int, string)> {
    if pages == [] then [] else Flat(pages[..|pages| - 1]) + pages[|pages| - 1]
  }

  function PagesOf(rounds: seq<C.Round>): seq<seq<(int, string)>> {
    seq(|rounds|, i requires 0 <= i < |rounds| => rounds[i].page)
  }

  lemma {:induction false} FlatIsReceived(rounds: seq<C.Round>)
    ensures Flat(PagesOf(rounds)) == C.Received(rounds)
  {
    if rounds != [] {
      var n := |rounds| - 1;
      FlatIsReceived(rounds[..n]);
      assert PagesOf(rounds)[..n] == PagesOf(rounds[..n]);
    }
  }

  lemma {:induction false} PagesAppend(sent: seq<Frame>, added: seq<Frame>, channel: string)
    requires forall f :: f in added ==> !f.Posts?
    ensures PagesOn(sent + added, channel) == PagesOn(sent, channel)
    decreases |added|
  {
    if added == [] {
      assert sent + added == sent;
    } else {
      var n := |added| - 1;
      assert (sent + added)[..|sent| + n] == sent + added[..n];
      assert added[n] in added;
      PagesAppend(sent, added[..n], channel);
    }
  }

  lemma PagesSnoc(sent: seq<Frame>, channel: string, posted: string, page: seq<(int, string)>)
    ensures PagesOn(sent + [Posts(posted, page)], channel) ==
      PagesOn(sent, channel) + if posted == channel then [page] else []
  {
    assert (sent + [Posts(posted, page)])[..|sent|] == sent;
  }

  /** What the reader has been sent of the channel; nothing before it connects. */
  ghost function PagesSent<K>(st: Server<K>, reader: K, channel: string): seq<seq<(int, string)>> {
    if reader in st.mail.socks then PagesOn(st.mail.socks[reader].sent, channel) else []
  }

  /** An event sends the reader exactly one page if it answers it, and otherwise none. */
  lemma PagesAfter<K>(st: Server<K>, e: Event<K>, reader: K, channel: string)
    requires Possible(st, e) && channel != ""
    ensures PagesSent(After(st, e), reader, channel) ==
      PagesSent(st, reader, channel) + if FetchedBy(st, e, reader, channel) then [e.page] else []
  {
    if reader in st.mail.socks {
      var sent := st.mail.socks[reader].sent;
      var added := SentGrows(st, e, reader);
      if e.FetchFrame? && e.k == reader && e.channel != "" && st.mail.socks[reader].open {
        PagesSnoc(sent, channel, e.channel, e.page);
      } else {
        PagesAppend(sent, added, channel);
      }
    } else {
      NewcomerHasNoPages(st, e, reader, channel);
    }
  }

  lemma NewcomerHasNoPages<K>(st: Server<K>, e: Event<K>, reader: K, channel: string)
    requires Possible(st, e) && reader !in st.mail.socks
    ensures PagesSent(After(st, e), reader, channel) == []
  {
    if e.Connected? && e.k == reader {
      ConnectedIsChallenged(st, reader, e.nonce);
      PagesAppend([], [AuthChallenge(e.nonce)], channel);
      assert [] + [AuthChallenge(e.nonce)] == [AuthChallenge(e.nonce)];
    } else {
      StillUnknown(st, e, reader);
    }
  }

  lemma StillUnknown<K>(st: Server<K>, e: Event<K>, j: K)
    requires Possible(st, e) && j !in st.mail.socks && !(e.Connected? && e.k == j)
    ensures j !in After(st, e).mail.socks
  {
    match e
    case Message(k, to, payload, cid, now, later) => M.AcceptKeys(st.mail, k, to, payload, cid, now, later);
    case _ =>
  }

  /** The answers of a run are exactly the pages on the reader's connection, in order. */
  lemma {:induction false} AnswersAreSent<K>(st: Server<K>, evs: seq<Event<K>>, reader: K, channel: string)
    requires Started(st) && Run(st, evs) && channel != ""
    ensures PagesSent(Final(st, evs), reader, channel) == PagesOf(Fetches(st, evs, reader, channel))
  {
    if evs != [] {
      var n := |evs| - 1;
      AnswersAreSent(st, evs[..n], reader, channel);
      PagesAfter(Final(st, evs[..n]), evs[n], reader, channel);
    }
  }

  /** What the reader has got of the channel: the posts on its connection, as sent. */
  ghost function Got<K>(st: Server<K>, reader: K, channel: string): seq<(int, string)> {
    Flat(PagesSent(st, reader, channel))
  }

  // ----- posts in time

  /** The event stores a new post above the start and at or below the cursor. */
  predicate Late<K>(st: Server<K>, e: Event<K>, channel: string, start: int, cursor: int) {
    && e.PostFrame? && e.channel == channel && channel != "" && e.number.Some? && e.body != ""
    && (channel, ToInt32(e.number.value)) !in st.posts && start < ToInt32(e.number.value) <= cursor
  }

  /** A late post has come since the reader's last answer. */
  ghost predicate Pending<K>(st: Server<K>, evs: seq<Event<K>>, reader: K, channel: string, start: int) {
    evs != [] &&
    var n := |evs| - 1;
    var rounds := Fetches(st, evs[..n], reader, channel);
    && !FetchedBy(Final(st, evs[..n]), evs[n], reader, channel)
    && (|| Pending(st, evs[..n], reader, channel, start)
        || (rounds != [] && Late(Final(st, evs[..n]), evs[n], channel, start, C.Cursor(rounds, start))))
  }

  /** No answer of the reader's follows a late post. */
  ghost predicate InTime<K>(st: Server<K>, evs: seq<Event<K>>, reader: K, channel: string, start: int) {
    evs == [] ||
    var n := |evs| - 1;
    && InTime(st, evs[..n], reader, channel, start)
    && !(FetchedBy(Final(st, evs[..n]), evs[n], reader, channel) && Pending(st, evs[..n], reader, channel, start))
  }

  lemma PostAfter<K>(st: Server<K>, e: Event<K>, channel: string, q: int)
    requires Possible(st, e)
    ensures (channel, q) in After(st, e).posts <==>
      || (channel, q) in st.posts
      || (e.PostFrame? && e.channel == channel && channel != "" && e.body != "" && e.number.Some?
          && ToInt32(e.number.value) == q)
  {
  }

  /** The stretch up to the cursor stays as it is exactly when no late post comes. */
  lemma StretchAfter<K>(st: Server<K>, e: Event<K>, channel: string, start: int, cursor: int)
    requires Possible(st, e)
    ensures C.Between(st.posts, channel, start, cursor) <= C.Between(After(st, e).posts, channel, start, cursor)
    ensures C.Between(After(st, e).posts, channel, start, cursor) == C.Between(st.posts, channel, start, cursor) <==>
      !Late(st, e, channel, start, cursor)
  {
    var t, u := st.posts, After(st, e).posts;
    forall q
      ensures q in C.Between(u, channel, start, cursor) <==>
        q in C.Between(t, channel, start, cursor) ||
        (Late(st, e, channel, start, cursor) && q == ToInt32(e.number.value))
    {
      C.InBetween(t, channel, start, cursor, q);
      C.InBetween(u, channel, start, cursor, q);
      PostAfter(st, e, channel, q);
    }
    if Late(st, e, channel, start, cursor) {
      C.InBetween(t, channel, start, cursor, ToInt32(e.number.value));
    }
  }

  /** One event later, the stretch the reader has seen is unchanged exactly when it was and
      the event is not late. */
  lemma UnchangedAfter<K>(st: Server<K>, e: Event<K>, rounds: seq<C.Round>, channel: string, start: int)
    requires Possible(st, e) && SessionOn(rounds, st.posts, channel, start)
    ensures C.Unchanged(rounds, After(st, e).posts, channel, start) <==>
      && C.Unchanged(rounds, st.posts, channel, start)
      && (rounds != [] ==> !Late(st, e, channel, start, C.Cursor(rounds, start)))
  {
    if rounds != [] {
      var y := C.Cursor(rounds, start);
      StretchAfter(st, e, channel, start, y);
      C.GrowsBetween(rounds[|rounds| - 1].table, st.posts, channel, start, y);
    }
  }

  lemma FetchKeepsPosts<K>(st: Server<K>, e: Event<K>)
    requires Possible(st, e) && e.FetchFrame?
    ensures After(st, e).posts == st.posts
  {
  }

  /** Nothing has come late to the reader's answers exactly when the posts were in time, and
      nothing has since the last answer exactly when none is pending. */
  ghost predicate TimelyExactly<K>(st: Server<K>, evs: seq<Event<K>>, reader: K, channel: string, start: int) {
    var rounds := Fetches(st, evs, reader, channel);
    && (C.NoneLate(rounds, channel, start) <==> InTime(st, evs, reader, channel, start))
    && (C.Unchanged(rounds, Final(st, evs).posts, channel, start) <==> !Pending(st, evs, reader, channel, start))
  }

  lemma {:induction false} TimelyAfterFetch<K>(
    st: Server<K>, evs: seq<Event<K>>, reader: K, channel: string, start: int)
    requires evs != [] && Run(st, evs) && FetchedBy(Final(st, evs[..|evs| - 1]), evs[|evs| - 1], reader, channel)
    requires TimelyExactly(st, evs[..|evs| - 1], reader, channel, start)
    ensures TimelyExactly(st, evs, reader, channel, start)
  {
    var n := |evs| - 1;
    var s := Final(st, evs[..n]);
    C.NoneLateSnoc(Fetches(st, evs[..n], reader, channel), C.Round(s.posts, evs[n].page), channel, start);
    FetchKeepsPosts(s, evs[n]);
  }

  lemma {:induction false} TimelyAfterOther<K>(
    st: Server<K>, evs: seq<Event<K>>, reader: K, channel: string, start: int)
    requires evs != [] && Run(st, evs) && !FetchedBy(Final(st, evs[..|evs| - 1]), evs[|evs| - 1], reader, channel)
    requires
      var n := |evs| - 1;
      && SessionOn(Fetches(st, evs[..n], reader, channel), Final(st, evs[..n]).posts, channel, start)
      && TimelyExactly(st, evs[..n], reader, channel, start)
    ensures TimelyExactly(st, evs, reader, channel, start)
  {
    var n := |evs| - 1;
    UnchangedAfter(Final(st, evs[..n]), evs[n], Fetches(st, evs[..n], reader, channel), channel, start);
  }

  lemma {:induction false} RunIsTimely<K>(
    st: Server<K>, evs: seq<Event<K>>, reader: K, channel: string, start: int)
    requires channel != "" && Run(st, evs) && Follows(st, evs, reader, channel, start)
    ensures TimelyExactly(st, evs, reader, channel, start)
  {
    if evs != [] {
      var n := |evs| - 1;
      RunIsTimely(st, evs[..n], reader, channel, start);
      if FetchedBy(Final(st, evs[..n]), evs[n], reader, channel) {
        TimelyAfterFetch(st, evs, reader, channel, start);
      } else {
        FetchesAreSession(st, evs[..n], reader, channel, start);
        TimelyAfterOther(st, evs, reader, channel, start);
      }
    }
  }

  lemma AnswersGetAll<K>(st: Server<K>, evs: seq<Event<K>>, reader: K, channel: string, start: int)
    requires channel != "" && Run(st, evs) && Follows(st, evs, reader, channel, start)
    requires
      var rounds := Fetches(st, evs, reader, channel);
      rounds != [] && rounds[|rounds| - 1].page == []
    ensures
      var rounds := Fetches(st, evs, reader, channel);
      && C.Ascending(C.Received(rounds))
      && (InTime(st, evs, reader, channel, start) <==>
          forall q ::
            (channel, q) in rounds[|rounds| - 1].table && q > start <==> q in C.Seqs(C.Received(rounds)))
  {
    FetchesAreSession(st, evs, reader, channel, start);
    RunIsTimely(st, evs, reader, channel, start);
    C.ReadToEnd(Fetches(st, evs, reader, channel), channel, start);
  }

  /** The posts as they were at the reader's last answer. */
  ghost function TableThen<K>(st: Server<K>, evs: seq<Event<K>>, reader: K, channel: string): C.Table {
    var rounds := Fetches(st, evs, reader, channel);
    if rounds == [] then st.posts else rounds[|rounds| - 1].table
  }

  /** In any run, a reader who follows its cursor until it is sent an empty page has been sent
      posts in order and without repetition, and among them every post above its start, if and
      only if none of its answers followed a late post. */
  lemma ReaderGetsAll<K>(st: Server<K>, evs: seq<Event<K>>, reader: K, channel: string, start: int)
    requires channel != "" && Started(st) && Run(st, evs) && Follows(st, evs, reader, channel, start)
    requires
      var pages := PagesSent(Final(st, evs), reader, channel);
      pages != [] && pages[|pages| - 1] == []
    ensures
      var got := Got(Final(st, evs), reader, channel);
      && C.Ascending(got)
      && (InTime(st, evs, reader, channel, start) <==>
          forall q :: (channel, q) in TableThen(st, evs, reader, channel) && q > start <==> q in C.Seqs(got))
  {
    AnswersAreSent(st, evs, reader, channel);
    FlatIsReceived(Fetches(st, evs, reader, channel));
    AnswersGetAll(st, evs, reader, channel, start);
  }

  // ----- the reader stops

  /** Nothing is posted in the run. */
  predicate Quiet<K>(evs: seq<Event<K>>) {
    forall i :: 0 <= i < |evs| ==> !evs[i].PostFrame?
  }

  lemma {:induction false} QuietAnswers<K>(st: Server<K>, evs: seq<Event<K>>, reader: K, channel: string)
    requires Run(st, evs) && Quiet(evs)
    ensures Final(st, evs).posts == st.posts
    ensures forall r :: r in Fetches(st, evs, reader, channel) ==> r.table == st.posts
  {
    if evs != [] {
      QuietAnswers(st, evs[..|evs| - 1], reader, channel);
    }
  }

  lemma AnswersStop<K>(st: Server<K>, evs: seq<Event<K>>, reader: K, channel: string, start: int)
    requires channel != "" && Run(st, evs) && Quiet(evs) && Follows(st, evs, reader, channel, start)
    ensures
      var rounds := Fetches(st, evs, reader, channel);
      (forall i :: 0 <= i < |rounds| ==> rounds[i].page != []) && rounds != [] ==>
        C.PAGE * (|rounds| - 1) < |C.SeqsAbove(st.posts, channel, start)|
  {
    var rounds := Fetches(st, evs, reader, channel);
    FetchesAreSession(st, evs, reader, channel, start);
    QuietAnswers(st, evs, reader, channel);
    if (forall i :: 0 <= i < |rounds| ==> rounds[i].page != []) && rounds != [] {
      C.ReadingEnds(rounds, st.posts, channel, start);
    }
  }

  /** While nothing is posted, a reader who follows its cursor is sent an empty page after
      finitely many: those before it hold a hundred posts each, the last one at least one, all
      different and above the start. */
  lemma ReaderStops<K>(st: Server<K>, evs: seq<Event<K>>, reader: K, channel: string, start: int)
    requires channel != "" && Started(st) && Run(st, evs) && Quiet(evs) && Follows(st, evs, reader, channel, start)
    ensures
      var pages := PagesSent(Final(st, evs), reader, channel);
      (forall i :: 0 <= i < |pages| ==> pages[i] != []) && pages != [] ==>
        100 * (|pages| - 1) < |C.SeqsAbove(st.posts, channel, start)|
  {
    AnswersAreSent(st, evs, reader, channel);
    AnswersStop(st, evs, reader, channel, start);
    var rounds, pages := Fetches(st, evs, reader, channel), PagesSent(Final(st, evs), reader, channel);
    if forall i :: 0 <= i < |pages| ==> pages[i] != [] {
      assert forall i :: 0 <= i < |rounds| ==> rounds[i].page == pages[i];
    }
  }

  // ----- a post that is missed

  /** One more event of a reading run. */
  lemma ReadSnoc<K>(st: Server<K>, evs: seq<Event<K>>, e: Event<K>, reader: K, channel: string, start: int)
    requires Run(st, evs) && Follows(st, evs, reader, channel, start) && Possible(Final(st, evs), e)
    requires FetchedBy(Final(st, evs), e, reader, channel) ==>
      ToInt32(e.since) == C.Cursor(Fetches(st, evs, reader, channel), start)
    ensures Run(st, evs + [e]) && Follows(st, evs + [e], reader, channel, start)
    ensures Final(st, evs + [e]) == After(Final(st, evs), e)
    ensures Fetches(st, evs + [e], reader, channel) ==
      Fetched(Final(st, evs), e, Fetches(st, evs, reader, channel), reader, channel)
  {
    RunSnoc(st, evs, e);
    assert (evs + [e])[..|evs|] == evs;
  }

  /** One more answer to the reader. */
  lemma FetchSnoc<K>(
    st: Server<K>, evs: seq<Event<K>>, reader: K, channel: string, since: int, page: seq<(int, string)>, start: int)
    requires Run(st, evs) && Follows(st, evs, reader, channel, start)
    requires channel != "" && reader in Final(st, evs).mail.socks && Final(st, evs).mail.socks[reader].open
    requires C.IsPage(Final(st, evs).posts, channel, ToInt32(since), page)
    requires ToInt32(since) == C.Cursor(Fetches(st, evs, reader, channel), start)
    ensures
      var all := evs + [FetchFrame(reader, channel, since, page)];
      && Run(st, all) && Follows(st, all, reader, channel, start)
      && Final(st, all).posts == Final(st, evs).posts
      && reader in Final(st, all).mail.socks && Final(st, all).mail.socks[reader].open
      && Fetches(st, all, reader, channel) ==
         Fetches(st, evs, reader, channel) + [C.Round(Final(st, evs).posts, page)]
  {
    ReadSnoc(st, evs, FetchFrame(reader, channel, since, page), reader, channel, start);
  }

  /** Connection 0 is there and open. */
  ghost predicate Listens(st: Server<nat>) {
    0 in st.mail.socks && st.mail.socks[0].open
  }

  ghost function OnePost(): C.Table {
    map[("c", 5) := "five"]
  }

  ghost function BothPosts(): C.Table {
    OnePost()[("c", 3) := "three"]
  }

  /** A connection is made, and number 5 is posted. */
  lemma FirstPost() returns (evs: seq<Event<nat>>)
    ensures Run(Fresh(), evs) && Follows(Fresh(), evs, 0, "c", 0) && Fetches(Fresh(), evs, 0, "c") == []
    ensures Final(Fresh(), evs).posts == OnePost() && Listens(Final(Fresh(), evs))
  {
    var connected: Event<nat> := Connected(0, "nonce");
    var post: Event<nat> := PostFrame("c", Some(5), "five");
    assert Final(Fresh(), []) == Fresh() && Fetches(Fresh(), [], 0, "c") == [];
    ReadSnoc(Fresh(), [], connected, 0, "c", 0);
    ReadSnoc(Fresh(), [] + [connected], post, 0, "c", 0);
    evs := [] + [connected] + [post];
  }

  lemma FivePage()
    ensures C.IsPage(OnePost(), "c", 0, [(5, "five")])
  {
    var page := [(5, "five")];
    forall q | ("c", q) in OnePost() ensures C.Shows(page, q) {
      assert page[0].0 == q;
    }
  }

  /** The reader fetches it. */
  lemma FirstPage() returns (evs: seq<Event<nat>>)
    ensures Run(Fresh(), evs) && Follows(Fresh(), evs, 0, "c", 0)
    ensures Final(Fresh(), evs).posts == OnePost() && Listens(Final(Fresh(), evs))
    ensures Fetches(Fresh(), evs, 0, "c") == [C.Round(OnePost(), [(5, "five")])]
  {
    var before := FirstPost();
    FivePage();
    FetchSnoc(Fresh(), before, 0, "c", 0, [(5, "five")], 0);
    evs := before + [FetchFrame(0, "c", 0, [(5, "five")])];
  }

  lemma FirstCursor(posts: C.Table)
    ensures
      var rounds := [C.Round(posts, [(5, "five")])];
      C.Cursor(rounds, 0) == 5 && C.Received(rounds) == [(5, "five")]
  {
    var rounds := [C.Round(posts, [(5, "five")])];
    assert rounds[..0] == [];
  }

  lemma NothingMore(posts: C.Table, later: C.Table)
    ensures
      var rounds := [C.Round(posts, [(5, "five")])] + [C.Round(later, [])];
      C.Received(rounds) == [(5, "five")] && 3 !in C.Seqs(C.Received(rounds))
  {
    var rounds := [C.Round(posts, [(5, "five")])];
    FirstCursor(posts);
    assert (rounds + [C.Round(later, [])])[..1] == rounds;
    assert C.Seqs([(5, "five")]) == {5};
  }

  /** Then a smaller number is posted. */
  lemma LatePost() returns (evs: seq<Event<nat>>)
    ensures Run(Fresh(), evs) && Follows(Fresh(), evs, 0, "c", 0)
    ensures Final(Fresh(), evs).posts == BothPosts() && Listens(Final(Fresh(), evs))
    ensures Fetches(Fresh(), evs, 0, "c") == [C.Round(OnePost(), [(5, "five")])]
  {
    var before := FirstPage();
    var post: Event<nat> := PostFrame("c", Some(3), "three");
    ReadSnoc(Fresh(), before, post, 0, "c", 0);
    evs := before + [post];
  }

  lemma NoPageAbove()
    ensures C.IsPage(BothPosts(), "c", 5, [])
  {
  }

  /** The reader asks from the last number it received. */
  lemma AskAgain() returns (evs: seq<Event<nat>>)
    ensures Run(Fresh(), evs) && Follows(Fresh(), evs, 0, "c", 0)
    ensures Fetches(Fresh(), evs, 0, "c") == [C.Round(OnePost(), [(5, "five")])] + [C.Round(BothPosts(), [])]
  {
    var before := LatePost();
    NoPageAbove();
    FirstCursor(OnePost());
    FetchSnoc(Fresh(), before, 0, "c", 5, [], 0);
    evs := before + [FetchFrame(0, "c", 5, [])];
  }

  /** On a relay that has just been started, a reader who has received post 5 and then asks
      from there is not sent the post 3 that came in between, although it reads on until a
      page is empty. */
  lemma LatePostIsMissed() returns (evs: seq<Event<nat>>)
    ensures Started(Fresh()) && Run(Fresh(), evs) && Follows(Fresh(), evs, 0, "c", 0)
    ensures PagesSent(Final(Fresh(), evs), 0, "c") == [[(5, "five")], []]
    ensures ("c", 3) in TableThen(Fresh(), evs, 0, "c") && 3 !in C.Seqs(Got(Final(Fresh(), evs), 0, "c"))
    ensures !InTime(Fresh(), evs, 0, "c", 0)
  {
    evs := AskAgain();
    NothingMore(OnePost(), BothPosts());
    assert ("c", 3) in BothPosts();
    AnswersAreSent(Fresh(), evs, 0, "c");
    FlatIsReceived(Fetches(Fresh(), evs, 0, "c"));
    AnswersGetAll(Fresh(), evs, 0, "c", 0);
  }
}

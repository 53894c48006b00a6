/**
  What the relay tells each connection. For every event: exactly which frames go out, and on
  which connection; and over runs, that what was said stays said, that every message with a
  client id is confirmed, and that closed connections hear nothing more.
 */
module Replies {
  import opened Wrappers
  import opened RelayTypes
  import opened Relay
  import M = Mailbox
  import P = Prekeys
  import C = Channels

  // ----- one event

  /** A new connection hears the challenge it has to sign, and nothing else. */
  lemma ConnectedIsChallenged<K>(st: Server<K>, k: K, nonce: string)
    requires Possible(st, Connected(k, nonce))
    ensures
      var s := After(st, Connected(k, nonce)).mail.socks[k];
      && s.sent == [AuthChallenge(nonce)] && s.nonce == Some(nonce)
      && s.authedId.None? && s.senderId.None? && s.pending.None? && s.member && s.open
  {
  }

  /** A login is answered by auth_ok and the backlog, oldest first; the nonce is spent, the
      identity is the claimed id, and no upload is left waiting. */
  lemma LoginIsAnswered<K>(st: Server<K>, k: K, sender: string, rows: seq<nat>, now: int)
    requires Possible(st, Auth(k, sender, true, rows, now)) && st.mail.socks[k].nonce.Some?
    ensures
      var s, t := st.mail.socks[k], After(st, Auth(k, sender, true, rows, now)).mail.socks[k];
      && t.nonce.None? && t.authedId == t.senderId == Some(Claim(sender)) && t.pending.None?
      && t.member == s.member && t.open == s.open
      && (if s.open then Welcomed(t.sent, s.sent, Claim(sender), st.mail.queue, rows) else t.sent == s.sent)
    ensures WholeBacklog(st.mail.queue, Claim(sender), rows)
  {
    M.LoginSends(st.mail, k, Claim(sender), rows);
    AnswerIsWelcome(st.mail.socks[k].sent, Claim(sender), st.mail.queue, rows);
  }

  /** The rows are all those queued for the id, each once, none before an older one. */
  predicate WholeBacklog(queue: map<nat, QueueRow>, id: string, rows: seq<nat>) {
    && (forall q :: q in queue ==> (queue[q].recipient == id <==> q in rows))
    && (forall i, j :: 0 <= i < j < |rows| && rows[i] in queue && rows[j] in queue ==>
          rows[i] != rows[j] && !(queue[rows[j]].created < queue[rows[i]].created))
  }

  /** `sent` continues `before` by auth_ok and the rows, one message each, in their order. */
  predicate Welcomed(sent: seq<Frame>, before: seq<Frame>, id: string, queue: map<nat, QueueRow>, rows: seq<nat>) {
    && |sent| == |before| + 1 + |rows| && before <= sent && sent[|before|] == AuthOk
    && forall i :: 0 <= i < |rows| ==>
         rows[i] in queue && sent[|before| + 1 + i] == Msg(id, queue[rows[i]].payload, rows[i])
  }

  lemma AnswerIsWelcome(before: seq<Frame>, id: string, queue: map<nat, QueueRow>, rows: seq<nat>)
    requires M.IsBacklog(queue, id, rows)
    ensures Welcomed(before + ([AuthOk] + M.Frames(queue, rows)), before, id, queue, rows)
  {
    var fs := M.Frames(queue, rows);
    forall i | 0 <= i < |rows|
      ensures rows[i] in queue
      ensures (before + ([AuthOk] + fs))[|before| + 1 + i] == Msg(id, queue[rows[i]].payload, rows[i])
    {
      AfterTwo(before, AuthOk, fs, i);
      assert rows[i] in rows;
    }
  }

  lemma AfterTwo<T>(a: seq<T>, x: T, c: seq<T>, i: nat)
    requires i < |c|
    ensures (a + ([x] + c))[|a| + 1 + i] == c[i]
  {
  }

  /** A refused login is told so; the nonce is spent and nothing else changes. */
  lemma RefusalIsAnswered<K>(st: Server<K>, k: K, sender: string, good: bool, rows: seq<nat>, now: int)
    requires Possible(st, Auth(k, sender, good, rows, now)) && !(good && st.mail.socks[k].nonce.Some?)
    ensures
      var s, n := st.mail.socks[k], After(st, Auth(k, sender, good, rows, now));
      && n.mail.socks[k] == s.(nonce := None, sent := s.sent + if s.open then [AuthFail] else [])
      && n.mail.queue == st.mail.queue && n.keys == st.keys && n.posts == st.posts
  {
  }

  /** An upload before the login is stored by the login, as if it came just then. */
  lemma HeldUploadIsStored<K>(
    st: Server<K>, k: K, u: Upload, sender: string, rows: seq<nat>, before: int, now: int)
    requires Possible(st, UploadFrame(k, u, before)) && st.mail.socks[k].authedId.None?
    requires st.mail.socks[k].nonce.Some?
    ensures
      var held := After(st, UploadFrame(k, u, before));
      && held.keys == st.keys
      && (Possible(held, Auth(k, sender, true, rows, now)) ==>
            After(held, Auth(k, sender, true, rows, now)).keys == P.Upload(st.keys, Claim(sender), u, now))
  {
  }

  /** A request is answered on its connection by a bundle for the target, and the one-time row
      of the bundle, alone, leaves the table. */
  lemma RequestIsAnswered<K>(st: Server<K>, k: K, target: string, picked: P.Picked)
    requires Possible(st, Request(k, target, picked)) && target != ""
    ensures
      var s, n := st.mail.socks[k], After(st, Request(k, target, picked));
      && n.mail.socks[k].sent == s.sent + (if s.open then [P.Reply(st.keys.rows, target, picked)] else [])
      && (forall i :: i in st.keys.rows && Some(i) != picked.opk ==>
            i in n.keys.rows && n.keys.rows[i] == st.keys.rows[i])
      && (forall i :: i in n.keys.rows ==> i in st.keys.rows && Some(i) != picked.opk)
  {
  }

  /** A fetch is answered on its connection by the page: the posts above the number asked for,
      ascending and without gaps, all of them or the first hundred. */
  lemma FetchIsAnswered<K>(st: Server<K>, k: K, channel: string, since: int, page: seq<(int, string)>)
    requires Possible(st, FetchFrame(k, channel, since, page)) && channel != ""
    ensures
      var s, n := st.mail.socks[k], After(st, FetchFrame(k, channel, since, page));
      && n.mail.socks[k].sent == s.sent + (if s.open then [Posts(channel, page)] else [])
      && C.IsPage(st.posts, channel, ToInt32(since), page) && n.posts == st.posts
      && |page| <= 100
      && (|page| < 100 ==> forall q :: (channel, q) in st.posts && q > ToInt32(since) ==> C.Shows(page, q))
  {
  }

  /** Without a recipient, a target or a channel the event is dropped. */
  lemma NamelessIsDropped<K>(st: Server<K>, e: Event<K>)
    requires Possible(st, e)
    requires (e.Message? && e.to == "") || (e.Request? && e.target == "") || (e.FetchFrame? && e.channel == "")
    ensures After(st, e) == st
  {
  }

  /** What a message makes each connection hear: the message on the open client connections of
      the recipient, then the confirmation on the sender's; a repeat is only confirmed. */
  lemma MessageIsAnswered<K>(
    st: Server<K>, k: K, to: string, payload: Option<string>, cid: Option<string>, now: int, later: int, j: K)
    requires Possible(st, Message(k, to, payload, cid, now, later)) && j in st.mail.socks && to != ""
    ensures
      var s, n := st.mail.socks[j], After(st, Message(k, to, payload, cid, now, later)).mail;
      var c := M.Cid(cid);
      var repeat := c.Some? && c.value in st.mail.recent;
      && j in n.socks
      && n.socks[j].sent == s.sent
           + (if !repeat && payload.Some? && s.member && s.open && s.senderId == Some(to)
              then [Msg(to, payload.value, st.mail.nextQid)] else [])
           + (if j == k && s.open && c.Some? && (repeat || payload.Some?) then [Received(c.value)] else [])
  {
    M.AcceptSends(st.mail, k, to, payload, cid, now, later, j);
  }

  /** A message with a payload is queued under the next row id for seven days; a repeat, or one
      without a payload, queues nothing. */
  lemma MessageIsQueued<K>(
    st: Server<K>, k: K, to: string, payload: Option<string>, cid: Option<string>, now: int, later: int)
    requires Possible(st, Message(k, to, payload, cid, now, later)) && to != ""
    ensures
      var n := After(st, Message(k, to, payload, cid, now, later)).mail;
      var c := M.Cid(cid);
      n.queue ==
        if payload.None? || (c.Some? && c.value in st.mail.recent) then st.mail.queue
        else st.mail.queue[st.mail.nextQid := QueueRow(to, payload.value, now, now + 604_800_000)]
  {
  }

  /** The event answers connection `j`, or may. */
  predicate Concerns<K(==)>(e: Event<K>, j: K) {
    e.Message? || ((e.Auth? || e.Request? || e.FetchFrame?) && e.k == j)
  }

  lemma OtherAuth<K>(st: Server<K>, e: Event<K>, j: K)
    requires Possible(st, e) && j in st.mail.socks && e.Auth? && e.k != j
    ensures
      var n := After(st, e).mail.socks;
      j in n && n[j] == st.mail.socks[j]
  {
    if LogsIn(st, e.k, e.good) {
      M.LoginOthers(st.mail, e.k, Claim(e.sender), e.rows, j);
    } else {
      M.RefuseMeaning(st.mail, e.k);
    }
  }

  lemma SilentSock<K>(st: Server<K>, e: Event<K>, j: K)
    requires Possible(st, e) && j in st.mail.socks && !e.Message? && !e.Auth? && !Concerns(e, j)
    ensures
      var n := After(st, e).mail.socks;
      j in n && n[j].sent == st.mail.socks[j].sent
  {
  }

  /** All other connections hear nothing, and events without an answer are silent. */
  lemma OthersHearNothing<K>(st: Server<K>, e: Event<K>, j: K)
    requires Possible(st, e) && j in st.mail.socks && !Concerns(e, j)
    ensures
      var n := After(st, e).mail.socks;
      j in n && n[j].sent == st.mail.socks[j].sent
  {
    if e.Auth? {
      OtherAuth(st, e, j);
    } else {
      SilentSock(st, e, j);
    }
  }

  /** A cleanup keeps the rows that have not expired, and the key rows of every recipient
      with a row from the last thirty days. */
  lemma CleanupMeaning<K>(st: Server<K>, now: int, later: int)
    requires Possible(st, Cleanup(now, later))
    ensures
      var n := After(st, Cleanup(now, later));
      && (forall q :: q in n.mail.queue <==> q in st.mail.queue && now <= st.mail.queue[q].expiry)
      && (forall i :: i in n.keys.rows <==> i in st.keys.rows && Fresher(st.keys.rows, i, later - 2_592_000_000))
  {
    var n := After(st, Cleanup(now, later));
    forall i | i in st.keys.rows
      ensures i in P.Stale(st.keys.rows, later - IDLE_MS) <==> !Fresher(st.keys.rows, i, later - 2_592_000_000)
    {
      StaleMeaning(st.keys.rows, i, later - IDLE_MS);
    }
  }

  /** Some row of the recipient of row `i` is not older than `cutoff`. */
  ghost predicate Fresher(rows: map<nat, PrekeyRow>, i: nat, cutoff: int)
    requires i in rows
  {
    exists j :: j in rows && rows[j].recipient == rows[i].recipient && cutoff <= rows[j].created
  }

  lemma StaleMeaning(rows: map<nat, PrekeyRow>, i: nat, cutoff: int)
    requires i in rows
    ensures i in P.Stale(rows, cutoff) <==> !Fresher(rows, i, cutoff)
  {
  }

  /** The claimed id is what was sent, or its first 32 characters. */
  lemma ClaimMeaning(sender: string)
    ensures Claim(sender) <= sender && |Claim(sender)| == if |sender| > 32 then 32 else |sender|
  {
  }

  // ----- runs

  /** What has been sent on a connection stays sent; only a fetch adds posts. */
  lemma SentGrows<K>(st: Server<K>, e: Event<K>, j: K) returns (added: seq<Frame>)
    requires Possible(st, e) && j in st.mail.socks
    ensures j in After(st, e).mail.socks && After(st, e).mail.socks[j].sent == st.mail.socks[j].sent + added
    ensures
      if e.FetchFrame? && e.k == j && e.channel != "" && st.mail.socks[j].open then added == [Posts(e.channel, e.page)]
      else forall f :: f in added ==> !f.Posts?
  {
    if !Concerns(e, j) {
      OthersHearNothing(st, e, j);
      added := [];
    } else if e.Message? {
      added := MessageFrames(st, e, j);
    } else if e.Auth? {
      added := AuthFrames(st, j, e.sender, e.good, e.rows, e.now);
    } else {
      added := AnswerFrames(st, e);
    }
  }

  lemma MessageFrames<K>(st: Server<K>, e: Event<K>, j: K) returns (added: seq<Frame>)
    requires Possible(st, e) && j in st.mail.socks && e.Message?
    ensures j in After(st, e).mail.socks && After(st, e).mail.socks[j].sent == st.mail.socks[j].sent + added
    ensures forall f :: f in added ==> !f.Posts?
  {
    added := [];
    if e.to != "" {
      M.AcceptSends(st.mail, e.k, e.to, e.payload, e.cid, e.now, e.later, j);
      M.AcceptFramesNoPosts(st.mail, e.k, e.to, e.payload, e.cid, j);
      added := M.AcceptFrames(st.mail, e.k, e.to, e.payload, e.cid, j);
    }
  }

  lemma AnswerFrames<K>(st: Server<K>, e: Event<K>) returns (added: seq<Frame>)
    requires Possible(st, e) && (e.Request? || e.FetchFrame?)
    ensures e.k in After(st, e).mail.socks
    ensures After(st, e).mail.socks[e.k].sent == st.mail.socks[e.k].sent + added
    ensures
      if e.FetchFrame? && e.channel != "" && st.mail.socks[e.k].open then added == [Posts(e.channel, e.page)]
      else forall f :: f in added ==> !f.Posts?
  {
    added := [];
    if st.mail.socks[e.k].open {
      if e.Request? && e.target != "" {
        added := [P.Reply(st.keys.rows, e.target, e.picked)];
      } else if e.FetchFrame? && e.channel != "" {
        added := [Posts(e.channel, e.page)];
      }
    }
  }

  lemma AuthFrames<K>(st: Server<K>, k: K, sender: string, good: bool, rows: seq<nat>, now: int)
    returns (added: seq<Frame>)
    requires Possible(st, Auth(k, sender, good, rows, now))
    ensures
      k in After(st, Auth(k, sender, good, rows, now)).mail.socks
      && After(st, Auth(k, sender, good, rows, now)).mail.socks[k].sent == st.mail.socks[k].sent + added
    ensures forall f :: f in added ==> !f.Posts?
  {
    var s := st.mail.socks[k];
    added := [];
    if s.open {
      if LogsIn(st, k, good) {
        added := [AuthOk] + M.Frames(st.mail.queue, rows);
        M.LoginSends(st.mail, k, Claim(sender), rows);
      } else {
        added := [AuthFail];
      }
    }
  }

  lemma {:induction false} RunSentGrows<K>(st: Server<K>, evs: seq<Event<K>>, i: nat, j: K)
    requires Run(st, evs) && i <= |evs| && j in Final(st, evs[..i]).mail.socks
    ensures j in Final(st, evs).mail.socks
    ensures Final(st, evs[..i]).mail.socks[j].sent <= Final(st, evs).mail.socks[j].sent
  {
    if i == |evs| {
      assert evs[..i] == evs;
    } else {
      var n := |evs| - 1;
      assert evs[..n][..i] == evs[..i];
      RunSentGrows(st, evs[..n], i, j);
      var added := SentGrows(Final(st, evs[..n]), evs[n], j);
    }
  }

  /** The message with a client id is accepted, or is a repeat of one. */
  predicate WantsConfirmation<K>(st: Server<K>, e: Event<K>) {
    e.Message? && e.to != "" && M.Cid(e.cid).Some? && (e.payload.Some? || M.Cid(e.cid).value in st.mail.recent)
  }

  /** Such a message from an open connection is confirmed there, last of all it hears. */
  lemma MessageIsConfirmed<K>(st: Server<K>, e: Event<K>)
    requires Possible(st, e) && WantsConfirmation(st, e) && st.mail.socks[e.k].open
    ensures
      var sent := After(st, e).mail.socks[e.k].sent;
      sent != [] && sent[|sent| - 1] == Received(M.Cid(e.cid).value)
  {
    M.AcceptSends(st.mail, e.k, e.to, e.payload, e.cid, e.now, e.later, e.k);
  }

  /** Over every run, each message with a recipient, a client id and a payload, and each repeat
      of one, that comes over an open connection is confirmed on it. */
  lemma EveryMessageIsConfirmed<K>(st: Server<K>, evs: seq<Event<K>>, i: nat)
    requires Run(st, evs) && i < |evs| && evs[i].Message? && evs[i].k in Final(st, evs[..i]).mail.socks
    requires WantsConfirmation(Final(st, evs[..i]), evs[i]) && Final(st, evs[..i]).mail.socks[evs[i].k].open
    ensures evs[i].k in Final(st, evs).mail.socks
    ensures Received(M.Cid(evs[i].cid).value) in Final(st, evs).mail.socks[evs[i].k].sent
  {
    EventOfRun(st, evs, i);
    MessageIsConfirmed(Final(st, evs[..i]), evs[i]);
    RunSentGrows(st, evs, i + 1, evs[i].k);
  }

  lemma EventOfRun<K>(st: Server<K>, evs: seq<Event<K>>, i: nat)
    requires Run(st, evs) && i < |evs|
    ensures Possible(Final(st, evs[..i]), evs[i])
    ensures Final(st, evs[..i + 1]) == After(Final(st, evs[..i]), evs[i])
  {
    PrefixRun(st, evs, i + 1);
    assert evs[..i + 1][..i] == evs[..i];
  }

  lemma {:induction false} PrefixRun<K>(st: Server<K>, evs: seq<Event<K>>, i: nat)
    requires Run(st, evs) && i <= |evs|
    ensures Run(st, evs[..i])
  {
    if i == |evs| {
      assert evs[..i] == evs;
    } else {
      PrefixRun(st, evs[..|evs| - 1], i);
      assert evs[..|evs| - 1][..i] == evs[..i];
    }
  }

  /** `t` is still out of the clients, or closed, where `s` was. */
  predicate StaysLeft(s: Sock, t: Sock) {
    (!s.member ==> !t.member) && (!s.open ==> !t.open && t.sent == s.sent)
  }

  lemma LeftAfterMessage<K>(st: Server<K>, e: Event<K>, j: K)
    requires Possible(st, e) && j in st.mail.socks && e.Message?
    ensures
      var n := After(st, e).mail.socks;
      j in n && StaysLeft(st.mail.socks[j], n[j])
  {
    if e.to != "" {
      M.AcceptSends(st.mail, e.k, e.to, e.payload, e.cid, e.now, e.later, j);
    }
  }

  lemma LeftAfterAuth<K>(st: Server<K>, e: Event<K>, j: K)
    requires Possible(st, e) && j in st.mail.socks && e.Auth?
    ensures
      var n := After(st, e).mail.socks;
      j in n && StaysLeft(st.mail.socks[j], n[j])
  {
    if e.k != j {
      OtherAuth(st, e, j);
    } else if LogsIn(st, j, e.good) {
      M.LoginLeaves(st.mail, j, Claim(e.sender), e.rows);
    } else {
      M.RefuseMeaning(st.mail, j);
    }
  }

  lemma LeftAfterDrop<K>(st: Server<K>, e: Event<K>, j: K)
    requires Possible(st, e) && j in st.mail.socks && e.Dropped?
    ensures
      var n := After(st, e).mail.socks;
      j in n && StaysLeft(st.mail.socks[j], n[j])
  {
  }

  lemma LeftAfterOther<K>(st: Server<K>, e: Event<K>, j: K)
    requires Possible(st, e) && j in st.mail.socks && !e.Auth? && !e.Message? && !e.Dropped?
    ensures
      var n := After(st, e).mail.socks;
      j in n && StaysLeft(st.mail.socks[j], n[j])
  {
    var n := After(st, e).mail.socks;
    assert j in n && n[j].member == st.mail.socks[j].member && n[j].open == st.mail.socks[j].open;
    if Concerns(e, j) {
      var added := AnswerFrames(st, e);
    } else {
      SilentSock(st, e, j);
    }
  }

  /** A connection that has left the clients, or is closed, never comes back. */
  lemma LeftAfter<K>(st: Server<K>, e: Event<K>, j: K)
    requires Possible(st, e) && j in st.mail.socks
    ensures
      var n := After(st, e).mail.socks;
      j in n && StaysLeft(st.mail.socks[j], n[j])
  {
    if e.Message? {
      LeftAfterMessage(st, e, j);
    } else if e.Auth? {
      LeftAfterAuth(st, e, j);
    } else if e.Dropped? {
      LeftAfterDrop(st, e, j);
    } else {
      LeftAfterOther(st, e, j);
    }
  }

  /** Dropping takes a connection out of the clients, closes it, or both, as the event says,
      and changes nothing else about it. */
  lemma DropMeaning<K>(st: Server<K>, k: K, member: bool, open: bool)
    requires Possible(st, Dropped(k, member, open))
    ensures
      var s, t := st.mail.socks[k], After(st, Dropped(k, member, open)).mail.socks[k];
      && (t.member <==> s.member && member) && (t.open <==> s.open && open)
      && t.(member := s.member, open := s.open) == s
  {
  }

  /** A closed connection hears nothing more in any run. */
  lemma {:induction false} ClosedStaysSilent<K>(st: Server<K>, evs: seq<Event<K>>, j: K)
    requires Run(st, evs) && j in st.mail.socks && !st.mail.socks[j].open
    ensures j in Final(st, evs).mail.socks && !Final(st, evs).mail.socks[j].open
    ensures Final(st, evs).mail.socks[j].sent == st.mail.socks[j].sent
  {
    if evs != [] {
      var n := |evs| - 1;
      ClosedStaysSilent(st, evs[..n], j);
      LeftAfter(Final(st, evs[..n]), evs[n], j);
    }
  }
}

/**
  The relay as a state machine. Each frame, timer or connection event is one step; what the
  code does not determine (which of several rows a query returns, the order of equal rows,
  whether a signature is good) is part of the event.
 */
module Relay {
  import opened Wrappers
  import opened RelayTypes
  import M = Mailbox
  import P = Prekeys
  import C = Channels

  datatype Server<!K(==)> = Server(mail: M.Mail<K>, keys: P.Keys, posts: C.Table)

  datatype Event<K> =
    | Connected(k: K, nonce: string)
    | Auth(k: K, sender: string, good: bool, rows: seq<nat>, now: int)
    | UploadFrame(k: K, upload: Upload, now: int)
    | Request(k: K, target: string, picked: P.Picked)
    | Message(k: K, to: string, payload: Option<string>, cid: Option<string>, now: int, later: int)
    | AckFrame(k: K, qid: int)
    | PostFrame(channel: string, number: Option<int>, body: string)
    | FetchFrame(k: K, channel: string, since: int, page: seq<(int, string)>)
    | Ignored
    | Dropped(k: K, member: bool, open: bool)
    | Cleanup(now: int, later: int)
    | SweepRun(now: int)

  /** The claimed id: the first 32 characters. */
  function Claim(sender: string): string {
    if |sender| > 32 then sender[..32] else sender
  }

  /** A login succeeds once per nonce, with a good signature for the claimed id. */
  predicate LogsIn<K>(st: Server<K>, k: K, good: bool)
    requires k in st.mail.socks
  {
    st.mail.socks[k].nonce.Some? && good
  }

  ghost predicate Possible<K>(st: Server<K>, e: Event<K>) {
    match e
    case Connected(k, _) => k !in st.mail.socks
    case Auth(k, sender, good, rows, now) =>
      && k in st.mail.socks && st.mail.clock <= now
      && (good ==> Claim(sender) != "")
      && (LogsIn(st, k, good) ==> M.IsBacklog(st.mail.queue, Claim(sender), rows))
    case UploadFrame(k, _, now) => k in st.mail.socks && st.mail.clock <= now
    case Request(k, target, picked) =>
      k in st.mail.socks && (target != "" ==> P.GoodPicks(st.keys.rows, target, picked))
    case Message(k, _, _, _, now, later) => k in st.mail.socks && st.mail.clock <= now <= later
    case AckFrame(k, _) => k in st.mail.socks
    case PostFrame(_, _, _) => true
    case FetchFrame(k, channel, since, page) =>
      k in st.mail.socks && (channel != "" ==> C.IsPage(st.posts, channel, ToInt32(since), page))
    case Ignored => true
    case Dropped(k, _, _) => k in st.mail.socks
    case Cleanup(now, later) => st.mail.clock <= now <= later
    case SweepRun(now) => st.mail.clock <= now
  }

  /** A successful login: the reply, then an upload that had waited, then the backlog. */
  ghost function Login<K>(st: Server<K>, k: K, id: string, rows: seq<nat>, now: int): Server<K>
    requires k in st.mail.socks && forall q :: q in rows ==> q in st.mail.queue
  {
    var pending := st.mail.socks[k].pending;
    st.(mail := M.Tick(M.Flush(M.Admit(st.mail, k, id), k, rows), now),
        keys := if pending.Some? then P.Upload(st.keys, id, pending.value, now) else st.keys)
  }

  ghost function After<K>(st: Server<K>, e: Event<K>): Server<K>
    requires Possible(st, e)
  {
    match e
    case Connected(k, nonce) => st.(mail := M.Connect(st.mail, k, nonce))
    case Auth(k, sender, good, rows, now) =>
      if LogsIn(st, k, good) then Login(st, k, Claim(sender), rows, now)
      else st.(mail := M.Refuse(st.mail, k))
    case UploadFrame(k, upload, now) =>
      var id := st.mail.socks[k].authedId;
      if id.None? then st.(mail := M.Hold(st.mail, k, upload))
      else st.(mail := M.Tick(st.mail, now), keys := P.Upload(st.keys, id.value, upload, now))
    case Request(k, target, picked) =>
      if target == "" then st
      else
        st.(mail := M.Send(st.mail, k, P.Reply(st.keys.rows, target, picked)),
            keys := P.HandOut(st.keys, picked.opk))
    case Message(k, to, payload, cid, now, later) => st.(mail := M.Accept(st.mail, k, to, payload, cid, now, later))
    case AckFrame(k, qid) => st.(mail := M.Ack(st.mail, k, qid))
    case PostFrame(channel, number, payload) => st.(posts := C.Publish(st.posts, channel, number, payload))
    case FetchFrame(k, channel, _, page) =>
      if channel == "" then st else st.(mail := M.Send(st.mail, k, Posts(channel, page)))
    case Ignored => st
    case Dropped(k, member, open) => st.(mail := M.Drop(st.mail, k, member, open))
    case Cleanup(now, later) =>
      st.(mail := M.Tick(M.Expire(st.mail, now), later), keys := P.Housekeep(st.keys, later - IDLE_MS))
    case SweepRun(now) => st.(mail := M.Sweep(st.mail, now))
  }

  // ----- every reachable state

  /** A freshly started process: no connections, nothing remembered, tables as found. */
  ghost predicate Started<K>(st: Server<K>) {
    && st.mail.socks == map[] && st.mail.recent == map[] && st.mail.inserts == []
    && M.QueueFromLog(st.mail) && P.KeysValid(st.keys)
  }

  /** A relay that has just been started for the first time, with numbered connections. */
  ghost function Fresh(): (st: Server<nat>)
    ensures Started(st)
  {
    Server(M.Mail(0, map[], 1, map[], map[], map[], []), P.Keys(map[], 1, [], {}, {}), map[])
  }

  ghost predicate Valid<K>(st: Server<K>) {
    M.MailValid(st.mail) && P.KeysValid(st.keys)
  }

  lemma StartIsValid<K>(st: Server<K>)
    requires Started(st)
    ensures Valid(st)
  {
  }

  lemma LoginIsValid<K>(st: Server<K>, k: K, id: string, rows: seq<nat>, now: int)
    requires Valid(st) && k in st.mail.socks && st.mail.socks[k].nonce.Some?
    requires M.IsBacklog(st.mail.queue, id, rows) && st.mail.clock <= now
    ensures Valid(Login(st, k, id, rows, now))
  {
    M.LoginKeeps(st.mail, k, id, rows);
    M.TickKeeps(M.Flush(M.Admit(st.mail, k, id), k, rows), now);
    if st.mail.socks[k].pending.Some? {
      P.UploadKeeps(st.keys, id, st.mail.socks[k].pending.value, now);
    }
  }

  lemma UploadIsValid<K>(st: Server<K>, k: K, upload: Upload, now: int)
    requires Valid(st) && k in st.mail.socks && st.mail.clock <= now
    ensures Valid(After(st, UploadFrame(k, upload, now)))
  {
    if st.mail.socks[k].authedId.None? {
      M.HoldKeeps(st.mail, k, upload);
    } else {
      M.TickKeeps(st.mail, now);
      P.UploadKeeps(st.keys, st.mail.socks[k].authedId.value, upload, now);
    }
  }

  lemma RequestIsValid<K>(st: Server<K>, k: K, target: string, picked: P.Picked)
    requires Valid(st) && Possible(st, Request(k, target, picked))
    ensures Valid(After(st, Request(k, target, picked)))
  {
    if target != "" {
      M.SendKeeps(st.mail, k, P.Reply(st.keys.rows, target, picked));
      P.HandOutKeeps(st.keys, picked.opk);
    }
  }

  lemma CleanupIsValid<K>(st: Server<K>, now: int, later: int)
    requires Valid(st) && st.mail.clock <= now <= later
    ensures Valid(After(st, Cleanup(now, later)))
  {
    M.ExpireKeeps(st.mail, now);
    M.TickKeeps(M.Expire(st.mail, now), later);
    P.HousekeepKeeps(st.keys, later - IDLE_MS);
  }

  /** Every step keeps every invariant of the relay. */
  lemma AfterIsValid<K>(st: Server<K>, e: Event<K>)
    requires Valid(st) && Possible(st, e)
    ensures Valid(After(st, e))
  {
    match e
    case Connected(k, nonce) => M.ConnectKeeps(st.mail, k, nonce);
    case Auth(k, sender, good, rows, now) =>
      if LogsIn(st, k, good) {
        LoginIsValid(st, k, Claim(sender), rows, now);
      } else {
        M.RefuseKeeps(st.mail, k);
      }
    case UploadFrame(k, upload, now) => UploadIsValid(st, k, upload, now);
    case Request(k, target, picked) => RequestIsValid(st, k, target, picked);
    case Message(k, to, payload, cid, now, later) => M.AcceptKeeps(st.mail, k, to, payload, cid, now, later);
    case AckFrame(k, qid) => M.AckKeeps(st.mail, k, qid);
    case PostFrame(channel, number, body) =>
    case FetchFrame(k, channel, since, page) => M.SendKeeps(st.mail, k, Posts(channel, page));
    case Ignored =>
    case Dropped(k, member, open) => M.DropKeeps(st.mail, k, member, open);
    case Cleanup(now, later) => CleanupIsValid(st, now, later);
    case SweepRun(now) => M.SweepKeeps(st.mail, now);
  }

  lemma RunSnoc<K>(st: Server<K>, evs: seq<Event<K>>, e: Event<K>)
    requires Run(st, evs) && Possible(Final(st, evs), e)
    ensures Run(st, evs + [e]) && Final(st, evs + [e]) == After(Final(st, evs), e)
  {
    assert (evs + [e])[..|evs|] == evs;
  }

  ghost predicate Run<K>(st: Server<K>, evs: seq<Event<K>>) {
    evs == [] ||
    var n := |evs| - 1;
    Run(st, evs[..n]) && Possible(Final(st, evs[..n]), evs[n])
  }

  ghost function Final<K>(st: Server<K>, evs: seq<Event<K>>): Server<K> {
    if evs == [] then st
    else
      var n := |evs| - 1;
      if Possible(Final(st, evs[..n]), evs[n]) then After(Final(st, evs[..n]), evs[n]) else Final(st, evs[..n])
  }

  lemma {:induction false} RunIsValid<K>(st: Server<K>, evs: seq<Event<K>>)
    requires Valid(st) && Run(st, evs)
    ensures Valid(Final(st, evs))
  {
    if evs != [] {
      var n := |evs| - 1;
      RunIsValid(st, evs[..n]);
      AfterIsValid(Final(st, evs[..n]), evs[n]);
    }
  }

  /** No stranded message, in any state a process can get into: whatever is queued for an
      id has been sent, with its row id, on every open client socket logged in as that id. */
  lemma NoStrandedMessage<K>(st: Server<K>, evs: seq<Event<K>>, k: K, q: nat)
    requires Started(st) && Run(st, evs)
    requires
      var m := Final(st, evs).mail;
      k in m.socks && q in m.queue && m.socks[k].member && m.socks[k].open
      && m.socks[k].authedId == Some(m.queue[q].recipient)
    ensures
      var m := Final(st, evs).mail;
      Msg(m.queue[q].recipient, m.queue[q].payload, q) in m.socks[k].sent
  {
    StartIsValid(st);
    RunIsValid(st, evs);
    var m := Final(st, evs).mail;
    assert M.Listening(m.socks[k], m.queue[q].recipient);
    assert M.FrameOf(q, m.queue[q]) in m.socks[k].sent;
  }

  lemma AfterSendsOnce<K>(st: Server<K>, e: Event<K>)
    requires Valid(st) && Possible(st, e) && M.SentOnce(st.mail)
    ensures M.SentOnce(After(st, e).mail)
  {
    match e
    case Auth(k, sender, good, rows, now) =>
      if LogsIn(st, k, good) {
        M.LoginOnce(st.mail, k, Claim(sender), rows);
      } else {
        M.SendOnce(st.mail.(socks := st.mail.socks[k := st.mail.socks[k].(nonce := None)]), k, AuthFail);
      }
    case Request(k, target, picked) =>
      if target != "" {
        M.SendOnce(st.mail, k, P.Reply(st.keys.rows, target, picked));
      }
    case Message(k, to, payload, cid, now, later) => M.AcceptOnce(st.mail, k, to, payload, cid, now, later);
    case FetchFrame(k, channel, since, page) => M.SendOnce(st.mail, k, Posts(channel, page));
    case _ =>
  }

  lemma {:induction false} RunSendsOnce<K>(st: Server<K>, evs: seq<Event<K>>)
    requires Valid(st) && M.SentOnce(st.mail) && Run(st, evs)
    ensures M.SentOnce(Final(st, evs).mail)
  {
    if evs != [] {
      var n := |evs| - 1;
      RunSendsOnce(st, evs[..n]);
      RunIsValid(st, evs[..n]);
      AfterSendsOnce(Final(st, evs[..n]), evs[n]);
    }
  }

  /** On one socket a row is sent at most once, whether by the flush or by the live push; so
      a queued row is on each open client socket of its recipient exactly once. */
  lemma SentExactlyOnce<K>(st: Server<K>, evs: seq<Event<K>>, k: K, q: nat) returns (i: nat)
    requires Started(st) && Run(st, evs)
    requires
      var m := Final(st, evs).mail;
      k in m.socks && q in m.queue && m.socks[k].member && m.socks[k].open
      && m.socks[k].authedId == Some(m.queue[q].recipient)
    ensures
      var m := Final(st, evs).mail;
      var sent := m.socks[k].sent;
      && i < |sent| && sent[i] == Msg(m.queue[q].recipient, m.queue[q].payload, q)
      && forall j :: 0 <= j < |sent| && sent[j].Msg? && sent[j].qid == q ==> j == i
  {
    NoStrandedMessage(st, evs, k, q);
    StartIsValid(st);
    RunSendsOnce(st, evs);
    var m := Final(st, evs).mail;
    var sent := m.socks[k].sent;
    assert M.OncePerRow(sent);
    i :| 0 <= i < |sent| && sent[i] == Msg(m.queue[q].recipient, m.queue[q].payload, q);
  }

  /** Messages are shown to nobody but their recipient, and only as they were inserted. */
  lemma OnlyRecipientSees<K>(st: Server<K>, evs: seq<Event<K>>, k: K, f: Frame)
    requires Started(st) && Run(st, evs)
    requires k in Final(st, evs).mail.socks && f in Final(st, evs).mail.socks[k].sent && f.Msg?
    ensures
      var m := Final(st, evs).mail;
      && m.socks[k].authedId == Some(f.to)
      && f.qid in m.log && m.log[f.qid].recipient == f.to && m.log[f.qid].payload == f.payload
  {
    StartIsValid(st);
    RunIsValid(st, evs);
  }

  /** Within a process, two insertions with the same client id are more than ten minutes
      apart, and a client id is confirmed only after an insertion for it. */
  lemma DuplicatesSuppressed<K>(st: Server<K>, evs: seq<Event<K>>)
    requires Started(st) && Run(st, evs)
    ensures M.Spaced(Final(st, evs).mail) && M.ConfirmedAfterInsertion(Final(st, evs).mail)
  {
    StartIsValid(st);
    RunIsValid(st, evs);
  }

  // ----- how a queued row leaves

  /** The event removes row `q`: an acknowledgement on a socket logged in as its recipient,
      or a cleanup after its expiry. */
  ghost predicate Removes<K>(st: Server<K>, e: Event<K>, q: nat) {
    q in st.mail.queue &&
    match e
    case AckFrame(k, qid) =>
      qid == q && qid > 0 && k in st.mail.socks && st.mail.socks[k].senderId == Some(st.mail.queue[q].recipient)
    case Cleanup(now, _) => st.mail.queue[q].expiry < now
    case _ => false
  }

  lemma RowAfter<K>(st: Server<K>, e: Event<K>, q: nat)
    requires M.QueueFromLog(st.mail) && Possible(st, e) && q in st.mail.log
    ensures q in After(st, e).mail.log && After(st, e).mail.log[q] == st.mail.log[q]
    ensures q in After(st, e).mail.queue <==> q in st.mail.queue && !Removes(st, e, q)
  {
    match e
    case Message(k, to, payload, cid, now, later) => M.AcceptKeepsRow(st.mail, k, to, payload, cid, now, later, q);
    case AckFrame(k, qid) =>
    case Cleanup(now, later) =>
    case _ =>
  }

  /** Some event of the run removes row `q`. */
  ghost predicate RemovedIn<K>(st: Server<K>, evs: seq<Event<K>>, q: nat) {
    evs != [] &&
    var n := |evs| - 1;
    RemovedIn(st, evs[..n], q) || Removes(Final(st, evs[..n]), evs[n], q)
  }

  /** A row, once inserted, stays unchanged through any run until its recipient acknowledges
      it or a cleanup finds it expired, and once gone it never comes back. */
  lemma {:induction false} RowStays<K>(st: Server<K>, evs: seq<Event<K>>, q: nat)
    requires Valid(st) && Run(st, evs) && q in st.mail.queue
    ensures q in Final(st, evs).mail.log && Final(st, evs).mail.log[q] == st.mail.queue[q]
    ensures q in Final(st, evs).mail.queue <==> !RemovedIn(st, evs, q)
    ensures q in Final(st, evs).mail.queue ==> Final(st, evs).mail.queue[q] == st.mail.queue[q]
  {
    RunIsValid(st, evs);
    if evs != [] {
      var n := |evs| - 1;
      RowStays(st, evs[..n], q);
      RunIsValid(st, evs[..n]);
      RowAfter(Final(st, evs[..n]), evs[n], q);
    }
  }

  /** The recipient of row `q` acknowledges it in the run. */
  ghost predicate AckedIn<K>(st: Server<K>, evs: seq<Event<K>>, q: nat) {
    evs != [] &&
    var n := |evs| - 1;
    AckedIn(st, evs[..n], q) || (evs[n].AckFrame? && Removes(Final(st, evs[..n]), evs[n], q))
  }

  /** An event inserts at most one row, and that row is queued. */
  lemma InsertsAfter<K>(st: Server<K>, e: Event<K>)
    requires Possible(st, e)
    ensures
      var m, n := st.mail, After(st, e).mail;
      n.inserts == m.inserts
      || (&& |n.inserts| == |m.inserts| + 1 && n.inserts[..|m.inserts|] == m.inserts
          && n.inserts[|m.inserts|].qid in n.queue)
  {
    match e
    case Message(k, to, payload, cid, now, later) => M.AcceptQueues(st.mail, k, to, payload, cid, now, later);
    case _ =>
  }

  lemma ClockAfter<K>(st: Server<K>, e: Event<K>)
    requires Possible(st, e)
    ensures st.mail.clock <= After(st, e).mail.clock
  {
  }

  /** No message is lost before its time: whatever was inserted in the run is still queued,
      or was acknowledged by its recipient, or is older than the queue's lifetime. */
  lemma {:induction false} NoEarlyLoss<K>(st: Server<K>, evs: seq<Event<K>>, i: nat)
    requires Started(st) && Run(st, evs) && i < |Final(st, evs).mail.inserts|
    ensures
      var m := Final(st, evs).mail;
      m.inserts[i].qid in m.queue || AckedIn(st, evs, m.inserts[i].qid) || m.inserts[i].at + TTL_MS < m.clock
  {
    if evs != [] {
      var n := |evs| - 1;
      var s := Final(st, evs[..n]);
      InsertsAfter(s, evs[n]);
      if i < |s.mail.inserts| {
        NoEarlyLoss(st, evs[..n], i);
        StartedRunIsValid(st, evs[..n]);
        RowKept(s, evs[n], i);
      }
    }
  }

  lemma StartedRunIsValid<K>(st: Server<K>, evs: seq<Event<K>>)
    requires Started(st) && Run(st, evs)
    ensures M.Stamped(Final(st, evs).mail) && M.QueueFromLog(Final(st, evs).mail)
  {
    StartIsValid(st);
    RunIsValid(st, evs);
  }

  lemma RowKept<K>(st: Server<K>, e: Event<K>, i: nat)
    requires M.Stamped(st.mail) && M.QueueFromLog(st.mail)
    requires Possible(st, e) && i < |st.mail.inserts|
    ensures
      var q := st.mail.inserts[i].qid;
      q in st.mail.queue ==>
        || q in After(st, e).mail.queue
        || (e.AckFrame? && Removes(st, e, q))
        || st.mail.inserts[i].at + TTL_MS < After(st, e).mail.clock
    ensures st.mail.clock <= After(st, e).mail.clock
  {
    ClockAfter(st, e);
    RowAfter(st, e, st.mail.inserts[i].qid);
  }

  // ----- one-time keys and posts

  /** The one-time key row an event hands out. */
  ghost function HandsOut<K>(e: Event<K>): Option<nat> {
    if e.Request? && e.target != "" then e.picked.opk else None
  }

  lemma HandedAfter<K>(st: Server<K>, e: Event<K>)
    requires Possible(st, e)
    ensures
      var opk := HandsOut(e);
      After(st, e).keys.handed == st.keys.handed + if opk.Some? then [opk.value] else []
  {
  }

  lemma {:induction false} HandedInRun<K>(st: Server<K>, evs: seq<Event<K>>, i: nat)
    requires Valid(st) && Run(st, evs) && i < |evs| && HandsOut(evs[i]).Some?
    ensures HandsOut(evs[i]).value in Final(st, evs).keys.handed
  {
    var n := |evs| - 1;
    HandedAfter(Final(st, evs[..n]), evs[n]);
    if i < n {
      HandedInRun(st, evs[..n], i);
    }
  }

  /** No two responses of a run contain the same one-time key row. */
  lemma {:induction false} OneTimeKeysOnce<K>(st: Server<K>, evs: seq<Event<K>>, i: nat, j: nat)
    requires Valid(st) && Run(st, evs) && i < j < |evs|
    requires HandsOut(evs[i]).Some? && HandsOut(evs[j]).Some?
    ensures HandsOut(evs[i]).value != HandsOut(evs[j]).value
  {
    var n := |evs| - 1;
    if j < n {
      OneTimeKeysOnce(st, evs[..n], i, j);
    } else {
      HandedInRun(st, evs[..n], i);
      LastHandedIsNew(st, evs);
    }
  }

  lemma LastHandedIsNew<K>(st: Server<K>, evs: seq<Event<K>>)
    requires Valid(st) && Run(st, evs) && evs != [] && HandsOut(evs[|evs| - 1]).Some?
    ensures HandsOut(evs[|evs| - 1]).value !in Final(st, evs[..|evs| - 1]).keys.handed
  {
    var n := |evs| - 1;
    RunIsValid(st, evs[..n]);
    P.HandOutKeeps(Final(st, evs[..n]).keys, HandsOut(evs[n]));
  }

  /** Prekey rows are conserved over every run. */
  lemma KeysConservedInRun<K>(st: Server<K>, evs: seq<Event<K>>)
    requires Started(st) && Run(st, evs)
    ensures
      var t := Final(st, evs).keys;
      t.next - 1 == |t.rows| + |t.handed| + |t.replaced| + |t.housekept|
  {
    StartIsValid(st);
    RunIsValid(st, evs);
    P.KeysConserved(Final(st, evs).keys);
  }

  lemma GrowsAfter<K>(st: Server<K>, e: Event<K>)
    requires Possible(st, e)
    ensures C.Grows(st.posts, After(st, e).posts)
  {
    match e
    case PostFrame(channel, number, payload) =>
      if number.Some? {
        C.PublishAppends(st.posts, channel, number.value, payload);
      }
    case _ =>
  }

  /** A stored post never changes or disappears over any run. */
  lemma {:induction false} PostsStay<K>(st: Server<K>, evs: seq<Event<K>>)
    requires Run(st, evs)
    ensures C.Grows(st.posts, Final(st, evs).posts)
  {
    if evs != [] {
      var n := |evs| - 1;
      PostsStay(st, evs[..n]);
      GrowsAfter(Final(st, evs[..n]), evs[n]);
    }
  }
}

/**
  The message queue and the sockets of the relay as a value, and what each handler does
  to them. History is part of the value: every row ever inserted, every insertion with its
  client id and time, and every frame ever sent.
 */
module Mailbox {
  import opened Wrappers
  import opened RelayTypes

  /** One insertion into the queue. */
  datatype Insertion = Insertion(qid: nat, cid: Option<string>, at: int)

  datatype Mail<!K(==)> = Mail(
    clock: int,
    queue: map<nat, QueueRow>, nextQid: nat,
    recent: map<string, int>,
    socks: map<K, Sock>,
    log: map<nat, QueueRow>, inserts: seq<Insertion>)

  // ----- sending

  /** A socket that is not open swallows what is sent on it. */
  function Sent(s: Sock, fs: seq<Frame>): Sock {
    if s.open then s.(sent := s.sent + fs) else s
  }

  function Send<K>(m: Mail<K>, k: K, f: Frame): Mail<K>
    requires k in m.socks
  {
    m.(socks := m.socks[k := Sent(m.socks[k], [f])])
  }

  /** The sockets a message to `id` is pushed to. */
  predicate Listening(s: Sock, id: string) {
    s.member && s.open && s.senderId == Some(id)
  }

  function Push<K>(m: Mail<K>, id: string, f: Frame): Mail<K> {
    m.(socks := map k | k in m.socks :: if Listening(m.socks[k], id) then Sent(m.socks[k], [f]) else m.socks[k])
  }

  function FrameOf(q: nat, r: QueueRow): Frame {
    Msg(r.recipient, r.payload, q)
  }

  // ----- the handlers

  function Tick<K>(m: Mail<K>, now: int): Mail<K> {
    m.(clock := now)
  }

  function Connect<K>(m: Mail<K>, k: K, nonce: string): Mail<K> {
    m.(socks := m.socks[k := Sock(true, true, Some(nonce), None, None, None, [AuthChallenge(nonce)])])
  }

  /** A refused login: the nonce is spent, whoever the socket was stays. */
  function Refuse<K>(m: Mail<K>, k: K): Mail<K>
    requires k in m.socks
  {
    Send(m.(socks := m.socks[k := m.socks[k].(nonce := None)]), k, AuthFail)
  }

  /** A socket gets its identity; an upload that waited for it is taken out. */
  function Identify<K>(m: Mail<K>, k: K, id: string): Mail<K>
    requires k in m.socks
  {
    var s := m.socks[k].(nonce := None, authedId := Some(id), senderId := Some(id), pending := None);
    m.(socks := m.socks[k := s])
  }

  /** A login, up to the reply. */
  function Admit<K>(m: Mail<K>, k: K, id: string): Mail<K>
    requires k in m.socks
  {
    Send(Identify(m, k, id), k, AuthOk)
  }

  /** The backlog of `id` in some order of arrival. */
  predicate IsBacklog(queue: map<nat, QueueRow>, id: string, rows: seq<nat>) {
    && (forall q :: q in rows ==> q in queue && queue[q].recipient == id)
    && (forall q :: q in queue && queue[q].recipient == id ==> q in rows)
    && (forall i, j :: 0 <= i < j < |rows| ==> rows[i] != rows[j])
    && (forall i, j :: 0 <= i < j < |rows| && rows[i] in queue && rows[j] in queue ==>
          queue[rows[i]].created <= queue[rows[j]].created)
  }

  function Frames(queue: map<nat, QueueRow>, rows: seq<nat>): seq<Frame>
    requires forall q :: q in rows ==> q in queue
  {
    seq(|rows|, i requires 0 <= i < |rows| => FrameOf(rows[i], queue[rows[i]]))
  }

  function Flush<K>(m: Mail<K>, k: K, rows: seq<nat>): Mail<K>
    requires k in m.socks && forall q :: q in rows ==> q in m.queue
  {
    m.(socks := m.socks[k := Sent(m.socks[k], Frames(m.queue, rows))])
  }

  function Hold<K>(m: Mail<K>, k: K, u: Upload): Mail<K>
    requires k in m.socks
  {
    m.(socks := m.socks[k := m.socks[k].(pending := Some(u))])
  }

  /** The client id a message is deduplicated by: the first 64 characters, if any. */
  function Cid(cid: Option<string>): Option<string> {
    match cid
    case None => None
    case Some(c) => if c == "" then None else Some(if |c| > 64 then c[..64] else c)
  }

  function Insert<K>(m: Mail<K>, to: string, payload: string, cid: Option<string>, now: int): Mail<K> {
    var row := QueueRow(to, payload, now, now + TTL_MS);
    m.(queue := m.queue[m.nextQid := row], log := m.log[m.nextQid := row], nextQid := m.nextQid + 1,
       inserts := m.inserts + [Insertion(m.nextQid, cid, now)])
  }

  function Acknowledge<K>(m: Mail<K>, k: K, cid: Option<string>, now: int): Mail<K>
    requires k in m.socks
  {
    match cid
    case None => m
    case Some(c) => Send(m.(recent := m.recent[c := now]), k, Received(c))
  }

  /** A message: refused without a recipient, only confirmed when its client id is recent,
      rejected by the table without a payload; otherwise queued, pushed to the recipient's
      open sockets and confirmed. The handler reads the clock twice. */
  function Accept<K>(
    m: Mail<K>, k: K, to: string, payload: Option<string>, cid: Option<string>, now: int, later: int): Mail<K>
    requires k in m.socks
  {
    var c := Cid(cid);
    if to == "" then m
    else if c.Some? && c.value in m.recent then Send(m, k, Received(c.value))
    else if payload.None? then Tick(m, now)
    else
      var q := m.nextQid;
      var inserted := Insert(Tick(m, now), to, payload.value, c, now);
      var pushed := Push(inserted, to, Msg(to, payload.value, q));
      Acknowledge(Tick(pushed, later), k, c, later)
  }

  function Ack<K>(m: Mail<K>, k: K, qid: int): Mail<K>
    requires k in m.socks
  {
    var id := m.socks[k].senderId;
    if id.Some? && qid > 0 && qid in m.queue && m.queue[qid].recipient == id.value then
      m.(queue := m.queue - {qid})
    else m
  }

  function Expire<K>(m: Mail<K>, now: int): Mail<K> {
    Tick(m, now).(queue := map q | q in m.queue && !(m.queue[q].expiry < now) :: m.queue[q])
  }

  function Sweep<K>(m: Mail<K>, now: int): Mail<K> {
    Tick(m, now).(recent := map c | c in m.recent && !(m.recent[c] < now - CID_TTL_MS) :: m.recent[c])
  }

  /** The connection goes down, or leaves the set of clients, or both. */
  function Drop<K>(m: Mail<K>, k: K, member: bool, open: bool): Mail<K>
    requires k in m.socks
  {
    var s := m.socks[k];
    m.(socks := m.socks[k := s.(member := s.member && member, open := s.open && open)])
  }

  lemma DropTwice<K>(m: Mail<K>, k: K)
    requires k in m.socks
    ensures Drop(Drop(m, k, true, false), k, false, true) == Drop(m, k, false, false)
  {
  }

  // ----- what always holds

  /** Each socket logs in at most once, and both identity fields agree. */
  predicate IdentityFixed<K>(m: Mail<K>) {
    forall k :: k in m.socks ==>
      && m.socks[k].authedId == m.socks[k].senderId
      && (m.socks[k].nonce.Some? ==> m.socks[k].authedId.None?)
  }

  /** Row ids are never reused, and a queued row is exactly what was inserted. */
  predicate QueueFromLog<K>(m: Mail<K>) {
    && (forall q :: q in m.queue ==> q in m.log && m.queue[q] == m.log[q])
    && (forall q :: q in m.log ==> q < m.nextQid)
  }

  /** No stranded message: every row has been sent, with its id, on every open client
      socket of its recipient. */
  predicate NoneStranded<K>(m: Mail<K>) {
    forall k, q :: k in m.socks && q in m.queue && Listening(m.socks[k], m.queue[q].recipient) ==>
      FrameOf(q, m.queue[q]) in m.socks[k].sent
  }

  /** Every message ever sent is a row that was inserted, sent to a socket logged in as its
      recipient. */
  predicate OnlyToOwner<K>(m: Mail<K>) {
    forall k, f :: k in m.socks && f in m.socks[k].sent && f.Msg? ==>
      && m.socks[k].senderId == Some(f.to)
      && f.qid in m.log && FrameOf(f.qid, m.log[f.qid]) == f
  }

  predicate WasInserted<K>(m: Mail<K>, c: string) {
    exists i :: 0 <= i < |m.inserts| && m.inserts[i].cid == Some(c)
  }

  /** A client id is confirmed, or remembered, only after an insertion for it. */
  predicate ConfirmedAfterInsertion<K>(m: Mail<K>) {
    && (forall c :: c in m.recent ==> WasInserted(m, c))
    && (forall k, f :: k in m.socks && f in m.socks[k].sent && f.Received? ==> WasInserted(m, f.cid))
  }

  /** A past insertion with a client id is either remembered, with a later stamp, or more
      than the window ago. */
  predicate Remembered<K>(m: Mail<K>) {
    forall i :: 0 <= i < |m.inserts| && m.inserts[i].cid.Some? ==>
      var c := m.inserts[i].cid.value;
      && m.inserts[i].at <= m.clock
      && (if c in m.recent then m.inserts[i].at <= m.recent[c] <= m.clock
          else m.inserts[i].at + CID_TTL_MS < m.clock)
  }

  /** Two insertions with the same client id are more than the window apart. */
  predicate Spaced<K>(m: Mail<K>) {
    forall i, j :: 0 <= i < j < |m.inserts| && m.inserts[i].cid.Some? && m.inserts[i].cid == m.inserts[j].cid ==>
      m.inserts[i].at + CID_TTL_MS < m.inserts[j].at
  }

  /** An insertion of this process made a row that lives for the whole queue time. */
  predicate Stamped<K>(m: Mail<K>) {
    forall i :: 0 <= i < |m.inserts| ==>
      var q := m.inserts[i].qid;
      q in m.log && m.log[q].created == m.inserts[i].at && m.log[q].expiry == m.inserts[i].at + TTL_MS
  }

  predicate MailValid<K>(m: Mail<K>) {
    && Stamped(m) && IdentityFixed(m) && QueueFromLog(m) && NoneStranded(m) && OnlyToOwner(m)
    && ConfirmedAfterInsertion(m) && Remembered(m) && Spaced(m)
  }

  // ----- each handler keeps it

  lemma ConnectKeeps<K>(m: Mail<K>, k: K, nonce: string)
    requires MailValid(m) && k !in m.socks
    ensures MailValid(Connect(m, k, nonce))
  {
    var n := Connect(m, k, nonce);
    assert forall c :: WasInserted(m, c) ==> WasInserted(n, c);
  }

  /** Sending anything but a message or a confirmation is harmless. */
  lemma SendKeeps<K>(m: Mail<K>, k: K, f: Frame)
    requires MailValid(m) && k in m.socks
    requires !f.Msg? && (f.Received? ==> WasInserted(m, f.cid))
    ensures MailValid(Send(m, k, f))
  {
    var n := Send(m, k, f);
    assert forall c :: WasInserted(m, c) ==> WasInserted(n, c);
    assert forall g :: g in n.socks[k].sent ==> g in m.socks[k].sent || g == f;
  }

  lemma RefuseKeeps<K>(m: Mail<K>, k: K)
    requires MailValid(m) && k in m.socks
    ensures MailValid(Refuse(m, k))
  {
    var n := m.(socks := m.socks[k := m.socks[k].(nonce := None)]);
    assert forall c :: WasInserted(m, c) ==> WasInserted(n, c);
    SendKeeps(n, k, AuthFail);
  }

  lemma HoldKeeps<K>(m: Mail<K>, k: K, u: Upload)
    requires MailValid(m) && k in m.socks
    ensures MailValid(Hold(m, k, u))
  {
    assert forall c :: WasInserted(m, c) ==> WasInserted(Hold(m, k, u), c);
  }

  /** What is on the logging-in socket after reply and flush: nothing lost, the whole
      backlog there, and nothing else but the reply. */
  lemma LoginFrames<K>(m: Mail<K>, k: K, id: string, rows: seq<nat>)
    requires k in m.socks && IsBacklog(m.queue, id, rows)
    ensures
      var s, t := m.socks[k], Flush(Admit(m, k, id), k, rows).socks[k];
      && (forall f :: f in s.sent ==> f in t.sent)
      && (s.open ==> forall q :: q in m.queue && m.queue[q].recipient == id ==> FrameOf(q, m.queue[q]) in t.sent)
      && (forall f :: f in t.sent ==>
            || f in s.sent || f == AuthOk
            || exists q :: q in m.queue && m.queue[q].recipient == id && f == FrameOf(q, m.queue[q]))
  {
    var s, t := m.socks[k], Flush(Admit(m, k, id), k, rows).socks[k];
    var fs := Frames(m.queue, rows);
    assert s.open ==> t.sent == s.sent + [AuthOk] + fs;
    forall q | q in m.queue && m.queue[q].recipient == id ensures FrameOf(q, m.queue[q]) in fs {
      var i :| 0 <= i < |rows| && rows[i] == q;
      assert fs[i] == FrameOf(q, m.queue[q]);
    }
    forall f | f in fs ensures exists q :: q in m.queue && m.queue[q].recipient == id && f == FrameOf(q, m.queue[q]) {
      var i :| 0 <= i < |fs| && fs[i] == f;
      assert rows[i] in m.queue;
    }
  }

  lemma LoginDelivers<K>(m: Mail<K>, k: K, id: string, rows: seq<nat>)
    requires IdentityFixed(m) && QueueFromLog(m) && NoneStranded(m) && OnlyToOwner(m)
    requires k in m.socks && m.socks[k].nonce.Some? && IsBacklog(m.queue, id, rows)
    ensures
      var n := Flush(Admit(m, k, id), k, rows);
      IdentityFixed(n) && QueueFromLog(n) && NoneStranded(n) && OnlyToOwner(n)
  {
    LoginFrames(m, k, id, rows);
  }

  /** A login alone would strand the backlog; with the flush nothing is stranded. */
  lemma LoginKeeps<K>(m: Mail<K>, k: K, id: string, rows: seq<nat>)
    requires MailValid(m) && k in m.socks && m.socks[k].nonce.Some?
    requires IsBacklog(m.queue, id, rows)
    ensures MailValid(Flush(Admit(m, k, id), k, rows))
  {
    var n := Flush(Admit(m, k, id), k, rows);
    LoginDelivers(m, k, id, rows);
    assert ConfirmedAfterInsertion(n) by {
      assert forall c :: WasInserted(m, c) ==> WasInserted(n, c);
      LoginFrames(m, k, id, rows);
    }
  }

  /** The sockets after an accepted message: the push, then the confirmation. */
  lemma PushedSock<K>(m: Mail<K>, k: K, to: string, f: Frame, c: Option<string>, later: int, j: K)
    requires k in m.socks && j in m.socks
    ensures
      var n := Acknowledge(Tick(Push(m, to, f), later), k, c, later);
      && n.socks.Keys == m.socks.Keys
      && n.socks[j].(sent := m.socks[j].sent) == m.socks[j]
      && (forall g :: g in m.socks[j].sent ==> g in n.socks[j].sent)
      && (Listening(m.socks[j], to) ==> f in n.socks[j].sent)
      && (forall g :: g in n.socks[j].sent ==>
            g in m.socks[j].sent || (g == f && Listening(m.socks[j], to)) || (c.Some? && g == Received(c.value)))
  {
  }

  /** `n` is `m` after accepting `row` under the client id `c`: the table and the history
      grow by it, its recipient's open sockets get it, and the client id is confirmed. */
  ghost predicate Accepted<K>(m: Mail<K>, n: Mail<K>, row: QueueRow, c: Option<string>) {
    && n.queue == m.queue[m.nextQid := row] && n.log == m.log[m.nextQid := row] && n.nextQid == m.nextQid + 1
    && n.inserts == m.inserts + [Insertion(m.nextQid, c, row.created)]
    && n.recent == (if c.Some? then m.recent[c.value := n.clock] else m.recent)
    && n.socks.Keys == m.socks.Keys
    && forall j :: j in m.socks ==>
         && n.socks[j].(sent := m.socks[j].sent) == m.socks[j]
         && (forall g :: g in m.socks[j].sent ==> g in n.socks[j].sent)
         && (Listening(m.socks[j], row.recipient) ==> FrameOf(m.nextQid, row) in n.socks[j].sent)
         && (forall g :: g in n.socks[j].sent ==>
               || g in m.socks[j].sent
               || (g == FrameOf(m.nextQid, row) && Listening(m.socks[j], row.recipient))
               || (c.Some? && g == Received(c.value)))
  }

  lemma AcceptIsAccepted<K>(m: Mail<K>, k: K, to: string, payload: string, cid: Option<string>, now: int, later: int)
    requires k in m.socks && to != "" && (Cid(cid).Some? ==> Cid(cid).value !in m.recent)
    ensures
      var n := Accept(m, k, to, Some(payload), cid, now, later);
      Accepted(m, n, QueueRow(to, payload, now, now + TTL_MS), Cid(cid)) && n.clock == later
  {
    var n := Accept(m, k, to, Some(payload), cid, now, later);
    var row := QueueRow(to, payload, now, now + TTL_MS);
    var f := FrameOf(m.nextQid, row);
    var c := Cid(cid);
    forall j | j in m.socks
      ensures n.socks.Keys == m.socks.Keys
      ensures n.socks[j].(sent := m.socks[j].sent) == m.socks[j]
      ensures forall g :: g in m.socks[j].sent ==> g in n.socks[j].sent
      ensures Listening(m.socks[j], to) ==> f in n.socks[j].sent
      ensures forall g :: g in n.socks[j].sent ==>
        g in m.socks[j].sent || (g == f && Listening(m.socks[j], to)) || (c.Some? && g == Received(c.value))
    {
      PushedSock(Insert(Tick(m, now), to, payload, c, now), k, to, f, c, later, j);
    }
  }

  lemma AcceptStrandsNone<K>(m: Mail<K>, n: Mail<K>, row: QueueRow, c: Option<string>)
    requires Accepted(m, n, row, c) && NoneStranded(m) && IdentityFixed(m) && QueueFromLog(m)
    ensures NoneStranded(n) && IdentityFixed(n) && QueueFromLog(n)
  {
  }

  lemma AcceptStamps<K>(m: Mail<K>, n: Mail<K>, row: QueueRow, c: Option<string>)
    requires Accepted(m, n, row, c) && Stamped(m) && QueueFromLog(m) && row.expiry == row.created + TTL_MS
    ensures Stamped(n)
  {
  }

  lemma AcceptShowsOwner<K>(m: Mail<K>, n: Mail<K>, row: QueueRow, c: Option<string>)
    requires Accepted(m, n, row, c) && OnlyToOwner(m) && QueueFromLog(m)
    ensures OnlyToOwner(n)
  {
  }

  lemma AcceptInserts<K>(m: Mail<K>, n: Mail<K>, row: QueueRow, c: Option<string>, d: string)
    requires Accepted(m, n, row, c) && (WasInserted(m, d) || c == Some(d))
    ensures WasInserted(n, d)
  {
    if WasInserted(m, d) {
      var i :| 0 <= i < |m.inserts| && m.inserts[i].cid == Some(d);
      assert n.inserts[i].cid == Some(d);
    } else {
      assert n.inserts[|m.inserts|].cid == Some(d);
    }
  }

  lemma AcceptConfirms<K>(m: Mail<K>, n: Mail<K>, row: QueueRow, c: Option<string>)
    requires Accepted(m, n, row, c) && ConfirmedAfterInsertion(m)
    ensures ConfirmedAfterInsertion(n)
  {
    forall d | WasInserted(m, d) || c == Some(d) ensures WasInserted(n, d) {
      AcceptInserts(m, n, row, c, d);
    }
  }

  /** A client id that is no longer remembered was inserted more than the window ago. */
  lemma AcceptSpaces<K>(m: Mail<K>, n: Mail<K>, row: QueueRow, c: Option<string>)
    requires Accepted(m, n, row, c) && Remembered(m) && Spaced(m)
    requires c.Some? ==> c.value !in m.recent
    requires m.clock <= row.created <= n.clock
    ensures Remembered(n) && Spaced(n)
  {
  }

  /** Accepting, or confirming, or refusing a message keeps everything. */
  lemma AcceptKeeps<K>(m: Mail<K>, k: K, to: string, payload: Option<string>, cid: Option<string>, now: int, later: int)
    requires MailValid(m) && k in m.socks && m.clock <= now <= later
    ensures MailValid(Accept(m, k, to, payload, cid, now, later))
  {
    var c := Cid(cid);
    if to == "" {
    } else if c.Some? && c.value in m.recent {
      SendKeeps(m, k, Received(c.value));
    } else if payload.None? {
      TickKeeps(m, now);
    } else {
      var n := Accept(m, k, to, payload, cid, now, later);
      var row := QueueRow(to, payload.value, now, now + TTL_MS);
      AcceptIsAccepted(m, k, to, payload.value, cid, now, later);
      AcceptStrandsNone(m, n, row, c);
      AcceptShowsOwner(m, n, row, c);
      AcceptStamps(m, n, row, c);
      AcceptConfirms(m, n, row, c);
      AcceptSpaces(m, n, row, c);
    }
  }

  lemma TickKeeps<K>(m: Mail<K>, now: int)
    requires MailValid(m) && m.clock <= now
    ensures MailValid(Tick(m, now))
  {
    assert forall c :: WasInserted(m, c) ==> WasInserted(Tick(m, now), c);
  }

  lemma AckKeeps<K>(m: Mail<K>, k: K, qid: int)
    requires MailValid(m) && k in m.socks
    ensures MailValid(Ack(m, k, qid))
  {
    assert forall c :: WasInserted(m, c) ==> WasInserted(Ack(m, k, qid), c);
  }

  lemma ExpireKeeps<K>(m: Mail<K>, now: int)
    requires MailValid(m) && m.clock <= now
    ensures MailValid(Expire(m, now))
  {
    assert forall c :: WasInserted(m, c) ==> WasInserted(Expire(m, now), c);
  }

  /** The sweep forgets only stamps that are out of the window. */
  lemma SweepKeeps<K>(m: Mail<K>, now: int)
    requires MailValid(m) && m.clock <= now
    ensures MailValid(Sweep(m, now))
  {
    assert forall c :: WasInserted(m, c) ==> WasInserted(Sweep(m, now), c);
  }

  lemma DropKeeps<K>(m: Mail<K>, k: K, member: bool, open: bool)
    requires MailValid(m) && k in m.socks
    ensures MailValid(Drop(m, k, member, open))
  {
    assert forall c :: WasInserted(m, c) ==> WasInserted(Drop(m, k, member, open), c);
  }

  // ----- rows

  lemma AcceptKeepsRow<K>(
    m: Mail<K>, k: K, to: string, payload: Option<string>, cid: Option<string>, now: int, later: int,
    q: nat)
    requires k in m.socks && QueueFromLog(m) && q in m.log
    ensures
      var n := Accept(m, k, to, payload, cid, now, later);
      q in n.log && n.log[q] == m.log[q] && (q in n.queue <==> q in m.queue)
  {
  }

  /** Accepting inserts at most one row, and that row is queued. */
  lemma AcceptQueues<K>(
    m: Mail<K>, k: K, to: string, payload: Option<string>, cid: Option<string>, now: int, later: int)
    requires k in m.socks
    ensures
      var n := Accept(m, k, to, payload, cid, now, later);
      n.inserts == m.inserts
      || (n.inserts == m.inserts + [Insertion(m.nextQid, Cid(cid), now)] && m.nextQid in n.queue)
  {
  }

  // ----- no row is sent twice on a socket

  /** No two message frames of the list have the same row id. */
  predicate OncePerRow(fs: seq<Frame>) {
    forall i, j :: 0 <= i < j < |fs| && fs[i].Msg? && fs[j].Msg? ==> fs[i].qid != fs[j].qid
  }

  predicate SentOnce<K>(m: Mail<K>) {
    forall k :: k in m.socks ==> OncePerRow(m.socks[k].sent)
  }

  /** No message frame of the list has the row id `q`. */
  predicate Unused(fs: seq<Frame>, q: nat) {
    forall i :: 0 <= i < |fs| && fs[i].Msg? ==> fs[i].qid != q
  }

  lemma OnceSnoc(s: Sock, f: Frame)
    requires OncePerRow(s.sent) && (f.Msg? ==> Unused(s.sent, f.qid))
    ensures OncePerRow(Sent(s, [f]).sent)
  {
  }

  /** Sending anything but a message cannot repeat one. */
  lemma SendOnce<K>(m: Mail<K>, k: K, f: Frame)
    requires SentOnce(m) && k in m.socks && !f.Msg?
    ensures SentOnce(Send(m, k, f))
  {
    OnceSnoc(m.socks[k], f);
  }

  /** A push under a fresh row id repeats nothing. */
  lemma PushOnce<K>(m: Mail<K>, id: string, f: Frame)
    requires SentOnce(m) && f.Msg? && forall k :: k in m.socks ==> Unused(m.socks[k].sent, f.qid)
    ensures SentOnce(Push(m, id, f))
  {
    forall k | k in m.socks ensures OncePerRow(Push(m, id, f).socks[k].sent) {
      OnceSnoc(m.socks[k], f);
    }
  }

  /** Row ids to come have not been sent. */
  lemma NextUnused<K>(m: Mail<K>, k: K)
    requires OnlyToOwner(m) && QueueFromLog(m) && k in m.socks
    ensures Unused(m.socks[k].sent, m.nextQid)
  {
    forall i | 0 <= i < |m.socks[k].sent| && m.socks[k].sent[i].Msg? ensures m.socks[k].sent[i].qid != m.nextQid {
      assert m.socks[k].sent[i] in m.socks[k].sent;
    }
  }

  lemma AcceptOnce<K>(
    m: Mail<K>, k: K, to: string, payload: Option<string>, cid: Option<string>, now: int, later: int)
    requires SentOnce(m) && OnlyToOwner(m) && QueueFromLog(m) && k in m.socks
    ensures SentOnce(Accept(m, k, to, payload, cid, now, later))
  {
    var c := Cid(cid);
    if to == "" || (c.None? && payload.None?) {
    } else if c.Some? && c.value in m.recent {
      SendOnce(m, k, Received(c.value));
    } else if payload.Some? {
      var inserted := Insert(Tick(m, now), to, payload.value, c, now);
      forall j | j in m.socks ensures Unused(inserted.socks[j].sent, m.nextQid) {
        NextUnused(m, j);
      }
      PushOnce(inserted, to, Msg(to, payload.value, m.nextQid));
      AcknowledgeOnce(Tick(Push(inserted, to, Msg(to, payload.value, m.nextQid)), later), k, c, later);
    }
  }

  lemma AcknowledgeOnce<K>(m: Mail<K>, k: K, cid: Option<string>, now: int)
    requires SentOnce(m) && k in m.socks
    ensures SentOnce(Acknowledge(m, k, cid, now))
  {
    if cid.Some? {
      SendOnce(m.(recent := m.recent[cid.value := now]), k, Received(cid.value));
    }
  }

  lemma FramesOnce(queue: map<nat, QueueRow>, rows: seq<nat>)
    requires forall q :: q in rows ==> q in queue
    requires forall i, j :: 0 <= i < j < |rows| ==> rows[i] != rows[j]
    ensures OncePerRow(Frames(queue, rows))
  {
  }

  /** No message precedes the first ones of a socket. */
  lemma OnceAppend(s: Sock, fs: seq<Frame>)
    requires (forall f :: f in s.sent ==> !f.Msg?) && OncePerRow(fs)
    ensures OncePerRow(Sent(s, fs).sent)
  {
    assert forall i :: 0 <= i < |s.sent| ==> !s.sent[i].Msg?;
  }

  /** A socket logs in once, and has been sent no message before. */
  lemma LoginOnce<K>(m: Mail<K>, k: K, id: string, rows: seq<nat>)
    requires SentOnce(m) && OnlyToOwner(m) && IdentityFixed(m)
    requires k in m.socks && m.socks[k].nonce.Some? && IsBacklog(m.queue, id, rows)
    ensures SentOnce(Flush(Admit(m, k, id), k, rows))
  {
    var n := Admit(m, k, id);
    forall f | f in n.socks[k].sent ensures !f.Msg? {
      assert f in m.socks[k].sent || f == AuthOk;
    }
    FramesOnce(m.queue, rows);
    OnceAppend(n.socks[k], Frames(m.queue, rows));
  }

  // ----- exactly what is said and kept

  /** A refused login is told so, if anybody listens, and has spent its nonce. */
  lemma RefuseMeaning<K>(m: Mail<K>, k: K)
    requires k in m.socks
    ensures
      var s := m.socks[k];
      Refuse(m, k) == m.(socks := m.socks[k := s.(nonce := None, sent := s.sent + if s.open then [AuthFail] else [])])
  {
    assert m.socks[k].sent + [] == m.socks[k].sent;
  }

  /** A login leaves the connection where it was, and a closed one hears nothing. */
  lemma LoginLeaves<K>(m: Mail<K>, k: K, id: string, rows: seq<nat>)
    requires k in m.socks && IsBacklog(m.queue, id, rows)
    ensures
      var s, t := m.socks[k], Flush(Admit(m, k, id), k, rows).socks[k];
      t.member == s.member && t.open == s.open && (!s.open ==> t.sent == s.sent)
  {
  }

  /** Of a client id the first 64 characters are kept; an empty one is none. */
  lemma CidMeaning(cid: Option<string>)
    ensures Cid(cid).Some? <==> cid.Some? && cid.value != ""
    ensures Cid(cid).Some? ==>
      Cid(cid).value <= cid.value && |Cid(cid).value| == if |cid.value| > 64 then 64 else |cid.value|
  {
  }

  /** After a sweep exactly the stamps of the last ten minutes are remembered. */
  lemma SweepMeaning<K>(m: Mail<K>, now: int, c: string)
    ensures c in Sweep(m, now).recent <==> c in m.recent && now - m.recent[c] <= 600_000
    ensures c in Sweep(m, now).recent ==> Sweep(m, now).recent[c] == m.recent[c]
  {
  }

  /** What a message to `to` makes connection `j` hear. */
  function AcceptFrames<K(==)>(
    m: Mail<K>, k: K, to: string, payload: Option<string>, cid: Option<string>, j: K): seq<Frame>
    requires j in m.socks
  {
    var s, c := m.socks[j], Cid(cid);
    var repeat := c.Some? && c.value in m.recent;
    (if !repeat && payload.Some? && Listening(s, to) then [Msg(to, payload.value, m.nextQid)] else [])
    + (if j == k && s.open && c.Some? && (repeat || payload.Some?) then [Received(c.value)] else [])
  }

  lemma AcceptKeys<K>(
    m: Mail<K>, k: K, to: string, payload: Option<string>, cid: Option<string>, now: int, later: int)
    requires k in m.socks
    ensures Accept(m, k, to, payload, cid, now, later).socks.Keys == m.socks.Keys
  {
  }

  lemma PushedFrames<K>(m: Mail<K>, to: string, f: Frame, j: K)
    requires j in m.socks
    ensures
      var n := Push(m, to, f);
      && n.socks.Keys == m.socks.Keys
      && n.socks[j] == m.socks[j].(sent := m.socks[j].sent + if Listening(m.socks[j], to) then [f] else [])
  {
    assert m.socks[j].sent + [] == m.socks[j].sent;
  }

  lemma AcknowledgedFrames<K>(m: Mail<K>, k: K, c: Option<string>, now: int, j: K)
    requires k in m.socks && j in m.socks
    ensures
      var n := Acknowledge(m, k, c, now);
      && n.socks.Keys == m.socks.Keys
      && n.socks[j] == m.socks[j].(
           sent := m.socks[j].sent + if j == k && m.socks[j].open && c.Some? then [Received(c.value)] else [])
  {
    assert m.socks[j].sent + [] == m.socks[j].sent;
  }

  lemma NewMessageSends<K>(
    m: Mail<K>, k: K, to: string, payload: string, cid: Option<string>, now: int, later: int, j: K)
    requires k in m.socks && j in m.socks && to != "" && (Cid(cid).Some? ==> Cid(cid).value !in m.recent)
    ensures
      var n := Accept(m, k, to, Some(payload), cid, now, later);
      j in n.socks && n.socks[j] == m.socks[j].(sent := m.socks[j].sent + AcceptFrames(m, k, to, Some(payload), cid, j))
  {
    var c, sent := Cid(cid), m.socks[j].sent;
    var f := Msg(to, payload, m.nextQid);
    var inserted := Insert(Tick(m, now), to, payload, c, now);
    PushedFrames(inserted, to, f, j);
    AcknowledgedFrames(Tick(Push(inserted, to, f), later), k, c, later, j);
    var first := if Listening(m.socks[j], to) then [f] else [];
    var second := if j == k && m.socks[j].open && c.Some? then [Received(c.value)] else [];
    assert sent + first + second == sent + (first + second);
  }

  lemma AcceptSends<K>(
    m: Mail<K>, k: K, to: string, payload: Option<string>, cid: Option<string>, now: int, later: int, j: K)
    requires k in m.socks && j in m.socks && to != ""
    ensures
      var n := Accept(m, k, to, payload, cid, now, later);
      j in n.socks && n.socks[j] == m.socks[j].(sent := m.socks[j].sent + AcceptFrames(m, k, to, payload, cid, j))
  {
    var c := Cid(cid);
    if payload.Some? && (c.Some? ==> c.value !in m.recent) {
      NewMessageSends(m, k, to, payload.value, cid, now, later, j);
    } else {
      assert m.socks[j].sent + [] == m.socks[j].sent;
    }
  }

  lemma AcceptFramesNoPosts<K>(m: Mail<K>, k: K, to: string, payload: Option<string>, cid: Option<string>, j: K)
    requires j in m.socks
    ensures forall f :: f in AcceptFrames(m, k, to, payload, cid, j) ==> !f.Posts?
  {
  }

  /** A login sends auth_ok and the frames of the rows, in their order. */
  lemma LoginSends<K>(m: Mail<K>, k: K, id: string, rows: seq<nat>)
    requires k in m.socks && IsBacklog(m.queue, id, rows)
    ensures
      var s, t := m.socks[k], Flush(Admit(m, k, id), k, rows).socks[k];
      t == s.(nonce := None, authedId := Some(id), senderId := Some(id), pending := None,
              sent := if s.open then s.sent + ([AuthOk] + Frames(m.queue, rows)) else s.sent)
  {
    var s := m.socks[k];
    assert s.sent + [AuthOk] + Frames(m.queue, rows) == s.sent + ([AuthOk] + Frames(m.queue, rows));
  }

  lemma LoginOthers<K>(m: Mail<K>, k: K, id: string, rows: seq<nat>, j: K)
    requires k in m.socks && IsBacklog(m.queue, id, rows) && j in m.socks && j != k
    ensures Flush(Admit(m, k, id), k, rows).socks[j] == m.socks[j]
  {
  }
}

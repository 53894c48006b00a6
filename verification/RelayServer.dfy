/**
  The relay's handlers over mutable tables and sockets. Each is proved to take exactly one
  step of the state machine.
 */
module RelayServer {
  import opened Wrappers
  import opened RelayTypes
  import opened Relay
  import M = Mailbox
  import P = Prekeys
  import C = Channels

  /** A connection. What has been sent on it is history. */
  class Socket {
    const ip: string
    var open: bool
    var authNonce: Option<string>
    var authedId: Option<string>
    var senderId: Option<string>
    var pendingUpload: Option<Upload>
    ghost var sent: seq<Frame>

    ghost function View(member: bool): Sock
      reads this
    {
      Sock(member, open, authNonce, authedId, senderId, pendingUpload, sent)
    }

    constructor (ip: string, nonce: string)
      ensures View(true) == Sock(true, true, Some(nonce), None, None, None, [])
      ensures this.ip == ip
    {
      this.ip := ip;
      open, authNonce, authedId, senderId, pendingUpload := true, Some(nonce), None, None, None;
      sent := [];
    }

    /** `socket.send`: nothing goes out on a socket that is not open. */
    method Send(f: Frame)
      modifies this`sent
      ensures sent == if open then old(sent) + [f] else old(sent)
    {
      if open {
        sent := sent + [f];
      }
    }
  }

  /** Different queued rows, oldest first. */
  predicate ByAge(queue: map<nat, QueueRow>, rows: seq<nat>) {
    && (forall q :: q in rows ==> q in queue)
    && (forall i, j :: 0 <= i < j < |rows| ==>
          && rows[i] != rows[j] && rows[i] in queue && rows[j] in queue
          && queue[rows[i]].created <= queue[rows[j]].created)
  }

  /** Puts one more row after those that are not younger. */
  method InsertByAge(queue: map<nat, QueueRow>, rows: seq<nat>, q: nat) returns (r: seq<nat>)
    requires ByAge(queue, rows) && q in queue && q !in rows
    ensures ByAge(queue, r) && forall x :: x in r <==> x in rows || x == q
  {
    var i := 0;
    while i < |rows| && queue[rows[i]].created <= queue[q].created
      invariant i <= |rows|
      invariant forall j :: 0 <= j < i ==> rows[j] in queue && queue[rows[j]].created <= queue[q].created
    {
      i := i + 1;
    }
    r := rows[..i] + [q] + rows[i..];
  }

  // ----- the limit of connections per address

  const MAX_CONNECTIONS_PER_IP: nat := 20

  /** `ipConnections.get(ip) || 0` */
  function Count(connections: map<string, nat>, ip: string): nat {
    if ip in connections then connections[ip] else 0
  }

  /** One place of the address is given back; the last one takes its entry along. */
  function Released(connections: map<string, nat>, ip: string): map<string, nat> {
    if Count(connections, ip) <= 1 then connections - {ip} else connections[ip := connections[ip] - 1]
  }

  /** Giving back a place lowers the count of its address by one, and no other. */
  lemma ReleasedMeaning(connections: map<string, nat>, ip: string, other: string)
    ensures
      var n := Count(connections, ip);
      Count(Released(connections, ip), other) ==
        if other != ip then Count(connections, other) else if n >= 1 then n - 1 else 0
  {
  }

  /** Both the error and the close handler give back a place. So a failing connection that is
      not the only one of its address takes another's place along; the last one frees its own. */
  lemma FailureFreesTwo(connections: map<string, nat>, ip: string)
    ensures
      var n := Count(connections, ip);
      Count(Released(Released(connections, ip), ip), ip) == if n >= 2 then n - 2 else 0
  {
  }

  class Server {
    var queue: map<nat, QueueRow>
    var nextQid: nat
    var prekeys: map<nat, PrekeyRow>
    var nextPrekey: nat
    var posts: C.Table
    var recentCids: map<string, int>
    var clients: set<Socket>
    var connections: map<string, nat>

    ghost var known: set<Socket>  // every connection made so far
    ghost var clock: int
    ghost var log: map<nat, QueueRow>
    ghost var inserts: seq<M.Insertion>
    ghost var handed: seq<nat>
    ghost var replaced: set<nat>
    ghost var housekept: set<nat>

    ghost function Socks(): map<Socket, Sock>
      reads this, known
    {
      map s | s in known :: s.View(s in clients)
    }

    ghost function Mail(): M.Mail<Socket>
      reads this, known
    {
      M.Mail(clock, queue, nextQid, recentCids, Socks(), log, inserts)
    }

    ghost function Keys(): P.Keys
      reads this
    {
      P.Keys(prekeys, nextPrekey, handed, replaced, housekept)
    }

    ghost function State(): Relay.Server<Socket>
      reads this, known
    {
      Relay.Server(Mail(), Keys(), posts)
    }

    ghost predicate Wired()
      reads this
    {
      clients <= known
    }

    /** Every counted address has a place taken, and none has more than the limit. */
    ghost predicate Limited()
      reads this
    {
      forall ip :: ip in connections ==> 1 <= connections[ip] <= MAX_CONNECTIONS_PER_IP
    }

    /** A process on the tables as found, whose row ids have never been reused. Nothing is
        known of what became of earlier key rows; they count as replaced. */
    constructor (now: int, queue: map<nat, QueueRow>, nextQid: nat,
                 prekeys: map<nat, PrekeyRow>, nextPrekey: nat, posts: C.Table)
      requires forall q :: q in queue ==> q < nextQid
      requires nextPrekey >= 1 && forall i :: i in prekeys ==> 1 <= i < nextPrekey
      ensures Wired() && Limited() && Started(State())
      ensures this.queue == queue && this.prekeys == prekeys && this.posts == posts
      ensures clients == {} && recentCids == map[] && connections == map[]
    {
      this.queue, this.nextQid, this.prekeys, this.nextPrekey, this.posts := queue, nextQid, prekeys, nextPrekey, posts;
      recentCids, clients, connections := map[], {}, map[];
      known, clock, log, inserts, handed, housekept := {}, now, queue, [], [], {};
      replaced := P.IdRange(1, nextPrekey - 1) - prekeys.Keys;
      new;
      P.FoundIsValid(prekeys, nextPrekey);
      assert Socks() == map[];
    }

    /** The clock is read. */
    ghost method ReadClock(now: int)
      modifies this`clock
      ensures Mail() == M.Tick(old(Mail()), now)
    {
      clock := now;
      assert Socks() == old(Socks());
    }

    // ----- connections

    /** A new connection is challenged and joins the clients. */
    method AddClient(ip: string, nonce: string) returns (s: Socket)
      requires Wired()
      modifies this`clients, this`known
      ensures Wired() && fresh(s) && s.ip == ip && known == old(known) + {s}
      ensures Mail() == M.Connect(old(Mail()), s, nonce)
    {
      s := new Socket(ip, nonce);
      clients := clients + {s};
      s.Send(AuthChallenge(nonce));
      known := known + {s};
      assert s.View(true) == Sock(true, true, Some(nonce), None, None, None, [AuthChallenge(nonce)]);
      assert Socks() == old(Socks())[s := s.View(true)];
    }

    /** A connection from an address that has all its places taken is refused and leaves no
        trace; any other is challenged, counted, and joins the clients. */
    method OnConnection(ip: string, nonce: string) returns (s: Option<Socket>)
      requires Wired() && Limited()
      modifies this`clients, this`known, this`connections
      ensures Wired() && Limited()
      ensures s.None? <==> Count(old(connections), ip) == 20
      ensures s.None? ==> State() == old(State()) && connections == old(connections)
      ensures s.Some? ==> fresh(s.value) && s.value.ip == ip && known == old(known) + {s.value}
      ensures s.Some? ==> connections == old(connections)[ip := Count(old(connections), ip) + 1]
      ensures s.Some? ==>
        Possible(old(State()), Connected(s.value, nonce)) && State() == After(old(State()), Connected(s.value, nonce))
    {
      var cur := Count(connections, ip);
      if cur >= MAX_CONNECTIONS_PER_IP {
        return None;
      }
      var socket := AddClient(ip, nonce);
      SetCount(connections[ip := cur + 1]);
      s := Some(socket);
    }

    method SetCount(counts: map<string, nat>)
      modifies this`connections
      ensures connections == counts && Mail() == old(Mail())
    {
      connections := counts;
      assert Socks() == old(Socks());
    }

    /** The connection goes down: by the heartbeat, the login timeout, or itself. */
    method Terminate(s: Socket)
      requires Wired() && s in known
      modifies s`open
      ensures Wired() && Mail() == M.Drop(old(Mail()), s, true, false)
      ensures State() == After(old(State()), Dropped(s, true, false))
    {
      s.open := false;
      assert Socks() == old(Socks())[s := s.View(s in clients)];
    }

    method OnClose(s: Socket)
      requires Wired() && Limited() && s in known
      modifies s`open, this`clients, this`connections
      ensures Wired() && Limited() && connections == Released(old(connections), s.ip)
      ensures State() == After(old(State()), Dropped(s, false, false))
    {
      M.DropTwice(Mail(), s);
      Terminate(s);
      RemoveClient(s);
      Release(s.ip);
    }

    method OnError(s: Socket)
      requires Wired() && Limited() && s in known
      modifies this`clients, this`connections
      ensures Wired() && Limited() && connections == Released(old(connections), s.ip)
      ensures State() == After(old(State()), Dropped(s, false, true))
    {
      RemoveClient(s);
      Release(s.ip);
    }

    method RemoveClient(s: Socket)
      requires Wired() && s in known
      modifies this`clients
      ensures Wired() && Mail() == M.Drop(old(Mail()), s, false, true)
    {
      clients := clients - {s};
      assert Socks() == old(Socks())[s := s.View(false)];
    }

    method Release(ip: string)
      requires Limited()
      modifies this`connections
      ensures Limited() && connections == Released(old(connections), ip) && Mail() == old(Mail())
    {
      var c := (if ip in connections then connections[ip] else 1) - 1;
      if c <= 0 {
        SetCount(connections - {ip});
      } else {
        SetCount(connections[ip := c]);
      }
    }

    /** Sending on one socket. */
    method SendTo(s: Socket, f: Frame)
      requires s in known
      modifies s`sent
      ensures Mail() == M.Send(old(Mail()), s, f)
    {
      s.Send(f);
      assert Socks() == old(Socks())[s := s.View(s in clients)];
    }

    // ----- login

    /** The backlog of an id, oldest first. */
    method Backlog(id: string) returns (rows: seq<nat>)
      ensures M.IsBacklog(queue, id, rows)
    {
      rows := [];
      var rest := set q | q in queue && queue[q].recipient == id;
      while rest != {}
        invariant ByAge(queue, rows)
        invariant forall q :: q in rest ==> q in queue && q !in rows
        invariant forall q :: q in queue && queue[q].recipient == id <==> q in rows || q in rest
        decreases |rest|
      {
        var q := C.AnyOf(rest);
        rest := rest - {q};
        rows := InsertByAge(queue, rows, q);
      }
    }

    /** Sends the whole backlog on a logged-in socket; rows stay until acknowledged. */
    method FlushQueue(s: Socket) returns (ghost rows: seq<nat>)
      requires s in known && s.senderId.Some?
      modifies s`sent
      ensures M.IsBacklog(queue, s.senderId.value, rows)
      ensures Mail() == M.Flush(old(Mail()), s, rows)
    {
      var todo := Backlog(s.senderId.value);
      rows := todo;
      for i := 0 to |todo|
        invariant s.sent == if s.open then old(s.sent) + M.Frames(queue, todo)[..i] else old(s.sent)
      {
        var q := todo[i];
        assert q in todo;
        ghost var fs := M.Frames(queue, todo);
        s.Send(Msg(s.senderId.value, queue[q].payload, q));
        assert fs[..i + 1] == fs[..i] + [M.FrameOf(q, queue[q])];
        assert old(s.sent) + fs[..i] + [M.FrameOf(q, queue[q])] == old(s.sent) + fs[..i + 1];
      }
      assert M.Frames(queue, todo)[..|todo|] == M.Frames(queue, todo);
      assert Socks() == old(Socks())[s := s.View(s in clients)];
    }

    // ----- prekeys

    /** An upload by the socket logged in as `id`; under another id it is refused. */
    method StoreUpload(id: string, u: Upload, now: int)
      modifies this`prekeys, this`nextPrekey, this`replaced
      ensures Keys() == P.Upload(old(Keys()), id, u, now) && Mail() == old(Mail())
    {
      assert Socks() == old(Socks());
      if u.owner != id || u.owner == "" || u.keys.None? {
        return;
      }
      var ok, rows, next := ReplaceKeys(prekeys, nextPrekey, u.owner, u.keys.value, now);
      if ok {
        replaced := replaced + P.Held(prekeys, u.owner, P.Kinds(u.keys.value));
        prekeys, nextPrekey := rows, next;
      }
      assert Socks() == old(Socks());
    }

    /** An upload before the login waits for it. */
    method OnUpload(s: Socket, u: Upload, now: int)
      requires s in known && clock <= now
      modifies s`pendingUpload, this`prekeys, this`nextPrekey, this`replaced, this`clock
      ensures State() == After(old(State()), UploadFrame(s, u, now))
    {
      if s.authedId.None? {
        s.pendingUpload := Some(u);
        assert Socks() == old(Socks())[s := s.View(s in clients)];
        return;
      }
      ReadClock(now);
      StoreUpload(s.authedId.value, u, now);
    }

    /** The identity is set, the nonce spent; hands back the upload that waited. */
    method Identify(s: Socket, claim: string) returns (pending: Option<Upload>)
      requires s in known
      modifies s`authedId, s`senderId, s`authNonce, s`pendingUpload
      ensures pending == old(s.pendingUpload) && s.senderId == Some(claim)
      ensures Mail() == M.Identify(old(Mail()), s, claim)
    {
      s.authedId := Some(claim);
      s.senderId := Some(claim);
      s.authNonce := None;
      pending := s.pendingUpload;
      s.pendingUpload := None;
      assert Socks() == old(Socks())[s := s.View(s in clients)];
    }

    /** The accepted half of a login up to the reply. */
    method Admit(s: Socket, claim: string) returns (pending: Option<Upload>)
      requires s in known
      modifies s
      ensures pending == old(s.pendingUpload) && s.senderId == Some(claim)
      ensures Mail() == M.Admit(old(Mail()), s, claim)
    {
      pending := Identify(s, claim);
      SendTo(s, AuthOk);
    }

    method Refuse(s: Socket)
      requires s in known
      modifies s`authNonce, s`sent
      ensures Mail() == M.Refuse(old(Mail()), s)
    {
      s.authNonce := None;
      s.Send(AuthFail);
      assert Socks() == old(Socks())[s := s.View(s in clients)];
    }

    /** The accepted half of a login: identity, reply, waiting upload, backlog. */
    method LogIn(s: Socket, claim: string, now: int) returns (ghost rows: seq<nat>)
      requires s in known
      modifies s, this`prekeys, this`nextPrekey, this`replaced, this`clock
      ensures M.IsBacklog(old(queue), claim, rows)
      ensures State() == Login(old(State()), s, claim, rows, now)
    {
      var pending := Admit(s, claim);
      if pending.Some? {
        StoreUpload(claim, pending.value, now);
      }
      rows := FlushQueue(s);
      ReadClock(now);
    }

    /** A login: the nonce is spent either way; on success the identity is set, an upload
        that had waited is stored, and the backlog goes out. */
    method OnAuth(s: Socket, sender: string, good: bool, now: int) returns (ghost rows: seq<nat>)
      requires s in known && clock <= now && (good ==> Claim(sender) != "")
      modifies s, this`prekeys, this`nextPrekey, this`replaced, this`clock
      ensures Possible(old(State()), Auth(s, sender, good, rows, now))
      ensures State() == After(old(State()), Auth(s, sender, good, rows, now))
    {
      rows := [];
      if s.authNonce.Some? && good {
        rows := LogIn(s, Claim(sender), now);
      } else {
        Refuse(s);
      }
    }

    // ----- bundles

    /** `.. WHERE recipient=? AND key_type=? LIMIT 1` */
    method PickRow(target: string, kind: string) returns (pick: Option<nat>)
      ensures P.Picks(prekeys, target, kind, pick)
    {
      var ids := set i | i in prekeys && prekeys[i].recipient == target && prekeys[i].kind == kind;
      if ids == {} {
        assert forall i :: i in prekeys && prekeys[i].recipient == target && prekeys[i].kind == kind ==> i in ids;
        return None;
      }
      var i := C.AnyOf(ids);
      return Some(i);
    }

    /** Builds a bundle, taking one one-time key out of the table. */
    method TakeBundle(target: string) returns (reply: Frame, ghost picked: P.Picked)
      modifies this`prekeys, this`handed
      ensures P.GoodPicks(old(prekeys), target, picked)
      ensures reply == P.Reply(old(prekeys), target, picked)
      ensures Keys() == P.HandOut(old(Keys()), picked.opk)
    {
      var ikSign := PickRow(target, IK_SIGN);
      var ikDh := PickRow(target, IK_DH);
      var spk := PickRow(target, SPK);
      var opk := PickRow(target, OPK);
      picked := P.Picked(ikSign, ikDh, spk, opk);
      reply := P.Reply(prekeys, target, P.Picked(ikSign, ikDh, spk, opk));
      if opk.Some? {
        prekeys := prekeys - {opk.value};
        handed := handed + [opk.value];
      }
    }

    /** A request takes one one-time key out of the table and sends it with the rest. */
    method OnRequest(s: Socket, target: string) returns (ghost picked: P.Picked)
      requires s in known
      modifies s`sent, this`prekeys, this`handed
      ensures Possible(old(State()), Request(s, target, picked))
      ensures State() == After(old(State()), Request(s, target, picked))
    {
      picked := P.Picked(None, None, None, None);
      if target == "" {
        assert Socks() == old(Socks());
        return;
      }
      var reply;
      reply, picked := TakeBundle(target);
      assert Socks() == old(Socks());
      SendTo(s, reply);
    }

    // ----- messages

    method PushTo(client: Socket, to: string, f: Frame)
      modifies client`sent
      ensures forall member ::
        client.View(member) ==
          if client.open && client.senderId == Some(to) then M.Sent(old(client.View(member)), [f])
          else old(client.View(member))
    {
      if client.senderId == Some(to) && client.open {
        client.Send(f);
      }
    }

    /** Pushes a frame to the open client sockets logged in as `to`. */
    method Broadcast(to: string, f: Frame)
      requires Wired()
      modifies set s | s in clients :: s
      ensures Mail() == M.Push(old(Mail()), to, f)
    {
      var rest := clients;
      while rest != {}
        invariant rest <= clients
        invariant forall t :: t in known ==>
          t.View(t in clients) ==
            if t !in rest && M.Listening(old(t.View(t in clients)), to) then M.Sent(old(t.View(t in clients)), [f])
            else old(t.View(t in clients))
        decreases |rest|
      {
        var client := C.AnyOf(rest);
        rest := rest - {client};
        PushTo(client, to, f);
      }
      assert Socks() == M.Push(old(Mail()), to, f).socks;
    }

    method Enqueue(to: string, payload: string, c: Option<string>, now: int) returns (qid: nat)
      modifies this`queue, this`nextQid, this`clock, this`log, this`inserts
      ensures qid == old(nextQid)
      ensures Mail() == M.Insert(M.Tick(old(Mail()), now), to, payload, c, now)
    {
      qid := nextQid;
      var row := QueueRow(to, payload, now, now + TTL_MS);
      queue, nextQid := queue[qid := row], nextQid + 1;
      log, inserts, clock := log[qid := row], inserts + [M.Insertion(qid, c, now)], now;
      assert Socks() == old(Socks());
    }

    method Remember(c: string, now: int)
      modifies this`recentCids
      ensures Mail() == old(Mail()).(recent := old(recentCids)[c := now])
    {
      recentCids := recentCids[c := now];
      assert Socks() == old(Socks());
    }

    method Confirm(s: Socket, c: Option<string>, later: int)
      requires s in known
      modifies this`recentCids, this`clock, s`sent
      ensures Mail() == M.Acknowledge(M.Tick(old(Mail()), later), s, c, later)
    {
      ReadClock(later);
      if c.Some? {
        Remember(c.value, later);
        SendTo(s, Received(c.value));
      }
    }

    /** A message: confirmed at once if its client id is recent; otherwise queued, pushed,
        and confirmed if it has a client id. */
    method AcceptMessage(s: Socket, to: string, payload: Option<string>, cid: Option<string>, now: int, later: int)
      requires Wired() && s in known
      modifies this`queue, this`nextQid, this`recentCids, this`clock, this`log, this`inserts
      modifies s, set c | c in clients :: c
      ensures Mail() == M.Accept(old(Mail()), s, to, payload, cid, now, later)
    {
      if to == "" {
        assert Socks() == old(Socks());
        return;
      }
      var c := M.Cid(cid);
      if c.Some? && c.value in recentCids {
        SendTo(s, Received(c.value));
        return;
      }
      if payload.None? {
        ReadClock(now);
        return;
      }
      var qid := Enqueue(to, payload.value, c, now);
      Broadcast(to, Msg(to, payload.value, qid));
      Confirm(s, c, later);
    }

    method OnMessage(s: Socket, to: string, payload: Option<string>, cid: Option<string>, now: int, later: int)
      requires Wired() && s in known && clock <= now <= later
      modifies this`queue, this`nextQid, this`recentCids, this`clock, this`log, this`inserts
      modifies s, set c | c in clients :: c
      ensures State() == After(old(State()), Message(s, to, payload, cid, now, later))
    {
      AcceptMessage(s, to, payload, cid, now, later);
    }

    /** Only the recipient's acknowledgement removes a row. */
    method OnAck(s: Socket, qid: int)
      requires s in known
      modifies this`queue
      ensures State() == After(old(State()), AckFrame(s, qid))
    {
      if s.senderId.Some? && qid > 0 && qid in queue && queue[qid].recipient == s.senderId.value {
        queue := queue - {qid};
      }
      assert Socks() == old(Socks());
    }

    // ----- channels

    /** A post without channel, number or body is dropped; a number that is taken keeps its
        post. */
    method OnChannelPost(channel: string, number: Option<int>, body: string)
      modifies this`posts
      ensures State() == After(old(State()), PostFrame(channel, number, body))
    {
      if channel == "" || number.None? || body == "" {
        assert Socks() == old(Socks());
        return;
      }
      InsertOrIgnore(channel, ToInt32(number.value), body);
      assert Socks() == old(Socks());
    }

    /** `INSERT OR IGNORE INTO channel_posts ..` */
    method InsertOrIgnore(channel: string, number: int, body: string)
      modifies this`posts
      ensures C.Grows(old(posts), posts) && posts.Keys == old(posts).Keys + {(channel, number)}
      ensures (channel, number) !in old(posts) ==> posts[(channel, number)] == body
    {
      if (channel, number) !in posts {
        posts := posts[(channel, number) := body];
      }
    }

    method OnChannelFetch(s: Socket, channel: string, since: int) returns (page: seq<(int, string)>)
      requires s in known
      modifies s`sent
      ensures Possible(old(State()), FetchFrame(s, channel, since, page))
      ensures State() == After(old(State()), FetchFrame(s, channel, since, page))
    {
      page := [];
      if channel == "" {
        assert Socks() == old(Socks());
        return;
      }
      page := C.Fetch(posts, channel, since);
      SendTo(s, Posts(channel, page));
    }

    // ----- timers

    method DeleteRows(gone: set<nat>)
      modifies this`prekeys, this`housekept
      ensures prekeys == old(prekeys) - gone
      ensures Keys() == old(Keys()).(rows := prekeys, housekept := old(housekept) + gone)
      ensures Mail() == old(Mail())
    {
      housekept := housekept + gone;
      prekeys := prekeys - gone;
      assert Socks() == old(Socks());
    }

    /** Deletes the rows of every recipient whose newest row is older than `cutoff`. */
    method HousekeepPrekeys(cutoff: int) returns (changes: nat)
      modifies this`prekeys, this`housekept
      ensures Keys() == P.Housekeep(old(Keys()), cutoff) && Mail() == old(Mail())
      ensures changes == |old(prekeys)| - |prekeys|
    {
      var gone := StaleRows(prekeys, cutoff);
      P.RemovalSize(prekeys, gone);
      changes := |gone|;
      DeleteRows(gone);
    }

    method ExpireQueue(now: int)
      modifies this`queue, this`clock
      ensures Mail() == M.Expire(old(Mail()), now)
    {
      queue := map q | q in queue && !(queue[q].expiry < now) :: queue[q];
      clock := now;
      assert Socks() == old(Socks());
    }

    /** The hourly cleanup: expired rows, then the keys of idle owners. */
    method CleanupTTL(now: int, later: int)
      requires clock <= now <= later
      modifies this`queue, this`prekeys, this`housekept, this`clock
      ensures State() == After(old(State()), Cleanup(now, later))
    {
      CleanTables(now, later);
    }

    method CleanTables(now: int, later: int)
      modifies this`queue, this`prekeys, this`housekept, this`clock
      ensures Mail() == M.Tick(M.Expire(old(Mail()), now), later)
      ensures Keys() == P.Housekeep(old(Keys()), later - IDLE_MS)
    {
      ExpireQueue(now);
      var changes := HousekeepPrekeys(later - IDLE_MS);
      ReadClock(later);
    }

    method SweepCids(now: int)
      requires clock <= now
      modifies this`recentCids, this`clock
      ensures State() == After(old(State()), SweepRun(now))
    {
      recentCids := Forget(recentCids, now - CID_TTL_MS);
      clock := now;
      assert Socks() == old(Socks());
    }
  }

  // ----- timers

  /** The sweep's loop drops every client id stamped before the cutoff. */
  method Forget(recent: map<string, int>, cutoff: int) returns (kept: map<string, int>)
    ensures kept == map c | c in recent && !(recent[c] < cutoff) :: recent[c]
  {
    kept := recent;
    var rest := recent.Keys;
    while rest != {}
      invariant rest <= recent.Keys
      invariant kept == map c | c in recent && (c in rest || !(recent[c] < cutoff)) :: recent[c]
      decreases |rest|
    {
      var c := C.AnyOf(rest);
      rest := rest - {c};
      if recent[c] < cutoff {
        kept := kept - {c};
      }
    }
  }

  /** `newest` has an upper bound of the recipient of row `i`. */
  predicate Bounds(rows: map<nat, PrekeyRow>, newest: map<string, int>, i: nat) {
    i in rows && rows[i].recipient in newest && rows[i].created <= newest[rows[i].recipient]
  }

  /** The entry of `r` is the stamp of one of its rows. */
  predicate Attained(rows: map<nat, PrekeyRow>, newest: map<string, int>, r: string) {
    r in newest && exists i :: i in rows && rows[i].recipient == r && rows[i].created == newest[r]
  }

  /** `SELECT recipient, MAX(created_at) .. GROUP BY recipient` */
  method Newest(rows: map<nat, PrekeyRow>) returns (newest: map<string, int>)
    ensures forall i :: i in rows ==> Bounds(rows, newest, i)
    ensures forall r :: r in newest ==> Attained(rows, newest, r)
  {
    newest := map[];
    var rest := rows.Keys;
    while rest != {}
      invariant rest <= rows.Keys
      invariant forall i :: i in rows && i !in rest ==> Bounds(rows, newest, i)
      invariant forall r :: r in newest ==> Attained(rows, newest, r)
      decreases |rest|
    {
      var i := C.AnyOf(rest);
      rest := rest - {i};
      newest := Raised(rows, newest, i);
      assert forall j :: j in rows && j !in rest ==> j == i || (j !in rest + {i});
    }
  }

  /** Takes one more row into the maxima. */
  method Raised(rows: map<nat, PrekeyRow>, before: map<string, int>, i: nat) returns (newest: map<string, int>)
    requires i in rows && forall r :: r in before ==> Attained(rows, before, r)
    ensures Bounds(rows, newest, i) && forall j :: Bounds(rows, before, j) ==> Bounds(rows, newest, j)
    ensures forall r :: r in newest ==> Attained(rows, newest, r)
  {
    newest := before;
    var r := rows[i].recipient;
    if r !in before || before[r] < rows[i].created {
      newest := before[r := rows[i].created];
      forall o | o in newest ensures Attained(rows, newest, o) {
        assert o != r ==> Attained(rows, before, o);
      }
    }
  }

  /** A row is stale exactly when its recipient's newest row is below the cutoff. */
  lemma StaleByNewest(rows: map<nat, PrekeyRow>, newest: map<string, int>, cutoff: int, i: nat)
    requires i in rows && forall j :: j in rows ==> Bounds(rows, newest, j)
    requires Attained(rows, newest, rows[i].recipient)
    ensures i in P.Stale(rows, cutoff) <==> newest[rows[i].recipient] < cutoff
  {
    var r := rows[i].recipient;
    if newest[r] < cutoff {
      forall j | j in rows && rows[j].recipient == r ensures rows[j].created < cutoff {
        assert Bounds(rows, newest, j);
      }
    }
  }

  /** `.. WHERE recipient IN (SELECT recipient .. HAVING MAX(created_at) < ?)` */
  method StaleRows(rows: map<nat, PrekeyRow>, cutoff: int) returns (gone: set<nat>)
    ensures gone == P.Stale(rows, cutoff)
  {
    var newest := Newest(rows);
    assert forall i :: i in rows ==> Bounds(rows, newest, i);
    gone := set i | i in rows && newest[rows[i].recipient] < cutoff;
    forall i | i in rows ensures i in P.Stale(rows, cutoff) <==> newest[rows[i].recipient] < cutoff {
      StaleByNewest(rows, newest, cutoff, i);
    }
  }

  // ----- uploads

  method DeleteKinds(rows: map<nat, PrekeyRow>, owner: string, kinds: set<string>) returns (left: map<nat, PrekeyRow>)
    ensures left == rows - P.Held(rows, owner, kinds)
  {
    left := rows;
    var rest := kinds;
    while rest != {}
      invariant rest <= kinds
      invariant left == rows - P.Held(rows, owner, kinds - rest)
      decreases |rest|
    {
      var ty := C.AnyOf(rest);
      rest := rest - {ty};
      left := left - P.Held(left, owner, {ty});
    }
  }

  /** The upload transaction: delete the owner's rows of each uploaded type, insert every
      key; a key without type or value makes the table reject it and rolls all back. */
  method ReplaceKeys(rows: map<nat, PrekeyRow>, next: nat, owner: string, keys: seq<KeyIn>, now: int)
    returns (ok: bool, stored: map<nat, PrekeyRow>, following: nat)
    ensures ok <==> P.Storable(keys)
    ensures ok ==> following == next + |keys|
    ensures ok ==> stored == (rows - P.Held(rows, owner, P.Kinds(keys))) + P.Snapshot(owner, keys, now, next)
  {
    stored, following := rows, next;
    var kept := DeleteKinds(rows, owner, P.Kinds(keys));
    var added;
    ok, added := InsertKeys(next, owner, keys, now);
    if ok {
      stored, following := kept + added, next + |keys|;
    }
  }

  method InsertKeys(next: nat, owner: string, keys: seq<KeyIn>, now: int)
    returns (ok: bool, added: map<nat, PrekeyRow>)
    ensures ok <==> P.Storable(keys)
    ensures ok ==> added == P.Snapshot(owner, keys, now, next)
  {
    added := map[];
    assert P.Snapshot(owner, keys[..0], now, next) == map[];
    for i := 0 to |keys|
      invariant P.Storable(keys[..i]) && added == P.Snapshot(owner, keys[..i], now, next)
    {
      if keys[i].kind.None? || keys[i].value.None? {
        return false, map[];
      }
      assert P.Storable(keys[..i + 1]);
      P.SnapshotNext(owner, keys, now, next, i);
      added := added[next + i := P.RowOf(owner, keys[i], now)];
    }
    assert keys[..|keys|] == keys;
    ok := true;
  }
}

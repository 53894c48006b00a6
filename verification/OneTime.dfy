/**
  One-time keys by content. The relay never hands out a table row twice, but an owner may
  upload the same key again after it was handed out, under the same id or another. Here is
  when the same key can be served twice: exactly when some accepted upload offers a one-time
  key that was served before, or the same one-time key more than once.
 */
module OneTime {
  import opened Wrappers
  import opened RelayTypes
  import opened Relay
  import M = Mailbox
  import P = Prekeys

  /** A one-time key: whose it is, and the key itself. Its id is only a label. */
  datatype OneKey = OneKey(owner: string, value: string)

  function KeyOf(r: PrekeyRow): OneKey {
    OneKey(r.recipient, r.value)
  }

  predicate IsOpk(rows: map<nat, PrekeyRow>, i: nat) {
    i in rows && rows[i].kind == OPK
  }

  /** No one-time key in the table was served before or is there twice. */
  ghost predicate Clean(rows: map<nat, PrekeyRow>, served: set<OneKey>) {
    && (forall i :: IsOpk(rows, i) ==> KeyOf(rows[i]) !in served)
    && (forall i, j :: IsOpk(rows, i) && IsOpk(rows, j) && KeyOf(rows[i]) == KeyOf(rows[j]) ==> i == j)
  }

  // ----- what a clean table means for requests

  /** One-time rows that requests may take out of the table, one after another. */
  predicate Drawn(rows: map<nat, PrekeyRow>, picks: seq<nat>) {
    && (forall i :: 0 <= i < |picks| ==> IsOpk(rows, picks[i]))
    && (forall i, j :: 0 <= i < j < |picks| ==> picks[i] != picks[j])
  }

  /** The keys drawn are different from each other and from those served before. */
  predicate NoRepeat(rows: map<nat, PrekeyRow>, picks: seq<nat>, served: set<OneKey>)
    requires Drawn(rows, picks)
  {
    && (forall i :: 0 <= i < |picks| ==> KeyOf(rows[picks[i]]) !in served)
    && (forall i, j :: 0 <= i < j < |picks| ==> KeyOf(rows[picks[i]]) != KeyOf(rows[picks[j]]))
  }

  /** A table is clean exactly when no requests on it can serve a key twice. */
  lemma CleanMeaning(rows: map<nat, PrekeyRow>, served: set<OneKey>)
    ensures Clean(rows, served) <==> forall picks :: Drawn(rows, picks) ==> NoRepeat(rows, picks, served)
  {
    if !Clean(rows, served) {
      if i :| IsOpk(rows, i) && KeyOf(rows[i]) in served {
        assert Drawn(rows, [i]) && KeyOf(rows[[i][0]]) in served;
        assert !NoRepeat(rows, [i], served);
      } else {
        var i, j :| IsOpk(rows, i) && IsOpk(rows, j) && KeyOf(rows[i]) == KeyOf(rows[j]) && i != j;
        assert Drawn(rows, [i, j]) && KeyOf(rows[[i, j][0]]) == KeyOf(rows[[i, j][1]]);
        assert !NoRepeat(rows, [i, j], served);
      }
    }
  }

  // ----- uploads

  /** The one-time key an entry of an upload offers. */
  function Offered(owner: string, k: KeyIn): OneKey
    requires k.value.Some?
  {
    OneKey(owner, k.value.value)
  }

  /** The one-time keys of the upload are new and different from each other. */
  predicate OffersNew(owner: string, keys: seq<KeyIn>, served: set<OneKey>)
    requires P.Storable(keys)
  {
    && (forall a :: 0 <= a < |keys| && keys[a].kind == Some(OPK) ==> Offered(owner, keys[a]) !in served)
    && (forall a, b :: 0 <= a < b < |keys| && keys[a].kind == Some(OPK) && keys[b].kind == Some(OPK) ==>
          Offered(owner, keys[a]) != Offered(owner, keys[b]))
  }

  /** The one-time rows after an accepted upload: those it brought, and those of others. */
  lemma OpkAfterStore(t: P.Keys, owner: string, keys: seq<KeyIn>, now: int, i: nat)
    requires P.KeysValid(t) && P.Storable(keys)
    ensures
      var n := P.Store(t, owner, keys, now).rows;
      if t.next <= i < t.next + |keys| then
        && (IsOpk(n, i) <==> keys[i - t.next].kind == Some(OPK))
        && i in n && KeyOf(n[i]) == Offered(owner, keys[i - t.next])
        && (IsOpk(n, i) ==> OPK in P.Kinds(keys))
      else
        && (IsOpk(n, i) <==> IsOpk(t.rows, i) && !(t.rows[i].recipient == owner && OPK in P.Kinds(keys)))
        && (IsOpk(n, i) ==> n[i] == t.rows[i])
  {
    P.StoredRow(t, owner, keys, now, i);
  }

  /** The row of entry `a` of an accepted upload. */
  lemma RowOfEntry(t: P.Keys, owner: string, keys: seq<KeyIn>, now: int, a: nat)
    requires P.KeysValid(t) && P.Storable(keys) && a < |keys| && keys[a].kind == Some(OPK)
    ensures
      var n := P.Store(t, owner, keys, now).rows;
      IsOpk(n, t.next + a) && n[t.next + a].recipient == owner && KeyOf(n[t.next + a]) == Offered(owner, keys[a])
  {
    OpkAfterStore(t, owner, keys, now, t.next + a);
  }

  lemma StoreIsClean(t: P.Keys, owner: string, keys: seq<KeyIn>, now: int, served: set<OneKey>)
    requires P.KeysValid(t) && P.Storable(keys) && Clean(t.rows, served) && OffersNew(owner, keys, served)
    ensures Clean(P.Store(t, owner, keys, now).rows, served)
  {
    var n := P.Store(t, owner, keys, now).rows;
    forall i | IsOpk(n, i) ensures KeyOf(n[i]) !in served {
      OpkAfterStore(t, owner, keys, now, i);
    }
    forall i, j | IsOpk(n, i) && IsOpk(n, j) && KeyOf(n[i]) == KeyOf(n[j]) ensures i == j {
      OpkAfterStore(t, owner, keys, now, i);
      OpkAfterStore(t, owner, keys, now, j);
    }
  }

  lemma CleanStoreOffersNew(t: P.Keys, owner: string, keys: seq<KeyIn>, now: int, served: set<OneKey>)
    requires P.KeysValid(t) && P.Storable(keys) && Clean(P.Store(t, owner, keys, now).rows, served)
    ensures OffersNew(owner, keys, served)
  {
    forall a | 0 <= a < |keys| && keys[a].kind == Some(OPK) ensures Offered(owner, keys[a]) !in served {
      RowOfEntry(t, owner, keys, now, a);
    }
    forall a, b | 0 <= a < b < |keys| && keys[a].kind == Some(OPK) && keys[b].kind == Some(OPK)
      ensures Offered(owner, keys[a]) != Offered(owner, keys[b])
    {
      RowOfEntry(t, owner, keys, now, a);
      RowOfEntry(t, owner, keys, now, b);
    }
  }

  /** The upload, if it is accepted, offers only new one-time keys. */
  predicate AddsNew(id: string, u: Upload, served: set<OneKey>) {
    u.owner == id && u.owner != "" && u.keys.Some? && P.Storable(u.keys.value) ==>
      OffersNew(u.owner, u.keys.value, served)
  }

  /** An upload keeps the table clean exactly when it adds only new one-time keys. */
  lemma UploadStaysClean(t: P.Keys, id: string, u: Upload, now: int, served: set<OneKey>)
    requires P.KeysValid(t) && Clean(t.rows, served)
    ensures Clean(P.Upload(t, id, u, now).rows, served) <==> AddsNew(id, u, served)
  {
    if u.owner == id && u.owner != "" && u.keys.Some? && P.Storable(u.keys.value) {
      if AddsNew(id, u, served) {
        StoreIsClean(t, id, u.keys.value, now, served);
      } else if Clean(P.Upload(t, id, u, now).rows, served) {
        CleanStoreOffersNew(t, id, u.keys.value, now, served);
      }
    }
  }

  // ----- runs

  /** The upload an event brings before the table, and for whom. */
  ghost function Uploaded<K>(st: Server<K>, e: Event<K>): Option<(string, Upload)>
    requires Possible(st, e)
  {
    match e
    case UploadFrame(k, u, _) =>
      var id := st.mail.socks[k].authedId;
      if id.Some? then Some((id.value, u)) else None
    case Auth(k, sender, good, _, _) =>
      var u := st.mail.socks[k].pending;
      if LogsIn(st, k, good) && u.Some? then Some((Claim(sender), u.value)) else None
    case _ => None
  }

  /** The one-time key an event serves. */
  ghost function KeyServed<K>(st: Server<K>, e: Event<K>): set<OneKey>
    requires Possible(st, e)
  {
    var opk := HandsOut(e);
    if opk.Some? then {KeyOf(st.keys.rows[opk.value])} else {}
  }

  lemma RequestStaysClean(t: P.Keys, opk: nat, served: set<OneKey>)
    requires Clean(t.rows, served) && IsOpk(t.rows, opk)
    ensures Clean(P.HandOut(t, Some(opk)).rows, served + {KeyOf(t.rows[opk])})
  {
    var n := P.HandOut(t, Some(opk)).rows;
    assert forall i :: IsOpk(n, i) ==> IsOpk(t.rows, i) && i != opk && n[i] == t.rows[i];
  }

  lemma HousekeepStaysClean(t: P.Keys, cutoff: int, served: set<OneKey>)
    requires Clean(t.rows, served)
    ensures Clean(P.Housekeep(t, cutoff).rows, served)
  {
    var n := P.Housekeep(t, cutoff).rows;
    assert forall i :: IsOpk(n, i) ==> IsOpk(t.rows, i) && n[i] == t.rows[i];
  }

  /** The event brings no upload, or one that adds only new one-time keys. */
  ghost predicate BringsNew<K>(st: Server<K>, e: Event<K>, served: set<OneKey>)
    requires Possible(st, e)
  {
    var up := Uploaded(st, e);
    up.Some? ==> AddsNew(up.value.0, up.value.1, served)
  }

  lemma UploadedKeys<K>(st: Server<K>, e: Event<K>)
    requires Possible(st, e) && Uploaded(st, e).Some?
    ensures exists now :: After(st, e).keys == P.Upload(st.keys, Uploaded(st, e).value.0, Uploaded(st, e).value.1, now)
    ensures HandsOut(e).None?
  {
    match e
    case UploadFrame(k, u, now) =>
      assert After(st, e).keys == P.Upload(st.keys, Uploaded(st, e).value.0, Uploaded(st, e).value.1, now);
    case Auth(k, sender, good, rows, now) =>
      assert After(st, e).keys == P.Upload(st.keys, Uploaded(st, e).value.0, Uploaded(st, e).value.1, now);
  }

  lemma OtherKeys<K>(st: Server<K>, e: Event<K>)
    requires Possible(st, e) && Uploaded(st, e).None? && HandsOut(e).None?
    ensures After(st, e).keys == st.keys
      || exists cutoff :: After(st, e).keys == P.Housekeep(st.keys, cutoff)
  {
    match e
    case Cleanup(now, later) => assert After(st, e).keys == P.Housekeep(st.keys, later - IDLE_MS);
    case _ =>
  }

  lemma UploadAfterIsClean<K>(st: Server<K>, e: Event<K>, served: set<OneKey>)
    requires Possible(st, e) && P.KeysValid(st.keys) && Clean(st.keys.rows, served) && Uploaded(st, e).Some?
    ensures Clean(After(st, e).keys.rows, served) <==> BringsNew(st, e, served)
  {
    UploadedKeys(st, e);
    var up := Uploaded(st, e).value;
    var now :| After(st, e).keys == P.Upload(st.keys, up.0, up.1, now);
    UploadStaysClean(st.keys, up.0, up.1, now, served);
  }

  lemma RequestAfterIsClean<K>(st: Server<K>, e: Event<K>, served: set<OneKey>)
    requires Possible(st, e) && Clean(st.keys.rows, served) && HandsOut(e).Some?
    ensures Clean(After(st, e).keys.rows, served + KeyServed(st, e))
  {
    RequestStaysClean(st.keys, HandsOut(e).value, served);
  }

  lemma OtherAfterIsClean<K>(st: Server<K>, e: Event<K>, served: set<OneKey>)
    requires Possible(st, e) && Clean(st.keys.rows, served) && Uploaded(st, e).None? && HandsOut(e).None?
    ensures Clean(After(st, e).keys.rows, served)
  {
    OtherKeys(st, e);
    if After(st, e).keys != st.keys {
      var cutoff :| After(st, e).keys == P.Housekeep(st.keys, cutoff);
      HousekeepStaysClean(st.keys, cutoff, served);
    }
  }

  /** An event keeps the table clean exactly when it brings only new one-time keys. */
  lemma AfterIsClean<K>(st: Server<K>, e: Event<K>, served: set<OneKey>)
    requires Possible(st, e) && P.KeysValid(st.keys) && Clean(st.keys.rows, served)
    ensures Clean(After(st, e).keys.rows, served + KeyServed(st, e)) <==> BringsNew(st, e, served)
  {
    if HandsOut(e).Some? {
      RequestAfterIsClean(st, e, served);
    } else {
      assert served + KeyServed(st, e) == served;
      if Uploaded(st, e).Some? {
        UploadAfterIsClean(st, e, served);
      } else {
        OtherAfterIsClean(st, e, served);
      }
    }
  }

  /** The one-time keys served in a run. */
  ghost function Served<K>(st: Server<K>, evs: seq<Event<K>>): set<OneKey> {
    if evs == [] then {}
    else
      var n := |evs| - 1;
      var s := Final(st, evs[..n]);
      Served(st, evs[..n]) + if Possible(s, evs[n]) then KeyServed(s, evs[n]) else {}
  }

  /** The table is clean all along the run. */
  ghost predicate AlwaysClean<K>(st: Server<K>, evs: seq<Event<K>>) {
    && Clean(Final(st, evs).keys.rows, Served(st, evs))
    && (evs != [] ==> AlwaysClean(st, evs[..|evs| - 1]))
  }

  /** Every accepted upload of the run offers only one-time keys that have not been served
      and that differ from each other. */
  ghost predicate UploadsNew<K>(st: Server<K>, evs: seq<Event<K>>)
    requires Run(st, evs)
  {
    evs == [] ||
    var n := |evs| - 1;
    UploadsNew(st, evs[..n]) && BringsNew(Final(st, evs[..n]), evs[n], Served(st, evs[..n]))
  }

  /** At no point of a run can requests serve a one-time key twice, if and only if every
      accepted upload offers new and different ones. */
  lemma {:induction false} CleanExactly<K>(st: Server<K>, evs: seq<Event<K>>)
    requires Valid(st) && Clean(st.keys.rows, {}) && Run(st, evs)
    ensures AlwaysClean(st, evs) <==> UploadsNew(st, evs)
  {
    if evs != [] {
      var n := |evs| - 1;
      CleanExactly(st, evs[..n]);
      if AlwaysClean(st, evs[..n]) {
        RunIsValid(st, evs[..n]);
        AfterIsClean(Final(st, evs[..n]), evs[n], Served(st, evs[..n]));
      }
    }
  }

  /** The one-time key that response `i` of the run contains. */
  ghost function ResponseKey<K>(st: Server<K>, evs: seq<Event<K>>, i: nat): OneKey
    requires i < |evs| && HandsOut(evs[i]).Some?
    requires HandsOut(evs[i]).value in Final(st, evs[..i]).keys.rows
  {
    KeyOf(Final(st, evs[..i]).keys.rows[HandsOut(evs[i]).value])
  }

  /** A response takes a one-time row that is in the table, and what it takes is served. */
  lemma {:induction false} ResponseServed<K>(st: Server<K>, evs: seq<Event<K>>, i: nat)
    requires Run(st, evs) && i < |evs| && HandsOut(evs[i]).Some?
    ensures IsOpk(Final(st, evs[..i]).keys.rows, HandsOut(evs[i]).value)
    ensures ResponseKey(st, evs, i) in Served(st, evs)
  {
    var n := |evs| - 1;
    if i < n {
      assert evs[..n][..i] == evs[..i] && evs[..n][i] == evs[i];
      ResponseServed(st, evs[..n], i);
    }
  }

  lemma Prefix<T>(xs: seq<T>, n: nat, i: nat)
    requires i < n <= |xs|
    ensures xs[..n][..i] == xs[..i] && xs[..n][i] == xs[i]
  {
  }

  /** Event `i` of the run is a response with a one-time key. */
  ghost predicate Responds<K>(st: Server<K>, evs: seq<Event<K>>, i: nat) {
    i < |evs| && HandsOut(evs[i]).Some? && HandsOut(evs[i]).value in Final(st, evs[..i]).keys.rows
  }

  /** Responses `i` and `j` of the run contain the same one-time key. */
  ghost predicate SameKey<K>(st: Server<K>, evs: seq<Event<K>>, i: nat, j: nat) {
    i < j && Responds(st, evs, i) && Responds(st, evs, j) && ResponseKey(st, evs, i) == ResponseKey(st, evs, j)
  }

  /** The last response's key was not served before. */
  lemma LastKeyIsNew<K>(st: Server<K>, evs: seq<Event<K>>, i: nat)
    requires Valid(st) && Clean(st.keys.rows, {}) && Run(st, evs) && UploadsNew(st, evs)
    requires i < |evs| - 1 && Responds(st, evs, i) && Responds(st, evs, |evs| - 1)
    ensures ResponseKey(st, evs, i) != ResponseKey(st, evs, |evs| - 1)
  {
    var n := |evs| - 1;
    Prefix(evs, n, i);
    CleanExactly(st, evs[..n]);
    ResponseServed(st, evs[..n], i);
    ResponseServed(st, evs, n);
  }

  /** With such uploads no two responses of the run contain the same one-time key. */
  lemma {:induction false} NeverSameKey<K>(st: Server<K>, evs: seq<Event<K>>, i: nat, j: nat)
    requires Valid(st) && Clean(st.keys.rows, {}) && Run(st, evs) && UploadsNew(st, evs)
    ensures !SameKey(st, evs, i, j)
  {
    if i < j && Responds(st, evs, i) && Responds(st, evs, j) {
      var n := |evs| - 1;
      if j < n {
        Prefix(evs, n, i);
        Prefix(evs, n, j);
        NeverSameKey(st, evs[..n], i, j);
      } else {
        LastKeyIsNew(st, evs, i);
      }
    }
  }

  /** Two responses with one-time keys, in a run with such uploads, contain different keys. */
  lemma NoKeyTwice<K>(st: Server<K>, evs: seq<Event<K>>, i: nat, j: nat)
    requires Valid(st) && Clean(st.keys.rows, {}) && Run(st, evs) && UploadsNew(st, evs)
    requires i < j < |evs| && HandsOut(evs[i]).Some? && HandsOut(evs[j]).Some?
    ensures Responds(st, evs, i) && Responds(st, evs, j)
    ensures ResponseKey(st, evs, i) != ResponseKey(st, evs, j)
  {
    ResponseServed(st, evs, i);
    ResponseServed(st, evs, j);
    NeverSameKey(st, evs, i, j);
  }

  // ----- and otherwise a key can be served twice

  /** What was served, some response contained. */
  lemma {:induction false} ServedSomewhere<K>(st: Server<K>, evs: seq<Event<K>>, key: OneKey) returns (i: nat)
    requires Run(st, evs) && key in Served(st, evs)
    ensures Responds(st, evs, i) && ResponseKey(st, evs, i) == key
  {
    var n := |evs| - 1;
    if key in Served(st, evs[..n]) {
      i := ServedSomewhere(st, evs[..n], key);
      Prefix(evs, n, i);
    } else {
      i := n;
    }
  }

  lemma SomePick(rows: map<nat, PrekeyRow>, target: string, kind: string) returns (pick: Option<nat>)
    ensures P.Picks(rows, target, kind, pick)
  {
    if i :| i in rows && rows[i].recipient == target && rows[i].kind == kind {
      pick := Some(i);
    } else {
      pick := None;
    }
  }

  lemma PicksWith(rows: map<nat, PrekeyRow>, i: nat) returns (p: P.Picked)
    requires IsOpk(rows, i)
    ensures P.GoodPicks(rows, rows[i].recipient, p) && p.opk == Some(i)
  {
    var ikSign := SomePick(rows, rows[i].recipient, IK_SIGN);
    var ikDh := SomePick(rows, rows[i].recipient, IK_DH);
    var spk := SomePick(rows, rows[i].recipient, SPK);
    p := P.Picked(ikSign, ikDh, spk, Some(i));
  }

  lemma RequestOf<K>(st: Server<K>, k: K, i: nat) returns (e: Event<K>)
    requires k in st.mail.socks && IsOpk(st.keys.rows, i) && st.keys.rows[i].recipient != ""
    ensures e.Request? && Possible(st, e) && HandsOut(e) == Some(i)
    ensures After(st, e).keys.rows == st.keys.rows - {i} && k in After(st, e).mail.socks
  {
    var picked := PicksWith(st.keys.rows, i);
    e := Request(k, st.keys.rows[i].recipient, picked);
  }

  /** Somebody asks for a key and gets row `i`. */
  lemma AskFor<K>(st: Server<K>, evs: seq<Event<K>>, k: K, i: nat) returns (e: Event<K>)
    requires Run(st, evs) && k in Final(st, evs).mail.socks
    requires IsOpk(Final(st, evs).keys.rows, i) && Final(st, evs).keys.rows[i].recipient != ""
    ensures e.Request? && Run(st, evs + [e])
    ensures Responds(st, evs + [e], |evs|)
    ensures ResponseKey(st, evs + [e], |evs|) == KeyOf(Final(st, evs).keys.rows[i])
    ensures Final(st, evs + [e]).keys.rows == Final(st, evs).keys.rows - {i}
    ensures k in Final(st, evs + [e]).mail.socks
  {
    e := RequestOf(Final(st, evs), k, i);
    RunSnoc(st, evs, e);
    assert (evs + [e])[..|evs|] == evs;
  }

  /** One or two more requests make a run repeat a key. */
  ghost predicate SoonRepeats<K>(st: Server<K>, evs: seq<Event<K>>, more: seq<Event<K>>) {
    && |more| <= 2 && (forall e :: e in more ==> e.Request?)
    && Run(st, evs + more) && exists i, j :: SameKey(st, evs + more, i, j)
  }

  /** A row with a key that was served before is served again. */
  lemma StaleRepeats<K>(st: Server<K>, evs: seq<Event<K>>, k: K, i: nat) returns (more: seq<Event<K>>)
    requires Run(st, evs) && k in Final(st, evs).mail.socks
    requires IsOpk(Final(st, evs).keys.rows, i) && Final(st, evs).keys.rows[i].recipient != ""
    requires KeyOf(Final(st, evs).keys.rows[i]) in Served(st, evs)
    ensures SoonRepeats(st, evs, more)
  {
    var e := AskFor(st, evs, k, i);
    var r := ServedSomewhere(st, evs, KeyOf(Final(st, evs).keys.rows[i]));
    more := [e];
    Prefix(evs + more, |evs|, r);
    assert (evs + more)[..|evs|] == evs;
    assert SameKey(st, evs + more, r, |evs|);
  }

  /** Two rows with one key are both served. */
  lemma DoubleRepeats<K>(st: Server<K>, evs: seq<Event<K>>, k: K, i: nat, j: nat) returns (more: seq<Event<K>>)
    requires Run(st, evs) && k in Final(st, evs).mail.socks && i != j
    requires IsOpk(Final(st, evs).keys.rows, i) && Final(st, evs).keys.rows[i].recipient != ""
    requires IsOpk(Final(st, evs).keys.rows, j)
    requires KeyOf(Final(st, evs).keys.rows[i]) == KeyOf(Final(st, evs).keys.rows[j])
    ensures SoonRepeats(st, evs, more)
  {
    var e := AskFor(st, evs, k, i);
    var one := evs + [e];
    var f := AskFor(st, one, k, j);
    more := [e] + [f];
    assert evs + more == one + [f];
    Prefix(one + [f], |one|, |evs|);
    assert (one + [f])[..|one|] == one;
    assert SameKey(st, evs + more, |evs|, |one|);
  }

  /** The connection an upload came over, which is still there afterwards. */
  lemma UploaderStays<K>(st: Server<K>, e: Event<K>) returns (k: K)
    requires Possible(st, e) && Uploaded(st, e).Some?
    ensures k in After(st, e).mail.socks
  {
    match e
    case UploadFrame(socket, _, _) => k := socket;
    case Auth(socket, _, _, _, _) => k := socket;
  }

  /** An entry with an old key, or two entries with one key. */
  lemma OffendingEntries(owner: string, keys: seq<KeyIn>, served: set<OneKey>) returns (a: nat, b: nat)
    requires P.Storable(keys) && !OffersNew(owner, keys, served)
    ensures a < |keys| && keys[a].kind == Some(OPK) && b < |keys| && keys[b].kind == Some(OPK)
    ensures Offered(owner, keys[a]) in served || (a != b && Offered(owner, keys[a]) == Offered(owner, keys[b]))
  {
    if c :| 0 <= c < |keys| && keys[c].kind == Some(OPK) && Offered(owner, keys[c]) in served {
      a, b := c, c;
    } else {
      a, b :| 0 <= a < b < |keys| && keys[a].kind == Some(OPK) && keys[b].kind == Some(OPK)
        && Offered(owner, keys[a]) == Offered(owner, keys[b]);
    }
  }

  /** The rows of a storable upload that offers an old key, or one key twice. */
  lemma OffendingRows(t: P.Keys, owner: string, keys: seq<KeyIn>, now: int, served: set<OneKey>)
    returns (i: nat, j: nat)
    requires P.KeysValid(t) && P.Storable(keys) && !OffersNew(owner, keys, served)
    ensures
      var n := P.Store(t, owner, keys, now).rows;
      && IsOpk(n, i) && n[i].recipient == owner
      && (KeyOf(n[i]) in served || (i != j && IsOpk(n, j) && KeyOf(n[i]) == KeyOf(n[j])))
  {
    var a, b := OffendingEntries(owner, keys, served);
    RowOfEntry(t, owner, keys, now, a);
    RowOfEntry(t, owner, keys, now, b);
    i, j := t.next + a, t.next + b;
  }

  /** The rows an event brings that does not bring new keys only. */
  lemma OffendingUpload<K>(st: Server<K>, e: Event<K>, served: set<OneKey>) returns (i: nat, j: nat)
    requires Possible(st, e) && P.KeysValid(st.keys) && !BringsNew(st, e, served)
    ensures
      var n := After(st, e).keys.rows;
      && IsOpk(n, i) && n[i].recipient != ""
      && (KeyOf(n[i]) in served || (i != j && IsOpk(n, j) && KeyOf(n[i]) == KeyOf(n[j])))
  {
    UploadedKeys(st, e);
    var up := Uploaded(st, e).value;
    var now :| After(st, e).keys == P.Upload(st.keys, up.0, up.1, now);
    i, j := OffendingRows(st.keys, up.0, up.1.keys.value, now, served);
  }

  lemma BadUploadRepeats<K>(st: Server<K>, evs: seq<Event<K>>) returns (more: seq<Event<K>>)
    requires Valid(st) && Run(st, evs) && evs != []
    requires
      var n := |evs| - 1;
      !BringsNew(Final(st, evs[..n]), evs[n], Served(st, evs[..n]))
    ensures SoonRepeats(st, evs, more)
  {
    var n := |evs| - 1;
    var s := Final(st, evs[..n]);
    RunIsValid(st, evs[..n]);
    UploadedKeys(s, evs[n]);
    var k := UploaderStays(s, evs[n]);
    var i, j := OffendingUpload(s, evs[n], Served(st, evs[..n]));
    if KeyOf(Final(st, evs).keys.rows[i]) in Served(st, evs[..n]) {
      more := StaleRepeats(st, evs, k, i);
    } else {
      more := DoubleRepeats(st, evs, k, i, j);
    }
  }

  /** A run that uploads an old key, or one key twice, has a beginning after which at most two
      requests make it repeat a key. */
  lemma {:induction false} BadRunRepeats<K>(st: Server<K>, evs: seq<Event<K>>) returns (n: nat, more: seq<Event<K>>)
    requires Valid(st) && Run(st, evs) && !UploadsNew(st, evs)
    ensures n <= |evs| && SoonRepeats(st, evs[..n], more)
  {
    var last := |evs| - 1;
    if !UploadsNew(st, evs[..last]) {
      n, more := BadRunRepeats(st, evs[..last]);
      assert evs[..last][..n] == evs[..n];
    } else {
      more := BadUploadRepeats(st, evs);
      n := |evs|;
      assert evs[..n] == evs;
    }
  }

  lemma {:induction false} PrefixUploadsNew<K>(st: Server<K>, evs: seq<Event<K>>, n: nat)
    requires Run(st, evs) && UploadsNew(st, evs) && n <= |evs|
    ensures Run(st, evs[..n]) && UploadsNew(st, evs[..n])
  {
    if n < |evs| {
      PrefixUploadsNew(st, evs[..|evs| - 1], n);
      assert evs[..|evs| - 1][..n] == evs[..n];
    } else {
      assert evs[..n] == evs;
    }
  }

  lemma RequestUploadsNothing<K>(st: Server<K>, evs: seq<Event<K>>, e: Event<K>)
    requires Run(st, evs) && UploadsNew(st, evs) && Run(st, evs + [e]) && e.Request?
    ensures UploadsNew(st, evs + [e])
  {
    assert (evs + [e])[..|evs|] == evs;
  }

  /** Requests upload nothing. */
  lemma {:induction false} RequestsUploadNothing<K>(st: Server<K>, evs: seq<Event<K>>, more: seq<Event<K>>)
    requires Run(st, evs) && UploadsNew(st, evs) && Run(st, evs + more) && forall e :: e in more ==> e.Request?
    ensures UploadsNew(st, evs + more)
    decreases |more|
  {
    if more == [] {
      assert evs + more == evs;
    } else {
      var n := |more| - 1;
      assert more[n] in more && evs + more == evs + more[..n] + [more[n]];
      assert (evs + more)[..|evs| + n] == evs + more[..n];
      RequestsUploadNothing(st, evs, more[..n]);
      RequestUploadsNothing(st, evs + more[..n], more[n]);
    }
  }

  lemma GoodRunNeverRepeats<K>(st: Server<K>, evs: seq<Event<K>>, n: nat, more: seq<Event<K>>)
    requires Valid(st) && Clean(st.keys.rows, {}) && Run(st, evs) && UploadsNew(st, evs) && n <= |evs|
    ensures !SoonRepeats(st, evs[..n], more)
  {
    if SoonRepeats(st, evs[..n], more) {
      PrefixUploadsNew(st, evs, n);
      RequestsUploadNothing(st, evs[..n], more);
      var i, j :| SameKey(st, evs[..n] + more, i, j);
      NeverSameKey(st, evs[..n] + more, i, j);
    }
  }

  /** Some beginning of the run repeats a key after at most two requests. */
  ghost predicate CanRepeat<K(!new)>(st: Server<K>, evs: seq<Event<K>>) {
    exists n: nat, more :: n <= |evs| && SoonRepeats(st, evs[..n], more)
  }

  /** The exact condition: every accepted upload of a run offers only new and different
      one-time keys, if and only if at no point of the run two requests can make the relay
      serve a key a second time. */
  lemma RepeatsExactly<K(!new)>(st: Server<K>, evs: seq<Event<K>>)
    requires Valid(st) && Clean(st.keys.rows, {}) && Run(st, evs)
    ensures UploadsNew(st, evs) <==> !CanRepeat(st, evs)
  {
    if !UploadsNew(st, evs) {
      var n, more := BadRunRepeats(st, evs);
    } else if n: nat, more :| n <= |evs| && SoonRepeats(st, evs[..n], more) {
      GoodRunNeverRepeats(st, evs, n, more);
    }
  }

  // ----- a key that is served twice

  /** An id as the relay derives it from a public key: four groups of four hex digits. */
  const ALICE: string := "A11C-E000-0000-0001"

  /** The one key that Alice uploads each time, under any id. */
  function AliceUpload(id: int): Upload {
    RelayTypes.Upload(ALICE, Some([KeyIn(Some(OPK), id, Some("key"), None)]))
  }

  function AliceRow(id: int): PrekeyRow {
    PrekeyRow(ALICE, OPK, ToInt32(id), "key", None, 0)
  }

  /** Alice is logged in on connection 0, and there are no keys. */
  ghost predicate AliceWaits(st: Server<nat>) {
    && 0 in st.mail.socks && st.mail.socks[0].authedId == Some(ALICE)
    && st.mail.clock == 0 && st.keys.rows == map[]
  }

  lemma AliceLogsIn() returns (evs: seq<Event<nat>>)
    ensures Run(Fresh(), evs) && AliceWaits(Final(Fresh(), evs)) && |evs| == 2
  {
    var connected, auth := Connected(0, "nonce"), Auth(0, ALICE, true, [], 0);
    assert Final(Fresh(), []) == Fresh();
    RunSnoc(Fresh(), [], connected);
    RunSnoc(Fresh(), [] + [connected], auth);
    evs := [] + [connected] + [auth];
  }

  lemma AliceStores(t: P.Keys, id: int)
    requires t.rows == map[]
    ensures
      var n := P.Upload(t, ALICE, AliceUpload(id), 0);
      n.rows == map[t.next := AliceRow(id)]
  {
    var keys := AliceUpload(id).keys.value;
    assert P.IdRange(t.next, 1) == {t.next};
    assert P.Snapshot(ALICE, keys, 0, t.next) == map[t.next := P.RowOf(ALICE, keys[0], 0)];
  }

  /** Alice uploads her key. */
  lemma AliceUploads(evs: seq<Event<nat>>, id: int) returns (after: seq<Event<nat>>)
    requires Run(Fresh(), evs) && AliceWaits(Final(Fresh(), evs))
    ensures after == evs + [UploadFrame(0, AliceUpload(id), 0)] && Run(Fresh(), after)
    ensures
      var s, n := Final(Fresh(), evs), Final(Fresh(), after);
      && n.keys.rows == map[s.keys.next := AliceRow(id)]
      && 0 in n.mail.socks && n.mail.socks[0].authedId == Some(ALICE) && n.mail.clock == 0
  {
    RunSnoc(Fresh(), evs, UploadFrame(0, AliceUpload(id), 0));
    AliceStores(Final(Fresh(), evs).keys, id);
    after := evs + [UploadFrame(0, AliceUpload(id), 0)];
  }

  lemma OnlyPick(rows: map<nat, PrekeyRow>, i: nat, id: int)
    requires rows == map[i := AliceRow(id)]
    ensures P.GoodPicks(rows, ALICE, P.Picked(None, None, None, Some(i)))
  {
  }

  /** Alice uploads her key, and somebody gets it. */
  lemma AliceIsServed(evs: seq<Event<nat>>, id: int) returns (after: seq<Event<nat>>)
    requires Run(Fresh(), evs) && AliceWaits(Final(Fresh(), evs))
    ensures |after| == |evs| + 2 && after[..|evs|] == evs && after[|evs|] == UploadFrame(0, AliceUpload(id), 0)
    ensures Run(Fresh(), after) && AliceWaits(Final(Fresh(), after))
    ensures
      var i := |evs| + 1;
      && HandsOut(after[i]).Some? && HandsOut(after[i]).value in Final(Fresh(), after[..i]).keys.rows
      && ResponseKey(Fresh(), after, i) == OneKey(ALICE, "key")
  {
    var uploaded := AliceUploads(evs, id);
    var n := Final(Fresh(), evs).keys.next;
    var request := Request(0, ALICE, P.Picked(None, None, None, Some(n)));
    OnlyPick(Final(Fresh(), uploaded).keys.rows, n, id);
    RunSnoc(Fresh(), uploaded, request);
    after := uploaded + [request];
    assert after[..|evs| + 1] == uploaded;
    assert Final(Fresh(), after).keys.rows == map[];
  }

  /** Uploading a key again after it was handed out, under the same id or another, serves it
      again: responses 3 and 5 of this run of a new relay contain the same one-time key, from
      different rows. */
  lemma KeyServedTwice(id: int, again: int) returns (evs: seq<Event<nat>>)
    ensures Started(Fresh()) && Run(Fresh(), evs) && |evs| == 6
    ensures evs[2] == UploadFrame(0, AliceUpload(id), 0) && evs[4] == UploadFrame(0, AliceUpload(again), 0)
    ensures SameKey(Fresh(), evs, 3, 5)
  {
    var start := AliceLogsIn();
    var once := AliceIsServed(start, id);
    evs := AliceIsServed(once, again);
    Prefix(evs, 4, 3);
    Prefix(evs, 4, 2);
  }
}

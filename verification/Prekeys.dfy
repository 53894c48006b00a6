/**
  The prekey table: snapshots uploaded by their owners, bundles handed out with at most one
  one-time key, and housekeeping of idle owners. The history records where every row ever
  inserted has gone.
 */
module Prekeys {
  import opened Wrappers
  import opened RelayTypes

  datatype Keys = Keys(rows: map<nat, PrekeyRow>, next: nat, handed: seq<nat>, replaced: set<nat>, housekept: set<nat>)

  // ----- uploads

  /** The row an uploaded key becomes. An empty signature counts as none. */
  function RowOf(owner: string, k: KeyIn, now: int): PrekeyRow
    requires k.kind.Some? && k.value.Some?
  {
    PrekeyRow(owner, k.kind.value, ToInt32(k.id), k.value.value, if k.sig == Some("") then None else k.sig, now)
  }

  /** Every key has a type and a value; the table rejects anything else. */
  predicate Storable(keys: seq<KeyIn>) {
    forall i :: 0 <= i < |keys| ==> keys[i].kind.Some? && keys[i].value.Some?
  }

  function Kinds(keys: seq<KeyIn>): set<string> {
    set k | k in keys && k.kind.Some? :: k.kind.value
  }

  /** The rows of `owner` of the given types. */
  function Held(rows: map<nat, PrekeyRow>, owner: string, kinds: set<string>): set<nat> {
    set i | i in rows && rows[i].recipient == owner && rows[i].kind in kinds
  }

  /** `n` consecutive ids from `lo`. */
  function IdRange(lo: nat, n: nat): (r: set<nat>)
    ensures |r| == n && forall i :: i in r <==> lo <= i < lo + n
  {
    if n == 0 then {} else IdRange(lo, n - 1) + {lo + n - 1}
  }

  /** The new rows of a snapshot, one per key, with consecutive ids from `next`. */
  function Snapshot(owner: string, keys: seq<KeyIn>, now: int, next: nat): map<nat, PrekeyRow>
    requires Storable(keys)
  {
    map i | i in IdRange(next, |keys|) :: RowOf(owner, keys[i - next], now)
  }

  lemma SnapshotNext(owner: string, keys: seq<KeyIn>, now: int, next: nat, i: nat)
    requires i < |keys| && Storable(keys[..i + 1])
    ensures Storable(keys[..i])
    ensures Snapshot(owner, keys[..i + 1], now, next) ==
      Snapshot(owner, keys[..i], now, next)[next + i := RowOf(owner, keys[i], now)]
  {
    assert keys[..i] == keys[..i + 1][..i];
    assert IdRange(next, i + 1) == IdRange(next, i) + {next + i};
  }

  /** An upload replaces the owner's rows of the uploaded types, or does nothing at all. */
  function Store(t: Keys, owner: string, keys: seq<KeyIn>, now: int): Keys {
    if Storable(keys) then
      var gone := Held(t.rows, owner, Kinds(keys));
      t.(rows := (t.rows - gone) + Snapshot(owner, keys, now, t.next),
         next := t.next + |keys|, replaced := t.replaced + gone)
    else t
  }

  /** An upload frame from a socket logged in as `id`. */
  function Upload(t: Keys, id: string, u: RelayTypes.Upload, now: int): Keys {
    if u.owner != id || u.owner == "" || u.keys.None? then t else Store(t, u.owner, u.keys.value, now)
  }

  // ----- bundles

  /** Some row of the target and type, if there is one: the table does not say which. */
  predicate Picks(rows: map<nat, PrekeyRow>, target: string, kind: string, pick: Option<nat>) {
    match pick
    case Some(i) => i in rows && rows[i].recipient == target && rows[i].kind == kind
    case None => forall i :: i in rows ==> !(rows[i].recipient == target && rows[i].kind == kind)
  }

  /** The rows a request picks. */
  datatype Picked = Picked(ikSign: Option<nat>, ikDh: Option<nat>, spk: Option<nat>, opk: Option<nat>)

  predicate GoodPicks(rows: map<nat, PrekeyRow>, target: string, p: Picked) {
    Picks(rows, target, IK_SIGN, p.ikSign) && Picks(rows, target, IK_DH, p.ikDh)
    && Picks(rows, target, SPK, p.spk) && Picks(rows, target, OPK, p.opk)
  }

  function SignedOf(r: PrekeyRow): SignedKey {
    SignedKey(r.value, r.sig, r.keyId)
  }

  function Reply(rows: map<nat, PrekeyRow>, target: string, p: Picked): Frame
    requires GoodPicks(rows, target, p)
  {
    Bundle(target,
           if p.ikSign.Some? then Some(rows[p.ikSign.value].value) else None,
           if p.ikDh.Some? then Some(rows[p.ikDh.value].value) else None,
           if p.spk.Some? then Some(SignedOf(rows[p.spk.value])) else None,
           if p.opk.Some? then Some(OneTimeKey(rows[p.opk.value].keyId, rows[p.opk.value].value)) else None)
  }

  /** The picked one-time key leaves the table as it is handed out. */
  function HandOut(t: Keys, opk: Option<nat>): Keys {
    match opk
    case None => t
    case Some(i) => t.(rows := t.rows - {i}, handed := t.handed + [i])
  }

  // ----- housekeeping

  /** All rows of the recipient are older than `cutoff`. */
  predicate Idle(rows: map<nat, PrekeyRow>, recipient: string, cutoff: int) {
    forall i :: i in rows && rows[i].recipient == recipient ==> rows[i].created < cutoff
  }

  function Stale(rows: map<nat, PrekeyRow>, cutoff: int): set<nat> {
    set i | i in rows && Idle(rows, rows[i].recipient, cutoff)
  }

  function Housekeep(t: Keys, cutoff: int): Keys {
    var gone := Stale(t.rows, cutoff);
    t.(rows := t.rows - gone, housekept := t.housekept + gone)
  }

  lemma RemovalSize(rows: map<nat, PrekeyRow>, gone: set<nat>)
    requires gone <= rows.Keys
    ensures |rows - gone| == |rows| - |gone|
  {
    assert (rows - gone).Keys == rows.Keys - gone;
    assert |rows| == |rows.Keys| && |rows - gone| == |(rows - gone).Keys|;
  }

  // ----- where every row is

  /** Each id ever given is in exactly one place: still present, handed out once, replaced
      by a later snapshot, or removed with an idle owner. */
  ghost predicate KeysValid(t: Keys) {
    && t.next >= 1
    && (forall i, j :: 0 <= i < j < |t.handed| ==> t.handed[i] != t.handed[j])
    && (forall i: nat :: 1 <= i < t.next <==> i in t.rows || i in t.handed || i in t.replaced || i in t.housekept)
    && (forall i :: i in t.rows ==> i !in t.handed && i !in t.replaced && i !in t.housekept)
    && (forall i :: i in t.handed ==> i !in t.replaced && i !in t.housekept)
    && t.replaced !! t.housekept
  }

  /** A table as found, with all other ids gone. */
  lemma FoundIsValid(rows: map<nat, PrekeyRow>, next: nat)
    requires next >= 1 && forall i :: i in rows ==> 1 <= i < next
    ensures KeysValid(Keys(rows, next, [], IdRange(1, next - 1) - rows.Keys, {}))
  {
  }

  lemma StoreKeeps(t: Keys, owner: string, keys: seq<KeyIn>, now: int)
    requires KeysValid(t)
    ensures KeysValid(Store(t, owner, keys, now))
  {
  }

  lemma UploadKeeps(t: Keys, id: string, u: RelayTypes.Upload, now: int)
    requires KeysValid(t)
    ensures KeysValid(Upload(t, id, u, now))
  {
    if u.keys.Some? {
      StoreKeeps(t, u.owner, u.keys.value, now);
    }
  }

  /** A handed-out row was present, so it was never handed out before. */
  lemma HandOutKeeps(t: Keys, opk: Option<nat>)
    requires KeysValid(t) && (opk.Some? ==> opk.value in t.rows)
    ensures KeysValid(HandOut(t, opk))
    ensures opk.Some? ==> opk.value !in t.handed && opk.value !in HandOut(t, opk).rows
  {
  }

  lemma HousekeepKeeps(t: Keys, cutoff: int)
    requires KeysValid(t)
    ensures KeysValid(Housekeep(t, cutoff))
  {
  }

  ghost function Members(xs: seq<nat>): set<nat> {
    set x | x in xs
  }

  lemma {:induction false} DistinctSize(xs: seq<nat>)
    requires forall i, j :: 0 <= i < j < |xs| ==> xs[i] != xs[j]
    ensures |Members(xs)| == |xs|
  {
    if xs == [] {
      assert Members(xs) == {};
    } else {
      DistinctSize(xs[1..]);
      assert xs[0] !in xs[1..];
      assert Members(xs) == {xs[0]} + Members(xs[1..]);
    }
  }

  lemma DisjointSizes(a: set<nat>, b: set<nat>, c: set<nat>, d: set<nat>)
    requires a !! b && (a + b) !! c && (a + b + c) !! d
    ensures |a + b + c + d| == |a| + |b| + |c| + |d|
  {
  }

  lemma KeysPartition(t: Keys)
    requires KeysValid(t)
    ensures t.rows.Keys !! Members(t.handed)
    ensures (t.rows.Keys + Members(t.handed)) !! t.replaced
    ensures (t.rows.Keys + Members(t.handed) + t.replaced) !! t.housekept
    ensures IdRange(1, t.next - 1) == t.rows.Keys + Members(t.handed) + t.replaced + t.housekept
  {
  }

  /** Conservation: rows ever inserted are present, handed out, replaced or housekept. */
  lemma KeysConserved(t: Keys)
    requires KeysValid(t)
    ensures t.next - 1 == |t.rows| + |t.handed| + |t.replaced| + |t.housekept|
  {
    KeysPartition(t);
    DistinctSize(t.handed);
    DisjointSizes(t.rows.Keys, Members(t.handed), t.replaced, t.housekept);
    assert |t.rows.Keys| == |t.rows|;
  }

  // ----- what the operations promise

  predicate HeldRow(r: PrekeyRow, owner: string, kinds: set<string>) {
    r.recipient == owner && r.kind in kinds
  }

  /** The table after a storable upload, row by row. */
  lemma StoredRow(t: Keys, owner: string, keys: seq<KeyIn>, now: int, i: nat)
    requires KeysValid(t) && Storable(keys)
    ensures
      var n := Store(t, owner, keys, now).rows;
      if t.next <= i < t.next + |keys| then
        i in n && n[i] == RowOf(owner, keys[i - t.next], now) && HeldRow(n[i], owner, Kinds(keys))
      else if i in t.rows && !HeldRow(t.rows[i], owner, Kinds(keys)) then i in n && n[i] == t.rows[i]
      else i !in n
  {
    if t.next <= i < t.next + |keys| {
      var added := Snapshot(owner, keys, now, t.next);
      assert added[i] == RowOf(owner, keys[i - t.next], now);
      assert Store(t, owner, keys, now).rows[i] == added[i];
      assert keys[i - t.next] in keys;
    }
  }

  /** Row by row, `after` is `before` with the owner's rows of the uploaded types replaced by
      the keys of the upload, one row per key with ids from `next`; all else is as it was. */
  predicate Snapshotted(
    before: map<nat, PrekeyRow>, after: map<nat, PrekeyRow>, owner: string, keys: seq<KeyIn>, now: int,
    next: nat, i: nat)
    requires Storable(keys)
  {
    var added := next <= i < next + |keys|;
    && (i in after && HeldRow(after[i], owner, Kinds(keys)) <==> added)
    && (added ==> i in after && after[i] == RowOf(owner, keys[i - next], now))
    && (i in before && !HeldRow(before[i], owner, Kinds(keys)) <==>
          i in after && !HeldRow(after[i], owner, Kinds(keys)))
    && (i in before && i in after ==> before[i] == after[i])
  }

  lemma StoreSnapshots(t: Keys, owner: string, keys: seq<KeyIn>, now: int, i: nat)
    requires KeysValid(t) && Storable(keys)
    ensures Snapshotted(t.rows, Store(t, owner, keys, now).rows, owner, keys, now, t.next, i)
  {
    StoredRow(t, owner, keys, now, i);
  }

  /** After an accepted upload the owner's rows of the uploaded types are exactly the
      snapshot, and all other rows are what they were; any other upload changes nothing. */
  lemma UploadIsSnapshot(t: Keys, id: string, u: RelayTypes.Upload, now: int)
    requires KeysValid(t)
    ensures
      var n := Upload(t, id, u, now);
      if u.owner == id && id != "" && u.keys.Some? && Storable(u.keys.value) then
        forall i: nat :: Snapshotted(t.rows, n.rows, id, u.keys.value, now, t.next, i)
      else n == t
  {
    if u.owner == id && id != "" && u.keys.Some? && Storable(u.keys.value) {
      forall i: nat ensures Snapshotted(t.rows, Upload(t, id, u, now).rows, id, u.keys.value, now, t.next, i) {
        StoreSnapshots(t, id, u.keys.value, now, i);
      }
    }
  }

  /** The row of entry `a` of a storable upload, field by field. An empty signature is none. */
  lemma StoredFields(t: Keys, owner: string, keys: seq<KeyIn>, now: int, a: nat)
    requires KeysValid(t) && Storable(keys) && a < |keys|
    ensures
      var n, i := Store(t, owner, keys, now).rows, t.next + a;
      && i in n && n[i].recipient == owner && n[i].created == now
      && Some(n[i].kind) == keys[a].kind && Some(n[i].value) == keys[a].value
      && (n[i].keyId - keys[a].id) % 0x1_0000_0000 == 0 && -0x8000_0000 <= n[i].keyId < 0x8000_0000
      && (if keys[a].sig.Some? && keys[a].sig.value != "" then n[i].sig == keys[a].sig else n[i].sig.None?)
  {
    StoredRow(t, owner, keys, now, t.next + a);
    Int32Range(keys[a].id);
  }

  lemma SwapSize(a: set<nat>, gone: set<nat>, added: set<nat>)
    requires gone <= a && a !! added
    ensures |a - gone + added| == |a| - |gone| + |added|
  {
  }

  lemma StoreKeySet(t: Keys, owner: string, keys: seq<KeyIn>, now: int)
    requires Storable(keys)
    ensures Store(t, owner, keys, now).rows.Keys ==
      t.rows.Keys - Held(t.rows, owner, Kinds(keys)) + IdRange(t.next, |keys|)
  {
    assert Snapshot(owner, keys, now, t.next).Keys == IdRange(t.next, |keys|);
  }

  lemma StoreSize(t: Keys, owner: string, keys: seq<KeyIn>, now: int)
    requires KeysValid(t) && Storable(keys)
    ensures |Store(t, owner, keys, now).rows| == |t.rows| - |Held(t.rows, owner, Kinds(keys))| + |keys|
  {
    var n := Store(t, owner, keys, now).rows;
    StoreKeySet(t, owner, keys, now);
    SwapSize(t.rows.Keys, Held(t.rows, owner, Kinds(keys)), IdRange(t.next, |keys|));
    assert |n| == |n.Keys| && |t.rows| == |t.rows.Keys|;
  }

  lemma StoredHeld(t: Keys, owner: string, keys: seq<KeyIn>, now: int)
    requires KeysValid(t) && Storable(keys)
    ensures Held(Store(t, owner, keys, now).rows, owner, Kinds(keys)) == IdRange(t.next, |keys|)
  {
    forall i: nat {
      StoredRow(t, owner, keys, now, i);
    }
  }

  /** Uploading the same keys again does not pile up rows. */
  lemma UploadTwice(t: Keys, id: string, keys: seq<KeyIn>, now: int, later: int)
    requires KeysValid(t) && id != "" && Storable(keys)
    ensures
      var u := RelayTypes.Upload(id, Some(keys));
      |Upload(Upload(t, id, u, now), id, u, later).rows| == |Upload(t, id, u, now).rows|
  {
    var n := Store(t, id, keys, now);
    assert Upload(t, id, RelayTypes.Upload(id, Some(keys)), now) == n;
    StoreKeeps(t, id, keys, now);
    StoredHeld(t, id, keys, now);
    StoreSize(n, id, keys, later);
    assert Upload(n, id, RelayTypes.Upload(id, Some(keys)), later) == Store(n, id, keys, later);
  }

  /** Housekeeping takes all rows of a recipient or none: all of them exactly when every
      one is older than the cutoff. */
  lemma HousekeepAllOrNothing(t: Keys, cutoff: int, recipient: string)
    ensures
      var n := Housekeep(t, cutoff).rows;
      if forall i :: i in t.rows && t.rows[i].recipient == recipient ==> t.rows[i].created < cutoff then
        forall i :: i in n ==> n[i].recipient != recipient
      else forall i :: i in t.rows && t.rows[i].recipient == recipient ==> i in n && n[i] == t.rows[i]
  {
  }

  /** `i` is a row of the target and type. */
  predicate RowFor(rows: map<nat, PrekeyRow>, target: string, kind: string, i: nat) {
    i in rows && rows[i].recipient == target && rows[i].kind == kind
  }

  /** A bundle shows a key of each type exactly when the target has one, and what it shows
      of a key comes from one row of that type. */
  lemma BundleContents(rows: map<nat, PrekeyRow>, target: string, p: Picked)
    requires GoodPicks(rows, target, p)
    ensures
      var f := Reply(rows, target, p);
      && f.target == target
      && (f.ikSign.Some? <==> exists i :: RowFor(rows, target, "IK_SIGN", i))
      && (f.ikDh.Some? <==> exists i :: RowFor(rows, target, "IK_DH", i))
      && (f.spk.Some? <==> exists i :: RowFor(rows, target, "SPK", i))
      && (f.opk.Some? <==> exists i :: RowFor(rows, target, "OPK", i))
    ensures
      var f := Reply(rows, target, p);
      && (f.ikSign.Some? ==> exists i :: RowFor(rows, target, "IK_SIGN", i) && rows[i].value == f.ikSign.value)
      && (f.ikDh.Some? ==> exists i :: RowFor(rows, target, "IK_DH", i) && rows[i].value == f.ikDh.value)
      && (f.spk.Some? ==>
            exists i :: RowFor(rows, target, "SPK", i)
              && rows[i].value == f.spk.value.value && rows[i].sig == f.spk.value.sig
              && rows[i].keyId == f.spk.value.keyId)
      && (f.opk.Some? ==>
            exists i :: RowFor(rows, target, "OPK", i) && OneTimeKey(rows[i].keyId, rows[i].value) == f.opk.value)
  {
    assert p.ikSign.Some? ==> RowFor(rows, target, IK_SIGN, p.ikSign.value);
    assert p.ikDh.Some? ==> RowFor(rows, target, IK_DH, p.ikDh.value);
    assert p.spk.Some? ==> RowFor(rows, target, SPK, p.spk.value);
    assert p.opk.Some? ==> RowFor(rows, target, OPK, p.opk.value);
  }
}

/** The records of the relay: table rows, frames on the wire, sockets. */
module RelayTypes {
  import opened Wrappers

  /** A row of the offline queue. */
  datatype QueueRow = QueueRow(recipient: string, payload: string, created: int, expiry: int)

  /** A row of the prekey table; the key types the relay looks for are below. */
  datatype PrekeyRow =
    PrekeyRow(recipient: string, kind: string, keyId: int, value: string, sig: Option<string>, created: int)

  const IK_SIGN := "IK_SIGN"
  const IK_DH := "IK_DH"
  const SPK := "SPK"
  const OPK := "OPK"

  /** One key of an upload as it arrives; missing fields are `None`. */
  datatype KeyIn = KeyIn(kind: Option<string>, id: int, value: Option<string>, sig: Option<string>)

  /** An upload frame; `keys` is `None` when it is not an array. */
  datatype Upload = Upload(owner: string, keys: Option<seq<KeyIn>>)

  datatype SignedKey = SignedKey(value: string, sig: Option<string>, keyId: int)
  datatype OneTimeKey = OneTimeKey(id: int, value: string)

  /** What the relay sends to a socket. */
  datatype Frame =
    | AuthChallenge(nonce: string)
    | AuthOk
    | AuthFail
    | Msg(to: string, payload: string, qid: nat)
    | Received(cid: string)
    | Bundle(target: string, ikSign: Option<string>, ikDh: Option<string>,
             spk: Option<SignedKey>, opk: Option<OneTimeKey>)
    | Posts(channel: string, posts: seq<(int, string)>)

  /** The relay's view of a connection, with everything sent on it so far. `member` says
      whether it is in the set of clients. */
  datatype Sock = Sock(
    member: bool, open: bool, nonce: Option<string>, authedId: Option<string>, senderId: Option<string>,
    pending: Option<Upload>, sent: seq<Frame>)

  const TTL_MS: int := 7 * 24 * 3600 * 1000
  const CID_TTL_MS: int := 10 * 60 * 1000
  const IDLE_MS: int := 30 * 24 * 3600 * 1000

  /** Seven days, ten minutes and thirty days in milliseconds. */
  lemma Durations()
    ensures TTL_MS == 604_800_000 && CID_TTL_MS == 600_000 && IDLE_MS == 2_592_000_000
  {
  }

  /** JavaScript's `x | 0` on an integer: the value modulo 2^32, read as signed. */
  function ToInt32(x: int): int {
    var m := x % 0x1_0000_0000;
    if m < 0x8000_0000 then m else m - 0x1_0000_0000
  }

  /** The conversion lands in the signed 32-bit range, keeps the residue, and is the
      identity on that range. */
  lemma Int32Range(x: int)
    ensures -0x8000_0000 <= ToInt32(x) < 0x8000_0000
    ensures (ToInt32(x) - x) % 0x1_0000_0000 == 0
    ensures -0x8000_0000 <= x < 0x8000_0000 ==> ToInt32(x) == x
  {
  }
}

/**
 * The connection handler of the chat server as a state machine. The state is
 * the `messages` table, the live sockets with the handshake each connected
 * with, and, per socket, the sequence of `chat message` events the handler
 * itself emits to it (the broadcast and the replay). Packets socket.io keeps
 * for a briefly disconnected socket and resends when it reconnects with its
 * state recovered are not part of that sequence. Database and transport
 * outcomes are inputs.
 */
module Relay {
  import opened Wrappers
  import opened Decimal
  import opened MessageTable

  type SocketId = string

  /** The client-supplied `auth` fields of a socket's handshake. */
  datatype Handshake = Handshake(username: Option<string>, serverOffset: Option<int>)

  /** Whether a read completed or threw. */
  datatype Outcome = Succeeded | Failed

  /**
   * How an INSERT call ended: it returned, it threw with nothing committed, or
   * it threw after the database had committed the row (a lost or timed-out
   * response). The handler's `catch` cannot tell the last two apart.
   */
  datatype InsertOutcome = Acknowledged | Rejected | LostAfterCommit

  /** The payload of a server-to-client `chat message` event: content, id text, author. */
  datatype ChatMessage = ChatMessage(content: string, id: string, user: string)

  datatype State = State(
    table: Table,
    sockets: map<SocketId, Handshake>,
    sent: map<SocketId, seq<ChatMessage>>)

  const Anonymous: string := "anonymous"

  /** The author label: the handshake's username, or "anonymous" when absent. */
  function Author(hs: Handshake): string {
    hs.username.GetOr(Anonymous)
  }

  /** The replay offset: the handshake's serverOffset, or 0 when absent. */
  function Offset(hs: Handshake): int {
    hs.serverOffset.GetOr(0)
  }

  /** The event a stored row is replayed as. */
  function Emitted(r: Record): ChatMessage {
    ChatMessage(r.content, Render(r.id), r.user)
  }

  /** Everything emitted to socket `s` so far. */
  function Sent(st: State, s: SocketId): seq<ChatMessage> {
    if s in st.sent then st.sent[s] else []
  }

  /** A fresh server: empty table, no sockets, nothing sent. */
  const Init: State := State(Fresh, map[], map[])

  /** `io.emit`: one event appended to every live socket's stream, and to no other. */
  function Broadcast(st: State, m: ChatMessage): (r: State)
    ensures r.table == st.table && r.sockets == st.sockets
    ensures forall s :: s in st.sockets ==> Sent(r, s) == Sent(st, s) + [m]
    ensures forall s :: s !in st.sockets ==> Sent(r, s) == Sent(st, s)
  {
    var sent := map s | s in st.sent.Keys + st.sockets.Keys ::
      if s in st.sockets then Sent(st, s) + [m] else Sent(st, s);
    st.(sent := sent)
  }

  /** The INSERT stores a row: the database commits it and a rowid is still free. */
  predicate Stores(st: State, insert: InsertOutcome) {
    insert != Rejected && st.table.lastId < MaxRowId
  }

  /**
   * A `chat message` from live socket `sid`: insert, then broadcast only when the
   * call returned. A call that threw returns silently, whether or not the row was
   * committed.
   */
  function Submit(st: State, sid: SocketId, msg: string, insert: InsertOutcome): (r: State)
    requires sid in st.sockets
    ensures !Stores(st, insert) ==> r == st
    ensures Stores(st, insert) ==>
      && r.sockets == st.sockets
      && |r.table.rows| == |st.table.rows| + 1
      && r.table.rows[..|st.table.rows|] == st.table.rows
      && st.table.lastId < r.table.lastId
    ensures Stores(st, insert) ==>
      var row := r.table.rows[|r.table.rows| - 1];
      && row.content == msg
      && row.user == Author(st.sockets[sid])
      && (Valid(st.table) ==> Valid(r.table))
      && (Valid(st.table) ==> forall x :: x in st.table.rows ==> x.id < row.id)
    ensures Stores(st, insert) && insert == Acknowledged ==>
      var row := r.table.rows[|r.table.rows| - 1];
      && (forall s :: s in st.sockets ==> Sent(r, s) == Sent(st, s) + [Emitted(row)])
      && (forall s :: s !in st.sockets ==> Sent(r, s) == Sent(st, s))
    ensures insert == LostAfterCommit ==> r.sent == st.sent
  {
    var username := Author(st.sockets[sid]);
    if insert == Rejected then st
    else
      match Insert(st.table, msg, username)
      case None => st
      case Some(ins) =>
        assert ins.table.rows[..|st.table.rows|] == st.table.rows;
        var stored := st.(table := ins.table);
        if insert == LostAfterCommit then stored
        else Broadcast(stored, ChatMessage(msg, Render(ins.row.id), username))
  }

  /** The events replayed to a fresh socket whose read succeeded: the selected rows. */
  function Replayed(t: Table, k: int): (d: seq<ChatMessage>)
    ensures |d| == |After(t.rows, k)|
    ensures forall m :: m in d ==> exists x :: x in t.rows && x.id > k && m == Emitted(x)
    ensures forall x :: x in t.rows && x.id > k ==> Emitted(x) in d
  {
    var sel := After(t.rows, k);
    var d := seq(|sel|, i requires 0 <= i < |sel| => Emitted(sel[i]));
    assert forall x :: x in sel ==> Emitted(x) in d by {
      forall x | x in sel
        ensures Emitted(x) in d
      {
        var i :| 0 <= i < |sel| && sel[i] == x;
        assert d[i] == Emitted(x);
      }
    }
    d
  }

  /** A socket connects; unless its state was recovered, rows past its offset are replayed to it. */
  function Connect(st: State, sid: SocketId, hs: Handshake, recovered: bool, read: Outcome): (r: State)
    ensures r.table == st.table
    ensures r.sockets == st.sockets[sid := hs]
    ensures forall s :: s != sid ==> Sent(r, s) == Sent(st, s)
    ensures recovered || read == Failed ==> Sent(r, sid) == Sent(st, sid)
    ensures !recovered && read == Succeeded ==>
      Sent(r, sid) == Sent(st, sid) + Replayed(st.table, Offset(hs))
  {
    var live := st.(sockets := st.sockets[sid := hs]);
    if recovered || read == Failed then live
    else live.(sent := st.sent[sid := Sent(st, sid) + Replayed(st.table, Offset(hs))])
  }

  /** A socket disconnects: it leaves the live set and nothing else changes. */
  function Disconnect(st: State, sid: SocketId): (r: State)
    ensures r.table == st.table && r.sent == st.sent
    ensures r.sockets.Keys == st.sockets.Keys - {sid}
    ensures forall s :: s in r.sockets ==> r.sockets[s] == st.sockets[s]
  {
    st.(sockets := st.sockets - {sid})
  }

  /** The event stands for a row of the table. */
  ghost predicate Committed(t: Table, m: ChatMessage) {
    exists x :: x in t.rows && m == Emitted(x)
  }

  /** The table is well formed and every event ever emitted stands for a stored row. */
  ghost predicate Inv(st: State) {
    && Valid(st.table)
    && forall s, m :: s in st.sent && m in st.sent[s] ==> Committed(st.table, m)
  }
}

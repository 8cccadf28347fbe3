# Chat relay: message log, broadcast and replay

A Dafny model of the socket connection handler of a small real-time chat
server (`server/index.js`). Clients connect over socket.io, send `chat message`
events, and receive every message any client sends. Messages go to a
`messages` table with an `INTEGER PRIMARY KEY AUTOINCREMENT` id, so a client
that reconnects without recovered socket state can catch up. It presents a
`serverOffset` in its handshake and is sent every stored row whose id is larger.

The model is a pure state machine:

- `MessageTable` is the table. It holds the rows in insertion order and the
  AUTOINCREMENT counter, which is the largest id ever handed out. Ids are
  SQLite's signed 64-bit rowids. `Insert` is the `INSERT` when the database
  call goes through. Once the largest rowid has been used it stores nothing,
  because AUTOINCREMENT then refuses every insert. `After` is `SELECT id, content, user FROM messages
  WHERE id > ?`.
- `Relay` is the handler's state:
  - the table;
  - the live sockets, each with the handshake `auth` it connected with
    (`username` and `serverOffset`, both optional);
  - per socket, the `chat message` events the handler itself has emitted to it
    so far: the live broadcast and the replay. Packets that socket.io resends
    on its own to a socket reconnecting with recovered state are not included.

  There are three transitions. `Connect` is the connection callback with its
  replay path. `Submit` is the `chat message` handler. `Disconnect` is the
  disconnect handler. `Broadcast` is `io.emit`.
- Inputs replace everything external: whether socket.io recovered the socket's
  state, the handshake fields, and how each database call ended. A read
  `Succeeded` or `Failed`. An insert was `Acknowledged`, was `Rejected` with
  nothing committed, or was `LostAfterCommit`: the row was committed but the
  call threw anyway, for example because the response was lost. The handler's
  `catch` treats the last two alike. It returns without broadcasting, so a
  row lost after commit is stored but never sent live. Only a later replay
  delivers it.
- `Decimal` renders ids as the decimal text that `toString()` produces. It also
  reads such a text back as a number. The SQL comparison `id > ?` does the same
  with the text offset a client returns, because the INTEGER column gives the
  bound value numeric affinity.
- `RelayProperties` states each transition's effect and frame. It also proves
  the state invariant: the table's ids strictly increase, and every event any
  socket received stands for a stored row. `Trace` extends both over arbitrary
  runs. `Scenarios` works four end-to-end exchanges and the rowid-exhaustion case.

The model follows the code, not stronger guarantees a relay of this kind is often assumed to give:

- The replay `SELECT` has no `ORDER BY`. The contracts therefore state which
  rows are replayed, not their order. The model returns rows in table order.
  `MessageTable.AfterAscending` shows that this order ascends, but that is a
  consequence of the model, not a promise of the code.
- The `chat message` handler is registered before the awaited replay. Nothing
  orders replayed events before live broadcasts, and nothing here claims so.
- The code has no metadata enrichment. Records are `(id, content, user)`.
- The next id is the AUTOINCREMENT counter plus one, not the largest stored id
  plus one. The two agree here because rows are never deleted.

## Model

| member | source | states |
|---|---|---|
| Decimal.Render | server/index.js:77 | an id's text is a non-empty numeral with no leading zero, one digit exactly for ids below 10 |
| Decimal.Parse | server/index.js:86-88 | a non-empty string of decimal digits has a value (a rendered id reads back as that id, see `Decimal.ParseRender`); any other text is given none |
| Decimal.ParseRender | server/index.js:86-88 | reading the emitted id text back as a number gives the id, so an offset a client echoes compares as that id |
| Decimal.RenderInjective | server/index.js:94 | two ids have the same text exactly when they are equal |
| MessageTable.Insert | server/index.js:64-70 | the insert stores nothing exactly when the counter has reached the largest 64-bit rowid; otherwise it appends exactly one row `(content, user)` at the end, its id is above the counter, becomes the counter and stays within the rowid range, a well-formed table stays well formed, and the new id exceeds every stored id |
| MessageTable.After | server/index.js:86 | a row is selected exactly when it is in the table and its id is greater than the offset |
| MessageTable.AfterAscending | server/index.js:35 | the selection from a table whose ids ascend also ascends |
| MessageTable.AfterKeepsAll | server/index.js:86 | when every row is past the offset, the selection is the whole table in order |
| MessageTable.AfterEmpty | server/index.js:86 | when no row is past the offset, the selection is empty |
| MessageTable.SelectFromZero | server/index.js:88 | offset 0, the default, selects every row of a well-formed table |
| MessageTable.SelectPastCounter | server/index.js:33-39 | an offset at or above the AUTOINCREMENT counter selects nothing |
| Relay.Broadcast | server/index.js:77 | every live socket's stream gains the same one event; the handler adds nothing to any other socket's stream (what socket.io later resends to a recovered socket is outside the model); table and sockets unchanged |
| Relay.Submit | server/index.js:56-78 | an insert rejected with nothing committed, or refused because no rowid is left, changes nothing. A stored one appends one row whose content is the message and whose user is the author label; existing rows keep their positions; the new id exceeds every old one; the counter rises. If the call returned, every live socket, the sender included, gets that row's event. If it threw after the commit, no stream changes |
| Relay.Replayed | server/index.js:92-95 | one event per selected row; each event stands for a row past the offset; every row past the offset has its event in the replay |
| Relay.Connect | server/index.js:81-101 | the socket becomes live with its handshake; other sockets' streams and the table are untouched; a recovered socket, or a failed read, adds nothing to its own stream; otherwise the replay is appended to its stream |
| Relay.Disconnect | server/index.js:48-53 | only the live set changes: the socket leaves it; table and all streams are untouched |
| RelayProperties.SubmitAuthor | server/index.js:59 | the stored and emitted author is "anonymous" when the handshake has no username, the username unchanged otherwise; the sender's own stream ends with `(msg, id text, author)` |
| RelayProperties.FanOutUniform | server/index.js:77 | after a successful submit any two live sockets and the sender each gained one event, and it is the same event |
| RelayProperties.ReplayExact | server/index.js:84-95 | a stored row's event is replayed if and only if the row's id exceeds the offset |
| RelayProperties.FreshConnectReplaysAfterOffset | server/index.js:81-95 | a fresh socket's stream keeps its prefix and gains exactly the events of rows past its offset, each backed by a row; no other stream and not the table changes |
| RelayProperties.FreshConnectFromZero | server/index.js:88 | with no serverOffset (or one at most 0) a fresh socket is replayed every stored row |
| RelayProperties.FreshConnectPastMax | server/index.js:86-88 | with an offset at or above every stored id a fresh socket is replayed nothing |
| RelayProperties.ResumeAfterLastSeen | server/index.js:86-94 | a client that hands back the id text of the last row it saw is replayed exactly the rows with a larger id |
| RelayProperties.BroadcastMatchesReplay | server/index.js:77 | every live socket's last event after a stored submit is the new row's replay event, and a replay from any offset carries that event exactly when the row's id exceeds the offset; both paths share one `(content, id, user)` shape and id text |
| RelayProperties.CaughtUpReplay | server/index.js:84-95 | a client whose offset is at or above every older id is replayed the new row's event alone when its id exceeds the offset, and nothing otherwise |
| RelayProperties.LostAfterCommitStillReplayed | server/index.js:71-75 | a row committed behind a call that threw is stored with the message as content and sent to no socket, yet a later replay from any offset below its id carries its event |
| RelayProperties.InitInv | server/index.js:33-39 | the freshly created empty table satisfies the invariant |
| RelayProperties.SubmitPreservesInv | server/index.js:64-77 | a submit, successful or not, keeps ids ascending and never emits an event that has no stored row |
| RelayProperties.ConnectPreservesInv | server/index.js:81-100 | a connect, with or without replay, keeps the invariant |
| RelayProperties.DisconnectPreservesInv | server/index.js:48-53 | a disconnect keeps the invariant |
| Trace.StepAppendOnly | server/index.js:33-39 | one handler invocation only appends rows and never lowers the id counter |
| Trace.RunAppendOnly | server/index.js:35 | over any run, the rows stored at the start remain a prefix of the table and the counter never falls, so ids are never reused |
| Trace.RunPreservesInv | server/index.js:42-102 | the invariant holds after any sequence of connects, messages and disconnects |
| Trace.Reachable | server/index.js:42-102 | every state reachable from a fresh server has strictly ascending ids and only row-backed events in every stream |
| Trace.LaterRowsHaveLargerIds | server/index.js:35 | every row stored during a run has a larger id than every row stored before it |
| Scenarios.FirstMessage | server/index.js:56-77 | empty table; A connects and sends "hello"; the table holds `(1, "hello", "A")` and A received `("hello", "1", "A")` |
| Scenarios.ResumeFromTwo | server/index.js:81-95 | rows 1 to 3 stored; a fresh socket with offset 2 is replayed row 3 only |
| Scenarios.RecoveredGetsNothing | server/index.js:81 | a recovered socket with offset 5 is replayed nothing, whatever is stored |
| Scenarios.FailedInsertThenContinue | server/index.js:71-75 | an insert rejected with nothing committed leaves the state as it was, and a later acknowledged submit still stores a row |
| Scenarios.RowidsExhausted | server/index.js:35 | once the largest rowid is used, a submit whose call would otherwise succeed stores and broadcasts nothing |

## Left out

- HTTP plumbing (express, morgan, the static `/` route, `server.listen`) and environment configuration (dotenv, port, database URL and token). They do not affect the protocol.
- The libsql client and the SQL text. The table is a sequence of rows, and each call's success or failure is an input. A rejected insert is modelled as consuming no id.
- socket.io resending missed packets. Connection state recovery is turned on (`server/index.js:22-24`). socket.io then keeps the broadcasts a socket misses while briefly disconnected, and resends them when the socket reconnects with `recovered` true. This happens outside the handler, so `sent` records only the handler's own emits (`server/index.js:77`, `server/index.js:94`). For example, a recovered socket's stream does not show a message broadcast while it was away, although socket.io would deliver it.
- socket.io internals. How connection state recovery decides `recovered` is an input. A socket's id is an opaque string. A `chat message` can only come from a live socket: `Submit` requires it, and in a run such an event from a dead socket does nothing.
- Interleaving across `await` points and between sockets. Each handler runs as one atomic step. No replay-before-live ordering is modelled or claimed.
- Console logging, including the logging of caught errors.
- JavaScript value types in the handshake. `username` is a string and `serverOffset` an integer when present.
- Decimal.Parse: SQLite's numeric affinity converts more texts than plain decimal numerals. It also reads signed (`'+3'`), space-padded (`' 3'`), fractional (`'3.0'`) and exponent (`'1e1'`) texts as numbers. The model reads only decimal numerals and pins a value only for rendered ids, which is what a client echoes back.
- JavaScript value types of the `chat message` payload. The handler accepts any value, but the model types it as a Dafny string, a sequence of Unicode scalar values. For a value that is not a string the two paths differ: `io.emit` broadcasts the raw value, while replay sends the text the `content TEXT` column stored. The same goes for a JavaScript string holding a lone UTF-16 surrogate. The broadcast sends it raw, while storing it as text either replaces the surrogate or makes the insert fail.
- RelayProperties.BroadcastMatchesReplay: holds for payloads that are well-formed Unicode text only, for the reasons in the line above.
- The representation of ids in the client library. The broadcast prints `lastInsertRowid` and the replay prints `row.id`. These are two values the library hands back, and their representation may differ for large ids. The model renders both as the same decimal text of the rowid. A read the library cannot complete is covered by the read outcome input.
- Relay.Replayed: states which rows are replayed and how many, not in which order, because the query has no `ORDER BY`.

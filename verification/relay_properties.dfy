/** Properties of the relay's transitions, one group per handler path. */
module RelayProperties {
  import opened Wrappers
  import opened Decimal
  import opened MessageTable
  import opened Relay

  /** The row a successful submit appended. */
  function NewRow(st: State, sid: SocketId, msg: string): Record
    requires sid in st.sockets && Stores(st, Acknowledged)
  {
    var r := Submit(st, sid, msg, Acknowledged);
    r.table.rows[|r.table.rows| - 1]
  }

  // ---------------------------------------------------------------------------
  // Submit

  /** The author stored and emitted is the handshake username, or "anonymous" without one. */
  lemma SubmitAuthor(st: State, sid: SocketId, msg: string)
    requires sid in st.sockets && Stores(st, Acknowledged)
    ensures var row := NewRow(st, sid, msg);
      && (st.sockets[sid].username.None? ==> row.user == "anonymous")
      && (st.sockets[sid].username.Some? ==> row.user == st.sockets[sid].username.value)
    ensures var sender := Sent(Submit(st, sid, msg, Acknowledged), sid);
      && |sender| > 0
      && sender[|sender| - 1] == ChatMessage(msg, Render(NewRow(st, sid, msg).id), NewRow(st, sid, msg).user)
  {
  }

  /** Every live socket, the sender included, receives the one same event for the new row. */
  lemma FanOutUniform(st: State, sid: SocketId, msg: string, a: SocketId, b: SocketId)
    requires sid in st.sockets && a in st.sockets && b in st.sockets
    requires Stores(st, Acknowledged)
    ensures var r := Submit(st, sid, msg, Acknowledged);
      && |Sent(r, a)| == |Sent(st, a)| + 1
      && |Sent(r, b)| == |Sent(st, b)| + 1
      && Sent(r, a)[|Sent(r, a)| - 1] == Sent(r, b)[|Sent(r, b)| - 1] == Sent(r, sid)[|Sent(r, sid)| - 1]
  {
  }

  // ---------------------------------------------------------------------------
  // Replay

  /** Exactly the rows past the offset are replayed: a row's event is there iff its id exceeds it. */
  lemma ReplayExact(t: Table, k: int)
    ensures forall x :: x in t.rows ==> (Emitted(x) in Replayed(t, k) <==> x.id > k)
  {
    forall x | x in t.rows && Emitted(x) in Replayed(t, k)
      ensures x.id > k
    {
      var y :| y in t.rows && y.id > k && Emitted(x) == Emitted(y);
      RenderInjective(x.id, y.id);
    }
  }

  /** A fresh socket with offset k gets exactly the rows with id > k, only on its own stream. */
  lemma FreshConnectReplaysAfterOffset(st: State, sid: SocketId, hs: Handshake)
    ensures var r := Connect(st, sid, hs, false, Succeeded);
      && |Sent(st, sid)| <= |Sent(r, sid)|
      && Sent(r, sid)[..|Sent(st, sid)|] == Sent(st, sid)
      && (forall x :: x in st.table.rows ==>
            (Emitted(x) in Sent(r, sid)[|Sent(st, sid)|..] <==> x.id > Offset(hs)))
      && (forall m :: m in Sent(r, sid)[|Sent(st, sid)|..] ==> Committed(st.table, m))
      && (forall s :: s != sid ==> Sent(r, s) == Sent(st, s))
      && r.table == st.table
  {
    var r := Connect(st, sid, hs, false, Succeeded);
    var d := Replayed(st.table, Offset(hs));
    assert Sent(r, sid) == Sent(st, sid) + d;
    assert Sent(r, sid)[|Sent(st, sid)|..] == d;
    ReplayExact(st.table, Offset(hs));
  }

  /** Without a serverOffset (or with 0), a fresh socket is replayed the whole table, in table order. */
  lemma FreshConnectFromZero(st: State, sid: SocketId, hs: Handshake)
    requires Valid(st.table) && Offset(hs) <= 0
    ensures var rows := st.table.rows;
      Sent(Connect(st, sid, hs, false, Succeeded), sid)
        == Sent(st, sid) + seq(|rows|, i requires 0 <= i < |rows| => Emitted(rows[i]))
  {
    SelectFromZero(st.table, Offset(hs));
  }

  /** With an offset at or above every stored id, nothing is replayed. */
  lemma FreshConnectPastMax(st: State, sid: SocketId, hs: Handshake)
    requires forall x :: x in st.table.rows ==> x.id <= Offset(hs)
    ensures Sent(Connect(st, sid, hs, false, Succeeded), sid) == Sent(st, sid)
  {
    AfterEmpty(st.table.rows, Offset(hs));
  }

  /**
   * A row reaches the live sockets and a later fresh socket as the same event, so
   * the id text a client last saw, read back as its offset, resumes right after
   * that row: the rows replayed are exactly those with a larger id.
   */
  lemma ResumeAfterLastSeen(st: State, x: Record, sid: SocketId, name: Option<string>)
    requires x in st.table.rows
    ensures Parse(Emitted(x).id) == Some(x.id)
    ensures var hs := Handshake(name, Some(Parse(Emitted(x).id).value));
      var r := Connect(st, sid, hs, false, Succeeded);
      forall y :: y in st.table.rows ==>
        (Emitted(y) in Sent(r, sid)[|Sent(st, sid)|..] <==> y.id > x.id)
  {
    ParseRender(x.id);
    var hs := Handshake(name, Some(x.id));
    FreshConnectReplaysAfterOffset(st, sid, hs);
  }

  /**
   * The event broadcast for a new row is the event a later replay sends for it:
   * a replay from any offset k carries it exactly when the row's id exceeds k.
   */
  lemma BroadcastMatchesReplay(st: State, sid: SocketId, msg: string, k: int)
    requires sid in st.sockets && Stores(st, Acknowledged)
    ensures var r := Submit(st, sid, msg, Acknowledged);
      var row := NewRow(st, sid, msg);
      && (forall s :: s in st.sockets ==> Sent(r, s)[|Sent(r, s)| - 1] == Emitted(row))
      && (Emitted(row) in Replayed(r.table, k) <==> row.id > k)
  {
    var r := Submit(st, sid, msg, Acknowledged);
    var row := NewRow(st, sid, msg);
    assert row in r.table.rows;
    ReplayExact(r.table, k);
  }

  /** A client that had every older row is replayed the new row's event alone, or nothing. */
  lemma CaughtUpReplay(st: State, sid: SocketId, msg: string, k: int)
    requires sid in st.sockets && Stores(st, Acknowledged)
    requires Valid(st.table) && forall x :: x in st.table.rows ==> x.id <= k
    ensures var row := NewRow(st, sid, msg);
      Replayed(Submit(st, sid, msg, Acknowledged).table, k) == (if row.id > k then [Emitted(row)] else [])
  {
    var r := Submit(st, sid, msg, Acknowledged);
    var row := NewRow(st, sid, msg);
    assert r.table.rows == st.table.rows + [row];
    AfterEmpty(st.table.rows, k);
    AfterSplit(st.table.rows, [row], k);
  }

  // ---------------------------------------------------------------------------
  // The invariant

  lemma InitInv()
    ensures Inv(Init)
  {
  }

  /** A submit keeps the table well formed and never emits an event without its row. */
  lemma SubmitPreservesInv(st: State, sid: SocketId, msg: string, insert: InsertOutcome)
    requires Inv(st) && sid in st.sockets
    ensures Inv(Submit(st, sid, msg, insert))
  {
    if Stores(st, insert) {
      var r := Submit(st, sid, msg, insert);
      var row := r.table.rows[|r.table.rows| - 1];
      assert r.table.rows == st.table.rows + [row];
      forall s, m | s in r.sent && m in r.sent[s]
        ensures Committed(r.table, m)
      {
        assert m in Sent(r, s);
        if m in Sent(st, s) {
          assert s in st.sent && m in st.sent[s];
          assert Committed(st.table, m);
          var x :| x in st.table.rows && m == Emitted(x);
          assert x in r.table.rows;
        } else {
          assert insert == Acknowledged;
          assert m == Emitted(row);
        }
      }
    }
  }

  /** A row committed behind a thrown call is not broadcast, yet a later fresh socket is replayed it. */
  lemma LostAfterCommitStillReplayed(st: State, sid: SocketId, msg: string, hs: Handshake)
    requires sid in st.sockets && Stores(st, LostAfterCommit)
    ensures var r := Submit(st, sid, msg, LostAfterCommit);
      var row := r.table.rows[|r.table.rows| - 1];
      && row.content == msg
      && (forall s :: Sent(r, s) == Sent(st, s))
      && (Emitted(row) in Replayed(r.table, Offset(hs)) <==> row.id > Offset(hs))
  {
    var r := Submit(st, sid, msg, LostAfterCommit);
    var row := r.table.rows[|r.table.rows| - 1];
    assert row in r.table.rows;
    ReplayExact(r.table, Offset(hs));
  }

  /** A connect, with or without replay, keeps every emitted event backed by a row. */
  lemma ConnectPreservesInv(st: State, sid: SocketId, hs: Handshake, recovered: bool, read: Outcome)
    requires Inv(st)
    ensures Inv(Connect(st, sid, hs, recovered, read))
  {
  }

  lemma DisconnectPreservesInv(st: State, sid: SocketId)
    requires Inv(st)
    ensures Inv(Disconnect(st, sid))
  {
  }
}

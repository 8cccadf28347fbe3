/** End-to-end exchanges worked through the relay's transitions. */
module Scenarios {
  import opened Wrappers
  import opened MessageTable
  import opened Relay

  /** Empty store; A connects fresh and sends "hello"; A receives ("hello", "1", "A"). */
  lemma FirstMessage()
    ensures var st := Connect(Init, "a", Handshake(Some("A"), None), false, Succeeded);
      var r := Submit(st, "a", "hello", Acknowledged);
      && r.table.rows == [Record(1, "hello", "A")]
      && Sent(r, "a") == [ChatMessage("hello", "1", "A")]
  {
  }

  /** Rows 1..3 stored; B connects fresh with offset 2 and is replayed row 3 only. */
  lemma ResumeFromTwo(c1: string, c2: string, c3: string, u: string)
    ensures var t := Table([Record(1, c1, u), Record(2, c2, u), Record(3, c3, u)], 3);
      var r := Connect(State(t, map[], map[]), "b", Handshake(None, Some(2)), false, Succeeded);
      Sent(r, "b") == [ChatMessage(c3, "3", u)]
  {
    var rows := [Record(1, c1, u), Record(2, c2, u), Record(3, c3, u)];
    assert rows[1..][1..] == [Record(3, c3, u)];
    assert After(rows, 2) == [Record(3, c3, u)];
    assert Replayed(Table(rows, 3), 2) == [Emitted(Record(3, c3, u))];
  }

  /** A recovered socket gets no replay whatever its offset and whatever the table holds. */
  lemma RecoveredGetsNothing(st: State, u: Option<string>)
    ensures Sent(Connect(st, "c", Handshake(u, Some(5)), true, Succeeded), "c") == Sent(st, "c")
  {
  }

  /** A rejected insert stores and broadcasts nothing, and the server goes on accepting sockets and messages. */
  lemma FailedInsertThenContinue(st: State, sid: SocketId, msg: string)
    requires sid in st.sockets && Valid(st.table) && st.table.lastId < MaxRowId
    ensures Submit(st, sid, msg, Rejected) == st
    ensures var r := Submit(Submit(st, sid, msg, Rejected), sid, msg, Acknowledged);
      |r.table.rows| == |st.table.rows| + 1
  {
  }

  /** Once the largest rowid is used, every insert fails: nothing is stored or broadcast. */
  lemma RowidsExhausted(st: State, sid: SocketId, msg: string)
    requires sid in st.sockets && st.table.lastId == MaxRowId
    ensures Submit(st, sid, msg, Acknowledged) == st
  {
  }
}

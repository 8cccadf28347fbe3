/** Runs of the relay: any sequence of handler invocations from a fresh server. */
module Trace {
  import opened MessageTable
  import opened Relay
  import RelayProperties

  /** One handler invocation, with the outcome of its database call where it makes one. */
  datatype Event =
    | Connected(sid: SocketId, hs: Handshake, recovered: bool, read: Outcome)
    | Message(sid: SocketId, msg: string, insert: InsertOutcome)
    | Disconnected(sid: SocketId)

  /** Only a live socket can raise `chat message`; from any other one the event does not occur. */
  function Step(st: State, ev: Event): State {
    match ev
    case Connected(sid, hs, recovered, read) => Connect(st, sid, hs, recovered, read)
    case Message(sid, msg, insert) => if sid in st.sockets then Submit(st, sid, msg, insert) else st
    case Disconnected(sid) => Disconnect(st, sid)
  }

  function Run(st: State, evs: seq<Event>): State
    decreases |evs|
  {
    if |evs| == 0 then st else Run(Step(st, evs[0]), evs[1..])
  }

  /** One step only appends rows and never lowers the id counter. */
  lemma StepAppendOnly(st: State, ev: Event)
    ensures st.table.rows <= Step(st, ev).table.rows
    ensures st.table.lastId <= Step(st, ev).table.lastId
  {
  }

  /** Rows, once stored, stay stored unchanged at their position, over any run. */
  lemma {:induction false} RunAppendOnly(st: State, evs: seq<Event>)
    ensures st.table.rows <= Run(st, evs).table.rows
    ensures st.table.lastId <= Run(st, evs).table.lastId
    decreases |evs|
  {
    if |evs| > 0 {
      StepAppendOnly(st, evs[0]);
      RunAppendOnly(Step(st, evs[0]), evs[1..]);
    }
  }

  lemma StepPreservesInv(st: State, ev: Event)
    requires Inv(st)
    ensures Inv(Step(st, ev))
  {
    match ev
    case Connected(sid, hs, recovered, read) =>
      RelayProperties.ConnectPreservesInv(st, sid, hs, recovered, read);
    case Message(sid, msg, insert) =>
      if sid in st.sockets {
        RelayProperties.SubmitPreservesInv(st, sid, msg, insert);
      }
    case Disconnected(sid) =>
      RelayProperties.DisconnectPreservesInv(st, sid);
  }

  /** The invariant holds after any run from a state satisfying it. */
  lemma {:induction false} RunPreservesInv(st: State, evs: seq<Event>)
    requires Inv(st)
    ensures Inv(Run(st, evs))
    decreases |evs|
  {
    if |evs| > 0 {
      StepPreservesInv(st, evs[0]);
      RunPreservesInv(Step(st, evs[0]), evs[1..]);
    }
  }

  /**
   * In every reachable state ids strictly increase in insertion order (so none
   * repeats), and every event any socket has received stands for a stored row.
   */
  lemma Reachable(evs: seq<Event>)
    ensures Inv(Run(Init, evs))
  {
    RelayProperties.InitInv();
    RunPreservesInv(Init, evs);
  }

  /** Every row stored during a run has a larger id than every row stored before it. */
  lemma LaterRowsHaveLargerIds(st: State, evs: seq<Event>)
    requires Inv(st)
    ensures var after := Run(st, evs).table.rows;
      forall i, j :: 0 <= i < |st.table.rows| <= j < |after| ==> st.table.rows[i].id < after[j].id
  {
    RunAppendOnly(st, evs);
    RunPreservesInv(st, evs);
  }
}

/**
 The hub's end of one agent socket (hub/ws_router.py): tables of calls in flight,
 the routing of incoming frames to them, and the failure of all of them on close.
 */
module AgentConnection {
  import opened Prelude
  import opened StreamRouting

  datatype Message =
    | DirectInfo(port: int, hosts: seq<string>, ticket: string)
    | Response(id: Option<Rid>, ok: bool, body: string)
    | ChunkHeader(id: Option<Rid>)
    | StreamStart(id: Option<Rid>)
    | StreamChunk(id: Option<Rid>, data: Bytes)
    | StreamEnd(id: Option<Rid>)
    | Unknown(id: Option<Rid>, body: string)

  /** A future: waiting, or settled in one of three ways. */
  datatype Future = Waiting | Resolved(msg: Message) | Failed(error: string) | Cancelled

  /** An element of a stream's queue: a message, or the None that close_pending puts. */
  datatype Entry = Got(msg: Message) | Stop

  datatype Conn = Conn(unary: map<Rid, Future>, streams: map<Rid, seq<Entry>>, slot: Option<Rid>,
                       closed: bool, directInfo: Option<Message>)

  function PutEntry(streams: map<Rid, seq<Entry>>, id: Option<Rid>, e: Entry): map<Rid, seq<Entry>> {
    if id.Some? && id.value in streams then streams[id.value := streams[id.value] + [e]] else streams
  }

  /** The connection after handle_incoming. */
  function Incoming(c: Conn, m: Message): Conn {
    match m
    case DirectInfo(_, _, _) => c.(directInfo := Some(m))
    case Response(id, _, _) =>
      if id.Some? && id.value in c.unary && c.unary[id.value] == Waiting
      then c.(unary := c.unary[id.value := Resolved(m)])
      else c.(streams := PutEntry(c.streams, id, Got(m)))
    case ChunkHeader(id) => c.(slot := id)
    case _ => c.(streams := PutEntry(c.streams, m.id, Got(m)))
  }

  /** The connection after handle_incoming_binary. */
  function IncomingBinary(c: Conn, data: Bytes): Conn {
    c.(slot := None, streams := PutEntry(c.streams, c.slot, Got(StreamChunk(c.slot, data))))
  }

  /** The connection after close_pending. */
  function ClosePending(c: Conn, error: string): Conn {
    c.(closed := true,
       unary := map rid | rid in c.unary :: if c.unary[rid] == Waiting then Failed(error) else c.unary[rid],
       streams := map rid | rid in c.streams :: c.streams[rid] + [Stop])
  }

  class AgentConnection {
    var pendingUnary: map<Rid, Future>
    var pendingStream: map<Rid, seq<Entry>>
    var pendingBinaryForRid: Option<Rid>
    var closed: bool
    var directInfo: Option<Message>
    const deviceId: string

    function View(): Conn
      reads this
    {
      Conn(pendingUnary, pendingStream, pendingBinaryForRid, closed, directInfo)
    }

    constructor (deviceId: string)
      ensures View() == Conn(map[], map[], None, false, None) && this.deviceId == deviceId
    {
      this.deviceId := deviceId;
      pendingUnary, pendingStream, pendingBinaryForRid, closed, directInfo := map[], map[], None, false, None;
    }

    method HandleIncoming(m: Message)
      modifies this
      ensures View() == Incoming(old(View()), m)
      ensures var answers := m.Response? && m.id.Some? && m.id.value in old(pendingUnary) && old(pendingUnary)[m.id.value] == Waiting;
        && pendingUnary == (if answers then old(pendingUnary)[m.id.value := Resolved(m)] else old(pendingUnary))
        && pendingBinaryForRid == (if m.ChunkHeader? then m.id else old(pendingBinaryForRid))
        && directInfo == (if m.DirectInfo? then Some(m) else old(directInfo))
        && pendingStream ==
           (if !answers && !m.DirectInfo? && !m.ChunkHeader? && m.id.Some? && m.id.value in old(pendingStream)
            then old(pendingStream)[m.id.value := old(pendingStream)[m.id.value] + [Got(m)]] else old(pendingStream))
    {
      if m.DirectInfo? {
        directInfo := Some(m);
        return;
      }
      var rid := m.id;
      if m.Response? && rid.Some? && rid.value in pendingUnary && pendingUnary[rid.value] == Waiting {
        pendingUnary := pendingUnary[rid.value := Resolved(m)];
        return;
      }
      if m.ChunkHeader? {
        pendingBinaryForRid := rid;
        return;
      }
      if rid.Some? && rid.value in pendingStream {
        pendingStream := pendingStream[rid.value := pendingStream[rid.value] + [Got(m)]];
      }
    }

    method HandleIncomingBinary(data: Bytes)
      modifies this
      ensures View() == IncomingBinary(old(View()), data)
      ensures pendingBinaryForRid == None
      ensures var rid := old(pendingBinaryForRid);
        pendingStream ==
          (if rid.Some? && rid.value in old(pendingStream)
           then old(pendingStream)[rid.value := old(pendingStream)[rid.value] + [Got(StreamChunk(rid, data))]]
           else old(pendingStream))
    {
      var rid := pendingBinaryForRid;
      pendingBinaryForRid := None;
      if rid == None { return; }
      if rid.value !in pendingStream { return; }
      pendingStream := pendingStream[rid.value := pendingStream[rid.value] + [Got(StreamChunk(rid, data))]];
    }

    /** Fails every call in flight. */
    method FailPending(error: string)
      modifies this
      ensures View() == ClosePending(old(View()), error)
      ensures closed && pendingUnary.Keys == old(pendingUnary).Keys && pendingStream.Keys == old(pendingStream).Keys
      ensures forall r :: r in pendingUnary ==>
        pendingUnary[r] == if old(pendingUnary)[r] == Waiting then Failed(error) else old(pendingUnary)[r]
      ensures forall r :: r in pendingStream ==> pendingStream[r] == old(pendingStream)[r] + [Stop]
    {
      closed := true;
      var rids := pendingUnary.Keys;
      while rids != {}
        invariant rids <= old(pendingUnary).Keys == pendingUnary.Keys
        invariant forall r :: r in pendingUnary ==>
          pendingUnary[r] == (if r !in rids && old(pendingUnary)[r] == Waiting then Failed(error) else old(pendingUnary)[r])
        invariant closed && pendingStream == old(pendingStream)
        invariant pendingBinaryForRid == old(pendingBinaryForRid) && directInfo == old(directInfo)
      {
        var r :| r in rids;
        if pendingUnary[r] == Waiting {
          pendingUnary := pendingUnary[r := Failed(error)];
        }
        rids := rids - {r};
      }
      var queues := pendingStream.Keys;
      while queues != {}
        invariant queues <= old(pendingStream).Keys == pendingStream.Keys
        invariant forall r :: r in pendingStream ==>
          pendingStream[r] == if r in queues then old(pendingStream)[r] else old(pendingStream)[r] + [Stop]
        invariant closed && pendingUnary == ClosePending(old(View()), error).unary
        invariant pendingBinaryForRid == old(pendingBinaryForRid) && directInfo == old(directInfo)
      {
        var r :| r in queues;
        pendingStream := pendingStream[r := pendingStream[r] + [Stop]];
        queues := queues - {r};
      }
    }
  }
}

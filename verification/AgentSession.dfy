/** The agent's end of the socket (agent/agent.py, Session): inbound streams it receives from the hub. */
module AgentSession {
  import opened Prelude
  import opened StreamRouting

  datatype Message =
    | ChunkHeader(id: Option<Rid>)
    | StreamEnd(id: Option<Rid>)
    | Request(id: Option<Rid>)

  /** What a text message is to the inbound streams. */
  function FrameOf(m: Message): Frame {
    match m
    case ChunkHeader(Some(rid)) => Header(rid)
    case StreamEnd(Some(rid)) => Text(rid, End)
    case _ => Other
  }

  class Session {
    var recvQueues: map<Rid, seq<Item>>
    var pendingBinaryForRid: Option<Rid>

    function View(): Router
      reads this
    {
      Router(pendingBinaryForRid, recvQueues)
    }

    constructor ()
      ensures View() == Router(None, map[])
    {
      recvQueues, pendingBinaryForRid := map[], None;
    }

    method OpenRecv(rid: Rid)
      modifies this
      ensures View() == Router(old(View()).slot, old(View()).queues[rid := []])
    {
      recvQueues := recvQueues[rid := []];
    }

    method CloseRecv(rid: Rid)
      modifies this
      ensures View() == Router(old(View()).slot, old(View()).queues - {rid})
    {
      recvQueues := recvQueues - {rid};
    }

    /** Routes as the hub does; a message it does not handle is left to the dispatcher. */
    method RouteTextFrame(m: Message) returns (handled: bool)
      modifies this
      ensures View() == Route(old(View()), FrameOf(m))
      ensures m.ChunkHeader? && m.id.Some? ==> handled && pendingBinaryForRid == m.id && recvQueues == old(recvQueues)
      ensures m.StreamEnd? && m.id.Some? && m.id.value in old(recvQueues) ==>
        handled && recvQueues == old(recvQueues)[m.id.value := old(recvQueues)[m.id.value] + [End]]
      ensures !m.ChunkHeader? ==> pendingBinaryForRid == old(pendingBinaryForRid)
      ensures !handled ==> View() == old(View())
      ensures handled <==> FrameOf(m).Header? || (FrameOf(m).Text? && FrameOf(m).rid in old(View()).queues)
    {
      if m.ChunkHeader? && m.id.Some? {
        pendingBinaryForRid := m.id;
        return true;
      }
      if m.StreamEnd? && m.id.Some? && m.id.value in recvQueues {
        recvQueues := recvQueues[m.id.value := recvQueues[m.id.value] + [End]];
        return true;
      }
      return false;
    }

    method RouteBinaryFrame(data: Bytes) returns (handled: bool)
      modifies this
      ensures View() == Route(old(View()), Binary(data))
      ensures handled <==> old(View()).slot.Some? && old(View()).slot.value in old(View()).queues
      ensures pendingBinaryForRid == None
      ensures handled ==>
        var rid := old(pendingBinaryForRid).value;
        recvQueues == old(recvQueues)[rid := old(recvQueues)[rid] + [Chunk(data)]]
      ensures !handled ==> recvQueues == old(recvQueues)
    {
      var rid := pendingBinaryForRid;
      pendingBinaryForRid := None;
      if rid == None || rid.value !in recvQueues { return false; }
      recvQueues := recvQueues[rid.value := recvQueues[rid.value] + [Chunk(data)]];
      return true;
    }
  }
}

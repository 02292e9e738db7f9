/**
 The phone's client of another device (PeerClient.kt) after the handshake: unary calls are
 completed and stream handlers called straight from the socket's callbacks.
 */
module PeerClient {
  import opened Prelude
  import opened StreamRouting

  datatype Message =
    | Response(id: Rid, ok: bool)
    | ChunkHeader(id: Rid)
    | StreamStart(id: Rid)
    | StreamEnd(id: Rid)
    | Unrouted

  /** What completed a unary call: the peer's answer, or the loss of the connection. */
  datatype Outcome = Answered(ok: bool) | Lost(reason: string)

  /** What a text message is to the stream handlers. */
  function FrameOf(m: Message): Frame {
    match m
    case ChunkHeader(rid) => Header(rid)
    case StreamStart(rid) => Text(rid, Start)
    case StreamEnd(rid) => Text(rid, End)
    case _ => Other
  }

  class PeerClient {
    var pendingUnary: set<Rid>
    var completed: map<Rid, Outcome>
    var streamHandlers: set<Rid>
    var calls: map<Rid, seq<Item>>  // what each handler has been called with, Note for the loss of the connection
    var pendingBinaryRid: Option<Rid>

    /** A call is completed only by leaving the table, so at most once; every handler has a record. */
    ghost predicate Valid()
      reads this
    {
      pendingUnary !! completed.Keys && streamHandlers <= calls.Keys
    }

    function View(): Router
      requires streamHandlers <= calls.Keys
      reads this
    {
      Router(pendingBinaryRid, map rid | rid in streamHandlers :: calls[rid])
    }

    constructor ()
      ensures Valid() && View() == Router(None, map[]) && pendingUnary == {} && completed == map[]
    {
      pendingUnary, completed, streamHandlers, calls, pendingBinaryRid := {}, map[], {}, map[], None;
    }

    /** Routes as the hub does, except that an end marker also drops the handler it is given to. */
    method RouteText(m: Message)
      requires Valid()
      modifies this
      ensures Valid()
      ensures var routed, closing := Route(old(View()), FrameOf(m)), if m.StreamEnd? then {m.id} else {};
        && View() == Router(routed.slot, routed.queues - closing)
        && forall rid :: rid in old(streamHandlers) ==> rid in calls && calls[rid] == routed.queues[rid]
      ensures var given := if m.StreamStart? then [Start] else if m.StreamEnd? then [End] else [];
        && (given != [] && m.id in old(streamHandlers) ==> calls == old(calls)[m.id := old(calls)[m.id] + given])
        && (given == [] || m.id !in old(streamHandlers) ==> calls == old(calls))
      ensures streamHandlers == if m.StreamEnd? then old(streamHandlers) - {m.id} else old(streamHandlers)
      ensures pendingBinaryRid == if m.ChunkHeader? then Some(m.id) else old(pendingBinaryRid)
      ensures pendingUnary == if m.Response? then old(pendingUnary) - {m.id} else old(pendingUnary)
      ensures completed == if m.Response? && m.id in old(pendingUnary) then old(completed)[m.id := Answered(m.ok)] else old(completed)
    {
      match m
      case Response(id, ok) =>
        if id in pendingUnary {
          pendingUnary, completed := pendingUnary - {id}, completed[id := Answered(ok)];
        }
      case ChunkHeader(id) =>
        pendingBinaryRid := Some(id);
      case StreamStart(id) =>
        if id in streamHandlers { calls := calls[id := calls[id] + [Start]]; }
      case StreamEnd(id) =>
        if id in streamHandlers {
          streamHandlers := streamHandlers - {id};
          calls := calls[id := calls[id] + [End]];
        }
      case Unrouted =>
    }

    method RouteBinary(data: Bytes)
      requires Valid()
      modifies this`pendingBinaryRid, this`calls
      ensures Valid() && View() == Route(old(View()), Binary(data))
      ensures pendingBinaryRid == None
      ensures var rid := old(pendingBinaryRid);
        if rid.Some? && rid.value in streamHandlers then calls == old(calls)[rid.value := old(calls)[rid.value] + [Chunk(data)]]
        else calls == old(calls)
    {
      var rid := pendingBinaryRid;
      pendingBinaryRid := None;
      if rid.Some? && rid.value in streamHandlers {
        calls := calls[rid.value := calls[rid.value] + [Chunk(data)]];
      }
    }

    /** Completes every pending call and ends every handler, once each. */
    method OnConnectionLost(reason: string)
      requires Valid()
      modifies this
      ensures Valid() && pendingUnary == {} && streamHandlers == {}
      ensures completed == old(completed) + map rid | rid in old(pendingUnary) :: Lost(reason)
      ensures calls == old(calls) + map rid | rid in old(streamHandlers) :: old(calls)[rid] + [Note(reason)]
      ensures pendingBinaryRid == old(pendingBinaryRid)
    {
      CompleteAll(reason);
      EndAll(reason);
    }

    method CompleteAll(reason: string)
      requires Valid()
      modifies this`pendingUnary, this`completed
      ensures Valid() && pendingUnary == {}
      ensures completed == old(completed) + map rid | rid in old(pendingUnary) :: Lost(reason)
    {
      var waiting := pendingUnary;
      pendingUnary := {};
      while waiting != {}
        invariant waiting <= old(pendingUnary) && pendingUnary == {}
        invariant completed.Keys == old(completed).Keys + (old(pendingUnary) - waiting)
        invariant forall rid :: rid in completed ==>
          completed[rid] == if rid in old(pendingUnary) then Lost(reason) else old(completed)[rid]
      {
        var rid :| rid in waiting;
        completed := completed[rid := Lost(reason)];
        waiting := waiting - {rid};
      }
    }

    method EndAll(reason: string)
      requires Valid()
      modifies this`streamHandlers, this`calls
      ensures Valid() && streamHandlers == {}
      ensures calls == old(calls) + map rid | rid in old(streamHandlers) :: old(calls)[rid] + [Note(reason)]
    {
      var handlers := streamHandlers;
      streamHandlers := {};
      while handlers != {}
        invariant handlers <= old(streamHandlers) && streamHandlers == {}
        invariant calls.Keys == old(calls).Keys
        invariant forall rid :: rid in calls ==>
          calls[rid] == if rid in old(streamHandlers) && rid !in handlers then old(calls)[rid] + [Note(reason)] else old(calls)[rid]
      {
        var rid :| rid in handlers;
        calls := calls[rid := calls[rid] + [Note(reason)]];
        handlers := handlers - {rid};
      }
    }
  }
}

/**
 The life of the calls made over one agent connection: request() and stream() enter a
 table, incoming frames and close_pending settle or feed them, and their finally clauses
 leave the table again, in any interleaving.
 */
module CallLifecycle {
  import opened Prelude
  import opened StreamRouting
  import opened AgentConnection

  /**
   routed is everything put in a stream's queue since stream() opened it, taken how much its
   consumer has taken, yielded what stream() has yielded; active until the finally clause ran.
   */
  datatype Call =
    | Unary(active: bool)
    | Streaming(active: bool, routed: seq<Entry>, taken: nat, yielded: seq<Message>)

  datatype Sys = Sys(conn: Conn, calls: map<Rid, Call>)

  /** Expire is the timeout of a request, Resume the consumer asking stream() for more. */
  datatype Event =
    | StartRequest(rid: Rid)
    | StartStream(rid: Rid)
    | TextFrame(msg: Message)
    | BinaryFrame(data: Bytes)
    | Shutdown(error: string)
    | Expire(rid: Rid)
    | EndRequest(rid: Rid)
    | Resume(rid: Rid)
    | EndStream(rid: Rid)

  const FRESH := Sys(Conn(map[], map[], None, false, None), map[])

  predicate IsTerminal(e: Entry) {
    e.Stop? || (e.msg.Response? && !e.msg.ok) || e.msg.StreamEnd?
  }

  /** What stream() yields for a sequence of queue entries. */
  function StreamView(es: seq<Entry>): seq<Message> {
    if es == [] || es[0].Stop? || (es[0].msg.Response? && !es[0].msg.ok) then []
    else [es[0].msg] + (if es[0].msg.StreamEnd? then [] else StreamView(es[1..]))
  }

  /** The consumer has taken a terminal entry: stream() is over the next time it runs. */
  predicate Over(call: Call)
    requires call.Streaming?
  {
    0 < call.taken <= |call.routed| && IsTerminal(call.routed[call.taken - 1])
  }

  predicate ActiveStream(s: Sys, rid: Rid) {
    rid in s.calls && s.calls[rid].Streaming? && s.calls[rid].active
  }

  predicate Enabled(s: Sys, e: Event) {
    match e
    case StartRequest(rid) => rid !in s.calls
    case StartStream(rid) => rid !in s.calls
    case Expire(rid) => rid in s.conn.unary && s.conn.unary[rid] == Waiting
    case EndRequest(rid) => rid in s.calls && s.calls[rid].Unary? && s.calls[rid].active
    case Resume(rid) => ActiveStream(s, rid) && rid in s.conn.streams && (Over(s.calls[rid]) || s.conn.streams[rid] != [])
    case EndStream(rid) => ActiveStream(s, rid)
    case _ => true
  }

  /** A stream's history, extended by what its queue gained. */
  function Extended(call: Call, rid: Rid, before: map<Rid, seq<Entry>>, now: map<Rid, seq<Entry>>): Call {
    if call.Streaming? && rid in before && rid in now && |before[rid]| <= |now[rid]|
    then call.(routed := call.routed + now[rid][|before[rid]|..]) else call
  }

  /** A step of the connection, seen by the calls. */
  function Observe(s: Sys, conn: Conn): Sys {
    Sys(conn, map rid | rid in s.calls :: Extended(s.calls[rid], rid, s.conn.streams, conn.streams))
  }

  /** stream()'s finally clause. */
  function Ended(s: Sys, rid: Rid): Sys
    requires rid in s.calls
  {
    Sys(s.conn.(streams := s.conn.streams - {rid}), s.calls[rid := s.calls[rid].(active := false)])
  }

  /** stream() takes the next entry; it returns or raises at once unless the entry is yielded. */
  function Taken(s: Sys, rid: Rid): Sys
    requires ActiveStream(s, rid) && rid in s.conn.streams && s.conn.streams[rid] != []
  {
    var call, entry := s.calls[rid], s.conn.streams[rid][0];
    var s' := Sys(s.conn.(streams := s.conn.streams[rid := s.conn.streams[rid][1..]]),
                  s.calls[rid := call.(taken := call.taken + 1, yielded := call.yielded + StreamView([entry]))]);
    if IsTerminal(entry) && StreamView([entry]) == [] then Ended(s', rid) else s'
  }

  function Step(s: Sys, e: Event): Sys
    requires Enabled(s, e)
  {
    match e
    case StartRequest(rid) => Sys(s.conn.(unary := s.conn.unary[rid := Waiting]), s.calls[rid := Unary(true)])
    case StartStream(rid) => Sys(s.conn.(streams := s.conn.streams[rid := []]), s.calls[rid := Streaming(true, [], 0, [])])
    case TextFrame(m) => Observe(s, Incoming(s.conn, m))
    case BinaryFrame(data) => Observe(s, IncomingBinary(s.conn, data))
    case Shutdown(error) => Observe(s, ClosePending(s.conn, error))
    case Expire(rid) => s.(conn := s.conn.(unary := s.conn.unary[rid := Cancelled]))
    case EndRequest(rid) => Sys(s.conn.(unary := s.conn.unary - {rid}), s.calls[rid := Unary(false)])
    case Resume(rid) => if Over(s.calls[rid]) then Ended(s, rid) else Taken(s, rid)
    case EndStream(rid) => Ended(s, rid)
  }

  predicate Valid(s: Sys, es: seq<Event>)
    decreases es
  {
    es != [] ==> Enabled(s, es[0]) && Valid(Step(s, es[0]), es[1..])
  }

  function Run(s: Sys, es: seq<Event>): Sys
    requires Valid(s, es)
    decreases es
  {
    if es == [] then s else Run(Step(s, es[0]), es[1..])
  }

  // ----- what every event keeps -----

  predicate NothingTerminal(es: seq<Entry>) {
    forall i :: 0 <= i < |es| ==> !IsTerminal(es[i])
  }

  ghost predicate CallInv(s: Sys, rid: Rid) {
    && (rid in s.conn.unary <==> rid in s.calls && s.calls[rid] == Unary(true))
    && (rid in s.conn.streams <==> ActiveStream(s, rid))
    && (rid in s.calls && s.calls[rid].Streaming? ==>
          var Streaming(active, routed, taken, yielded) := s.calls[rid];
          && taken <= |routed|
          && (active ==> s.conn.streams[rid] == routed[taken..])
          && (taken > 0 ==> NothingTerminal(routed[..taken - 1]))
          && yielded == StreamView(routed[..taken]))
  }

  ghost predicate Inv(s: Sys) {
    forall rid :: CallInv(s, rid)
  }

  lemma {:induction false} ViewAppend(es: seq<Entry>, e: Entry)
    requires NothingTerminal(es)
    ensures StreamView(es + [e]) == StreamView(es) + StreamView([e])
  {
    if es == [] {
      assert es + [e] == [e];
    } else {
      assert !IsTerminal(es[0]);
      assert (es + [e])[1..] == es[1..] + [e];
      ViewAppend(es[1..], e);
    }
  }

  /** Whatever is routed after a terminal entry is never seen. */
  lemma {:induction false} ViewStopsAtTerminal(es: seq<Entry>, more: seq<Entry>)
    requires es != [] && IsTerminal(es[|es| - 1])
    ensures StreamView(es + more) == StreamView(es)
  {
    assert (es + more)[1..] == es[1..] + more;
    if |es| > 1 {
      assert IsTerminal(es[1..][|es| - 2]);
      ViewStopsAtTerminal(es[1..], more);
    }
  }

  /** What has been yielded is the front of what will ever be yielded. */
  lemma {:induction false} ViewGrows(es: seq<Entry>, more: seq<Entry>)
    ensures StreamView(es) <= StreamView(es + more)
  {
    if es != [] {
      assert (es + more)[1..] == es[1..] + more;
      ViewGrows(es[1..], more);
    }
  }

  /** Settling futures and appending to queues keeps every call's bookkeeping. */
  lemma ObserveKeeps(s: Sys, conn: Conn, rid: Rid)
    requires CallInv(s, rid)
    requires conn.unary.Keys == s.conn.unary.Keys && conn.streams.Keys == s.conn.streams.Keys
    requires rid in s.conn.streams ==> s.conn.streams[rid] <= conn.streams[rid]
    ensures CallInv(Observe(s, conn), rid)
  {
    var s' := Observe(s, conn);
    if rid in s.calls && s.calls[rid].Streaming? {
      var Streaming(active, routed, taken, yielded) := s.calls[rid];
      if active {
        var more := conn.streams[rid][|s.conn.streams[rid]|..];
        assert s'.calls[rid].routed == routed + more;
        assert (routed + more)[..taken] == routed[..taken];
        assert (routed + more)[taken..] == routed[taken..] + more;
        if taken > 0 { assert (routed + more)[..taken - 1] == routed[..taken - 1]; }
      }
    }
  }

  lemma IncomingGrows(c: Conn, m: Message)
    ensures Incoming(c, m).unary.Keys == c.unary.Keys && Incoming(c, m).streams.Keys == c.streams.Keys
    ensures forall rid :: rid in c.streams ==> c.streams[rid] <= Incoming(c, m).streams[rid]
  {
  }

  /** One entry more, when none before was terminal. */
  lemma ViewOfNext(routed: seq<Entry>, taken: nat)
    requires taken < |routed| && NothingTerminal(routed[..taken])
    ensures routed[taken..] == [routed[taken]] + routed[taken + 1..]
    ensures StreamView(routed[..taken + 1]) == StreamView(routed[..taken]) + StreamView([routed[taken]])
  {
    ViewAppend(routed[..taken], routed[taken]);
    assert routed[..taken + 1] == routed[..taken] + [routed[taken]];
  }

  lemma TakenElsewhere(s: Sys, rid: Rid, r: Rid)
    requires r != rid && CallInv(s, r) && Enabled(s, Resume(rid)) && !Over(s.calls[rid])
    ensures CallInv(Taken(s, rid), r)
  {
    hide StreamView, IsTerminal, NothingTerminal, Over;
  }

  lemma TakenHere(s: Sys, rid: Rid)
    requires CallInv(s, rid) && Enabled(s, Resume(rid)) && !Over(s.calls[rid])
    ensures CallInv(Taken(s, rid), rid)
  {
    var call := s.calls[rid];
    assert NothingTerminal(call.routed[..call.taken]);
    var s', q := Taken(s, rid), s.conn.streams[rid];
    hide StreamView, IsTerminal, NothingTerminal, Over;
    ViewOfNext(call.routed, call.taken);
    assert q == call.routed[call.taken..] && q[0] == call.routed[call.taken] && q[1..] == call.routed[call.taken + 1..];
    assert s'.calls[rid].routed == call.routed && s'.calls[rid].taken == call.taken + 1;
    assert s'.calls[rid].yielded == StreamView(call.routed[..call.taken + 1]);
  }

  lemma StepKeepsInv(s: Sys, e: Event)
    requires Inv(s) && Enabled(s, e)
    ensures Inv(Step(s, e))
  {
    forall r
      ensures CallInv(Step(s, e), r)
    {
      assert CallInv(s, r);
      match e
      case TextFrame(m) => IncomingGrows(s.conn, m); ObserveKeeps(s, Incoming(s.conn, m), r);
      case BinaryFrame(data) => ObserveKeeps(s, IncomingBinary(s.conn, data), r);
      case Shutdown(error) => ObserveKeeps(s, ClosePending(s.conn, error), r);
      case Resume(rid) =>
        assert CallInv(s, rid);
        if !Over(s.calls[rid]) { if r == rid { TakenHere(s, rid); } else { TakenElsewhere(s, rid, r); } }
      case _ =>
    }
  }

  lemma {:induction false} RunKeepsInv(s: Sys, es: seq<Event>)
    requires Inv(s) && Valid(s, es)
    ensures Inv(Run(s, es))
    decreases es
  {
    if es != [] {
      StepKeepsInv(s, es[0]);
      RunKeepsInv(Step(s, es[0]), es[1..]);
    }
  }

  // ----- the promises -----

  /** At every moment the two tables hold exactly the calls in flight. */
  lemma TablesHoldCallsInFlight(es: seq<Event>)
    requires Valid(FRESH, es)
    ensures var s := Run(FRESH, es);
      && s.conn.unary.Keys == (set rid | rid in s.calls && s.calls[rid] == Unary(true))
      && s.conn.streams.Keys == set rid | rid in s.calls && ActiveStream(s, rid)
  {
    RunKeepsInv(FRESH, es);
    var s := Run(FRESH, es);
    forall rid
      ensures rid in s.conn.unary <==> rid in s.calls && s.calls[rid] == Unary(true)
      ensures rid in s.conn.streams <==> ActiveStream(s, rid)
    {
      assert CallInv(s, rid);
    }
  }

  /** A settled future never changes again. */
  lemma {:induction false} FutureSettlesOnce(s: Sys, es: seq<Event>, rid: Rid)
    requires Inv(s) && Valid(s, es) && rid in s.conn.unary && s.conn.unary[rid] != Waiting
    ensures rid in Run(s, es).conn.unary ==> Run(s, es).conn.unary[rid] == s.conn.unary[rid]
    decreases es
  {
    if es != [] {
      assert CallInv(s, rid);
      StepKeepsInv(s, es[0]);
      var s' := Step(s, es[0]);
      if rid in s'.conn.unary {
        FutureSettlesOnce(s', es[1..], rid);
      } else {
        assert rid in s'.calls;
        GoneStaysGone(s', es[1..], rid);
      }
    }
  }

  lemma {:induction false} GoneStaysGone(s: Sys, es: seq<Event>, rid: Rid)
    requires Inv(s) && Valid(s, es) && rid in s.calls && rid !in s.conn.unary
    ensures rid !in Run(s, es).conn.unary
    decreases es
  {
    if es != [] {
      assert CallInv(s, rid);
      StepKeepsInv(s, es[0]);
      GoneStaysGone(Step(s, es[0]), es[1..], rid);
    }
  }

  /** close_pending settles every call in flight and only those: futures still waiting fail, settled ones keep their result. */
  lemma ShutdownSettlesEveryCall(s: Sys, error: string, rid: Rid)
    requires Inv(s)
    ensures var s' := Step(s, Shutdown(error));
      && (rid in s.calls && s.calls[rid] == Unary(true) ==>
            rid in s'.conn.unary && s'.conn.unary[rid] == if s.conn.unary[rid] == Waiting then Failed(error) else s.conn.unary[rid])
      && (ActiveStream(s, rid) ==> ActiveStream(s', rid) && s'.calls[rid].routed == s.calls[rid].routed + [Stop])
  {
    assert CallInv(s, rid);
  }

  /** What ends the wait of a request: its answer, its timeout, its end, or a close. */
  predicate EndsWait(e: Event, rid: Rid) {
    match e
    case TextFrame(m) => m.Response? && m.id == Some(rid)
    case Expire(r) => r == rid
    case EndRequest(r) => r == rid
    case Shutdown(_) => true
    case _ => false
  }

  predicate Waits(s: Sys, rid: Rid) {
    rid in s.conn.unary && s.conn.unary[rid] == Waiting
  }

  lemma WaitsUntil(s: Sys, e: Event, rid: Rid)
    requires Inv(s) && Enabled(s, e) && rid in s.calls
    ensures rid in Step(s, e).calls
    ensures Waits(Step(s, e), rid) <==> Waits(s, rid) && !EndsWait(e, rid)
  {
    assert CallInv(s, rid);
  }

  /** A request waits as long as, and no longer than, none of these events has happened. */
  lemma {:induction false} WaitsIff(s: Sys, es: seq<Event>, rid: Rid)
    requires Inv(s) && Valid(s, es) && rid in s.calls
    ensures Waits(Run(s, es), rid) <==> Waits(s, rid) && forall i :: 0 <= i < |es| ==> !EndsWait(es[i], rid)
    decreases es
  {
    if es != [] {
      StepKeepsInv(s, es[0]);
      WaitsUntil(s, es[0], rid);
      WaitsIff(Step(s, es[0]), es[1..], rid);
      hide Inv, Step, Run, Waits, EndsWait, Enabled;
      assert (forall i :: 0 <= i < |es| ==> !EndsWait(es[i], rid)) <==>
        !EndsWait(es[0], rid) && forall i :: 0 <= i < |es[1..]| ==> !EndsWait(es[1..][i], rid);
    }
  }

  /**
   The close that happened before a request was made never ends its wait: the request is accepted
   on the closed connection, and waits in every continuation exactly until its answer, its timeout,
   its end or a further close.
   */
  lemma RequestAfterShutdownWaits(s: Sys, rid: Rid, es: seq<Event>)
    requires Inv(s) && s.conn.closed && rid !in s.calls && Valid(Step(s, StartRequest(rid)), es)
    ensures Waits(Run(Step(s, StartRequest(rid)), es), rid) <==> forall i :: 0 <= i < |es| ==> !EndsWait(es[i], rid)
  {
    StepKeepsInv(s, StartRequest(rid));
    WaitsIff(Step(s, StartRequest(rid)), es, rid);
  }

  /** A consumer has always been given the front of its stream, and when stream() is over, all of it. */
  lemma ConsumerSeesItsStream(es: seq<Event>, rid: Rid)
    requires Valid(FRESH, es) && rid in Run(FRESH, es).calls && Run(FRESH, es).calls[rid].Streaming?
    ensures var call := Run(FRESH, es).calls[rid];
      && call.yielded <= StreamView(call.routed)
      && (Over(call) ==> call.yielded == StreamView(call.routed))
  {
    RunKeepsInv(FRESH, es);
    assert CallInv(Run(FRESH, es), rid);
    var call := Run(FRESH, es).calls[rid];
    ViewOfTaken(call.routed, call.taken);
  }

  /** Taking entries shows the front of the stream, and all of it once a terminal entry was taken. */
  lemma ViewOfTaken(routed: seq<Entry>, taken: nat)
    requires taken <= |routed|
    ensures StreamView(routed[..taken]) <= StreamView(routed)
    ensures taken > 0 && IsTerminal(routed[taken - 1]) ==> StreamView(routed[..taken]) == StreamView(routed)
  {
    var front, rest := routed[..taken], routed[taken..];
    assert routed == front + rest;
    hide StreamView;
    ViewGrows(front, rest);
    if taken > 0 && IsTerminal(routed[taken - 1]) {
      assert front[|front| - 1] == routed[taken - 1];
      ViewStopsAtTerminal(front, rest);
    }
  }

  /** Histories only grow. */
  lemma {:induction false} RoutedGrows(s: Sys, es: seq<Event>, rid: Rid)
    requires Valid(s, es) && rid in s.calls && s.calls[rid].Streaming?
    ensures rid in Run(s, es).calls && Run(s, es).calls[rid].Streaming?
    ensures s.calls[rid].routed <= Run(s, es).calls[rid].routed
    decreases es
  {
    if es != [] {
      RoutedGrows(Step(s, es[0]), es[1..], rid);
    }
  }

  /**
   After a close, whatever still happens, a stream's consumer gets nothing but frames routed
   before the close, and never waits again: it can resume until stream() has returned.
   */
  lemma CloseEndsEveryStream(s: Sys, error: string, es: seq<Event>, rid: Rid)
    requires Inv(s) && ActiveStream(s, rid) && Valid(Step(s, Shutdown(error)), es)
    ensures var s' := Run(Step(s, Shutdown(error)), es);
      && rid in s'.calls && s'.calls[rid].Streaming?
      && s'.calls[rid].yielded <= StreamView(s.calls[rid].routed)
      && (Over(s'.calls[rid]) ==> s'.calls[rid].yielded == StreamView(s.calls[rid].routed))
      && (s'.calls[rid].active ==> Enabled(s', Resume(rid)))
  {
    var s1 := Step(s, Shutdown(error));
    ShutdownSettlesEveryCall(s, error, rid);
    StepKeepsInv(s, Shutdown(error));
    RunKeepsInv(s1, es);
    RoutedGrows(s1, es, rid);
    var s' := Run(s1, es);
    assert CallInv(s', rid);
    hide Step, Enabled, Valid, Run, StreamView, Inv, IsTerminal;
    var call, before := s'.calls[rid], s.calls[rid].routed;
    ViewOfTaken(call.routed, call.taken);
    ViewAfterClose(before, call.routed, call.taken);
    if call.active { ResumesAfterClose(s', rid, |before|); }
  }

  /** With a Stop among what was routed, a running consumer always has something to take. */
  lemma ResumesAfterClose(s: Sys, rid: Rid, at: nat)
    requires CallInv(s, rid) && ActiveStream(s, rid)
    requires at < |s.calls[rid].routed| && s.calls[rid].routed[at] == Stop
    ensures Enabled(s, Resume(rid))
  {
    var call := s.calls[rid];
    assert forall i :: 0 <= i < call.taken - 1 ==> call.routed[..call.taken - 1][i] == call.routed[i];
  }

  lemma ViewAfterClose(before: seq<Entry>, routed: seq<Entry>, taken: nat)
    requires before + [Stop] <= routed && taken <= |routed|
    ensures StreamView(routed) == StreamView(before) && StreamView(routed[..taken]) <= StreamView(before)
    ensures |before| < |routed| && routed[|before|] == Stop
  {
    var closed := before + [Stop];
    assert routed == closed + routed[|closed|..];
    ViewStopsAtTerminal(closed, routed[|closed|..]);
    ViewBeforeStop(before);
    assert routed == routed[..taken] + routed[taken..];
    ViewGrows(routed[..taken], routed[taken..]);
    assert closed[|before|] == Stop;
  }

  lemma {:induction false} ViewBeforeStop(es: seq<Entry>)
    ensures StreamView(es + [Stop]) == StreamView(es)
  {
    if es != [] {
      assert (es + [Stop])[1..] == es[1..] + [Stop];
      ViewBeforeStop(es[1..]);
    }
  }

  // ----- this receiver and the shared routing -----

  function ItemOf(e: Entry): Item {
    match e
    case Got(StreamStart(_)) => Start
    case Got(StreamChunk(_, data)) => Chunk(data)
    case Got(StreamEnd(_)) => End
    case _ => Note("")
  }

  function ItemsOfEntries(es: seq<Entry>): seq<Item> {
    seq(|es|, i requires 0 <= i < |es| => ItemOf(es[i]))
  }

  /** The open streams with everything put in their queues, as the shared routing sees them. */
  function RouterOf(s: Sys): Router
    requires s.conn.streams.Keys <= s.calls.Keys
    requires forall rid :: rid in s.conn.streams ==> s.calls[rid].Streaming?
  {
    Router(s.conn.slot, map rid | rid in s.conn.streams :: ItemsOfEntries(s.calls[rid].routed))
  }

  /** What a text message is to the streams. */
  function FrameOf(c: Conn, m: Message): Frame {
    match m
    case DirectInfo(_, _, _) => Other
    case ChunkHeader(Some(rid)) => Header(rid)
    case Response(Some(rid), _, _) =>
      if rid in c.unary && c.unary[rid] == Waiting then Other else Text(rid, ItemOf(Got(m)))
    case _ => if m.id.Some? then Text(m.id.value, ItemOf(Got(m))) else Other
  }

  lemma StreamsAreCalls(s: Sys)
    requires Inv(s)
    ensures s.conn.streams.Keys <= s.calls.Keys
    ensures forall rid :: rid in s.conn.streams ==> s.calls[rid].Streaming?
  {
    forall rid | rid in s.conn.streams
      ensures rid in s.calls && s.calls[rid].Streaming?
    {
      assert CallInv(s, rid);
    }
  }

  /** The frame an event of the socket is. */
  function EventFrame(c: Conn, e: Event): Frame
    requires e.BinaryFrame? || e.TextFrame?
  {
    if e.TextFrame? then FrameOf(c, e.msg) else Binary(e.data)
  }

  /** The entry an event of the socket puts in a queue. */
  function Gain(c: Conn, e: Event, rid: Rid): seq<Entry>
    requires e.BinaryFrame? || e.TextFrame?
  {
    if e.BinaryFrame? then (if c.slot == Some(rid) then [Got(StreamChunk(c.slot, e.data))] else [])
    else match e.msg
      case DirectInfo(_, _, _) => []
      case ChunkHeader(_) => []
      case Response(id, _, _) =>
        if id == Some(rid) && !(rid in c.unary && c.unary[rid] == Waiting) then [Got(e.msg)] else []
      case _ => if e.msg.id == Some(rid) then [Got(e.msg)] else []
  }

  lemma QueueGains(c: Conn, e: Event, rid: Rid)
    requires (e.BinaryFrame? || e.TextFrame?) && rid in c.streams
    ensures var now := if e.TextFrame? then Incoming(c, e.msg) else IncomingBinary(c, e.data);
      rid in now.streams && now.streams[rid] == c.streams[rid] + Gain(c, e, rid)
  {
    assert c.streams[rid] + [] == c.streams[rid];
  }

  lemma GainMatches(c: Conn, e: Event, rid: Rid)
    requires e.BinaryFrame? || e.TextFrame?
    ensures var out, gain := Completes(c.slot, EventFrame(c, e)), Gain(c, e, rid);
      if out != [] && out[0].0 == rid then |gain| == 1 && ItemOf(gain[0]) == out[0].1 else gain == []
  {
  }

  lemma GainIsCompleted(c: Conn, e: Event, rid: Rid)
    requires e.BinaryFrame? || e.TextFrame?
    ensures ItemsOfEntries(Gain(c, e, rid)) == Project(Completes(c.slot, EventFrame(c, e)), rid)
  {
    GainMatches(c, e, rid);
    CompletesProject(c.slot, EventFrame(c, e), rid);
    hide Gain, Completes, EventFrame, Project, ItemOf;
  }

  /** Every event of the socket adds to a queue what its frame completes for that stream. */
  lemma QueueGainsItsItems(c: Conn, e: Event, rid: Rid)
    requires e.BinaryFrame? || e.TextFrame?
    requires rid in c.streams
    ensures var now := if e.TextFrame? then Incoming(c, e.msg) else IncomingBinary(c, e.data);
      && rid in now.streams && c.streams[rid] <= now.streams[rid]
      && ItemsOfEntries(now.streams[rid][|c.streams[rid]|..]) == Project(Completes(c.slot, EventFrame(c, e)), rid)
  {
    QueueGains(c, e, rid);
    GainIsCompleted(c, e, rid);
    hide *;
    var gain := Gain(c, e, rid);
    assert (c.streams[rid] + gain)[|c.streams[rid]|..] == gain;
  }

  lemma SlotFollowsFrames(c: Conn, e: Event)
    requires e.BinaryFrame? || (e.TextFrame? && !(e.msg.ChunkHeader? && e.msg.id == None))
    ensures var now := if e.TextFrame? then Incoming(c, e.msg) else IncomingBinary(c, e.data);
      now.streams.Keys == c.streams.Keys && now.slot == Route(Router(c.slot, map[]), EventFrame(c, e)).slot
  {
  }

  lemma RouteParts(r: Router, f: Frame)
    ensures Route(r, f).slot == Route(Router(r.slot, map[]), f).slot && Route(r, f).queues.Keys == r.queues.Keys
  {
  }

  lemma ItemsOfEntriesJoin(a: seq<Entry>, b: seq<Entry>)
    ensures ItemsOfEntries(a + b) == ItemsOfEntries(a) + ItemsOfEntries(b)
  {
  }

  /** handle_incoming and handle_incoming_binary route exactly as StreamRouting.Route does. */
  lemma HubRoutesFrames(s: Sys, e: Event)
    requires Inv(s) && (e.BinaryFrame? || (e.TextFrame? && !(e.msg.ChunkHeader? && e.msg.id == None)))
    ensures s.conn.streams.Keys <= s.calls.Keys && forall rid :: rid in s.conn.streams ==> s.calls[rid].Streaming?
    ensures var s' := Step(s, e);
      && s'.conn.streams.Keys <= s'.calls.Keys && (forall rid :: rid in s'.conn.streams ==> s'.calls[rid].Streaming?)
      && RouterOf(s') == Route(RouterOf(s), EventFrame(s.conn, e))
  {
    var s', f := Step(s, e), EventFrame(s.conn, e);
    StepKeepsInv(s, e);
    StreamsAreCalls(s);
    StreamsAreCalls(s');
    var r, r' := RouterOf(s), RouterOf(s');
    SlotFollowsFrames(s.conn, e);
    RouteParts(r, f);
    hide Inv, Incoming, IncomingBinary, FrameOf, Route, Completes, Project, ItemsOfEntries;
    forall rid | rid in r.queues
      ensures r'.queues[rid] == Route(r, f).queues[rid]
    {
      QueueGainsItsItems(s.conn, e, rid);
      RouteAdds(r, f, rid);
      var before, now := s.conn.streams[rid], s'.conn.streams[rid];
      ItemsOfEntriesJoin(s.calls[rid].routed, now[|before|..]);
    }
    assert r'.queues.Keys == r.queues.Keys;
    assert r'.queues == Route(r, f).queues;
  }
}

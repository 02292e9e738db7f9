/**
 What the callers of one connection get: the value request() is answered with, the messages
 stream() yields and the bytes they carry, each named by the events and queue entries themselves.
 */
module CallResults {
  import opened Prelude
  import opened StreamRouting
  import opened AgentConnection
  import opened CallLifecycle

  // ----- the answer of a request -----

  lemma AnswerArrives(s: Sys, m: Message, rid: Rid)
    requires Inv(s) && Waits(s, rid) && m.Response? && m.id == Some(rid)
    ensures var s' := Step(s, TextFrame(m)); rid in s'.conn.unary && s'.conn.unary[rid] == Resolved(m)
  {
  }

  /** Whatever else ends the wait leaves no answer. */
  lemma OtherEndings(s: Sys, e: Event, rid: Rid)
    requires Inv(s) && Enabled(s, e) && Waits(s, rid) && EndsWait(e, rid) && !e.TextFrame?
    ensures rid in Step(s, e).conn.unary ==> !Step(s, e).conn.unary[rid].Waiting? && !Step(s, e).conn.unary[rid].Resolved?
  {
  }

  /** A settled or ended request keeps what it has. */
  lemma StaysAsItIs(s: Sys, es: seq<Event>, rid: Rid)
    requires Inv(s) && Valid(s, es) && rid in s.calls && !Waits(s, rid)
    ensures rid in Run(s, es).conn.unary ==> rid in s.conn.unary && Run(s, es).conn.unary[rid] == s.conn.unary[rid]
  {
    if rid in s.conn.unary { FutureSettlesOnce(s, es, rid); } else { GoneStaysGone(s, es, rid); }
  }

  lemma {:induction false} ResolvedSince(s: Sys, es: seq<Event>, rid: Rid) returns (j: nat)
    requires Inv(s) && Valid(s, es) && Waits(s, rid) && rid in s.calls
    requires rid in Run(s, es).conn.unary && Run(s, es).conn.unary[rid].Resolved?
    ensures j < |es| && es[j].TextFrame? && es[j].msg.Response? && es[j].msg.id == Some(rid)
    ensures Run(s, es).conn.unary[rid] == Resolved(es[j].msg)
    ensures forall k :: 0 <= k < j ==> !(es[k].TextFrame? && es[k].msg.Response? && es[k].msg.id == Some(rid))
    decreases es
  {
    var e, s' := es[0], Step(s, es[0]);
    StepKeepsInv(s, e);
    WaitsUntil(s, e, rid);
    if !EndsWait(e, rid) {
      j := ResolvedSince(s', es[1..], rid);
      j := j + 1;
    } else {
      StaysAsItIs(s', es[1..], rid);
      j := 0;
      if e.TextFrame? { AnswerArrives(s, e.msg, rid); } else { OtherEndings(s, e, rid); }
    }
  }

  /**
   The answer a request is resolved with is the first response bearing its rid since it was made,
   unchanged: event i made the request and event j is that response.
   */
  lemma {:induction false} ResolvedByItsAnswer(s: Sys, es: seq<Event>, rid: Rid) returns (i: nat, j: nat)
    requires Inv(s) && Valid(s, es) && rid !in s.calls
    requires rid in Run(s, es).conn.unary && Run(s, es).conn.unary[rid].Resolved?
    ensures i < j < |es| && es[i] == StartRequest(rid)
    ensures es[j].TextFrame? && es[j].msg.Response? && es[j].msg.id == Some(rid)
    ensures Run(s, es).conn.unary[rid] == Resolved(es[j].msg)
    ensures forall k :: i < k < j ==> !(es[k].TextFrame? && es[k].msg.Response? && es[k].msg.id == Some(rid))
    decreases es
  {
    assert CallInv(s, rid);
    var e, s' := es[0], Step(s, es[0]);
    StepKeepsInv(s, e);
    if e == StartRequest(rid) {
      j := ResolvedSince(s', es[1..], rid);
      i, j := 0, j + 1;
    } else if e == StartStream(rid) {
      assert CallInv(s', rid);
      GoneStaysGone(s', es[1..], rid);
      assert false;
    } else {
      i, j := ResolvedByItsAnswer(s', es[1..], rid);
      i, j := i + 1, j + 1;
    }
  }

  /** From any state in which a request waits, its response leaves exactly that response, until the request ends. */
  lemma AnswerIsKept(s: Sys, ok: bool, body: string, es: seq<Event>, rid: Rid)
    requires Inv(s) && Waits(s, rid) && Valid(Step(s, TextFrame(Response(Some(rid), ok, body))), es)
    requires forall k :: 0 <= k < |es| ==> es[k] != EndRequest(rid)
    ensures var s' := Run(Step(s, TextFrame(Response(Some(rid), ok, body))), es);
      rid in s'.conn.unary && s'.conn.unary[rid] == Resolved(Response(Some(rid), ok, body))
  {
    var m := Response(Some(rid), ok, body);
    assert CallInv(s, rid);
    AnswerArrives(s, m, rid);
    StepKeepsInv(s, TextFrame(m));
    NotEndedStays(Step(s, TextFrame(m)), es, rid);
    FutureSettlesOnce(Step(s, TextFrame(m)), es, rid);
  }

  lemma {:induction false} NotEndedStays(s: Sys, es: seq<Event>, rid: Rid)
    requires Inv(s) && Valid(s, es) && rid in s.conn.unary && forall k :: 0 <= k < |es| ==> es[k] != EndRequest(rid)
    ensures rid in Run(s, es).conn.unary
    decreases es
  {
    if es != [] {
      assert CallInv(s, rid);
      StepKeepsInv(s, es[0]);
      StaysListed(s, es[0], rid);
      NotEndedStays(Step(s, es[0]), es[1..], rid);
    }
  }

  lemma StaysListed(s: Sys, e: Event, rid: Rid)
    requires Enabled(s, e) && rid in s.conn.unary && e != EndRequest(rid)
    ensures rid in Step(s, e).conn.unary
  {
  }

  // ----- what stream() yields -----

  /** Entries of which only the last can end the stream are yielded one by one, the last unless it is a stop or an error. */
  lemma {:induction false} ViewIsEntries(es: seq<Entry>)
    requires forall i :: 0 <= i < |es| - 1 ==> !IsTerminal(es[i])
    ensures var silent := es != [] && (es[|es| - 1].Stop? || (es[|es| - 1].msg.Response? && !es[|es| - 1].msg.ok));
      |StreamView(es)| == |es| - (if silent then 1 else 0)
    ensures forall i :: 0 <= i < |StreamView(es)| ==> es[i].Got? && StreamView(es)[i] == es[i].msg
    decreases es
  {
    if |es| == 1 {
      assert es[1..] == [];
    } else if |es| > 1 {
      var rest := es[1..];
      assert !IsTerminal(es[0]);
      assert forall i :: 0 <= i < |rest| ==> rest[i] == es[i + 1];
      ViewIsEntries(rest);
      assert StreamView(es) == [es[0].msg] + StreamView(rest);
    }
  }

  /**
   Over every run: a stream's consumer has been yielded, message by message, the entries routed to
   it in order; exactly as many as were taken, the last not counted if it was the stop of a close or
   an error response; and before the last one taken there was no stop, error response or stream_end.
   */
  lemma YieldsWhatWasRouted(es: seq<Event>, rid: Rid)
    requires Valid(FRESH, es) && rid in Run(FRESH, es).calls && Run(FRESH, es).calls[rid].Streaming?
    ensures var Streaming(_, routed, taken, yielded) := Run(FRESH, es).calls[rid];
      && taken <= |routed|
      && |yielded| == taken - (if taken > 0 && (routed[taken - 1].Stop? || (routed[taken - 1].msg.Response? && !routed[taken - 1].msg.ok)) then 1 else 0)
      && (forall i :: 0 <= i < |yielded| ==> routed[i].Got? && yielded[i] == routed[i].msg)
      && (forall i :: 0 <= i < taken - 1 ==>
            routed[i].Got? && !(routed[i].msg.Response? && !routed[i].msg.ok) && !routed[i].msg.StreamEnd?)
  {
    RunKeepsInv(FRESH, es);
    assert CallInv(Run(FRESH, es), rid);
    var call := Run(FRESH, es).calls[rid];
    hide Run, Valid, StreamView;
    var front := call.routed[..call.taken];
    assert forall i :: 0 <= i < call.taken - 1 ==> front[i] == call.routed[..call.taken - 1][i] && front[i] == call.routed[i];
    ViewIsEntries(front);
  }

  /** A stop, or an error response: it ends the stream without being yielded. */
  predicate Silent(e: Entry) {
    e.Stop? || (e.msg.Response? && !e.msg.ok)
  }

  /** The last entry taken ended the stream. */
  predicate HasEnded(call: Call)
    requires call.Streaming?
  {
    0 < call.taken <= |call.routed| &&
    (Silent(call.routed[call.taken - 1]) || call.routed[call.taken - 1].msg.StreamEnd?)
  }

  /**
   A running consumer can go on exactly while an entry is left to take or the last one taken ended
   the stream; in the latter case it returns, otherwise it takes the next entry, and returns at once
   if that is a stop or an error response.
   */
  lemma ResumeTakesNext(es: seq<Event>, rid: Rid)
    requires Valid(FRESH, es) && ActiveStream(Run(FRESH, es), rid)
    ensures var s := Run(FRESH, es);
      var call := s.calls[rid];
      (Enabled(s, Resume(rid)) <==> HasEnded(call) || call.taken < |call.routed|)
    ensures var s := Run(FRESH, es);
      Enabled(s, Resume(rid)) ==>
        var call, call' := s.calls[rid], Step(s, Resume(rid)).calls[rid];
        && call'.Streaming? && call'.routed == call.routed
        && (HasEnded(call) ==> call'.taken == call.taken && !call'.active)
        && (!HasEnded(call) ==> call'.taken == call.taken + 1 && (call'.active <==> !Silent(call.routed[call.taken])))
  {
    RunKeepsInv(FRESH, es);
    var s := Run(FRESH, es);
    assert CallInv(s, rid);
    hide Run, Valid;
    NextEntry(s, rid);
    if Enabled(s, Resume(rid)) { OneResume(s, rid); }
  }

  lemma OneResume(s: Sys, rid: Rid)
    requires ActiveStream(s, rid) && rid in s.conn.streams
    requires Enabled(s, Resume(rid))
    ensures var call, call', q := s.calls[rid], Step(s, Resume(rid)).calls[rid], s.conn.streams[rid];
      && call'.Streaming? && call'.routed == call.routed
      && (HasEnded(call) ==> call'.taken == call.taken && !call'.active)
      && (!HasEnded(call) ==> call'.taken == call.taken + 1 && q != [] && (call'.active <==> !Silent(q[0])))
  {
    assert Over(s.calls[rid]) <==> HasEnded(s.calls[rid]);
    if !HasEnded(s.calls[rid]) {
      var entry := s.conn.streams[rid][0];
      assert [entry][1..] == [];
      assert IsTerminal(entry) && StreamView([entry]) == [] <==> Silent(entry);
    }
    hide StreamView, IsTerminal, Silent, HasEnded, Over;
  }

  lemma NextEntry(s: Sys, rid: Rid)
    requires CallInv(s, rid) && ActiveStream(s, rid)
    ensures var call, q := s.calls[rid], s.conn.streams[rid];
      q == call.routed[call.taken..] && (q != [] <==> call.taken < |call.routed|) && (q != [] ==> q[0] == call.routed[call.taken])
  {
  }

  /** The bytes a list of messages carries: those of its chunks. */
  function BytesOf(msgs: seq<Message>): Bytes {
    if msgs == [] then []
    else (if msgs[0].StreamChunk? then msgs[0].data else []) + BytesOf(msgs[1..])
  }

  lemma {:induction false} BytesOfEntries(msgs: seq<Message>, es: seq<Entry>)
    requires |msgs| <= |es| <= |msgs| + 1
    requires forall i :: 0 <= i < |msgs| ==> es[i] == Got(msgs[i])
    requires |es| == |msgs| + 1 ==> es[|msgs|].Stop? || es[|msgs|].msg.Response?
    ensures BytesOf(msgs) == Payload(ItemsOfEntries(es))
    decreases es
  {
    if es != [] {
      var items := ItemsOfEntries(es);
      assert items[1..] == ItemsOfEntries(es[1..]);
      if msgs != [] {
        BytesOfEntries(msgs[1..], es[1..]);
      } else {
        assert es[1..] == [] && ItemsOfEntries(es[1..]) == [];
      }
    }
  }

  /** At every moment of every run the bytes yielded are the payload of the entries taken, in order and whole. */
  lemma YieldedBytesAreRouted(es: seq<Event>, rid: Rid)
    requires Valid(FRESH, es) && rid in Run(FRESH, es).calls && Run(FRESH, es).calls[rid].Streaming?
    ensures var Streaming(_, routed, taken, yielded) := Run(FRESH, es).calls[rid];
      taken <= |routed| && BytesOf(yielded) == Payload(ItemsOfEntries(routed[..taken]))
  {
    YieldsWhatWasRouted(es, rid);
    var call := Run(FRESH, es).calls[rid];
    hide Run, Valid;
    BytesOfEntries(call.yielded, call.routed[..call.taken]);
  }

  /**
   The generator that feeds a download's response: bytes of chunks are passed on, and stream_end
   ends it.
   */
  method Pump(msgs: seq<Message>) returns (out: Bytes, count: nat)
    ensures count <= |msgs| && out == BytesOf(msgs[..count])
    ensures forall i :: 0 <= i < count ==> !msgs[i].StreamEnd?
    ensures count < |msgs| ==> msgs[count].StreamEnd?
  {
    out, count := [], 0;
    while count < |msgs| && !msgs[count].StreamEnd?
      invariant count <= |msgs| && out == BytesOf(msgs[..count])
      invariant forall i :: 0 <= i < count ==> !msgs[i].StreamEnd?
    {
      BytesAppend(msgs[..count], msgs[count]);
      assert msgs[..count + 1] == msgs[..count] + [msgs[count]];
      if msgs[count].StreamChunk? { out := out + msgs[count].data; }
      count := count + 1;
    }
  }

  lemma {:induction false} BytesAppend(msgs: seq<Message>, m: Message)
    ensures BytesOf(msgs + [m]) == BytesOf(msgs) + if m.StreamChunk? then m.data else []
  {
    var last := if m.StreamChunk? then m.data else [];
    if msgs == [] {
      assert (msgs + [m])[1..] == [];
      assert last + [] == [] + last;
    } else {
      assert (msgs + [m])[1..] == msgs[1..] + [m];
      BytesAppend(msgs[1..], m);
      Associative(if msgs[0].StreamChunk? then msgs[0].data else [], BytesOf(msgs[1..]), last);
    }
  }

  // ----- the latest direct-connect advertisement -----

  /** What the connection keeps is the last advertisement it was sent. */
  lemma {:induction false} KeepsLatestDirectInfo(s: Sys, es: seq<Event>)
    requires Valid(s, es)
    ensures var info := Run(s, es).conn.directInfo;
      if exists i :: 0 <= i < |es| && es[i].TextFrame? && es[i].msg.DirectInfo?
      then exists i :: 0 <= i < |es| && es[i].TextFrame? && es[i].msg.DirectInfo? && info == Some(es[i].msg)
                       && forall k :: i < k < |es| && es[k].TextFrame? ==> !es[k].msg.DirectInfo?
      else info == s.conn.directInfo
    decreases es
  {
    if es != [] {
      var rest := es[1..];
      KeepsLatestDirectInfo(Step(s, es[0]), rest);
      assert forall i :: 0 <= i < |rest| ==> rest[i] == es[i + 1];
      DirectInfoStep(s, es[0]);
      hide Step, Run, Enabled;
      if exists i :: 0 <= i < |rest| && rest[i].TextFrame? && rest[i].msg.DirectInfo? {
        var info := Run(s, es).conn.directInfo;
        var i :| 0 <= i < |rest| && rest[i].TextFrame? && rest[i].msg.DirectInfo? && info == Some(rest[i].msg)
                 && forall k :: i < k < |rest| && rest[k].TextFrame? ==> !rest[k].msg.DirectInfo?;
        assert es[i + 1] == rest[i];
        assert forall k :: i + 1 < k < |es| ==> es[k] == rest[k - 1];
      } else if es[0].TextFrame? && es[0].msg.DirectInfo? {
        assert forall k :: 0 < k < |es| ==> es[k] == rest[k - 1];
      } else {
        assert forall k :: 0 < k < |es| ==> es[k] == rest[k - 1];
      }
    }
  }

  lemma DirectInfoStep(s: Sys, e: Event)
    requires Enabled(s, e)
    ensures Step(s, e).conn.directInfo == if e.TextFrame? && e.msg.DirectInfo? then Some(e.msg) else s.conn.directInfo
  {
  }
}

/**
 The shared socket implements one independent first-in first-out channel per stream:
 every step of the multiplexed system is one push, one pop, or nothing, of one channel.
 */
module StreamRefinement {
  import opened Prelude
  import opened StreamRouting
  import opened StreamMux

  /** The simple form: items pushed so far, and how many of them came out. */
  datatype Channel = Channel(pushed: seq<Item>, popped: nat)

  datatype Move = Idle | Push(rid: Rid, item: Item) | Pop(rid: Rid)

  /** One move, seen from one channel. */
  predicate FifoStep(c: Channel, c': Channel, rid: Rid, m: Move) {
    match m
    case Push(r, item) => c' == if r == rid then Channel(c.pushed + [item], c.popped) else c
    case Pop(r) => if r == rid then c.popped < |c.pushed| && c' == Channel(c.pushed, c.popped + 1) else c' == c
    case Idle => c' == c
  }

  function ChannelOf(s: Sys, rid: Rid): Channel
    requires s.delivered <= |s.log|
  {
    Channel(Project(s.sent, rid), |Project(Routed(s), rid)|)
  }

  function DeliveryMove(s: Sys): Move
    requires s.delivered < |s.log|
  {
    var out := Completes(s.router.slot, s.log[s.delivered]);
    if out == [] then Idle else Pop(out[0].0)
  }

  function MoveOf(s: Sys, step: Step): Move
    requires Enabled(s, step)
  {
    match step
    case Emit(tid) =>
      var task := s.tasks[tid];
      if task.todo[0].Chunk? && s.lock.phase == Fresh then Idle else Push(task.rid, task.todo[0])
    case Deliver => DeliveryMove(s)
    case _ => Idle
  }

  /** What has come out of a channel is the front of what went in. */
  lemma RoutedIsFrontOfSent(s: Sys, rid: Rid)
    requires WireInv(s)
    ensures Project(Routed(s), rid) <= Project(s.sent, rid)
  {
    ItemsOfPrefix(s.log, s.delivered);
    ProjectPrefix(Routed(s), s.sent, rid);
  }

  lemma EmitRefines(s: Sys, tid: Tid, rid: Rid)
    requires Inv(s) && Enabled(s, Emit(tid))
    ensures Apply(s, Emit(tid)).delivered <= |Apply(s, Emit(tid)).log|
    ensures FifoStep(ChannelOf(s, rid), ChannelOf(Apply(s, Emit(tid)), rid), rid, MoveOf(s, Emit(tid)))
  {
    var s', task := Apply(s, Emit(tid)), s.tasks[tid];
    assert s'.log[..s.delivered] == s.log[..s.delivered];
    if s'.sent != s.sent {
      ProjectAppend(s.sent, [(task.rid, task.todo[0])], rid);
      ProjectOne(task.rid, task.todo[0], rid);
    }
  }

  /** One more item out of a front of sent is the next item of sent. */
  lemma NextOut(before: seq<Item>, now: seq<Item>, extra: seq<Item>, sent: seq<Item>)
    requires now == before + extra && now <= sent && |extra| == 1
    ensures |before| < |sent| && extra == [sent[|before|]] && |now| == |before| + 1
  {
    assert now[|before|] == sent[|before|];
  }

  /** What the next frame completes for one stream. */
  function Extra(s: Sys, rid: Rid): seq<Item>
    requires s.delivered < |s.log|
  {
    Project(Completes(s.router.slot, s.log[s.delivered]), rid)
  }

  lemma DeliverAdds(s: Sys, rid: Rid)
    requires WireInv(s) && s.delivered < |s.log|
    ensures Project(Routed(Delivered(s)), rid) == Project(Routed(s), rid) + Extra(s, rid)
    ensures |Extra(s, rid)| <= 1 && (Extra(s, rid) != [] <==> DeliveryMove(s) == Pop(rid))
    ensures Project(Routed(Delivered(s)), rid) <= Project(s.sent, rid)
  {
    NextFrameAdds(s.log, s.delivered, rid);
    CompletesProject(s.router.slot, s.log[s.delivered], rid);
    DeliverKeepsWire(s);
    RoutedIsFrontOfSent(Delivered(s), rid);
  }

  lemma DeliverRefines(s: Sys, rid: Rid)
    requires WireInv(s) && s.delivered < |s.log|
    ensures FifoStep(ChannelOf(s, rid), ChannelOf(Delivered(s), rid), rid, DeliveryMove(s))
    ensures DeliveryMove(s) == Pop(rid) ==> Extra(s, rid) == [ChannelOf(s, rid).pushed[ChannelOf(s, rid).popped]]
    ensures DeliveryMove(s) != Pop(rid) ==> Extra(s, rid) == []
  {
    DeliverAdds(s, rid);
    assert Delivered(s).sent == s.sent && (DeliveryMove(s).Push? ==> false);
    hide Project, Routed, Extra, DeliveryMove, WireInv, Delivered;
    if Extra(s, rid) != [] {
      NextOut(Project(Routed(s), rid), Project(Routed(Delivered(s)), rid), Extra(s, rid), Project(s.sent, rid));
    }
  }

  /** Refinement: each step of the shared socket is one move of one channel and touches no other. */
  lemma StepRefinesFifo(s: Sys, step: Step, rid: Rid)
    requires Inv(s) && Enabled(s, step)
    ensures Inv(Apply(s, step))
    ensures FifoStep(ChannelOf(s, rid), ChannelOf(Apply(s, step), rid), rid, MoveOf(s, step))
  {
    StepKeepsInv(s, step);
    match step
    case Emit(tid) => EmitRefines(s, tid, rid);
    case Deliver => DeliverRefines(s, rid);
    case Chatter => assert (s.log + [Other])[..s.delivered] == s.log[..s.delivered];
    case _ =>
  }

  /** Whenever an item comes out of a channel its open queue gets that item; otherwise the queue is left alone. */
  lemma PoppedItemIsQueued(s: Sys, step: Step, rid: Rid)
    requires Inv(s) && Enabled(s, step)
    requires rid in s.router.queues && step != Close(rid)
    ensures rid in Apply(s, step).router.queues
    ensures var c := ChannelOf(s, rid);
      if MoveOf(s, step) == Pop(rid)
      then c.popped < |c.pushed| && Apply(s, step).router.queues[rid] == s.router.queues[rid] + [c.pushed[c.popped]]
      else Apply(s, step).router.queues[rid] == s.router.queues[rid]
  {
    if step.Deliver? {
      DeliverRefines(s, rid);
      RouteAdds(s.router, s.log[s.delivered], rid);
    }
  }

  /** The state reached by a run from the fresh connection. */
  ghost predicate Reachable(s: Sys) {
    exists steps :: ValidRun(INIT, steps) && Run(INIT, steps) == s
  }

  lemma ReachableInv(s: Sys)
    requires Reachable(s)
    ensures Inv(s)
  {
    var steps :| ValidRun(INIT, steps) && Run(INIT, steps) == s;
    assert Inv(INIT);
    RunKeepsInv(INIT, steps);
  }

  /**
   In every reachable state, whatever was interleaved or cancelled: an open queue holds exactly
   the items sent for its stream, in send order, from the opening up to what has been delivered,
   and no chunk comes after an end marker.
   */
  lemma QueueHoldsWhatWasSent(s: Sys, rid: Rid)
    requires Reachable(s) && rid in s.router.queues
    ensures rid in s.openedAt && s.delivered <= |s.log|
    ensures s.openedAt[rid] <= ChannelOf(s, rid).popped <= |Project(s.sent, rid)|
    ensures s.router.queues[rid] == Project(s.sent, rid)[s.openedAt[rid]..ChannelOf(s, rid).popped]
    ensures s.delivered == |s.log| ==> s.router.queues[rid] == Project(s.sent, rid)[s.openedAt[rid]..]
    ensures ChunksBeforeEnd(s.router.queues[rid])
  {
    ReachableInv(s);
    assert QueueInv(s, rid);
    SliceOfSent(s, rid);
    SentEndsLast(s, rid);
    SliceEndsLast(Project(s.sent, rid), s.openedAt[rid], ChannelOf(s, rid).popped);
  }

  lemma SliceOfSent(s: Sys, rid: Rid)
    requires WireInv(s) && rid in s.router.queues && QueueInv(s, rid)
    ensures s.openedAt[rid] <= ChannelOf(s, rid).popped <= |Project(s.sent, rid)|
    ensures s.router.queues[rid] == Project(s.sent, rid)[s.openedAt[rid]..ChannelOf(s, rid).popped]
    ensures s.delivered == |s.log| ==> ChannelOf(s, rid).popped == |Project(s.sent, rid)|
  {
    RoutedIsFrontOfSent(s, rid);
    var routed, sent := Project(Routed(s), rid), Project(s.sent, rid);
    assert routed == sent[..|routed|];
    assert routed[s.openedAt[rid]..] == sent[s.openedAt[rid]..|routed|];
    if s.delivered == |s.log| { assert s.log[..s.delivered] == s.log; }
  }

  lemma SliceEndsLast(items: seq<Item>, lo: nat, hi: nat)
    requires lo <= hi <= |items| && ChunksBeforeEnd(items)
    ensures ChunksBeforeEnd(items[lo..hi])
  {
  }

  /** Per stream, nothing that was sent after an end marker is a chunk. */
  lemma SentEndsLast(s: Sys, rid: Rid)
    requires Inv(s)
    ensures ChunksBeforeEnd(Project(s.sent, rid))
  {
    if tid :| tid in s.tasks && s.tasks[tid].rid == rid {
      assert TaskInv(s, tid);
      SentFollowsPlan(s, tid);
    } else {
      UnusedRid(s.sent, rid);
    }
  }

  /** What a task has sent is the front of what is left of its program, then its tail. */
  lemma SentFollowsPlan(s: Sys, tid: Tid)
    requires tid in s.tasks && TaskInv(s, tid)
    ensures var t := s.tasks[tid];
      && t.kept <= |t.program| && NoChunks(t.tail) && ChunksBeforeEnd(t.program)
      && Project(s.sent, t.rid) == t.done && t.done <= t.program[..t.kept] + t.tail
  {
    var t := s.tasks[tid];
    assert t.done + t.todo + t.finale == t.done + (t.todo + t.finale);
  }

  /** A task that ran to its end without being cancelled sent its whole program on its stream. */
  lemma FinishedTaskSentProgram(s: Sys, tid: Tid)
    requires Reachable(s) && tid in s.tasks && s.tasks[tid].kept == |s.tasks[tid].program| && s.tasks[tid].tail == []
    requires s.tasks[tid].todo == [] && s.tasks[tid].finale == []
    ensures Project(s.sent, s.tasks[tid].rid) == s.tasks[tid].program
  {
    ReachableInv(s);
    assert TaskInv(s, tid);
    var t := s.tasks[tid];
    assert t.program[..t.kept] + t.tail == t.program;
  }

  /** Even a cancelled task only ever sent the front of the bytes it set out to send. */
  lemma SentBytesAreAPrefix(s: Sys, tid: Tid)
    requires Reachable(s) && tid in s.tasks
    ensures Payload(Project(s.sent, s.tasks[tid].rid)) <= Payload(s.tasks[tid].program)
  {
    ReachableInv(s);
    assert TaskInv(s, tid);
    SentFollowsPlan(s, tid);
    var t := s.tasks[tid];
    PayloadPrefix(t.done, t.program[..t.kept] + t.tail);
    PayloadOfPlan(t.program, t.kept, t.tail);
  }

  lemma PayloadPrefix(a: seq<Item>, b: seq<Item>)
    requires a <= b
    ensures Payload(a) <= Payload(b)
  {
    assert b == a + b[|a|..];
    PayloadAppend(a, b[|a|..]);
  }

  lemma PayloadOfPlan(program: seq<Item>, kept: nat, tail: seq<Item>)
    requires kept <= |program| && NoChunks(tail)
    ensures Payload(program[..kept] + tail) <= Payload(program)
  {
    PayloadAppend(program[..kept], tail);
    NoPayload(tail);
    PayloadPrefix(program[..kept], program);
  }

  // ----- a dangling header -----

  /** Every binary frame directly follows a header, and a lock holder halfway through a chunk sent the last frame. */
  ghost predicate Paired(s: Sys) {
    && (forall i :: 0 <= i < |s.log| && s.log[i].Binary? ==> i > 0 && s.log[i - 1].Header?)
    && (s.lock.Held? && s.lock.phase == Armed ==>
          s.log != [] && s.lock.tid in s.tasks && s.log[|s.log| - 1] == Header(s.tasks[s.lock.tid].rid))
  }

  lemma StepKeepsPaired(s: Sys, step: Step)
    requires Paired(s) && Enabled(s, step)
    ensures Paired(Apply(s, step))
  {
  }

  lemma {:induction false} RunKeepsPaired(s: Sys, steps: seq<Step>)
    requires Paired(s) && ValidRun(s, steps)
    ensures Paired(Run(s, steps))
    decreases steps
  {
    if steps != [] {
      StepKeepsPaired(s, steps[0]);
      RunKeepsPaired(Apply(s, steps[0]), steps[1..]);
    }
  }

  /**
   A header whose task was cancelled before its binary is followed by anything but a binary
   frame, so it contributes no item and the slot it left is overwritten before it could matter.
   */
  lemma DanglingHeaderIsHarmless(s: Sys, i: nat)
    requires Reachable(s) && i < |s.log| && s.log[i].Header?
    requires i + 1 == |s.log| || !s.log[i + 1].Binary?
    ensures forall j :: i < j < |s.log| && s.log[j].Binary? ==>
      s.log[j - 1].Header? && j - 1 > i && SlotAfter(s.log[..j]) == Some(s.log[j - 1].rid)
  {
    var steps :| ValidRun(INIT, steps) && Run(INIT, steps) == s;
    RunKeepsPaired(INIT, steps);
    forall j | i < j < |s.log| && s.log[j].Binary?
      ensures s.log[j - 1].Header? && j - 1 > i && SlotAfter(s.log[..j]) == Some(s.log[j - 1].rid)
    {
      assert s.log[..j][|s.log[..j]| - 1] == s.log[j - 1];
    }
  }
}

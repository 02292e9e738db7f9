/**
 Many tasks share one ordered socket. Every send goes through one lock; a chunk is
 a header frame and then a bare binary frame sent under the same hold of the lock.
 A task may be cancelled anywhere, also between the two frames of a chunk.
 */
module StreamMux {
  import opened Prelude
  import opened StreamRouting

  type Tid = nat

  /**
   One sender on one stream. todo is what its body still sends, finale what its finally
   clause sends afterwards, done what it has sent. It set out to send program; after
   cancellations it sends program[..kept] and then tail instead.
   */
  datatype Task = Task(rid: Rid, todo: seq<Item>, finale: seq<Item>, done: seq<Item>,
                       program: seq<Item>, kept: nat, tail: seq<Item>)

  /** How far the holder of the lock is: nothing sent, header sent, finished. */
  datatype Phase = Fresh | Armed | Sent

  datatype Lock = Free | Held(tid: Tid, phase: Phase)

  /**
   log is every frame ever sent, of which delivered have been routed; openedAt says how many
   items of a stream had been routed when its queue was opened; sent records, in order, each
   item whose completing frame was sent.
   */
  datatype Sys = Sys(tasks: map<Tid, Task>, lock: Lock, log: seq<Frame>, delivered: nat,
                     router: Router, openedAt: map<Rid, nat>, sent: seq<(Rid, Item)>)

  datatype Step =
    | Spawn(tid: Tid, rid: Rid, body: seq<Item>, finale: seq<Item>)
    | Acquire(tid: Tid)
    | Emit(tid: Tid)
    | Release(tid: Tid)
    | Finish(tid: Tid)
    | Abort(tid: Tid, tail: seq<Item>)
    | Chatter
    | Deliver
    | Open(rid: Rid)
    | Close(rid: Rid)

  const INIT := Sys(map[], Free, [], 0, Router(None, map[]), map[], [])

  predicate NoChunks(s: seq<Item>) {
    forall i :: 0 <= i < |s| ==> !s[i].Chunk?
  }

  predicate ChunksBeforeEnd(s: seq<Item>) {
    forall i, j :: 0 <= i < j < |s| && s[i].End? ==> !s[j].Chunk?
  }

  predicate Holds(s: Sys, tid: Tid) {
    s.lock.Held? && s.lock.tid == tid
  }

  function Routed(s: Sys): seq<(Rid, Item)>
    requires s.delivered <= |s.log|
  {
    ItemsOf(s.log[..s.delivered])
  }

  predicate Enabled(s: Sys, step: Step) {
    match step
    case Spawn(tid, rid, body, finale) =>
      && tid !in s.tasks && (forall t :: t in s.tasks ==> s.tasks[t].rid != rid)
      && ChunksBeforeEnd(body + finale) && NoChunks(finale)
    case Acquire(tid) => s.lock == Free && tid in s.tasks && s.tasks[tid].todo != []
    case Emit(tid) => Holds(s, tid) && s.lock.phase != Sent && tid in s.tasks && s.tasks[tid].todo != []
    case Release(tid) => s.lock == Held(tid, Sent)
    case Finish(tid) => !Holds(s, tid) && tid in s.tasks && s.tasks[tid].todo == []
    case Abort(tid, tail) => tid in s.tasks && NoChunks(tail) && (s.tasks[tid].todo != [] || Holds(s, tid))
    case Chatter => s.lock == Free
    case Deliver => s.delivered < |s.log|
    case Open(rid) => rid !in s.router.queues && s.delivered <= |s.log|
    case Close(rid) => rid in s.router.queues
  }

  /** A cancelled task: of its program only what it has sent, then tail. */
  function Cut(t: Task, tail: seq<Item>): Task {
    if |t.done| <= t.kept
    then t.(todo := tail, finale := [], kept := |t.done|, tail := tail)
    else t.(todo := tail, finale := [], tail := t.done[t.kept..] + tail)
  }

  /** The receiver takes the next frame off the wire. */
  function Delivered(s: Sys): Sys
    requires s.delivered < |s.log|
  {
    s.(delivered := s.delivered + 1, router := Route(s.router, s.log[s.delivered]))
  }

  function Apply(s: Sys, step: Step): Sys
    requires Enabled(s, step)
  {
    match step
    case Spawn(tid, rid, body, finale) =>
      s.(tasks := s.tasks[tid := Task(rid, body, finale, [], body + finale, |body + finale|, [])])
    case Acquire(tid) => s.(lock := Held(tid, Fresh))
    case Emit(tid) =>
      var task := s.tasks[tid];
      var item := task.todo[0];
      if item.Chunk? && s.lock.phase == Fresh
      then s.(log := s.log + [Header(task.rid)], lock := Held(tid, Armed))
      else s.(log := s.log + [if item.Chunk? then Binary(item.data) else Text(task.rid, item)],
              lock := Held(tid, Sent),
              sent := s.sent + [(task.rid, item)],
              tasks := s.tasks[tid := task.(todo := task.todo[1..], done := task.done + [item])])
    case Release(tid) => s.(lock := Free)
    case Finish(tid) => s.(tasks := s.tasks[tid := s.tasks[tid].(todo := s.tasks[tid].finale, finale := [])])
    case Abort(tid, tail) =>
      s.(lock := if Holds(s, tid) then Free else s.lock,
         tasks := s.tasks[tid := Cut(s.tasks[tid], tail)])
    case Chatter => s.(log := s.log + [Other])
    case Deliver => Delivered(s)
    case Open(rid) =>
      s.(router := s.router.(queues := s.router.queues[rid := []]),
         openedAt := s.openedAt[rid := |Project(Routed(s), rid)|])
    case Close(rid) => s.(router := s.router.(queues := s.router.queues - {rid}))
  }

  predicate ValidRun(s: Sys, steps: seq<Step>)
    decreases steps
  {
    steps != [] ==> Enabled(s, steps[0]) && ValidRun(Apply(s, steps[0]), steps[1..])
  }

  function Run(s: Sys, steps: seq<Step>): Sys
    requires ValidRun(s, steps)
    decreases steps
  {
    if steps == [] then s else Run(Apply(s, steps[0]), steps[1..])
  }

  // ----- what every step keeps -----

  /** The lock keeps a header and its binary adjacent. */
  ghost predicate LockInv(s: Sys) {
    s.lock.Held? ==>
      && s.lock.tid in s.tasks
      && (s.lock.phase != Sent ==> s.tasks[s.lock.tid].todo != [])
      && (s.lock.phase == Armed ==>
            s.tasks[s.lock.tid].todo[0].Chunk? && SlotAfter(s.log) == Some(s.tasks[s.lock.tid].rid))
  }

  /** What the frames on the wire mean is what was recorded as sent. */
  ghost predicate WireInv(s: Sys) {
    && s.delivered <= |s.log|
    && ItemsOf(s.log) == s.sent
    && s.router.slot == SlotAfter(s.log[..s.delivered])
  }

  ghost predicate QueueInv(s: Sys, rid: Rid)
    requires s.delivered <= |s.log|
  {
    rid in s.router.queues ==>
      && rid in s.openedAt && s.openedAt[rid] <= |Project(Routed(s), rid)|
      && s.router.queues[rid] == Project(Routed(s), rid)[s.openedAt[rid]..]
  }

  /** A task's own account of what it sent, and what it may still send. */
  ghost predicate TaskInv(s: Sys, tid: Tid)
    requires tid in s.tasks
  {
    var t := s.tasks[tid];
    && Project(s.sent, t.rid) == t.done
    && t.kept <= |t.program| && NoChunks(t.tail) && ChunksBeforeEnd(t.program)
    && t.done + t.todo + t.finale == t.program[..t.kept] + t.tail
  }

  ghost predicate RidsInv(s: Sys) {
    && (forall t, u :: t in s.tasks && u in s.tasks && s.tasks[t].rid == s.tasks[u].rid ==> t == u)
    && (forall p :: p in s.sent ==> exists t :: t in s.tasks && s.tasks[t].rid == p.0)
  }

  ghost predicate Inv(s: Sys) {
    && LockInv(s) && WireInv(s) && RidsInv(s)
    && (forall rid :: QueueInv(s, rid))
    && (forall tid :: tid in s.tasks ==> TaskInv(s, tid))
  }

  lemma EmitKeepsWire(s: Sys, tid: Tid)
    requires LockInv(s) && WireInv(s) && Enabled(s, Emit(tid))
    ensures LockInv(Apply(s, Emit(tid))) && WireInv(Apply(s, Emit(tid)))
  {
    var s' := Apply(s, Emit(tid));
    var f := s'.log[|s.log|];
    assert s'.log == s.log + [f];
    ItemsAppend(s.log, f);
    SlotAppend(s.log, f);
    assert s'.log[..s.delivered] == s.log[..s.delivered];
  }

  lemma DeliverKeepsWire(s: Sys)
    requires WireInv(s) && s.delivered < |s.log|
    ensures WireInv(Delivered(s))
  {
    var f := s.log[s.delivered];
    assert s.log[..s.delivered + 1] == s.log[..s.delivered] + [f];
    SlotAppend(s.log[..s.delivered], f);
  }

  lemma ChatterKeepsWire(s: Sys)
    requires WireInv(s) && s.lock == Free
    ensures WireInv(Apply(s, Chatter))
  {
    ItemsAppend(s.log, Other);
    assert (s.log + [Other])[..s.delivered] == s.log[..s.delivered];
  }

  lemma StepKeepsWire(s: Sys, step: Step)
    requires LockInv(s) && WireInv(s) && Enabled(s, step)
    ensures LockInv(Apply(s, step)) && WireInv(Apply(s, step))
  {
    match step
    case Emit(tid) => EmitKeepsWire(s, tid);
    case Chatter => ChatterKeepsWire(s);
    case Deliver => DeliverKeepsWire(s);
    case _ =>
  }

  lemma DeliverKeepsQueue(s: Sys, rid: Rid)
    requires s.delivered < |s.log| && s.router.slot == SlotAfter(s.log[..s.delivered]) && QueueInv(s, rid)
    ensures QueueInv(Delivered(s), rid)
  {
    hide Project, ItemsOf, SlotAfter, Completes, Route;
    if rid in s.router.queues {
      var before, extra := Project(Routed(s), rid), Project(Completes(s.router.slot, s.log[s.delivered]), rid);
      NextFrameAdds(s.log, s.delivered, rid);
      RouteAdds(s.router, s.log[s.delivered], rid);
      assert Project(Routed(Delivered(s)), rid) == before + extra;
      assert (before + extra)[s.openedAt[rid]..] == before[s.openedAt[rid]..] + extra;
    } else {
      RouteOpensNothing(s.router, s.log[s.delivered], rid);
    }
  }

  /** Only a delivery changes what has been routed; only opening and closing change the set of queues. */
  lemma OtherStepsRouteNothing(s: Sys, step: Step)
    requires Enabled(s, step) && !step.Deliver? && s.delivered <= |s.log|
    ensures var s' := Apply(s, step);
      && s'.delivered == s.delivered <= |s'.log| && s'.log[..s.delivered] == s.log[..s.delivered]
      && s'.router.queues == (match step case Open(r) => s.router.queues[r := []] case Close(r) => s.router.queues - {r} case _ => s.router.queues)
      && s'.openedAt == if step.Open? then s.openedAt[step.rid := |Project(Routed(s), step.rid)|] else s.openedAt
  {
  }

  lemma StepKeepsQueue(s: Sys, step: Step, rid: Rid)
    requires s.delivered <= |s.log| && s.router.slot == SlotAfter(s.log[..s.delivered])
    requires QueueInv(s, rid) && Enabled(s, step)
    ensures Apply(s, step).delivered <= |Apply(s, step).log| && QueueInv(Apply(s, step), rid)
  {
    if step.Deliver? {
      DeliverKeepsQueue(s, rid);
    } else {
      OtherStepsRouteNothing(s, step);
      hide Apply, Enabled, Project, ItemsOf;
      assert Routed(Apply(s, step)) == Routed(s);
    }
  }

  lemma {:induction false} UnusedRid(sent: seq<(Rid, Item)>, rid: Rid)
    requires forall p :: p in sent ==> p.0 != rid
    ensures Project(sent, rid) == []
  {
    if sent != [] {
      assert sent[|sent| - 1] in sent;
      assert forall p :: p in sent[..|sent| - 1] ==> p in sent;
      UnusedRid(sent[..|sent| - 1], rid);
    }
  }

  /** Tasks keep their stream, a new task gets a fresh one, and only a live task's stream is written. */
  lemma StepOnTasks(s: Sys, step: Step)
    requires Enabled(s, step)
    ensures var s' := Apply(s, step);
      && (forall t :: t in s.tasks ==> t in s'.tasks && s'.tasks[t].rid == s.tasks[t].rid)
      && (forall t :: t in s'.tasks && t !in s.tasks ==> forall u :: u in s.tasks ==> s.tasks[u].rid != s'.tasks[t].rid)
      && (forall t, u :: t in s'.tasks && u in s'.tasks && t !in s.tasks && u !in s.tasks ==> t == u)
      && (s'.sent == s.sent || (step.Emit? && step.tid in s.tasks && s.tasks[step.tid].todo != []
            && s'.sent == s.sent + [(s.tasks[step.tid].rid, s.tasks[step.tid].todo[0])]))
  {
  }

  lemma StepKeepsRids(s: Sys, step: Step)
    requires RidsInv(s) && Enabled(s, step)
    ensures RidsInv(Apply(s, step))
  {
    StepOnTasks(s, step);
    hide Apply, Enabled;
  }

  lemma EmitKeepsTask(s: Sys, who: Tid, tid: Tid)
    requires RidsInv(s) && Enabled(s, Emit(who)) && tid in s.tasks && TaskInv(s, tid)
    ensures TaskInv(Apply(s, Emit(who)), tid)
  {
    hide Project, Payload, ChunksBeforeEnd, NoChunks;
    var s' := Apply(s, Emit(who));
    if s'.sent != s.sent {
      var rid, item := s.tasks[who].rid, s.tasks[who].todo[0];
      ProjectAppend(s.sent, [(rid, item)], s.tasks[tid].rid);
      ProjectOne(rid, item, s.tasks[tid].rid);
      var t, t' := s.tasks[tid], s'.tasks[tid];
      assert t'.done + t'.todo + t'.finale == t.done + t.todo + t.finale;
    }
  }

  lemma AbortKeepsTask(s: Sys, who: Tid, tail: seq<Item>, tid: Tid)
    requires Enabled(s, Abort(who, tail)) && tid in s.tasks && TaskInv(s, tid)
    ensures TaskInv(Apply(s, Abort(who, tail)), tid)
  {
    if who == tid {
      CutKeepsPlan(s.tasks[tid], tail);
    }
  }

  /** Whatever was sent so far stays, and the plan is still a front of the program and a tail. */
  lemma CutKeepsPlan(t: Task, tail: seq<Item>)
    requires t.kept <= |t.program| && NoChunks(t.tail) && NoChunks(tail)
    requires t.done + t.todo + t.finale == t.program[..t.kept] + t.tail
    ensures var t' := Cut(t, tail);
      && t'.kept <= |t.program| && NoChunks(t'.tail)
      && t'.done + t'.todo + t'.finale == t'.program[..t'.kept] + t'.tail
  {
    var all := t.done + t.todo + t.finale;
    assert t.done == all[..|t.done|];
    if |t.done| <= t.kept {
      assert t.done == t.program[..|t.done|];
    } else {
      assert t.done[..t.kept] == t.program[..t.kept];
      assert t.done[t.kept..] == t.tail[..|t.done| - t.kept];
    }
  }

  lemma FinishKeepsTask(s: Sys, who: Tid, tid: Tid)
    requires Enabled(s, Finish(who)) && tid in s.tasks && TaskInv(s, tid)
    ensures TaskInv(Apply(s, Finish(who)), tid)
  {
    var t, t' := s.tasks[tid], Apply(s, Finish(who)).tasks[tid];
    assert t'.done + t'.todo + t'.finale == t.done + t.todo + t.finale;
  }

  lemma SpawnKeepsTask(s: Sys, step: Step, tid: Tid)
    requires RidsInv(s) && step.Spawn? && Enabled(s, step)
    requires tid in s.tasks ==> TaskInv(s, tid)
    requires tid in Apply(s, step).tasks
    ensures TaskInv(Apply(s, step), tid)
  {
    if tid == step.tid {
      UnusedRid(s.sent, step.rid);
      assert [] + step.body + step.finale == step.body + step.finale;
    }
  }

  lemma StepKeepsTask(s: Sys, step: Step, tid: Tid)
    requires Inv(s) && Enabled(s, step) && tid in Apply(s, step).tasks
    ensures TaskInv(Apply(s, step), tid)
  {
    match step
    case Spawn(_, _, _, _) => SpawnKeepsTask(s, step, tid);
    case Emit(who) => EmitKeepsTask(s, who, tid);
    case Abort(who, tail) => AbortKeepsTask(s, who, tail, tid);
    case Finish(who) => FinishKeepsTask(s, who, tid);
    case _ =>
  }

  lemma StepKeepsInv(s: Sys, step: Step)
    requires Inv(s) && Enabled(s, step)
    ensures Inv(Apply(s, step))
  {
    var s' := Apply(s, step);
    StepKeepsWire(s, step);
    StepKeepsRids(s, step);
    hide Apply, Enabled, LockInv, RidsInv;
    forall rid
      ensures QueueInv(s', rid)
    {
      StepKeepsQueue(s, step, rid);
    }
    forall tid | tid in s'.tasks
      ensures TaskInv(s', tid)
    {
      StepKeepsTask(s, step, tid);
    }
  }

  lemma {:induction false} RunKeepsInv(s: Sys, steps: seq<Step>)
    requires Inv(s) && ValidRun(s, steps)
    ensures Inv(Run(s, steps))
    decreases steps
  {
    if steps != [] {
      StepKeepsInv(s, steps[0]);
      RunKeepsInv(Apply(s, steps[0]), steps[1..]);
    }
  }
}

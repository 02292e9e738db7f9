/**
 Whole runs of the command queue, statement by statement: controllers enqueue at any time while
 the device's poller selects a batch, runs its commands one by one and marks each; marks can be
 lost and the service can be killed anywhere.
 */
module QueueSchedule {
  import opened Prelude
  import opened CommandQueue

  /** Poll is the SELECT, Handle runs the next command of the batch, Mark is its UPDATE. */
  datatype Event =
    | Enqueue(device: Device, op: Op)
    | Poll(ok: bool)
    | Handle
    | Mark(throws: bool, lost: bool)
    | Kill

  /**
   The table; the poller's batch, rest of it still to come and running not yet marked; and what
   the poller has handled and run so far.
   */
  datatype Sys = Sys(rows: seq<Cmd>, nextId: nat, running: Option<Cmd>, rest: seq<Cmd>, handled: seq<Cmd>, ran: seq<Cmd>)

  const EMPTY := Sys([], 1, None, [], [], [])

  predicate Idle(s: Sys) {
    s.running == None && s.rest == []
  }

  predicate Enabled(s: Sys, e: Event) {
    match e
    case Poll(_) => Idle(s)
    case Handle => s.running == None && s.rest != []
    case Mark(_, _) => s.running.Some?
    case _ => true
  }

  function Step(s: Sys, d: Device, e: Event): Sys
    requires Enabled(s, e)
  {
    match e
    case Enqueue(device, op) => s.(rows := s.rows + [Cmd(s.nextId, device, op, false, false)], nextId := s.nextId + 1)
    case Poll(ok) => s.(rest := if ok then Batch(s.rows, d) else [])
    case Handle =>
      var cmd := s.rest[0];
      s.(running := Some(cmd), rest := s.rest[1..], handled := s.handled + [cmd],
         ran := if cmd.op in WHITELIST then s.ran + [cmd] else s.ran)
    case Mark(throws, lost) =>
      var cmd := s.running.value;
      s.(running := None, rows := if lost then s.rows else Updated(s.rows, cmd.id, cmd.op !in WHITELIST || throws))
    case Kill => s.(running := None, rest := [])
  }

  predicate Valid(s: Sys, d: Device, es: seq<Event>)
    decreases es
  {
    es != [] ==> Enabled(s, es[0]) && Valid(Step(s, d, es[0]), d, es[1..])
  }

  function Run(s: Sys, d: Device, es: seq<Event>): Sys
    requires Valid(s, d, es)
    decreases es
  {
    if es == [] then s else Run(Step(s, d, es[0]), d, es[1..])
  }

  /** A mark that arrives, or anything but a kill between a command and its mark. */
  predicate CleanStep(s: Sys, e: Event) {
    (e.Mark? ==> !e.lost) && (e.Kill? ==> s.running == None)
  }

  /** No mark is lost and the service is never killed between a command and its mark. */
  predicate Clean(s: Sys, d: Device, es: seq<Event>)
    requires Valid(s, d, es)
    decreases es
  {
    es != [] ==> CleanStep(s, es[0]) && Clean(Step(s, d, es[0]), d, es[1..])
  }

  function Polls(es: seq<Event>): nat {
    if es == [] then 0 else (if es[0].Poll? && es[0].ok then 1 else 0) + Polls(es[1..])
  }

  ghost predicate Inv(s: Sys) {
    Ordered(s.rows) && forall i :: 0 <= i < |s.rows| ==> s.rows[i].id < s.nextId
  }

  lemma StepKeepsInv(s: Sys, d: Device, e: Event)
    requires Inv(s) && Enabled(s, e)
    ensures Inv(Step(s, d, e))
  {
    hide Batch;
  }

  // ----- pending rows under marking and enqueuing -----

  /** The rows whose id is not among ids. */
  function Outside(cmds: seq<Cmd>, ids: set<nat>): seq<Cmd> {
    if cmds == [] then [] else (if cmds[0].id in ids then [] else [cmds[0]]) + Outside(cmds[1..], ids)
  }

  lemma {:induction false} PendingAfterUpdate(rows: seq<Cmd>, id: nat, error: bool, d: Device)
    ensures PendingOf(Updated(rows, id, error), d) == Outside(PendingOf(rows, d), {id})
  {
    if rows != [] {
      assert Updated(rows, id, error)[1..] == Updated(rows[1..], id, error);
      PendingAfterUpdate(rows[1..], id, error, d);
      var first := if rows[0].device == d && !rows[0].executed then [rows[0]] else [];
      OutsideJoin(first, PendingOf(rows[1..], d), {id});
      if first != [] { assert first[1..] == []; }
    }
  }

  lemma {:induction false} OutsideJoin(a: seq<Cmd>, b: seq<Cmd>, ids: set<nat>)
    ensures Outside(a + b, ids) == Outside(a, ids) + Outside(b, ids)
  {
    if a == [] {
      assert a + b == b;
    } else {
      assert (a + b)[1..] == a[1..] + b;
      OutsideJoin(a[1..], b, ids);
    }
  }

  lemma {:induction false} OutsideNone(cmds: seq<Cmd>, ids: set<nat>)
    requires forall c :: c in cmds ==> c.id !in ids
    ensures Outside(cmds, ids) == cmds
  {
    if cmds != [] { OutsideNone(cmds[1..], ids); }
  }

  lemma {:induction false} OutsideShorter(cmds: seq<Cmd>, ids: set<nat>)
    ensures |Outside(cmds, ids)| <= |cmds|
  {
    if cmds != [] { OutsideShorter(cmds[1..], ids); }
  }

  lemma {:induction false} PendingAppend(rows: seq<Cmd>, c: Cmd, d: Device)
    ensures PendingOf(rows + [c], d) == PendingOf(rows, d) + (if c.device == d && !c.executed then [c] else [])
  {
    var more := if c.device == d && !c.executed then [c] else [];
    if rows == [] {
      assert (rows + [c])[1..] == [];
      assert [] + more == more + [];
    } else {
      var first := if rows[0].device == d && !rows[0].executed then [rows[0]] else [];
      assert (rows + [c])[1..] == rows[1..] + [c];
      PendingAppend(rows[1..], c, d);
      Associative(first, PendingOf(rows[1..], d), more);
    }
  }

  lemma {:induction false} PendingIsOrdered(rows: seq<Cmd>, d: Device)
    requires Ordered(rows)
    ensures Ordered(PendingOf(rows, d))
  {
    if rows != [] {
      PendingIsOrdered(rows[1..], d);
      forall c | c in PendingOf(rows[1..], d)
        ensures rows[0].id < c.id
      {
        PendingIsStored(rows[1..], d, c);
      }
    }
  }

  lemma {:induction false} PendingPrefix(rows: seq<Cmd>, added: seq<Cmd>, d: Device)
    ensures PendingOf(rows, d) <= PendingOf(rows + added, d)
  {
    if added == [] {
      assert rows + added == rows;
    } else {
      var n := |added| - 1;
      assert rows + added == (rows + added[..n]) + [added[n]];
      PendingPrefix(rows, added[..n], d);
      PendingAppend(rows + added[..n], added[n], d);
    }
  }

  /** Marking the oldest pending row takes exactly that row off the front. */
  lemma MarkTakesFirst(rows: seq<Cmd>, d: Device, error: bool)
    requires Ordered(rows) && PendingOf(rows, d) != []
    ensures PendingOf(Updated(rows, PendingOf(rows, d)[0].id, error), d) == PendingOf(rows, d)[1..]
  {
    PendingIsOrdered(rows, d);
    PendingAfterUpdate(rows, PendingOf(rows, d)[0].id, error, d);
    hide PendingOf, Updated;
    WithoutFirst(PendingOf(rows, d));
  }

  lemma WithoutFirst(cmds: seq<Cmd>)
    requires Ordered(cmds) && cmds != []
    ensures Outside(cmds, {cmds[0].id}) == cmds[1..]
  {
    assert forall c :: c in cmds[1..] ==> c.id != cmds[0].id;
    OutsideNone(cmds[1..], {cmds[0].id});
    hide Ordered;
  }

  lemma {:induction false} PendingIsAll(rows: seq<Cmd>, d: Device, c: Cmd)
    requires c in rows && c.device == d && !c.executed
    ensures c in PendingOf(rows, d)
  {
    if rows[0] != c { PendingIsAll(rows[1..], d, c); }
  }

  /** A poll selects the device's 16 oldest unexecuted rows in id order, or all of them if they are fewer. */
  lemma BatchMeans(rows: seq<Cmd>, d: Device)
    requires Ordered(rows)
    ensures var batch := Batch(rows, d);
      && |batch| <= 16
      && (forall i, j :: 0 <= i < j < |batch| ==> batch[i].id < batch[j].id)
      && (forall c :: c in batch ==> c in rows && c.device == d && !c.executed)
      && (forall c :: c in rows && c.device == d && !c.executed && c !in batch ==>
            |batch| == 16 && forall b :: b in batch ==> b.id < c.id)
  {
    BatchIsStored(rows, d);
    PendingIsOrdered(rows, d);
    var pending, batch := PendingOf(rows, d), Batch(rows, d);
    forall c, b | c in rows && c.device == d && !c.executed && c !in batch && b in batch
      ensures |batch| == 16 && b.id < c.id
    {
      PendingIsAll(rows, d, c);
      LaterInOrder(pending, |batch|, b, c);
    }
    if |batch| < 16 {
      forall c | c in rows && c.device == d && !c.executed
        ensures c in batch
      {
        PendingIsAll(rows, d, c);
      }
    }
  }

  lemma LaterInOrder(cmds: seq<Cmd>, n: nat, b: Cmd, c: Cmd)
    requires Ordered(cmds) && n <= |cmds| && b in cmds[..n] && c in cmds && c !in cmds[..n]
    ensures b.id < c.id
  {
    var i :| 0 <= i < n && cmds[i] == b;
    var j :| 0 <= j < |cmds| && cmds[j] == c;
    assert j < n ==> cmds[..n][j] == c;
  }

  // ----- first in, first out, exactly once -----

  /** All rows ever enqueued for a device. */
  function Mine(rows: seq<Cmd>, d: Device): seq<Cmd> {
    if rows == [] then [] else (if rows[0].device == d then [rows[0]] else []) + Mine(rows[1..], d)
  }

  lemma {:induction false} MineAfterUpdate(rows: seq<Cmd>, id: nat, error: bool, d: Device)
    ensures Ids(Mine(Updated(rows, id, error), d)) == Ids(Mine(rows, d))
  {
    if rows != [] {
      var rows' := Updated(rows, id, error);
      assert rows'[1..] == Updated(rows[1..], id, error);
      MineAfterUpdate(rows[1..], id, error, d);
      IdsJoin(if rows[0].device == d then [rows[0]] else [], Mine(rows[1..], d));
      IdsJoin(if rows[0].device == d then [rows'[0]] else [], Mine(rows'[1..], d));
    }
  }

  lemma {:induction false} MineAppend(rows: seq<Cmd>, c: Cmd, d: Device)
    ensures Mine(rows + [c], d) == Mine(rows, d) + (if c.device == d then [c] else [])
  {
    var more := if c.device == d then [c] else [];
    if rows == [] {
      assert (rows + [c])[1..] == [];
      assert [] + more == more + [];
    } else {
      var first := if rows[0].device == d then [rows[0]] else [];
      assert (rows + [c])[1..] == rows[1..] + [c];
      MineAppend(rows[1..], c, d);
      assert first + (Mine(rows[1..], d) + more) == (first + Mine(rows[1..], d)) + more;
    }
  }

  lemma IdsJoin(a: seq<Cmd>, b: seq<Cmd>)
    ensures Ids(a + b) == Ids(a) + Ids(b)
  {
  }

  lemma {:induction false} MineIsLater(rows: seq<Cmd>, d: Device, id: nat, j: nat)
    requires forall i :: 0 <= i < |rows| ==> id < rows[i].id
    requires j < |Mine(rows, d)|
    ensures id < Mine(rows, d)[j].id
  {
    if rows[0].device != d {
      MineIsLater(rows[1..], d, id, j);
    } else if j > 0 {
      MineIsLater(rows[1..], d, id, j - 1);
    }
  }

  lemma {:induction false} MineIsOrdered(rows: seq<Cmd>, d: Device)
    requires Ordered(rows)
    ensures Ordered(Mine(rows, d))
  {
    if rows != [] {
      MineIsOrdered(rows[1..], d);
      forall j | 0 <= j < |Mine(rows[1..], d)|
        ensures rows[0].id < Mine(rows[1..], d)[j].id
      {
        MineIsLater(rows[1..], d, rows[0].id, j);
      }
    }
  }

  function Batched(s: Sys): seq<Cmd> {
    (if s.running.Some? then [s.running.value] else []) + s.rest
  }

  /** The pending rows that have not been handled. */
  function Waiting(s: Sys, d: Device): seq<Cmd>
    requires Batched(s) <= PendingOf(s.rows, d)
  {
    if s.running.Some? then PendingOf(s.rows, d)[1..] else PendingOf(s.rows, d)
  }

  /** The batch is the front of what is pending; handled and waiting rows are all rows, in order. */
  ghost predicate Queue(s: Sys, d: Device) {
    && Batched(s) <= PendingOf(s.rows, d)
    && Ids(s.handled) + Ids(Waiting(s, d)) == Ids(Mine(s.rows, d))
    && (s.running.Some? ==> s.handled != [] && s.handled[|s.handled| - 1] == s.running.value)
  }

  lemma EnqueueKeepsQueue(s: Sys, d: Device, e: Event)
    requires Inv(s) && Queue(s, d) && e.Enqueue?
    ensures Queue(Step(s, d, e), d)
    ensures PendingOf(s.rows, d) <= PendingOf(Step(s, d, e).rows, d)
  {
    var c := Cmd(s.nextId, e.device, e.op, false, false);
    var more := if e.device == d then [c] else [];
    PendingAppend(s.rows, c, d);
    MineAppend(s.rows, c, d);
    IdsJoin(Waiting(s, d), more);
    IdsJoin(Mine(s.rows, d), more);
    hide PendingOf, Mine, Ids;
    var s' := Step(s, d, e);
    assert Waiting(s', d) == Waiting(s, d) + more;
    Associative(Ids(s.handled), Ids(Waiting(s, d)), Ids(more));
  }

  /** Moving the next row over from waiting to handled. */
  lemma IdsShift(handled: seq<Cmd>, waiting: seq<Cmd>)
    requires waiting != []
    ensures Ids(handled) + Ids(waiting) == Ids(handled + [waiting[0]]) + Ids(waiting[1..])
  {
    IdsJoin(handled, [waiting[0]]);
    IdsJoin([waiting[0]], waiting[1..]);
    assert waiting == [waiting[0]] + waiting[1..];
    hide Ids;
    Associative(Ids(handled), Ids([waiting[0]]), Ids(waiting[1..]));
  }

  lemma HandleShape(s: Sys, pending: seq<Cmd>)
    requires Batched(s) <= pending && s.running == None && s.rest != []
    ensures pending != [] && pending[0] == s.rest[0] && [s.rest[0]] + s.rest[1..] <= pending
  {
    assert [] + s.rest == s.rest && [s.rest[0]] + s.rest[1..] == s.rest;
    assert Batched(s) == s.rest && Batched(s)[0] == s.rest[0];
  }

  lemma HandleKeepsQueue(s: Sys, d: Device)
    requires Queue(s, d) && Enabled(s, Handle)
    ensures Queue(Step(s, d, Handle), d)
  {
    var pending := PendingOf(s.rows, d);
    HandleShape(s, pending);
    hide PendingOf, Mine, Ids;
    IdsShift(s.handled, pending);
  }

  lemma MarkKeepsQueue(s: Sys, d: Device, throws: bool)
    requires Inv(s) && Queue(s, d) && s.running.Some?
    ensures Queue(Step(s, d, Mark(throws, false)), d)
    ensures PendingOf(Step(s, d, Mark(throws, false)).rows, d) == PendingOf(s.rows, d)[1..]
  {
    var c, error := s.running.value, s.running.value.op !in WHITELIST || throws;
    assert Batched(s)[0] == c;
    assert PendingOf(s.rows, d)[0] == c;
    MarkTakesFirst(s.rows, d, error);
    MineAfterUpdate(s.rows, c.id, error, d);
    hide PendingOf, Mine, Ids, Updated;
    assert Batched(s)[1..] == s.rest;
    assert Batched(Step(s, d, Mark(throws, false))) == s.rest;
  }

  lemma StepKeepsQueue(s: Sys, d: Device, e: Event)
    requires Inv(s) && Queue(s, d) && Enabled(s, e) && CleanStep(s, e)
    ensures Queue(Step(s, d, e), d)
  {
    hide PendingOf, Mine, Ids, Updated;
    match e
    case Enqueue(_, _) => EnqueueKeepsQueue(s, d, e);
    case Poll(ok) => assert [] + Batch(s.rows, d) == Batch(s.rows, d);
    case Handle => HandleKeepsQueue(s, d);
    case Mark(throws, _) => MarkKeepsQueue(s, d, throws);
    case Kill =>
  }

  lemma {:induction false} RunKeepsQueue(s: Sys, d: Device, es: seq<Event>)
    requires Inv(s) && Queue(s, d) && Valid(s, d, es) && Clean(s, d, es)
    ensures Inv(Run(s, d, es)) && Queue(Run(s, d, es), d)
    decreases es
  {
    if es != [] {
      StepKeepsInv(s, d, es[0]);
      StepKeepsQueue(s, d, es[0]);
      RunKeepsQueue(Step(s, d, es[0]), d, es[1..]);
    }
  }

  /**
   When no mark is lost and no kill comes between a command and its mark: at every statement the
   commands handled, followed by those waiting, are all commands ever enqueued for the device in
   id order; so each is handled once and in order, wherever else the service is killed.
   */
  lemma HandledOnceInOrder(d: Device, es: seq<Event>)
    requires Valid(EMPTY, d, es) && Clean(EMPTY, d, es)
    ensures var s := Run(EMPTY, d, es);
      && Batched(s) <= PendingOf(s.rows, d)
      && Ids(s.handled) + Ids(Waiting(s, d)) == Ids(Mine(s.rows, d))
      && forall i, j :: 0 <= i < j < |s.handled| ==> s.handled[i].id < s.handled[j].id
  {
    RunKeepsQueue(EMPTY, d, es);
    var s := Run(EMPTY, d, es);
    MineIsOrdered(s.rows, d);
    forall i, j | 0 <= i < j < |s.handled|
      ensures s.handled[i].id < s.handled[j].id
    {
      var all := Ids(Mine(s.rows, d));
      assert Ids(s.handled)[i] == all[i] && Ids(s.handled)[j] == all[j];
    }
  }

  // ----- how long a command waits -----

  predicate NoKill(es: seq<Event>) {
    forall i :: 0 <= i < |es| ==> !es[i].Kill?
  }

  ghost predicate HasHandled(s: Sys, id: nat) {
    exists i :: 0 <= i < |s.handled| && s.handled[i].id == id
  }

  lemma StepKeepsHandled(s: Sys, d: Device, e: Event, id: nat)
    requires Enabled(s, e) && HasHandled(s, id)
    ensures HasHandled(Step(s, d, e), id)
  {
    var i :| 0 <= i < |s.handled| && s.handled[i].id == id;
    assert Step(s, d, e).handled[i].id == id;
  }

  lemma {:induction false} HandledStays(s: Sys, d: Device, es: seq<Event>, id: nat)
    requires Valid(s, d, es) && HasHandled(s, id)
    ensures HasHandled(Run(s, d, es), id)
    decreases es
  {
    if es != [] {
      StepKeepsHandled(s, d, es[0], id);
      HandledStays(Step(s, d, es[0]), d, es[1..], id);
    }
  }

  /** The row at position p is in this batch, or enough polls are to come. */
  predicate InTime(s: Sys, es: seq<Event>, p: nat) {
    var batch := |Batched(s)|;
    p < batch || Polls(es) >= (p - batch) / POLL_LIMIT + 1
  }

  /** One event leaves the row pending in time, at the place returned, or it has been handled. */
  lemma StepInTime(s: Sys, d: Device, es: seq<Event>, p: nat) returns (q: int)
    requires Inv(s) && Queue(s, d) && es != [] && Enabled(s, es[0]) && CleanStep(s, es[0]) && !es[0].Kill?
    requires p < |PendingOf(s.rows, d)| && InTime(s, es, p)
    ensures var s' := Step(s, d, es[0]);
      if q < 0 then HasHandled(s', PendingOf(s.rows, d)[p].id)
      else q < |PendingOf(s'.rows, d)| && PendingOf(s'.rows, d)[q] == PendingOf(s.rows, d)[p] && InTime(s', es[1..], q)
  {
    hide Ids, Mine, PendingOf, Updated;
    match es[0]
    case Enqueue(_, _) =>
      EnqueueKeepsQueue(s, d, es[0]);
      q := p;
    case Poll(ok) => q := p;
    case Handle => q := p;
    case Mark(throws, _) =>
      MarkKeepsQueue(s, d, throws);
      q := p - 1;
      if p == 0 {
        assert Batched(s)[0] == s.running.value;
        assert Step(s, d, es[0]).handled[|s.handled| - 1].id == PendingOf(s.rows, d)[0].id;
      }
  }

  lemma {:induction false} HandledByThen(s: Sys, d: Device, es: seq<Event>, p: nat)
    requires Inv(s) && Queue(s, d) && Valid(s, d, es) && Clean(s, d, es) && NoKill(es) && Idle(Run(s, d, es))
    requires p < |PendingOf(s.rows, d)| && InTime(s, es, p)
    ensures HasHandled(Run(s, d, es), PendingOf(s.rows, d)[p].id)
    decreases es
  {
    if es != [] {
      var q := StepInTime(s, d, es, p);
      StepKeepsInv(s, d, es[0]);
      StepKeepsQueue(s, d, es[0]);
      hide Inv, Queue, Step, Enabled, CleanStep, InTime, PendingOf, HasHandled;
      assert NoKill(es[1..]);
      if q < 0 {
        HandledStays(Step(s, d, es[0]), d, es[1..], PendingOf(s.rows, d)[p].id);
      } else {
        HandledByThen(Step(s, d, es[0]), d, es[1..], q);
      }
    }
  }

  /**
   A row with p older pending rows is handled once p/16+1 successful polls have been worked off,
   whatever is enqueued meanwhile and whatever ops those rows hold.
   */
  lemma HandledInTime(past: seq<Event>, d: Device, es: seq<Event>, p: nat)
    requires Valid(EMPTY, d, past) && Clean(EMPTY, d, past) && Idle(Run(EMPTY, d, past))
    requires var s := Run(EMPTY, d, past);
      && Valid(s, d, es) && Clean(s, d, es) && NoKill(es) && Idle(Run(s, d, es))
      && p < |PendingOf(s.rows, d)| && Polls(es) >= p / 16 + 1
    ensures var s := Run(EMPTY, d, past); HasHandled(Run(s, d, es), PendingOf(s.rows, d)[p].id)
  {
    RunKeepsQueue(EMPTY, d, past);
    HandledByThen(Run(EMPTY, d, past), d, es, p);
  }

  // ----- lost marks and kills -----

  /** Taking rows out ahead of c only moves c forward. */
  lemma OutsideMovesForward(cmds: seq<Cmd>, ids: set<nat>, i: nat)
    requires i < |cmds| && cmds[i].id !in ids
    ensures exists j :: 0 <= j <= i && j < |Outside(cmds, ids)| && Outside(cmds, ids)[j] == cmds[i]
  {
    var front, rest, c := cmds[..i], cmds[i + 1..], cmds[i];
    assert cmds == front + ([c] + rest);
    OutsideJoin(front, [c] + rest, ids);
    OutsideJoin([c], rest, ids);
    assert Outside([c], ids) == [c] by { assert [c][1..] == []; }
    OutsideShorter(front, ids);
    hide Outside;
    assert Outside(cmds, ids)[|Outside(front, ids)|] == c;
  }

  /** No mark of this row reaches the table. */
  predicate Unmarked(s: Sys, d: Device, es: seq<Event>, id: nat)
    requires Valid(s, d, es)
    decreases es
  {
    es != [] ==> (es[0].Mark? && s.running.value.id == id ==> es[0].lost) && Unmarked(Step(s, d, es[0]), d, es[1..], id)
  }

  /** An unmarked row stays pending and never moves back, whatever is lost, killed or enqueued. */
  lemma {:induction false} UnmarkedMovesForward(s: Sys, d: Device, es: seq<Event>, i: nat) returns (j: nat)
    requires Valid(s, d, es) && i < |PendingOf(s.rows, d)| && Unmarked(s, d, es, PendingOf(s.rows, d)[i].id)
    ensures j <= i && j < |PendingOf(Run(s, d, es).rows, d)| && PendingOf(Run(s, d, es).rows, d)[j] == PendingOf(s.rows, d)[i]
    decreases es
  {
    j := i;
    if es != [] {
      var k := StepMovesForward(s, d, es[0], i);
      hide PendingOf, Step, Enabled;
      j := UnmarkedMovesForward(Step(s, d, es[0]), d, es[1..], k);
    }
  }

  lemma StepMovesForward(s: Sys, d: Device, e: Event, i: nat) returns (j: nat)
    requires Enabled(s, e) && i < |PendingOf(s.rows, d)|
    requires e.Mark? && s.running.value.id == PendingOf(s.rows, d)[i].id ==> e.lost
    ensures j <= i && j < |PendingOf(Step(s, d, e).rows, d)| && PendingOf(Step(s, d, e).rows, d)[j] == PendingOf(s.rows, d)[i]
  {
    hide PendingOf, Outside, Updated;
    j := i;
    match e
    case Enqueue(device, op) => PendingPrefix(s.rows, [Cmd(s.nextId, device, op, false, false)], d);
    case Mark(throws, lost) =>
      if !lost {
        var c := s.running.value;
        PendingAfterUpdate(s.rows, c.id, c.op !in WHITELIST || throws, d);
        OutsideMovesForward(PendingOf(s.rows, d), {c.id}, i);
        j :| 0 <= j <= i && j < |Outside(PendingOf(s.rows, d), {c.id})| && Outside(PendingOf(s.rows, d), {c.id})[j] == PendingOf(s.rows, d)[i];
      }
    case _ =>
  }

  /** A command of a batch whose mark never arrived, lost or cut off by a kill, is in the next batch again. */
  lemma LostMarkIsRetried(s: Sys, d: Device, es: seq<Event>, i: nat)
    requires i < |Batch(s.rows, d)| && Valid(s, d, es) && Unmarked(s, d, es, Batch(s.rows, d)[i].id) && Idle(Run(s, d, es))
    ensures Batch(s.rows, d)[i] in Step(Run(s, d, es), d, Poll(true)).rest
  {
    var j := UnmarkedMovesForward(s, d, es, i);
    var s' := Run(s, d, es);
    hide PendingOf, Valid, Run, Unmarked;
    assert Batch(s'.rows, d)[j] == Batch(s.rows, d)[i];
  }

  // ----- what is run -----

  lemma {:induction false} RunnableAppend(cmds: seq<Cmd>, c: Cmd)
    ensures Runnable(cmds + [c]) == Runnable(cmds) + if c.op in WHITELIST then [c] else []
  {
    if cmds == [] {
      assert (cmds + [c])[1..] == [];
    } else {
      var first := if cmds[0].op in WHITELIST then [cmds[0]] else [];
      assert (cmds + [c])[1..] == cmds[1..] + [c];
      RunnableAppend(cmds[1..], c);
      Associative(first, Runnable(cmds[1..]), if c.op in WHITELIST then [c] else []);
    }
  }

  /** In every run, lost marks and kills included, what is run is exactly the whitelisted part of what is handled. */
  lemma {:induction false} OnlyWhitelistedRun(s: Sys, d: Device, es: seq<Event>)
    requires Valid(s, d, es) && s.ran == Runnable(s.handled)
    ensures var s' := Run(s, d, es); s'.ran == Runnable(s'.handled)
    ensures var s' := Run(s, d, es);
      forall c :: c in s'.ran <==> c in s'.handled && c.op in {"keepawake", "location_once", "play_sound"}
    decreases es
  {
    if es == [] {
      RunnableIsWhitelisted(s.handled);
    } else {
      if es[0].Handle? { RunnableAppend(s.handled, s.rest[0]); }
      OnlyWhitelistedRun(Step(s, d, es[0]), d, es[1..]);
    }
  }

  lemma {:induction false} RunnableIsWhitelisted(batch: seq<Cmd>)
    ensures forall c :: c in Runnable(batch) <==> c in batch && c.op in WHITELIST
  {
    if batch != [] { RunnableIsWhitelisted(batch[1..]); }
  }

  /** Of a batch, the commands of the three ops are run, in the order of the batch. */
  lemma {:induction false} RunnableMeans(batch: seq<Cmd>)
    requires Ordered(batch)
    ensures Ordered(Runnable(batch))
    ensures forall c :: c in Runnable(batch) <==> c in batch && c.op in {"keepawake", "location_once", "play_sound"}
  {
    RunnableIsWhitelisted(batch);
    RunnableIsOrdered(batch);
  }

  lemma {:induction false} RunnableIsOrdered(batch: seq<Cmd>)
    requires Ordered(batch)
    ensures Ordered(Runnable(batch))
  {
    if batch != [] {
      OrderedTail(batch);
      RunnableIsWhitelisted(batch[1..]);
      RunnableCons(batch);
      hide *;
      RunnableIsOrdered(batch[1..]);
      OrderedCons(batch[0], Runnable(batch[1..]));
    }
  }

  lemma RunnableCons(batch: seq<Cmd>)
    requires batch != []
    ensures Runnable(batch) == if batch[0].op in WHITELIST then [batch[0]] + Runnable(batch[1..]) else Runnable(batch[1..])
  {
    assert [] + Runnable(batch[1..]) == Runnable(batch[1..]);
  }

  lemma OrderedTail(cmds: seq<Cmd>)
    requires Ordered(cmds) && cmds != []
    ensures Ordered(cmds[1..]) && forall c :: c in cmds[1..] ==> cmds[0].id < c.id
  {
  }

  lemma OrderedCons(c: Cmd, cmds: seq<Cmd>)
    requires Ordered(cmds) && forall b :: b in cmds ==> c.id < b.id
    ensures Ordered([c] + cmds)
  {
  }

  // ----- an undisturbed poll is drainCommandQueueOnce -----

  /** Handling and marking a batch with nothing in between. */
  function Drain(rest: seq<Cmd>, throws: set<nat>, lost: set<nat>): seq<Event> {
    if rest == [] then [] else [Handle, Mark(rest[0].id in throws, rest[0].id in lost)] + Drain(rest[1..], throws, lost)
  }

  lemma {:induction false} DrainRuns(s: Sys, d: Device, before: seq<Cmd>, pending: seq<Cmd>, handled: seq<nat>, ran: seq<Cmd>, throws: set<nat>, lost: set<nat>)
    requires s.running == None && Drained(before, s.rows, pending, s.rest, handled, ran, lost, throws)
    ensures Valid(s, d, Drain(s.rest, throws, lost))
    ensures var s' := Run(s, d, Drain(s.rest, throws, lost));
      && Idle(s') && s'.rows == Marked(before, IdSet(pending) - lost, throws)
      && s'.handled == s.handled + s.rest && s'.ran == s.ran + Runnable(s.rest)
    decreases s.rest
  {
    if s.rest == [] {
      DrainEnds(before, s.rows, pending, handled, ran, lost, throws);
      assert s.handled + [] == s.handled && s.ran + [] == s.ran;
    } else {
      var c := s.rest[0];
      var mark, more := Mark(c.id in throws, c.id in lost), Drain(s.rest[1..], throws, lost);
      DrainAdvances(before, s.rows, pending, s.rest, handled, ran, lost, throws);
      FirstOf(s.rest);
      HandleAndMark(s, d, mark, more);
      assert Drain(s.rest, throws, lost) == [Handle, mark] + more;
      var s2 := Step(Step(s, d, Handle), d, mark);
      hide Drained, Updated, Marked, Runnable, IdSet, Batch, Drain, Run, Valid, Step, Enabled;
      DrainRuns(s2, d, before, pending, handled + [c.id], if c.op in WHITELIST then ran + [c] else ran, throws, lost);
      assert s.rest == [c] + s.rest[1..];
      Associative(s.handled, [c], s.rest[1..]);
      Associative(s.ran, if c.op in WHITELIST then [c] else [], Runnable(s.rest[1..]));
    }
  }

  /** A command is handled and marked, then the rest of the run. */
  lemma HandleAndMark(s: Sys, d: Device, mark: Event, more: seq<Event>)
    requires s.running == None && s.rest != [] && mark.Mark?
    ensures Enabled(s, Handle) && Enabled(Step(s, d, Handle), mark)
    ensures var s2, c := Step(Step(s, d, Handle), d, mark), s.rest[0];
      && s2.running == None && s2.rest == s.rest[1..]
      && s2.handled == s.handled + [c] && s2.ran == s.ran + (if c.op in WHITELIST then [c] else [])
      && s2.rows == (if mark.lost then s.rows else Updated(s.rows, c.id, c.op !in WHITELIST || mark.throws))
      && (Valid(s2, d, more) ==> Valid(s, d, [Handle, mark] + more) && Run(s, d, [Handle, mark] + more) == Run(s2, d, more))
  {
    var es := [Handle, mark] + more;
    assert es[1..] == [mark] + more && es[1..][1..] == more;
    hide Updated;
    assert s.ran + [] == s.ran;
  }

  /** A poll nobody disturbs does to the table, and handles and runs, what drainCommandQueueOnce does. */
  lemma UndisturbedPoll(s: Sys, d: Device, throws: set<nat>, lost: set<nat>)
    requires Inv(s) && Idle(s)
    ensures var es, batch := Drain(Batch(s.rows, d), throws, lost), Batch(s.rows, d);
      Valid(Step(s, d, Poll(true)), d, es) &&
      var s' := Run(Step(s, d, Poll(true)), d, es);
      && Idle(s') && s'.rows == Marked(s.rows, IdSet(batch) - lost, throws)
      && s'.handled == s.handled + batch && s'.ran == s.ran + Runnable(batch)
  {
    var batch := Batch(s.rows, d);
    DrainStarts(s.rows, d, batch, lost, throws);
    DrainRuns(Step(s, d, Poll(true)), d, s.rows, batch, [], [], throws, lost);
  }
}

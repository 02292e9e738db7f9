/**
 Commands queued for an offline device (CommandQueue.kt) and the poller that drains them
 in batches (DriverService.kt).
 */
module CommandQueue {
  import opened Prelude

  type Device = string
  type Op = string

  const POLL_LIMIT: nat := 16
  const WHITELIST: set<Op> := {"keepawake", "location_once", "play_sound"}

  datatype Cmd = Cmd(id: nat, device: Device, op: Op, executed: bool, error: bool)

  /** The table in id order; ids come from an AUTOINCREMENT column. */
  predicate Ordered(rows: seq<Cmd>) {
    forall i, j :: 0 <= i < j < |rows| ==> rows[i].id < rows[j].id
  }

  /** The unexecuted rows of a device, oldest first. */
  function PendingOf(rows: seq<Cmd>, d: Device): seq<Cmd> {
    if rows == [] then []
    else (if rows[0].device == d && !rows[0].executed then [rows[0]] else []) + PendingOf(rows[1..], d)
  }

  /** What one poll selects. */
  function Batch(rows: seq<Cmd>, d: Device): seq<Cmd> {
    var pending := PendingOf(rows, d);
    if |pending| <= POLL_LIMIT then pending else pending[..POLL_LIMIT]
  }

  function Ids(cmds: seq<Cmd>): seq<nat> {
    seq(|cmds|, i requires 0 <= i < |cmds| => cmds[i].id)
  }

  function IdSet(cmds: seq<Cmd>): set<nat> {
    set i | 0 <= i < |cmds| :: cmds[i].id
  }

  /** The rows with the given ids marked executed, with an error unless the op is whitelisted and succeeded. */
  function Marked(rows: seq<Cmd>, ids: set<nat>, failed: set<nat>): seq<Cmd> {
    seq(|rows|, i requires 0 <= i < |rows| =>
      if rows[i].id in ids
      then rows[i].(executed := true, error := rows[i].op !in WHITELIST || rows[i].id in failed)
      else rows[i])
  }

  /** The UPDATE of one row. */
  function Updated(rows: seq<Cmd>, id: nat, error: bool): seq<Cmd> {
    seq(|rows|, i requires 0 <= i < |rows| =>
      if rows[i].id == id then rows[i].(executed := true, error := error) else rows[i])
  }

  /** The rows of a batch that are run: only whitelisted ops. */
  function Runnable(batch: seq<Cmd>): seq<Cmd> {
    if batch == [] then [] else (if batch[0].op in WHITELIST then [batch[0]] else []) + Runnable(batch[1..])
  }

  class CommandTable {
    var rows: seq<Cmd>
    var nextId: nat

    ghost predicate Valid()
      reads this
    {
      Ordered(rows) && forall i :: 0 <= i < |rows| ==> rows[i].id < nextId
    }

    constructor ()
      ensures Valid() && rows == []
    {
      rows, nextId := [], 1;
    }

    method Enqueue(d: Device, op: Op) returns (id: nat)
      requires Valid()
      modifies this
      ensures Valid() && id == old(nextId) && nextId == id + 1
      ensures rows == old(rows) + [Cmd(id, d, op, false, false)]
    {
      id := nextId;
      rows, nextId := rows + [Cmd(id, d, op, false, false)], nextId + 1;
    }

    /** A failing SELECT yields nothing. */
    method PendingFor(d: Device, ok: bool) returns (pending: seq<Cmd>)
      ensures pending == if ok then Batch(rows, d) else []
    {
      if !ok { return []; }
      pending := [];
      var i := 0;
      CollectStarts(rows, d);
      hide Collected, Batch;
      while i < |rows| && |pending| < POLL_LIMIT
        invariant i <= |rows| && |pending| <= POLL_LIMIT && Collected(rows, i, pending, d)
      {
        CollectAdvances(rows, i, pending, d);
        if rows[i].device == d && !rows[i].executed { pending := pending + [rows[i]]; }
        i := i + 1;
      }
      CollectEnds(rows, i, pending, d);
    }

    /** UPDATE ... WHERE id = ?; a database error is swallowed. */
    method MarkExecuted(id: nat, error: bool, ok: bool)
      requires Valid()
      modifies this`rows
      ensures Valid()
      ensures rows == if ok then Updated(old(rows), id, error) else old(rows)
      ensures |rows| == |old(rows)|
      ensures forall i :: 0 <= i < |rows| ==>
        var r := old(rows)[i];
        rows[i] == if ok && r.id == id then Cmd(id, r.device, r.op, true, error) else r
    {
      if ok { rows := Updated(rows, id, error); }
    }
  }

  /**
   One poll of device d. throws are the ops whose run fails, lost the ids whose mark does not
   reach the table. Handles the batch in order, runs only whitelisted ops, marks every row.
   */
  method DrainCommandQueueOnce(table: CommandTable, d: Device, ok: bool, throws: set<nat>, lost: set<nat>)
    returns (handled: seq<nat>, ran: seq<Cmd>)
    requires table.Valid()
    modifies table`rows
    ensures table.Valid()
    ensures var batch := if ok then Batch(old(table.rows), d) else [];
      && handled == Ids(batch) && ran == Runnable(batch)
      && table.rows == Marked(old(table.rows), IdSet(batch) - lost, throws)
      && |handled| == |batch| && (forall i :: 0 <= i < |batch| ==> handled[i] == batch[i].id)
    ensures |table.rows| == |old(table.rows)|
    ensures forall i :: 0 <= i < |table.rows| ==>
      var r := old(table.rows)[i];
      table.rows[i] ==
        if r.id in handled && r.id !in lost
        then Cmd(r.id, r.device, r.op, true, r.op !in {"keepawake", "location_once", "play_sound"} || r.id in throws)
        else r
  {
    var pending := table.PendingFor(d, ok);
    ghost var before := table.rows;
    handled, ran := [], [];
    var rest := pending;
    DrainStarts(before, d, pending, lost, throws);
    hide Drained, Batch, Updated, Runnable;
    while rest != []
      invariant table.Valid() && Drained(before, table.rows, pending, rest, handled, ran, lost, throws)
    {
      var cmd := rest[0];
      DrainAdvances(before, table.rows, pending, rest, handled, ran, lost, throws);
      if cmd.op in WHITELIST { ran := ran + [cmd]; }
      table.MarkExecuted(cmd.id, cmd.op !in WHITELIST || cmd.id in throws, cmd.id !in lost);
      handled := handled + [cmd.id];
      rest := rest[1..];
    }
    DrainEnds(before, table.rows, pending, handled, ran, lost, throws);
    MarkedMeans(before, pending, lost, throws);
  }

  /** After a poll the rows handled are marked unless the mark was lost: with an error if the op is none of the three or failed. */
  lemma MarkedMeans(before: seq<Cmd>, pending: seq<Cmd>, lost: set<nat>, throws: set<nat>)
    ensures var after := Marked(before, IdSet(pending) - lost, throws);
      && |after| == |before|
      && forall i :: 0 <= i < |before| ==>
        var r := before[i];
        after[i] ==
          if r.id in Ids(pending) && r.id !in lost
          then Cmd(r.id, r.device, r.op, true, r.op !in {"keepawake", "location_once", "play_sound"} || r.id in throws)
          else r
  {
    IdsAre(pending);
  }

  lemma IdsAre(cmds: seq<Cmd>)
    ensures forall id :: id in Ids(cmds) <==> id in IdSet(cmds)
  {
    forall id | id in IdSet(cmds)
      ensures id in Ids(cmds)
    {
      var i :| 0 <= i < |cmds| && cmds[i].id == id;
      assert Ids(cmds)[i] == id;
    }
  }

  /** How far a drain is: rest of the batch is still to be handled. */
  ghost predicate Drained(before: seq<Cmd>, rows: seq<Cmd>, pending: seq<Cmd>, rest: seq<Cmd>,
                          handled: seq<nat>, ran: seq<Cmd>, lost: set<nat>, throws: set<nat>) {
    && Ordered(before) && (forall c :: c in rest ==> c in before)
    && handled + Ids(rest) == Ids(pending) && ran + Runnable(rest) == Runnable(pending)
    && (forall id :: id in IdSet(pending) <==> id in handled || id in IdSet(rest))
    && rows == Marked(before, (set id | id in handled) - lost, throws)
  }

  lemma DrainStarts(before: seq<Cmd>, d: Device, pending: seq<Cmd>, lost: set<nat>, throws: set<nat>)
    requires Ordered(before) && (pending == Batch(before, d) || pending == [])
    ensures Drained(before, before, pending, pending, [], [], lost, throws)
  {
    BatchIsStored(before, d);
  }

  lemma DrainAdvances(before: seq<Cmd>, rows: seq<Cmd>, pending: seq<Cmd>, rest: seq<Cmd>,
                      handled: seq<nat>, ran: seq<Cmd>, lost: set<nat>, throws: set<nat>)
    requires rest != [] && Drained(before, rows, pending, rest, handled, ran, lost, throws)
    ensures var cmd := rest[0];
      Drained(before, if cmd.id !in lost then Updated(rows, cmd.id, cmd.op !in WHITELIST || cmd.id in throws) else rows,
              pending, rest[1..], handled + [cmd.id], if cmd.op in WHITELIST then ran + [cmd] else ran, lost, throws)
  {
    var cmd := rest[0];
    FirstOf(rest);
    RowsAdvance(before, rows, handled, cmd, lost, throws);
    hide Marked, Updated, Ids, IdSet, Runnable, Ordered;
    assert handled + Ids(rest) == (handled + [cmd.id]) + Ids(rest[1..]);
    assert ran + Runnable(rest) == (if cmd.op in WHITELIST then ran + [cmd] else ran) + Runnable(rest[1..]);
  }

  lemma RowsAdvance(before: seq<Cmd>, rows: seq<Cmd>, handled: seq<nat>, cmd: Cmd, lost: set<nat>, throws: set<nat>)
    requires Ordered(before) && cmd in before && rows == Marked(before, (set id | id in handled) - lost, throws)
    ensures (if cmd.id !in lost then Updated(rows, cmd.id, cmd.op !in WHITELIST || cmd.id in throws) else rows)
         == Marked(before, (set id | id in handled + [cmd.id]) - lost, throws)
  {
    var done := (set id | id in handled) - lost;
    var next := if cmd.id !in lost then Updated(rows, cmd.id, cmd.op !in WHITELIST || cmd.id in throws) else rows;
    MarkOne(before, rows, next, done, throws, cmd, cmd.id !in lost);
    assert (set id | id in handled + [cmd.id]) - lost == if cmd.id !in lost then done + {cmd.id} else done;
  }

  lemma DrainEnds(before: seq<Cmd>, rows: seq<Cmd>, pending: seq<Cmd>, handled: seq<nat>, ran: seq<Cmd>, lost: set<nat>, throws: set<nat>)
    requires Drained(before, rows, pending, [], handled, ran, lost, throws)
    ensures handled == Ids(pending) && ran == Runnable(pending) && rows == Marked(before, IdSet(pending) - lost, throws)
  {
    assert (set id | id in handled) == IdSet(pending);
  }

  lemma FirstOf(rest: seq<Cmd>)
    requires rest != []
    ensures Ids(rest) == [rest[0].id] + Ids(rest[1..]) && IdSet(rest) == {rest[0].id} + IdSet(rest[1..])
    ensures Runnable(rest) == (if rest[0].op in WHITELIST then [rest[0]] else []) + Runnable(rest[1..])
  {
    assert forall c :: c in rest <==> c == rest[0] || c in rest[1..];
    assert forall i :: 0 <= i < |rest| - 1 ==> rest[1..][i] == rest[i + 1];
  }

  lemma BatchIsStored(rows: seq<Cmd>, d: Device)
    ensures forall c :: c in Batch(rows, d) ==> c in rows && c.device == d && !c.executed
  {
    forall c | c in Batch(rows, d)
      ensures c in rows && c.device == d && !c.executed
    {
      PendingIsStored(rows, d, c);
    }
  }

  /** One UPDATE more. */
  lemma MarkOne(before: seq<Cmd>, current: seq<Cmd>, next: seq<Cmd>, ids: set<nat>, failed: set<nat>, cmd: Cmd, ok: bool)
    requires Ordered(before) && cmd in before && current == Marked(before, ids, failed)
    requires next == if ok then Updated(current, cmd.id, cmd.op !in WHITELIST || cmd.id in failed) else current
    ensures next == Marked(before, if ok then ids + {cmd.id} else ids, failed)
  {
    forall i | 0 <= i < |before| && before[i].id == cmd.id
      ensures before[i] == cmd
    {
      var j :| 0 <= j < |before| && before[j] == cmd;
      assert i == j;
    }
  }

  /** pending is what the first i rows contribute. */
  ghost predicate Collected(rows: seq<Cmd>, i: nat, pending: seq<Cmd>, d: Device)
    requires i <= |rows|
  {
    pending + PendingOf(rows[i..], d) == PendingOf(rows, d)
  }

  lemma CollectStarts(rows: seq<Cmd>, d: Device)
    ensures Collected(rows, 0, [], d)
  {
    assert rows[0..] == rows;
  }

  lemma CollectAdvances(rows: seq<Cmd>, i: nat, pending: seq<Cmd>, d: Device)
    requires i < |rows| && Collected(rows, i, pending, d)
    ensures Collected(rows, i + 1, if rows[i].device == d && !rows[i].executed then pending + [rows[i]] else pending, d)
  {
    assert rows[i..][1..] == rows[i + 1..];
    assert PendingOf(rows[i..], d) == (if rows[i].device == d && !rows[i].executed then [rows[i]] else []) + PendingOf(rows[i + 1..], d);
  }

  lemma CollectEnds(rows: seq<Cmd>, i: nat, pending: seq<Cmd>, d: Device)
    requires i <= |rows| && Collected(rows, i, pending, d)
    requires |pending| == POLL_LIMIT || (i == |rows| && |pending| <= POLL_LIMIT)
    ensures pending == Batch(rows, d)
  {
    var rest := PendingOf(rows[i..], d);
    assert (pending + rest)[..|pending|] == pending;
    if i == |rows| { assert rest == []; }
  }

  /** The poller of one service; a second start is a no-op. */
  class Service {
    var pollers: nat

    constructor ()
      ensures pollers == 0
    {
      pollers := 0;
    }

    method StartCommandPoller(signedIn: bool)
      requires pollers <= 1
      modifies this
      ensures pollers <= 1 && (pollers == 1 <==> old(pollers) == 1 || signedIn)
    {
      if pollers != 0 || !signedIn { return; }
      pollers := 1;
    }
  }

  lemma {:induction false} PendingIsStored(rows: seq<Cmd>, d: Device, cmd: Cmd)
    requires cmd in PendingOf(rows, d)
    ensures cmd in rows && cmd.device == d && !cmd.executed
  {
    if cmd !in (if rows[0].device == d && !rows[0].executed then [rows[0]] else []) {
      PendingIsStored(rows[1..], d, cmd);
    }
  }
}

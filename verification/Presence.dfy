/**
 Which node holds a device's live socket (hub/db.py, hub/app.py): connection handlers publish
 and clear a shared row, a heartbeat refreshes it, and requests are relayed to the node it names.
 */
module Presence {
  import opened Prelude
  import opened Text

  type Node = string
  type Device = string
  type Sock = nat

  const MAX_AGE: int := 90
  const PURGE_AGE: int := 3600

  datatype Row = Row(node: Node, lastSeen: int)

  type Table = map<Device, Row>

  function Published(t: Table, d: Device, n: Node, now: int): Table {
    t[d := Row(n, now)]
  }

  /** What the table keeps of a node's address. */
  function NodeOf(url: string): Node {
    RStrip(Strip(url))
  }

  /** Only the recorded node can clear the row. */
  function Cleared(t: Table, d: Device, n: Node): Table {
    if d in t && t[d].node == n then t - {d} else t
  }

  function Purged(t: Table, now: int): Table {
    map d | d in t && t[d].lastSeen >= now - PURGE_AGE :: t[d]
  }

  function Lookup(t: Table, d: Device, now: int): Option<Node> {
    if d in t && t[d].lastSeen >= now - MAX_AGE then Some(t[d].node) else None
  }

  class PresenceTable {
    var rows: Table

    constructor ()
      ensures rows == map[]
    {
      rows := map[];
    }

    method PublishDevicePresence(d: Device, url: string, now: int)
      modifies this
      ensures rows == if d == "" || RStrip(Strip(url)) == "" then old(rows) else old(rows)[d := Row(RStrip(Strip(url)), now)]
    {
      var node := RStrip(Strip(url));
      if d == "" || node == "" { return; }
      rows := rows[d := Row(node, now)];
    }

    method ClearDevicePresence(d: Device, url: string)
      modifies this
      ensures rows == Cleared(old(rows), d, NodeOf(url))
      ensures rows == if d in old(rows) && old(rows)[d].node == RStrip(Strip(url)) then old(rows) - {d} else old(rows)
    {
      var node := RStrip(Strip(url));
      if d in rows && rows[d].node == node { rows := rows - {d}; }
    }

    method GetDevicePresence(d: Device, now: int) returns (n: Option<Node>)
      ensures n == Lookup(rows, d, now)
      ensures n.Some? <==> d in rows && rows[d].lastSeen >= now - 90
      ensures n.Some? ==> n.value == rows[d].node
    {
      if d in rows && rows[d].lastSeen >= now - MAX_AGE { n := Some(rows[d].node); } else { n := None; }
    }
  }

  // ----- nodes, sockets and the shared table -----

  /** A handler registers its socket, publishes, serves, unregisters, and clears. */
  datatype Stage = Registered | Serving | Unregistered | Gone

  datatype Handler = Handler(d: Device, n: Node, stage: Stage)

  /** registry gives each node's live socket per device; a node's address is written as the table keeps it. */
  datatype Sys = Sys(registry: map<(Node, Device), Sock>, handlers: map<Sock, Handler>, table: Table, clock: int)

  /** Abandon is the teardown of a handler whose acknowledgement could not be sent: it never clears. */
  datatype Event =
    | Connect(k: Sock, d: Device, n: Node)
    | Publish(k: Sock, now: int)
    | Unregister(k: Sock)
    | Clear(k: Sock)
    | Abandon(k: Sock)
    | Heartbeat(n: Node, d: Device, now: int)
    | Purge(now: int)

  predicate AtStage(s: Sys, k: Sock, stage: Stage) {
    k in s.handlers && s.handlers[k].stage == stage
  }

  predicate Enabled(s: Sys, e: Event) {
    match e
    case Connect(k, d, n) => k !in s.handlers && d != "" && n != "" && NodeOf(n) == n
    case Publish(k, now) => AtStage(s, k, Registered) && now >= s.clock
    case Unregister(k) => AtStage(s, k, Serving)
    case Clear(k) => AtStage(s, k, Unregistered)
    case Abandon(k) => AtStage(s, k, Registered) || AtStage(s, k, Serving)
    case Heartbeat(n, d, now) => (n, d) in s.registry && now >= s.clock
    case Purge(now) => now >= s.clock
  }

  /** Registry.unregister: only the current socket is removed. */
  function Dropped(s: Sys, k: Sock): map<(Node, Device), Sock>
    requires k in s.handlers
  {
    var key := (s.handlers[k].n, s.handlers[k].d);
    if key in s.registry && s.registry[key] == k then s.registry - {key} else s.registry
  }

  function Moved(s: Sys, k: Sock, stage: Stage): map<Sock, Handler>
    requires k in s.handlers
  {
    s.handlers[k := s.handlers[k].(stage := stage)]
  }

  function Step(s: Sys, e: Event): Sys
    requires Enabled(s, e)
  {
    match e
    case Connect(k, d, n) => s.(registry := s.registry[(n, d) := k], handlers := s.handlers[k := Handler(d, n, Registered)])
    case Publish(k, now) =>
      s.(handlers := Moved(s, k, Serving), table := Published(s.table, s.handlers[k].d, s.handlers[k].n, now), clock := now)
    case Unregister(k) => s.(registry := Dropped(s, k), handlers := Moved(s, k, Unregistered))
    case Clear(k) => s.(handlers := Moved(s, k, Gone), table := Cleared(s.table, s.handlers[k].d, s.handlers[k].n))
    case Abandon(k) => s.(registry := Dropped(s, k), handlers := Moved(s, k, Gone))
    case Heartbeat(n, d, now) => s.(table := Published(s.table, d, n, now), clock := now)
    case Purge(now) => s.(table := Purged(s.table, now), clock := now)
  }

  /** A node's live socket of a device is the last one connected there; its own teardown, and no other's, removes it. */
  lemma StepRegisters(s: Sys, e: Event, n: Node, d: Device)
    requires Enabled(s, e)
    ensures var live, live' := s.registry, Step(s, e).registry;
      if e.Connect? && e.n == n && e.d == d then (n, d) in live' && live'[(n, d)] == e.k
      else if (n, d) in live && (e.Unregister? || e.Abandon?) && e.k == live[(n, d)]
              && s.handlers[e.k].n == n && s.handlers[e.k].d == d then (n, d) !in live'
      else ((n, d) in live' <==> (n, d) in live) && ((n, d) in live ==> live'[(n, d)] == live[(n, d)])
  {
  }

  predicate Valid(s: Sys, es: seq<Event>)
    decreases es
  {
    es != [] ==> Enabled(s, es[0]) && Valid(Step(s, es[0]), es[1..])
  }

  function Run(s: Sys, es: seq<Event>): Sys
    requires Valid(s, es)
    decreases es
  {
    if es == [] then s else Run(Step(s, es[0]), es[1..])
  }

  function Empty(now: int): Sys {
    Sys(map[], map[], map[], now)
  }

  /** A registered socket belongs to a handler of that node and device that has not unregistered. */
  ghost predicate Inv(s: Sys) {
    forall key :: key in s.registry ==>
      && key.1 != "" && key.0 != "" && NodeOf(key.0) == key.0
      && s.registry[key] in s.handlers
      && s.handlers[s.registry[key]].n == key.0 && s.handlers[s.registry[key]].d == key.1
      && s.handlers[s.registry[key]].stage in {Registered, Serving}
  }

  lemma StepKeepsInv(s: Sys, e: Event)
    requires Inv(s) && Enabled(s, e)
    ensures Inv(Step(s, e))
  {
    hide NodeOf, Published, Cleared, Purged;
  }

  lemma {:induction false} RunKeepsInv(s: Sys, es: seq<Event>)
    requires Inv(s) && Valid(s, es)
    ensures Inv(Run(s, es))
    decreases es
  {
    if es != [] {
      StepKeepsInv(s, es[0]);
      RunKeepsInv(Step(s, es[0]), es[1..]);
    }
  }

  /** Socket k is the device's live one, on node n; every other handler of the device has finished. */
  ghost predicate Settled(s: Sys, d: Device, n: Node, k: Sock) {
    && (n, d) in s.registry && s.registry[(n, d)] == k
    && k in s.handlers && s.handlers[k] == Handler(d, n, Serving)
    && forall j :: j in s.handlers && j != k && s.handlers[j].d == d ==> s.handlers[j].stage == Gone
  }

  /** While settled, nothing but the holder's heartbeat and the hourly purge touches the device's row. */
  lemma OnlyHolderTouchesRow(s: Sys, e: Event, d: Device, n: Node, k: Sock)
    requires Inv(s) && Enabled(s, e) && Settled(s, d, n, k) && Settled(Step(s, e), d, n, k)
    ensures var t, t' := s.table, Step(s, e).table;
      if e.Heartbeat? && e.d == d then e.n == n && d in t' && t'[d] == Row(n, e.now)
      else if e.Purge? then (d in t' ==> d in t && t'[d] == t[d]) && (d in t && t[d].lastSeen >= e.now - 3600 ==> d in t')
      else (d in t' <==> d in t) && (d in t ==> t'[d] == t[d])
  {
    if e.Heartbeat? && e.d == d {
      assert s.registry[(e.n, d)] == k;
    }
  }

  /** Every state of the run is settled. */
  ghost predicate StaysSettled(s: Sys, es: seq<Event>, d: Device, n: Node, k: Sock)
    requires Valid(s, es)
    decreases es
  {
    Settled(s, d, n, k) && (es != [] ==> StaysSettled(Step(s, es[0]), es[1..], d, n, k))
  }

  lemma {:induction false} RowStaysWithHolder(s: Sys, es: seq<Event>, d: Device, n: Node, k: Sock, since: int)
    requires Inv(s) && Valid(s, es) && StaysSettled(s, es, d, n, k)
    requires d in s.table && s.table[d].node == n && s.table[d].lastSeen >= since && s.clock >= since
    requires Run(s, es).clock <= since + 3600
    ensures var t := Run(s, es).table; d in t && t[d].node == n && t[d].lastSeen >= since
    decreases es
  {
    if es != [] {
      var s' := Step(s, es[0]);
      StepKeepsInv(s, es[0]);
      ClockNeverGoesBack(s', es[1..]);
      OnlyHolderTouchesRow(s, es[0], d, n, k);
      RowStaysWithHolder(s', es[1..], d, n, k, since);
    }
  }

  lemma {:induction false} ClockNeverGoesBack(s: Sys, es: seq<Event>)
    requires Valid(s, es)
    ensures s.clock <= Run(s, es).clock
    decreases es
  {
    if es != [] { ClockNeverGoesBack(Step(s, es[0]), es[1..]); }
  }

  /** Where a request for d is handled, and after how many hops. */
  datatype Served = Served(n: Node, hops: nat)

  /** The relay middleware: serve here if we hold the socket or it was relayed already, else follow the row once. */
  function Serve(s: Sys, entry: Node, d: Device, relayed: bool, now: int): Served
    decreases !relayed
  {
    if relayed || (entry, d) in s.registry then Served(entry, 0)
    else
      var node := Lookup(s.table, d, now);
      if node == None || node.value == entry then Served(entry, 0)
      else Served(Serve(s, node.value, d, true, now).n, 1 + Serve(s, node.value, d, true, now).hops)
  }

  /**
   A request is relayed exactly when it was not relayed before, the entry node has no socket of the
   device, and a row seen in the last 90 seconds names another node; an older row is not followed.
   */
  lemma RelayedIff(s: Sys, entry: Node, d: Device, relayed: bool, now: int)
    ensures Serve(s, entry, d, relayed, now) ==
      if !relayed && (entry, d) !in s.registry && d in s.table && now - s.table[d].lastSeen <= 90 && s.table[d].node != entry
      then Served(s.table[d].node, 1)
      else Served(entry, 0)
  {
    assert forall n :: Serve(s, n, d, true, now) == Served(n, 0);
  }

  /** No request ever takes more than one hop. */
  lemma AtMostOneHop(s: Sys, entry: Node, d: Device, relayed: bool, now: int)
    ensures Serve(s, entry, d, relayed, now).hops <= if relayed then 0 else 1
  {
    assert forall n :: Serve(s, n, d, true, now).hops == 0;
  }

  /**
   Once a device is settled on node n, n's next heartbeat makes the row n; as long as it stays
   settled nobody else changes that; and while the heartbeat is fresh a request entering at any
   node is served by n, in one hop unless it entered there.
   */
  lemma RequestsReachTheHolder(start: int, past: seq<Event>, d: Device, n: Node, k: Sock, beat: int, es: seq<Event>, entry: Node)
    requires Valid(Empty(start), past) && Settled(Run(Empty(start), past), d, n, k)
    requires beat >= Run(Empty(start), past).clock
    requires var s := Step(Run(Empty(start), past), Heartbeat(n, d, beat));
      Valid(s, es) && StaysSettled(s, es, d, n, k) && Run(s, es).clock <= beat + 90
    ensures var s := Run(Step(Run(Empty(start), past), Heartbeat(n, d, beat)), es);
      && d in s.table && s.table[d].node == n
      && Serve(s, entry, d, false, s.clock) == Served(n, if entry == n then 0 else 1)
  {
    RunKeepsInv(Empty(start), past);
    var s0 := Run(Empty(start), past);
    var s := Step(s0, Heartbeat(n, d, beat));
    StepKeepsInv(s0, Heartbeat(n, d, beat));
    RowStaysWithHolder(s, es, d, n, k, beat);
    RunKeepsInv(s, es);
    StillSettled(s, es, d, n, k);
    var s' := Run(s, es);
    if (entry, d) in s'.registry { assert s'.registry[(entry, d)] == k; }
  }

  lemma {:induction false} StillSettled(s: Sys, es: seq<Event>, d: Device, n: Node, k: Sock)
    requires Valid(s, es) && StaysSettled(s, es, d, n, k)
    ensures Settled(Run(s, es), d, n, k)
    decreases es
  {
    if es != [] { StillSettled(Step(s, es[0]), es[1..], d, n, k); }
  }

  // ----- exactly when a row names a node -----

  /** Event e writes node n's name into the row of d; handlers tells whose sockets are whose. */
  predicate Names(handlers: map<Sock, Handler>, e: Event, d: Device, n: Node) {
    || (e.Heartbeat? && e.n == n && e.d == d)
    || (e.Publish? && e.k in handlers && handlers[e.k].d == d && handlers[e.k].n == n)
  }

  /** Another node publishes d. */
  predicate NamesOther(handlers: map<Sock, Handler>, e: Event, d: Device, n: Node) {
    || (e.Heartbeat? && e.n != n && e.d == d)
    || (e.Publish? && e.k in handlers && handlers[e.k].d == d && handlers[e.k].n != n)
  }

  /** A handler of d on n clears. */
  predicate Clears(handlers: map<Sock, Handler>, e: Event, d: Device, n: Node) {
    e.Clear? && e.k in handlers && handlers[e.k].d == d && handlers[e.k].n == n
  }

  /** A purge finds a row last seen at that time too old. */
  predicate Outdates(e: Event, seen: int) {
    e.Purge? && seen < e.now - 3600
  }

  function Seen(e: Event): int {
    match e case Heartbeat(_, _, now) => now case Publish(_, now) => now case _ => 0
  }

  /** Event i names n, and nothing after it removes or replaces that row. */
  ghost predicate StandsFrom(handlers: map<Sock, Handler>, es: seq<Event>, i: nat, d: Device, n: Node) {
    && i < |es| && Names(handlers, es[i], d, n)
    && forall j :: i < j < |es| ==>
      !NamesOther(handlers, es[j], d, n) && !Clears(handlers, es[j], d, n) && !Outdates(es[j], Seen(es[i]))
  }

  predicate RowNames(t: Table, d: Device, n: Node) {
    d in t && t[d].node == n
  }

  /** Handlers keep their device and node for ever. */
  predicate Extends(now: map<Sock, Handler>, later: map<Sock, Handler>) {
    forall k :: k in now ==> k in later && later[k].d == now[k].d && later[k].n == now[k].n
  }

  lemma {:induction false} RunLast(s: Sys, es: seq<Event>)
    requires es != [] && Valid(s, es)
    ensures Valid(s, es[..|es| - 1]) && Enabled(Run(s, es[..|es| - 1]), es[|es| - 1])
    ensures Run(s, es) == Step(Run(s, es[..|es| - 1]), es[|es| - 1])
    decreases |es|
  {
    if |es| > 1 {
      RunLast(Step(s, es[0]), es[1..]);
      assert es[1..][..|es| - 2] == es[..|es| - 1][1..];
      hide Step, Enabled;
      assert es[..|es| - 1] != [] && es[..|es| - 1][0] == es[0];
    } else {
      assert es[1..] == [];
    }
  }

  lemma StepExtends(s: Sys, e: Event)
    requires Enabled(s, e)
    ensures Extends(s.handlers, Step(s, e).handlers)
  {
  }

  /** What one event does to whether the row names n. */
  lemma StepNames(s: Sys, e: Event, handlers: map<Sock, Handler>, d: Device, n: Node)
    requires Enabled(s, e) && Extends(Step(s, e).handlers, handlers)
    ensures Names(handlers, e, d, n) ==> RowNames(Step(s, e).table, d, n) && Step(s, e).table[d].lastSeen == Seen(e)
    ensures NamesOther(handlers, e, d, n) || Clears(handlers, e, d, n) ==> !RowNames(Step(s, e).table, d, n)
    ensures !Names(handlers, e, d, n) && RowNames(Step(s, e).table, d, n) ==>
      && RowNames(s.table, d, n) && s.table[d] == Step(s, e).table[d]
      && !NamesOther(handlers, e, d, n) && !Clears(handlers, e, d, n) && !Outdates(e, s.table[d].lastSeen)
    ensures !Names(handlers, e, d, n) && !NamesOther(handlers, e, d, n) && !Clears(handlers, e, d, n) ==>
      (RowNames(s.table, d, n) && !Outdates(e, s.table[d].lastSeen) ==>
         RowNames(Step(s, e).table, d, n) && s.table[d] == Step(s, e).table[d])
  {
    StepExtends(s, e);
    assert forall k :: k in s.handlers ==> k in handlers && handlers[k].d == s.handlers[k].d && handlers[k].n == s.handlers[k].n;
  }

  lemma {:induction false} NamedRowStands(start: int, es: seq<Event>, handlers: map<Sock, Handler>, d: Device, n: Node)
    requires Valid(Empty(start), es) && Extends(Run(Empty(start), es).handlers, handlers)
    requires RowNames(Run(Empty(start), es).table, d, n)
    ensures exists i: nat :: StandsFrom(handlers, es, i, d, n) && Seen(es[i]) == Run(Empty(start), es).table[d].lastSeen
    decreases |es|
  {
    var front, last := es[..|es| - 1], es[|es| - 1];
    RunLast(Empty(start), es);
    var s := Run(Empty(start), front);
    StepExtends(s, last);
    StepNames(s, last, handlers, d, n);
    hide Run, Valid, Step, Enabled, Names, NamesOther, Clears, Outdates, RowNames;
    if Names(handlers, last, d, n) {
      assert StandsFrom(handlers, es, |front|, d, n);
    } else {
      NamedRowStands(start, front, handlers, d, n);
      var i: nat :| StandsFrom(handlers, front, i, d, n) && Seen(front[i]) == s.table[d].lastSeen;
      StandsLonger(handlers, es, i, d, n);
    }
  }

  lemma {:induction false} StandingRowIsNamed(start: int, es: seq<Event>, handlers: map<Sock, Handler>, d: Device, n: Node, i: nat)
    requires Valid(Empty(start), es) && Extends(Run(Empty(start), es).handlers, handlers)
    requires StandsFrom(handlers, es, i, d, n)
    ensures RowNames(Run(Empty(start), es).table, d, n) && Run(Empty(start), es).table[d].lastSeen >= Seen(es[i])
    decreases |es|
  {
    var front, last := es[..|es| - 1], es[|es| - 1];
    RunLast(Empty(start), es);
    var s := Run(Empty(start), front);
    StepExtends(s, last);
    StepNames(s, last, handlers, d, n);
    hide Run, Valid, Step, Enabled, Names, NamesOther, Clears, RowNames, StandsFrom;
    if i < |front| {
      StandsBefore(handlers, es, i, d, n);
      StandingRowIsNamed(start, front, handlers, d, n, i);
      SeenGrows(start, front, d, last);
    }
  }

  /**
   Over every run from an empty table: the row of d names n exactly when some publish or heartbeat
   of n was followed by no publish of another node, no clear by a handler of d on n, and no purge
   that found it an hour old.
   */
  lemma RowNamesIff(start: int, es: seq<Event>, d: Device, n: Node)
    requires Valid(Empty(start), es)
    ensures var s := Run(Empty(start), es);
      RowNames(s.table, d, n) <==> exists i: nat :: StandsFrom(s.handlers, es, i, d, n)
  {
    var s := Run(Empty(start), es);
    if RowNames(s.table, d, n) { NamedRowStands(start, es, s.handlers, d, n); }
    forall i: nat | StandsFrom(s.handlers, es, i, d, n)
      ensures RowNames(s.table, d, n)
    {
      StandingRowIsNamed(start, es, s.handlers, d, n, i);
    }
  }

  /** Socket k of d is n's live one at the end of the run, and event i is n's last publish or heartbeat of d, too young to purge. */
  predicate LiveSince(start: int, es: seq<Event>, d: Device, n: Node, k: Sock, i: nat)
    requires Valid(Empty(start), es)
  {
    var s := Run(Empty(start), es);
    && (n, d) in s.registry && s.registry[(n, d)] == k
    && i < |es| && Names(s.handlers, es[i], d, n)
    && forall j :: i < j < |es| ==> !Names(s.handlers, es[j], d, n) && !Outdates(es[j], Seen(es[i]))
  }

  /**
   The row of a device with a live socket names its node exactly when, since the node's last publish
   or heartbeat of it, no other handler of the device on this node has cleared and no other node
   has published it.
   */
  lemma LiveSocketHasRowIff(start: int, es: seq<Event>, d: Device, n: Node, k: Sock, i: nat)
    requires Valid(Empty(start), es) && LiveSince(start, es, d, n, k, i)
    ensures var s := Run(Empty(start), es);
      RowNames(s.table, d, n) <==>
      (forall j :: i < j < |es| ==> !NamesOther(s.handlers, es[j], d, n) && !(Clears(s.handlers, es[j], d, n) && es[j].k != k))
  {
    var s := Run(Empty(start), es);
    forall j | 0 <= j < |es| && es[j].Clear?
      ensures es[j].k != k
    {
      LiveHasNotCleared(start, es, j, k, d, n);
    }
    RowNamesIff(start, es, d, n);
    hide Run, Valid, Names, NamesOther, Clears, Outdates, RowNames;
    if forall j :: i < j < |es| ==> !NamesOther(s.handlers, es[j], d, n) && !(Clears(s.handlers, es[j], d, n) && es[j].k != k) {
      assert forall j :: i < j < |es| && Clears(s.handlers, es[j], d, n) ==> es[j].Clear? by { ClearsAreClears(s.handlers, es, d, n); }
      assert StandsFrom(s.handlers, es, i, d, n);
    } else {
      forall m: nat | StandsFrom(s.handlers, es, m, d, n)
        ensures m <= i
      {
        assert Names(s.handlers, es[m], d, n);
      }
    }
  }

  lemma ClearsAreClears(handlers: map<Sock, Handler>, es: seq<Event>, d: Device, n: Node)
    ensures forall j :: 0 <= j < |es| && Clears(handlers, es[j], d, n) ==> es[j].Clear?
  {
  }

  /** The handler of a live socket is not past unregistering, so it has not cleared. */
  lemma {:induction false} LiveHasNotCleared(start: int, es: seq<Event>, j: nat, k: Sock, d: Device, n: Node)
    requires Valid(Empty(start), es) && j < |es| && es[j].Clear?
    requires var s := Run(Empty(start), es); (n, d) in s.registry && s.registry[(n, d)] == k
    ensures es[j].k != k
  {
    RunKeepsInv(Empty(start), es);
    ClearedIsGone(Empty(start), es, j);
  }

  lemma {:induction false} ClearedIsGone(s: Sys, es: seq<Event>, j: nat)
    requires Valid(s, es) && j < |es| && es[j].Clear?
    ensures AtStage(Run(s, es), es[j].k, Gone)
    decreases |es|
  {
    RunLast(s, es);
    if j < |es| - 1 {
      ClearedIsGone(s, es[..|es| - 1], j);
      GoneStays(Run(s, es[..|es| - 1]), es[|es| - 1], es[j].k);
    }
  }

  lemma GoneStays(s: Sys, e: Event, k: Sock)
    requires Enabled(s, e) && AtStage(s, k, Gone)
    ensures AtStage(Step(s, e), k, Gone)
  {
  }

  /** Every time in the past is at most the clock. */
  lemma SeenGrows(start: int, es: seq<Event>, d: Device, e: Event)
    requires Valid(Empty(start), es) && Enabled(Run(Empty(start), es), e)
    ensures d in Run(Empty(start), es).table && (e.Heartbeat? || e.Publish?) ==> Run(Empty(start), es).table[d].lastSeen <= Seen(e)
  {
    SeenByNow(start, es, d);
  }

  lemma {:induction false} SeenByNow(start: int, es: seq<Event>, d: Device)
    requires Valid(Empty(start), es)
    ensures d in Run(Empty(start), es).table ==> Run(Empty(start), es).table[d].lastSeen <= Run(Empty(start), es).clock
    decreases |es|
  {
    if es != [] {
      RunLast(Empty(start), es);
      SeenByNow(start, es[..|es| - 1], d);
    }
  }

  lemma StandsLonger(handlers: map<Sock, Handler>, es: seq<Event>, i: nat, d: Device, n: Node)
    requires es != [] && StandsFrom(handlers, es[..|es| - 1], i, d, n)
    requires var e := es[|es| - 1]; !NamesOther(handlers, e, d, n) && !Clears(handlers, e, d, n) && !Outdates(e, Seen(es[i]))
    ensures StandsFrom(handlers, es, i, d, n)
  {
    hide Names, NamesOther, Clears, Outdates;
    assert forall j :: 0 <= j < |es| - 1 ==> es[..|es| - 1][j] == es[j];
  }

  lemma StandsBefore(handlers: map<Sock, Handler>, es: seq<Event>, i: nat, d: Device, n: Node)
    requires i < |es| - 1 && StandsFrom(handlers, es, i, d, n)
    ensures StandsFrom(handlers, es[..|es| - 1], i, d, n) && es[..|es| - 1][i] == es[i]
    ensures var e := es[|es| - 1]; !NamesOther(handlers, e, d, n) && !Clears(handlers, e, d, n) && !Outdates(e, Seen(es[i]))
  {
    hide Names, NamesOther, Clears, Outdates;
    assert forall j :: 0 <= j < |es| - 1 ==> es[..|es| - 1][j] == es[j];
  }

  /**
   Before the older handler has finished, a live socket can be without a row: a second socket of the
   device on the same node takes over, and the first handler's teardown clears the row it shares.
   */
  lemma SupersededTeardownClearsRow(s: Sys, d: Device, n: Node, k: Sock, k2: Sock, now: int)
    requires Inv(s) && Settled(s, d, n, k) && k2 !in s.handlers && now >= s.clock
    ensures var s1 := Step(s, Connect(k2, d, n));
      var s2 := Step(s1, Publish(k2, now));
      var s3 := Step(s2, Unregister(k));
      var s4 := Step(s3, Clear(k));
      && s4.registry[(n, d)] == k2 && s4.handlers[k2] == Handler(d, n, Serving) && d !in s4.table
      && Settled(s4, d, n, k2)
  {
  }
}

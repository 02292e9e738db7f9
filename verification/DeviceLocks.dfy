/**
 The lease-based device locks of hub/db.py. Each SQL statement is one atomic step;
 acquire_lock is two of them, a SELECT and an upsert, with nothing to hold them together.
 */
module DeviceLocks {
  import opened Prelude

  type Device = string
  type Holder = string

  datatype Row = Row(holder: Holder, acquiredAt: int, expiresAt: int)

  type Table = map<Device, Row>

  predicate Active(t: Table, d: Device, now: int) {
    d in t && t[d].expiresAt > now
  }

  /** The SELECT's verdict: free, expired, already the caller's, or taken by force. */
  predicate MayAcquire(t: Table, d: Device, h: Holder, now: int, force: bool) {
    !Active(t, d, now) || t[d].holder == h || force
  }

  function Upserted(t: Table, d: Device, h: Holder, now: int, ttl: int): Table {
    t[d := Row(h, now, now + ttl)]
  }

  predicate MayRefresh(t: Table, d: Device, h: Holder, now: int) {
    Active(t, d, now) && t[d].holder == h
  }

  function Refreshed(t: Table, d: Device, h: Holder, now: int, ttl: int): Table {
    if MayRefresh(t, d, h, now) then t[d := t[d].(expiresAt := now + ttl)] else t
  }

  function Released(t: Table, d: Device, h: Holder): Table {
    if d in t && t[d].holder == h then t - {d} else t
  }

  function Purged(t: Table, now: int): Table {
    map d | d in t && t[d].expiresAt >= now :: t[d]
  }

  class LockTable {
    var rows: Table

    constructor ()
      ensures rows == map[]
    {
      rows := map[];
    }

    /** Undisturbed between its two statements. On refusal the other holder's row is returned. */
    method AcquireLock(d: Device, h: Holder, now: int, ttl: int, force: bool) returns (acquired: bool, row: Row)
      modifies this
      ensures acquired <==> MayAcquire(old(rows), d, h, now, force)
      ensures acquired <==> force || d !in old(rows) || old(rows)[d].holder == h || old(rows)[d].expiresAt <= now
      ensures acquired ==> rows == old(rows)[d := Row(h, now, now + ttl)]
      ensures acquired ==> rows == Upserted(old(rows), d, h, now, ttl) && row == rows[d]
      ensures !acquired ==> rows == old(rows) && d in rows && row == rows[d] && row.holder != h && row.expiresAt > now
    {
      var active := d in rows && rows[d].expiresAt > now;
      if active && rows[d].holder != h && !force {
        return false, rows[d];
      }
      rows := rows[d := Row(h, now, now + ttl)];
      return true, rows[d];
    }

    method RefreshLock(d: Device, h: Holder, now: int, ttl: int) returns (ok: bool)
      modifies this
      ensures ok <==> MayRefresh(old(rows), d, h, now)
      ensures ok <==> d in old(rows) && old(rows)[d].holder == h && old(rows)[d].expiresAt > now
      ensures rows == if ok then old(rows)[d := Row(h, old(rows)[d].acquiredAt, now + ttl)] else old(rows)
      ensures rows == Refreshed(old(rows), d, h, now, ttl)
    {
      ok := d in rows && rows[d].holder == h && rows[d].expiresAt > now;
      if ok { rows := rows[d := rows[d].(expiresAt := now + ttl)]; }
    }

    method ReleaseLock(d: Device, h: Holder)
      modifies this
      ensures rows == Released(old(rows), d, h)
      ensures d in rows ==> rows[d].holder != h
      ensures (d in old(rows) && old(rows)[d].holder == h) || rows == old(rows)
      ensures rows - {d} == old(rows) - {d}
    {
      if d in rows && rows[d].holder == h { rows := rows - {d}; }
    }

    method PurgeLocks(now: int)
      modifies this
      ensures rows == Purged(old(rows), now)
      ensures forall d :: d in rows <==> d in old(rows) && old(rows)[d].expiresAt >= now
      ensures forall d :: d in rows ==> rows[d] == old(rows)[d]
    {
      rows := map d | d in rows && rows[d].expiresAt >= now :: rows[d];
    }

    method GetLock(d: Device, now: int) returns (row: Option<Row>)
      ensures row == if Active(rows, d, now) then Some(rows[d]) else None
      ensures row.Some? <==> d in rows && rows[d].expiresAt > now
      ensures row.Some? ==> row.value == rows[d]
    {
      if d in rows && rows[d].expiresAt > now { row := Some(rows[d]); } else { row := None; }
    }
  }

  // ----- any number of clients, statement by statement -----

  type Client = nat

  /** A client that has read the table and may write. */
  datatype Plan = Plan(d: Device, h: Holder, now: int)

  /**
   leases holds, for each holder, the latest expiry of any lease it was granted and has not
   released; ttl is the configured lease length.
   */
  datatype Sys = Sys(rows: Table, leases: map<(Device, Holder), int>, plans: map<Client, Plan>, clock: int, ttl: nat)

  /** Acquire is an undisturbed acquire_lock; Read and Write are its two statements on their own. */
  datatype Event =
    | Acquire(d: Device, h: Holder, now: int, force: bool)
    | Read(client: Client, d: Device, h: Holder, now: int, force: bool)
    | Write(client: Client)
    | Refresh(d: Device, h: Holder, now: int)
    | Release(d: Device, h: Holder, now: int)
    | Purge(now: int)

  function At(s: Sys, e: Event): int {
    if e.Write? then s.clock else e.now
  }

  predicate Enabled(s: Sys, e: Event) {
    && At(s, e) >= s.clock
    && (e.Write? ==> e.client in s.plans)
    && (e.Read? ==> e.client !in s.plans)
  }

  function Grant(leases: map<(Device, Holder), int>, d: Device, h: Holder, expiry: int): map<(Device, Holder), int> {
    leases[(d, h) := if (d, h) in leases && leases[(d, h)] > expiry then leases[(d, h)] else expiry]
  }

  function Step(s: Sys, e: Event): Sys
    requires Enabled(s, e)
  {
    match e
    case Acquire(d, h, now, force) =>
      if MayAcquire(s.rows, d, h, now, force)
      then s.(rows := Upserted(s.rows, d, h, now, s.ttl), clock := now, leases := Grant(s.leases, d, h, now + s.ttl))
      else s.(clock := now)
    case Read(c, d, h, now, force) =>
      s.(clock := now, plans := if MayAcquire(s.rows, d, h, now, force) then s.plans[c := Plan(d, h, now)] else s.plans)
    case Write(c) =>
      var p := s.plans[c];
      s.(rows := Upserted(s.rows, p.d, p.h, p.now, s.ttl), plans := s.plans - {c},
         leases := Grant(s.leases, p.d, p.h, p.now + s.ttl))
    case Refresh(d, h, now) =>
      s.(rows := Refreshed(s.rows, d, h, now, s.ttl), clock := now,
         leases := if MayRefresh(s.rows, d, h, now) then Grant(s.leases, d, h, now + s.ttl) else s.leases)
    case Release(d, h, now) => s.(rows := Released(s.rows, d, h), clock := now, leases := s.leases - {(d, h)})
    case Purge(now) => s.(rows := Purged(s.rows, now), clock := now)
  }

  predicate Valid(s: Sys, es: seq<Event>)
    decreases es
  {
    es != [] ==> Enabled(s, es[0]) && Valid(Step(s, es[0]), es[1..])
  }

  function Run(s: Sys, es: seq<Event>): Sys
    requires Valid(s, es)
    decreases es
  {
    if es == [] then s else Run(Step(s, es[0]), es[1..])
  }

  function Start(now: int, ttl: nat): Sys {
    Sys(map[], map[], map[], now, ttl)
  }

  predicate Unexpired(s: Sys, d: Device, h: Holder) {
    (d, h) in s.leases && s.leases[(d, h)] > s.clock
  }

  /** At most one holder of the device has a lease that has not run out. */
  ghost predicate Exclusive(s: Sys, d: Device) {
    forall h1, h2 :: Unexpired(s, d, h1) && Unexpired(s, d, h2) ==> h1 == h2
  }

  /** An acquisition without force whose two statements nobody came between, or any other call. */
  predicate Undisturbed(e: Event) {
    !e.Read? && !e.Write? && (e.Acquire? ==> !e.force)
  }

  /** The row of a device is its one unexpired lease. */
  ghost predicate Backed(s: Sys, d: Device) {
    && (forall h :: Unexpired(s, d, h) ==> d in s.rows && s.rows[d].holder == h && s.rows[d].expiresAt == s.leases[(d, h)])
    && (Active(s.rows, d, s.clock) ==> Unexpired(s, d, s.rows[d].holder))
    && (forall h :: (d, h) in s.leases ==> s.leases[(d, h)] <= s.clock + s.ttl)
  }

  /** What holds of every lease of a device still holds after time passes. */
  lemma TimeKeepsBacked(s: Sys, d: Device, now: int)
    requires Backed(s, d) && now >= s.clock
    ensures Backed(s.(clock := now), d)
  {
    assert forall h :: Unexpired(s.(clock := now), d, h) ==> Unexpired(s, d, h);
    assert Active(s.rows, d, now) ==> Active(s.rows, d, s.clock);
  }

  /** A lease granted now, to a caller the table permits, becomes the device's one unexpired lease. */
  lemma GrantKeepsBacked(s: Sys, d: Device, h: Holder, row: Row)
    requires Backed(s, d) && MayAcquire(s.rows, d, h, s.clock, false)
    requires row.holder == h && row.expiresAt == s.clock + s.ttl
    ensures Backed(s.(rows := s.rows[d := row], leases := Grant(s.leases, d, h, s.clock + s.ttl)), d)
  {
    var s' := s.(rows := s.rows[d := row], leases := Grant(s.leases, d, h, s.clock + s.ttl));
    assert s'.leases[(d, h)] == s.clock + s.ttl;
    forall g | Unexpired(s', d, g)
      ensures g == h
    {
      if g != h { assert Unexpired(s, d, g); }
    }
  }

  lemma OtherDeviceKeepsBacked(s: Sys, s': Sys, d: Device)
    requires Backed(s, d) && s'.clock == s.clock && s'.ttl == s.ttl
    requires (d in s'.rows <==> d in s.rows) && (d in s.rows ==> s'.rows[d] == s.rows[d])
    requires forall h :: ((d, h) in s'.leases <==> (d, h) in s.leases) && ((d, h) in s.leases ==> s'.leases[(d, h)] == s.leases[(d, h)])
    ensures Backed(s', d)
  {
    assert forall h :: Unexpired(s', d, h) == Unexpired(s, d, h);
  }

  lemma ReleaseKeepsBacked(s: Sys, d: Device, h: Holder)
    requires Backed(s, d)
    ensures Backed(s.(rows := Released(s.rows, d, h), leases := s.leases - {(d, h)}), d)
  {
    var s' := s.(rows := Released(s.rows, d, h), leases := s.leases - {(d, h)});
    assert forall g :: Unexpired(s', d, g) ==> Unexpired(s, d, g) && g != h;
    assert forall g :: g != h ==> Unexpired(s', d, g) == Unexpired(s, d, g);
  }

  lemma PurgeKeepsBacked(s: Sys, d: Device)
    requires Backed(s, d)
    ensures Backed(s.(rows := Purged(s.rows, s.clock)), d)
  {
    var s' := s.(rows := Purged(s.rows, s.clock));
    assert forall g :: Unexpired(s', d, g) == Unexpired(s, d, g);
  }

  lemma StepKeepsBacked(s: Sys, e: Event, d: Device)
    requires Backed(s, d) && Enabled(s, e) && Undisturbed(e)
    ensures Backed(Step(s, e), d)
  {
    TimeKeepsBacked(s, d, e.now);
    var t := s.(clock := e.now);
    hide Backed;
    match e
    case Purge(_) => PurgeKeepsBacked(t, d);
    case Acquire(d', h, now, force) =>
      if MayAcquire(s.rows, d', h, now, false) {
        if d' == d { GrantKeepsBacked(t, d, h, Row(h, now, now + s.ttl)); } else { OtherDeviceKeepsBacked(t, Step(s, e), d); }
      }
    case Refresh(d', h, now) =>
      if MayRefresh(s.rows, d', h, now) {
        if d' == d { GrantKeepsBacked(t, d, h, s.rows[d].(expiresAt := now + s.ttl)); } else { OtherDeviceKeepsBacked(t, Step(s, e), d); }
      }
    case Release(d', h, _) =>
      if d' == d { ReleaseKeepsBacked(t, d, h); } else { OtherDeviceKeepsBacked(t, Step(s, e), d); }
    case _ =>
  }

  // ----- what a caller gets, told by the leases alone -----

  /** A refresh succeeds exactly while the caller's lease runs, and then the lease ends ttl after the refresh. */
  lemma RefreshIff(s: Sys, d: Device, h: Holder, now: int)
    requires Backed(s, d) && now >= s.clock
    ensures var s' := Step(s, Refresh(d, h, now));
      && (MayRefresh(s.rows, d, h, now) <==> (d, h) in s.leases && s.leases[(d, h)] > now)
      && (if (d, h) in s.leases && s.leases[(d, h)] > now
          then s'.leases == s.leases[(d, h) := now + s.ttl] && d in s.rows
               && s'.rows == s.rows[d := Row(h, s.rows[d].acquiredAt, now + s.ttl)]
          else s'.leases == s.leases && s'.rows == s.rows)
  {
    TimeKeepsBacked(s, d, now);
    var t := s.(clock := now);
    assert Backed(t, d) && Unexpired(t, d, h) == ((d, h) in s.leases && s.leases[(d, h)] > now);
  }

  ghost predicate NobodyElse(s: Sys, d: Device, h: Holder, now: int) {
    forall g :: g != h && (d, g) in s.leases ==> s.leases[(d, g)] <= now
  }

  /** Without force, an acquisition is granted exactly when nobody else's lease runs, and then the caller's lease ends ttl from now. */
  lemma AcquireIff(s: Sys, d: Device, h: Holder, now: int)
    requires Backed(s, d) && now >= s.clock
    ensures var s' := Step(s, Acquire(d, h, now, false));
      && (MayAcquire(s.rows, d, h, now, false) <==> NobodyElse(s, d, h, now))
      && (if NobodyElse(s, d, h, now)
          then s'.leases == s.leases[(d, h) := now + s.ttl] && s'.rows == s.rows[d := Row(h, now, now + s.ttl)]
          else s'.leases == s.leases && s'.rows == s.rows)
  {
    TimeKeepsBacked(s, d, now);
    var t := s.(clock := now);
    assert Backed(t, d);
    if MayAcquire(s.rows, d, h, now, false) {
      forall g | g != h && (d, g) in s.leases
        ensures s.leases[(d, g)] <= now
      {
        assert !Unexpired(t, d, g);
      }
    } else {
      assert Unexpired(t, d, s.rows[d].holder);
    }
  }

  /** A release gives up the caller's lease and nobody else's; if the caller had the device, it is free. */
  lemma ReleaseFrees(s: Sys, d: Device, h: Holder, now: int, g: Holder, later: int)
    requires Backed(s, d) && s.clock <= now <= later
    ensures var s' := Step(s, Release(d, h, now));
      && s'.leases == s.leases - {(d, h)}
      && (NobodyElse(s, d, h, now) ==> MayAcquire(s'.rows, d, g, later, false))
      && (!NobodyElse(s, d, h, now) ==> s'.rows == s.rows)
  {
    AcquireIff(s, d, h, now);
  }

  // ----- safety of a state: whatever undisturbed calls follow -----

  ghost predicate SafeForever(s: Sys, d: Device) {
    forall es :: Valid(s, es) && (forall e :: e in es ==> Undisturbed(e)) ==> Exclusive(Run(s, es), d)
  }

  lemma {:induction false} BackedIsSafe(s: Sys, es: seq<Event>, d: Device)
    requires Backed(s, d) && Valid(s, es) && forall e :: e in es ==> Undisturbed(e)
    ensures Backed(Run(s, es), d) && Exclusive(Run(s, es), d)
    decreases es
  {
    if es != [] {
      assert es[0] in es && forall e :: e in es[1..] ==> e in es;
      StepKeepsBacked(s, es[0], d);
      BackedIsSafe(Step(s, es[0]), es[1..], d);
    }
  }

  lemma BackedIsSafeForever(s: Sys, d: Device)
    requires Backed(s, d)
    ensures SafeForever(s, d)
  {
    forall es | Valid(s, es) && forall e :: e in es ==> Undisturbed(e)
      ensures Exclusive(Run(s, es), d)
    {
      BackedIsSafe(s, es, d);
    }
  }

  /** After any run of undisturbed calls, a device whose holder's lease runs is that holder's to refresh and closed to everyone else. */
  lemma LeaseIsKept(start: int, ttl: nat, es: seq<Event>, d: Device, h: Holder, g: Holder, now: int)
    requires Valid(Start(start, ttl), es) && (forall e :: e in es ==> Undisturbed(e)) && g != h
    requires var s := Run(Start(start, ttl), es); now >= s.clock && (d, h) in s.leases && s.leases[(d, h)] > now
    ensures var s := Run(Start(start, ttl), es);
      && MayRefresh(s.rows, d, h, now) && !MayAcquire(s.rows, d, g, now, false) && !MayRefresh(s.rows, d, g, now)
  {
    var s := Run(Start(start, ttl), es);
    BackedIsSafe(Start(start, ttl), es, d);
    hide Run, Valid, Backed;
    RefreshIff(s, d, h, now);
  }

  /** One acquisition by somebody else is enough to show a state unsafe. */
  lemma OneCallShows(s: Sys, e: Event, d: Device)
    requires Enabled(s, e) && Undisturbed(e) && !Exclusive(Step(s, e), d)
    ensures !SafeForever(s, d)
  {
    RunOne(s, e, []);
    assert [e] + [] == [e];
    assert Valid(s, [e]) && forall e' :: e' in [e] ==> Undisturbed(e');
  }

  lemma NowShows(s: Sys, d: Device)
    requires !Exclusive(s, d)
    ensures !SafeForever(s, d)
  {
    assert Valid(s, []) && Run(s, []) == s;
  }

  /**
   A forced acquisition leaves leases exclusive, whatever undisturbed calls follow, exactly when it
   would have been granted without force.
   */
  lemma ForceIsSafeIff(s: Sys, d: Device, h: Holder, now: int)
    requires Backed(s, d) && now >= s.clock
    ensures SafeForever(Step(s, Acquire(d, h, now, true)), d) <==> MayAcquire(s.rows, d, h, now, false)
  {
    var s' := Step(s, Acquire(d, h, now, true));
    if MayAcquire(s.rows, d, h, now, false) {
      StepKeepsBacked(s, Acquire(d, h, now, false), d);
      BackedIsSafeForever(s', d);
    } else {
      assert Unexpired(s, d, s.rows[d].holder) && Unexpired(s', d, s.rows[d].holder) && Unexpired(s', d, h);
      NowShows(s', d);
    }
  }

  /** The row is free or expired, or the writer's own and no longer than what it is about to write. */
  predicate MayWriteLate(t: Table, p: Plan, ttl: nat, clock: int) {
    Active(t, p.d, clock) ==> t[p.d].holder == p.h && t[p.d].expiresAt <= p.now + ttl
  }

  /**
   A write that comes late leaves leases exclusive, whatever undisturbed calls follow, exactly when
   it finds the row free or expired, or the writer's own and no longer than what it writes.
   */
  lemma LateWriteIsSafeIff(s: Sys, c: Client)
    requires c in s.plans && Backed(s, s.plans[c].d) && s.plans[c].now <= s.clock
    ensures var p := s.plans[c];
      SafeForever(Step(s, Write(c)), p.d) <==> MayWriteLate(s.rows, p, s.ttl, s.clock)
  {
    var p := s.plans[c];
    if MayWriteLate(s.rows, p, s.ttl, s.clock) {
      LateWriteKeepsBacked(s, c);
      BackedIsSafeForever(Step(s, Write(c)), p.d);
    } else if s.rows[p.d].holder != p.h {
      OverwritingShows(s, c);
    } else {
      ShorteningShows(s, c);
    }
  }

  lemma LateWriteKeepsBacked(s: Sys, c: Client)
    requires c in s.plans && Backed(s, s.plans[c].d) && s.plans[c].now <= s.clock
    requires MayWriteLate(s.rows, s.plans[c], s.ttl, s.clock)
    ensures Backed(Step(s, Write(c)), s.plans[c].d)
  {
    var p, s' := s.plans[c], Step(s, Write(c));
    assert forall g :: g != p.h ==> Unexpired(s', p.d, g) == Unexpired(s, p.d, g);
    assert forall g :: Unexpired(s, p.d, g) ==> Active(s.rows, p.d, s.clock) && s.rows[p.d].holder == g;
  }

  /** Another holder's lease is overwritten: at once there are two, or what was written has run out and the next caller is let in. */
  lemma OverwritingShows(s: Sys, c: Client)
    requires c in s.plans && Backed(s, s.plans[c].d)
    requires Active(s.rows, s.plans[c].d, s.clock) && s.rows[s.plans[c].d].holder != s.plans[c].h
    ensures !SafeForever(Step(s, Write(c)), s.plans[c].d)
  {
    var p, s' := s.plans[c], Step(s, Write(c));
    var g := s.rows[p.d].holder;
    assert Unexpired(s, p.d, g) && Unexpired(s', p.d, g);
    if p.now + s.ttl > s.clock {
      assert Unexpired(s', p.d, p.h);
      NowShows(s', p.d);
    } else {
      var e := Acquire(p.d, p.h, s.clock, false);
      var s2 := Step(s', e);
      assert Unexpired(s2, p.d, p.h) && Unexpired(s2, p.d, g);
      OneCallShows(s', e, p.d);
    }
  }

  /** The writer's own row is shortened: once the row has run out the next caller is let in beside the longer lease. */
  lemma ShorteningShows(s: Sys, c: Client)
    requires c in s.plans && Backed(s, s.plans[c].d)
    requires var p := s.plans[c];
      Active(s.rows, p.d, s.clock) && s.rows[p.d].holder == p.h && s.rows[p.d].expiresAt > p.now + s.ttl
    ensures !SafeForever(Step(s, Write(c)), s.plans[c].d)
  {
    var p, s' := s.plans[c], Step(s, Write(c));
    assert Unexpired(s, p.d, p.h) && s'.leases[(p.d, p.h)] == s.rows[p.d].expiresAt;
    var g, now := p.h + "x", if p.now + s.ttl > s.clock then p.now + s.ttl else s.clock;
    assert |g| != |p.h|;
    var e := Acquire(p.d, g, now, false);
    var s2 := Step(s', e);
    assert Unexpired(s2, p.d, p.h) && Unexpired(s2, p.d, g);
    OneCallShows(s', e, p.d);
  }

  // ----- lease safety, with every kind of call -----

  /** What a call on device d has to respect: no real force, and no write that MayWriteLate forbids. */
  predicate Guarded(s: Sys, e: Event, d: Device)
    requires Enabled(s, e)
  {
    match e
    case Acquire(d', h, now, force) => d' == d && force ==> MayAcquire(s.rows, d, h, now, false)
    case Write(c) => s.plans[c].d == d ==> MayWriteLate(s.rows, s.plans[c], s.ttl, s.clock)
    case _ => true
  }

  predicate AllGuarded(s: Sys, es: seq<Event>, d: Device)
    requires Valid(s, es)
    decreases es
  {
    es != [] ==> Guarded(s, es[0], d) && AllGuarded(Step(s, es[0]), es[1..], d)
  }

  /** Every state of the run is safe, whatever undisturbed calls would follow it. */
  ghost predicate AlwaysSafe(s: Sys, es: seq<Event>, d: Device)
    requires Valid(s, es)
    decreases es
  {
    SafeForever(s, d) && (es != [] ==> AlwaysSafe(Step(s, es[0]), es[1..], d))
  }

  ghost predicate PlansInTime(s: Sys) {
    forall c :: c in s.plans ==> s.plans[c].now <= s.clock
  }

  lemma GuardedKeepsBacked(s: Sys, e: Event, d: Device)
    requires Backed(s, d) && PlansInTime(s) && Enabled(s, e) && Guarded(s, e, d)
    ensures Backed(Step(s, e), d)
  {
    match e
    case Read(_, _, _, now, _) =>
      TimeKeepsBacked(s, d, now);
      OtherDeviceKeepsBacked(s.(clock := now), Step(s, e), d);
    case Write(c) =>
      if s.plans[c].d == d { LateWriteKeepsBacked(s, c); } else { OtherDeviceKeepsBacked(s, Step(s, e), d); }
    case Acquire(d', h, now, force) =>
      if d' == d {
        assert MayAcquire(s.rows, d, h, now, force) <==> MayAcquire(s.rows, d, h, now, false);
        StepKeepsBacked(s, Acquire(d, h, now, false), d);
      } else {
        TimeKeepsBacked(s, d, now);
        OtherDeviceKeepsBacked(s.(clock := now), Step(s, e), d);
      }
    case _ => StepKeepsBacked(s, e, d);
  }

  lemma UnguardedIsUnsafe(s: Sys, e: Event, d: Device)
    requires Backed(s, d) && PlansInTime(s) && Enabled(s, e) && !Guarded(s, e, d)
    ensures !SafeForever(Step(s, e), d)
  {
    match e
    case Acquire(_, h, now, _) => ForceIsSafeIff(s, d, h, now);
    case Write(c) => LateWriteIsSafeIff(s, c);
    case _ =>
  }

  lemma {:induction false} SafeIffGuarded(s: Sys, es: seq<Event>, d: Device)
    requires Backed(s, d) && PlansInTime(s) && Valid(s, es)
    ensures AlwaysSafe(s, es, d) <==> AllGuarded(s, es, d)
    ensures AllGuarded(s, es, d) ==> Backed(Run(s, es), d) && PlansInTime(Run(s, es))
    decreases es
  {
    BackedIsSafeForever(s, d);
    if es != [] {
      hide SafeForever, Backed, Guarded;
      assert PlansInTime(Step(s, es[0])) by { PlansStayInTime(s, es[0]); }
      if Guarded(s, es[0], d) {
        GuardedKeepsBacked(s, es[0], d);
        SafeIffGuarded(Step(s, es[0]), es[1..], d);
      } else {
        UnguardedIsUnsafe(s, es[0], d);
      }
    }
  }

  lemma PlansStayInTime(s: Sys, e: Event)
    requires PlansInTime(s) && Enabled(s, e)
    ensures PlansInTime(Step(s, e))
  {
  }

  /**
   Lease safety over every run of whole calls and single statements, with and without force:
   leases are exclusive at every moment, and stay so whatever undisturbed calls follow, exactly
   when every forced acquisition and every late write respects its guard.
   */
  lemma LeaseSafety(start: int, ttl: nat, es: seq<Event>, d: Device)
    requires Valid(Start(start, ttl), es)
    ensures AlwaysSafe(Start(start, ttl), es, d) <==> AllGuarded(Start(start, ttl), es, d)
    ensures AllGuarded(Start(start, ttl), es, d) ==> Exclusive(Run(Start(start, ttl), es), d)
    ensures (forall e :: e in es ==> Undisturbed(e)) ==> AllGuarded(Start(start, ttl), es, d)
  {
    var s := Start(start, ttl);
    SafeIffGuarded(s, es, d);
    if AllGuarded(s, es, d) {
      BackedIsSafe(Run(s, es), [], d);
    }
    if forall e :: e in es ==> Undisturbed(e) {
      UndisturbedIsGuarded(s, es, d);
    }
  }

  lemma {:induction false} UndisturbedIsGuarded(s: Sys, es: seq<Event>, d: Device)
    requires Valid(s, es) && forall e :: e in es ==> Undisturbed(e)
    ensures AllGuarded(s, es, d)
    decreases es
  {
    if es != [] {
      assert es[0] in es && forall e :: e in es[1..] ==> e in es;
      UndisturbedIsGuarded(Step(s, es[0]), es[1..], d);
    }
  }

  /** Two clients that both read a free lock before either writes both win, at every free lock. */
  lemma TwoReadersBothWin(s: Sys, d: Device, h1: Holder, h2: Holder, c1: Client, c2: Client, now: int)
    requires !Active(s.rows, d, now) && now >= s.clock && s.ttl > 0
    requires h1 != h2 && c1 != c2 && c1 !in s.plans && c2 !in s.plans
    ensures var es := [Read(c1, d, h1, now, false), Read(c2, d, h2, now, false), Write(c1), Write(c2)];
      Valid(s, es) && Unexpired(Run(s, es), d, h1) && Unexpired(Run(s, es), d, h2)
  {
    var r1, r2, w1, w2 := Read(c1, d, h1, now, false), Read(c2, d, h2, now, false), Write(c1), Write(c2);
    assert [r1, r2, w1, w2] == [r1] + ([r2] + ([w1] + ([w2] + [])));
    var s1 := Step(s, r1);
    var s2 := Step(s1, r2);
    var s3 := Step(s2, w1);
    RunOne(s3, w2, []);
    RunOne(s2, w1, [w2] + []);
    RunOne(s1, r2, [w1] + ([w2] + []));
    RunOne(s, r1, [r2] + ([w1] + ([w2] + [])));
  }

  lemma RunOne(s: Sys, e: Event, rest: seq<Event>)
    requires Enabled(s, e) && Valid(Step(s, e), rest)
    ensures Valid(s, [e] + rest) && Run(s, [e] + rest) == Run(Step(s, e), rest)
  {
    assert ([e] + rest)[1..] == rest;
  }

  predicate Acquires(s: Sys, e: Event, d: Device) {
    (e.Acquire? && e.d == d) || (e.Write? && e.client in s.plans && s.plans[e.client].d == d)
  }

  /** No row of device d is written by an acquisition during the run. */
  predicate NoAcquisition(s: Sys, es: seq<Event>, d: Device)
    requires Valid(s, es)
    decreases es
  {
    es != [] ==> !Acquires(s, es[0], d) && NoAcquisition(Step(s, es[0]), es[1..], d)
  }

  /**
   Between two acquisitions of a device, in any statement interleaving, only the holder the last
   one wrote can refresh: k events into the run, any refresh that succeeds is that holder's.
   */
  lemma {:induction false} OnlyLastWriterRefreshes(s: Sys, es: seq<Event>, d: Device, h: Holder, now: int)
    requires Valid(s, es) && NoAcquisition(s, es, d) && MayRefresh(Run(s, es).rows, d, h, now)
    ensures d in s.rows && s.rows[d].holder == h
    decreases es
  {
    if es != [] {
      OnlyLastWriterRefreshes(Step(s, es[0]), es[1..], d, h, now);
    }
  }
}

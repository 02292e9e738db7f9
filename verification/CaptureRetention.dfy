/**
 Which captures are left when captures of one device overlap: their inserts, selects and deletes
 interleave statement by statement, under one cap and without deletions by hand.
 */
module CaptureRetention {
  import opened Prelude
  import opened Retention
  import opened CaptureStore

  /** Every row ever indexed for a device. */
  function EverOf(s: Sys, d: Device): set<Row> {
    set r | r in s.ever && r.device == d
  }

  predicate Stale(s: Sys, r: Row, keep: nat) {
    r !in Newest(EverOf(s, r.device), keep)
  }

  /** Captures only, pruning to the same cap. */
  predicate Captures(e: Event, keep: nat) {
    !e.SelectOne? && !e.Unpair? && (e.SelectStale? ==> e.keep == keep)
  }

  /** A job that is going to delete r: it has r on its list, or will select the device's stale rows. */
  predicate Dooms(w: Work, r: Row) {
    (w.Indexed? && w.d == r.device) || (w.Deleting? && r.id in w.todo)
  }

  /** Every row was indexed once, and all rows are the device's. */
  ghost predicate Tidy(s: Sys) {
    && WellKeyed(s.rows) && UniqueIds(s.ever)
    && (forall i :: i in s.rows ==> s.rows[i] in s.ever)
    && (forall r :: r in s.ever ==> r.id < s.nextId)
    && (forall j, i :: j in s.jobs && s.jobs[j].Deleting? && i in s.jobs[j].todo ==> i < s.nextId)
  }

  /** Only stale rows are gone or on a list, and every stale row still there is doomed. */
  ghost predicate Kept(s: Sys, keep: nat) {
    && (forall r :: r in s.ever && r.id !in s.rows ==> Stale(s, r, keep))
    && (forall j, i :: j in s.jobs && s.jobs[j].Deleting? && i in s.jobs[j].todo && i in s.rows ==> Stale(s, s.rows[i], keep))
    && (forall i :: i in s.rows && Stale(s, s.rows[i], keep) ==> exists j :: j in s.jobs && Dooms(s.jobs[j], s.rows[i]))
  }

  lemma StepKeepsTidy(s: Sys, e: Event, keep: nat)
    requires Tidy(s) && Enabled(s, e) && Captures(e, keep)
    ensures Tidy(Step(s, e))
  {
  }

  /** More rows only make older ones staler. */
  lemma StaleStaysStale(s: Sys, s': Sys, r: Row, keep: nat)
    requires r in s.ever && s.ever <= s'.ever && Stale(s, r, keep)
    ensures Stale(s', r, keep)
  {
    assert EverOf(s, r.device) <= EverOf(s', r.device);
    RankMonotone(EverOf(s, r.device), EverOf(s', r.device), r);
  }

  /** As long as the newest are all there, a SELECT sees as stale exactly what is stale among everything ever captured. */
  lemma SelectSeesStale(s: Sys, d: Device, keep: nat)
    requires Tidy(s) && forall r :: r in s.ever && r.id !in s.rows ==> Stale(s, r, keep)
    ensures Newest(RowsOf(s.rows, d), keep) == Newest(EverOf(s, d), keep)
  {
    var present, all := RowsOf(s.rows, d), EverOf(s, d);
    assert present <= all;
    forall r | r in Newest(all, keep)
      ensures r in Newest(present, keep)
    {
      assert r.id in s.rows && s.rows[r.id] == r;
      RankMonotone(present, all, r);
    }
    forall r | r in present && r !in Newest(all, keep)
      ensures r !in Newest(present, keep)
    {
      KeptAreFull(all, keep, r);
      forall q | q in Newest(all, keep)
        ensures Newer(q, r)
      {
        KeptAreNewer(all, keep, q, r);
      }
      assert Newest(all, keep) <= present by {
        assert forall q :: q in Newest(all, keep) ==> q.id in s.rows && s.rows[q.id] == q;
      }
      RankBehind(Newest(all, keep), present, r);
    }
  }

  lemma StepKeepsKept(s: Sys, e: Event, keep: nat)
    requires Tidy(s) && Kept(s, keep) && Enabled(s, e) && Captures(e, keep)
    ensures Kept(Step(s, e), keep)
  {
    match e
    case InsertRow(j, now) => InsertKeeps(s, j, now, keep);
    case SelectStale(j, _) => SelectKeeps(s, j, keep);
    case DeleteRow(j, id) => DeleteKeeps(s, j, id, keep);
    case WriteFile(_, _, _) => SameJobsKeep(s, Step(s, e), keep);
    case StartUnlinking(_) => SameJobsKeep(s, Step(s, e), keep);
    case Unlink(_, _, _) => SameJobsKeep(s, Step(s, e), keep);
  }

  /** Steps that leave the rows and every job's list as they are. */
  lemma SameJobsKeep(s: Sys, s': Sys, keep: nat)
    requires Kept(s, keep) && s'.rows == s.rows && s'.ever == s.ever
    requires forall j, i :: j in s'.jobs && s'.jobs[j].Deleting? && i in s'.jobs[j].todo ==> j in s.jobs && s'.jobs[j] == s.jobs[j]
    requires forall j, r :: j in s.jobs && Dooms(s.jobs[j], r) ==> j in s'.jobs && Dooms(s'.jobs[j], r)
    ensures Kept(s', keep)
  {
    hide Newest, RowsOf;
    assert forall d :: EverOf(s', d) == EverOf(s, d);
  }

  lemma InsertKeeps(s: Sys, j: Job, now: int, keep: nat)
    requires Tidy(s) && Kept(s, keep) && Enabled(s, InsertRow(j, now))
    ensures Kept(Step(s, InsertRow(j, now)), keep)
  {
    var s' := Step(s, InsertRow(j, now));
    forall r | r in s.ever && Stale(s, r, keep)
      ensures Stale(s', r, keep)
    {
      StaleStaysStale(s, s', r, keep);
    }
    forall i | i in s'.rows && Stale(s', s'.rows[i], keep)
      ensures exists k :: k in s'.jobs && Dooms(s'.jobs[k], s'.rows[i])
    {
      var r := s'.rows[i];
      if r.device == s.jobs[j].d {
        assert Dooms(s'.jobs[j], r);
      } else {
        assert EverOf(s', r.device) == EverOf(s, r.device);
        var k :| k in s.jobs && Dooms(s.jobs[k], r);
        assert Dooms(s'.jobs[k], r);
      }
    }
  }

  lemma SelectKeeps(s: Sys, j: Job, keep: nat)
    requires Tidy(s) && Kept(s, keep) && Enabled(s, SelectStale(j, keep))
    ensures Kept(Step(s, SelectStale(j, keep)), keep)
  {
    var s', d := Step(s, SelectStale(j, keep)), s.jobs[j].d;
    SelectSeesStale(s, d, keep);
    assert forall d' :: EverOf(s', d') == EverOf(s, d');
    hide Newest, RowsOf;
    forall i | i in s.rows && Stale(s, s.rows[i], keep)
      ensures exists k :: k in s'.jobs && Dooms(s'.jobs[k], s.rows[i])
    {
      var k :| k in s.jobs && Dooms(s.jobs[k], s.rows[i]);
      assert Dooms(s'.jobs[k], s.rows[i]);
    }
  }

  lemma DeleteKeeps(s: Sys, j: Job, id: nat, keep: nat)
    requires Tidy(s) && Kept(s, keep) && Enabled(s, DeleteRow(j, id))
    ensures Kept(Step(s, DeleteRow(j, id)), keep)
  {
    var s' := Step(s, DeleteRow(j, id));
    assert forall d :: EverOf(s', d) == EverOf(s, d);
    hide Newest, RowsOf;
    forall i | i in s'.rows && Stale(s', s'.rows[i], keep)
      ensures exists k :: k in s'.jobs && Dooms(s'.jobs[k], s'.rows[i])
    {
      var k :| k in s.jobs && Dooms(s.jobs[k], s.rows[i]);
      assert Dooms(s'.jobs[k], s'.rows[i]);
    }
  }

  lemma {:induction false} RunKeepsKept(s: Sys, es: seq<Event>, keep: nat)
    requires Tidy(s) && Kept(s, keep) && Valid(s, es) && forall e :: e in es ==> Captures(e, keep)
    ensures Tidy(Run(s, es)) && Kept(Run(s, es), keep)
    decreases es
  {
    if es != [] {
      assert es[0] in es && forall e :: e in es[1..] ==> e in es;
      StepKeepsTidy(s, es[0], keep);
      StepKeepsKept(s, es[0], keep);
      RunKeepsKept(Step(s, es[0]), es[1..], keep);
    }
  }

  /** No capture is between its file and the end of its pruning. */
  predicate Settled(s: Sys) {
    forall j :: j in s.jobs ==> s.jobs[j].Unlinking?
  }

  /**
   However captures interleave: at every statement the newest of everything a device ever captured
   are there, up to the cap; and whenever no capture is under way it holds exactly those.
   */
  lemma NewestEverUnderInterleaving(es: seq<Event>, keep: nat, d: Device)
    requires Valid(EMPTY, es) && forall e :: e in es ==> Captures(e, keep)
    ensures var s := Run(EMPTY, es);
      && Newest(EverOf(s, d), keep) <= RowsOf(s.rows, d) <= EverOf(s, d)
      && (Settled(s) ==> RowsOf(s.rows, d) == Newest(EverOf(s, d), keep))
  {
    RunKeepsKept(EMPTY, es, keep);
    var s := Run(EMPTY, es);
    forall r | r in Newest(EverOf(s, d), keep)
      ensures r in RowsOf(s.rows, d)
    {
      assert r.id in s.rows && s.rows[r.id] == r;
    }
    if Settled(s) {
      forall i | i in s.rows && s.rows[i].device == d
        ensures s.rows[i] in Newest(EverOf(s, d), keep)
      {
        assert !Stale(s, s.rows[i], keep);
      }
    }
  }
}

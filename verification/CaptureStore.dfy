/**
 Captures, prunings and manual deletions interleaved statement by statement: the file of a
 capture is written before its row and unlinked only after the row is gone.
 */
module CaptureStore {
  import opened Prelude
  import opened Retention

  type Job = nat

  /**
   A job has written a file; or has indexed it and is yet to prune; or is deleting the rows its
   SELECT returned, collecting their paths; or is unlinking the collected paths.
   */
  datatype Work =
    | Written(d: Device, path: Path)
    | Indexed(d: Device)
    | Deleting(todo: map<nat, Path>, paths: set<Path>)
    | Unlinking(paths: set<Path>)

  /** What a file was written for: a job yet to index it, or the row that indexed it. */
  datatype Purpose = Pending(job: Job) | OfRow(id: nat)

  /** purpose covers the file names ever chosen, each with a fresh random part; ever is every row ever indexed. */
  datatype Sys = Sys(rows: map<nat, Row>, nextId: nat, files: set<Path>, purpose: map<Path, Purpose>, jobs: map<Job, Work>, ever: set<Row>)

  datatype Event =
    | WriteFile(job: Job, d: Device, path: Path)
    | InsertRow(job: Job, now: int)
    | SelectStale(job: Job, keep: nat)
    | SelectOne(job: Job, id: nat)
    | DeleteRow(job: Job, id: nat)
    | StartUnlinking(job: Job)
    | Unlink(job: Job, path: Path, ok: bool)
    | Unpair(d: Device)

  const EMPTY := Sys(map[], 1, {}, map[], map[], {})

  predicate Enabled(s: Sys, e: Event) {
    match e
    case WriteFile(j, _, path) => j !in s.jobs && path !in s.purpose
    case InsertRow(j, _) => j in s.jobs && s.jobs[j].Written?
    case SelectStale(j, _) => j in s.jobs && s.jobs[j].Indexed?
    case SelectOne(j, id) => j !in s.jobs && id in s.rows
    case DeleteRow(j, id) => j in s.jobs && s.jobs[j].Deleting? && id in s.jobs[j].todo
    case StartUnlinking(j) => j in s.jobs && s.jobs[j].Deleting? && s.jobs[j].todo == map[]
    case Unlink(j, path, _) => j in s.jobs && s.jobs[j].Unlinking? && path in s.jobs[j].paths
    case Unpair(_) => true
  }

  function Step(s: Sys, e: Event): Sys
    requires Enabled(s, e)
  {
    match e
    case WriteFile(j, d, path) => s.(files := s.files + {path}, purpose := s.purpose[path := Pending(j)], jobs := s.jobs[j := Written(d, path)])
    case InsertRow(j, now) =>
      var row := Row(s.nextId, s.jobs[j].d, now, s.jobs[j].path);
      s.(rows := s.rows[s.nextId := row], nextId := s.nextId + 1, ever := s.ever + {row},
         purpose := s.purpose[row.path := OfRow(s.nextId)], jobs := s.jobs[j := Indexed(row.device)])
    case SelectStale(j, keep) =>
      s.(jobs := s.jobs[j := Deleting(map i | i in StaleIds(s.rows, s.jobs[j].d, keep) :: s.rows[i].path, {})])
    case SelectOne(j, id) => s.(jobs := s.jobs[j := Deleting(map[id := s.rows[id].path], {})])
    case DeleteRow(j, id) =>
      var w := s.jobs[j];
      s.(rows := s.rows - {id}, jobs := s.jobs[j := Deleting(w.todo - {id}, w.paths + {w.todo[id]})])
    case StartUnlinking(j) => s.(jobs := s.jobs[j := Unlinking(s.jobs[j].paths)])
    case Unlink(j, path, ok) =>
      s.(files := if ok then s.files - {path} else s.files, jobs := s.jobs[j := Unlinking(s.jobs[j].paths - {path})])
    case Unpair(d) => s.(rows := map i | i in s.rows && s.rows[i].device != d :: s.rows[i])
  }

  predicate Valid(s: Sys, es: seq<Event>)
    decreases es
  {
    es != [] ==> Enabled(s, es[0]) && Valid(Step(s, es[0]), es[1..])
  }

  function Run(s: Sys, es: seq<Event>): Sys
    requires Valid(s, es)
    decreases es
  {
    if es == [] then s else Run(Step(s, es[0]), es[1..])
  }

  /** A path whose row existed and is gone for good. */
  predicate RowGone(s: Sys, path: Path) {
    path in s.purpose && s.purpose[path].OfRow? && s.purpose[path].id < s.nextId && s.purpose[path].id !in s.rows
  }

  ghost predicate RowInv(s: Sys, i: nat) {
    i in s.rows ==> i < s.nextId && s.rows[i].path in s.files && s.rows[i].path in s.purpose && s.purpose[s.rows[i].path] == OfRow(i)
  }

  ghost predicate JobInv(s: Sys, j: Job) {
    j in s.jobs ==>
      match s.jobs[j]
      case Written(_, path) => path in s.files && path in s.purpose && s.purpose[path] == Pending(j)
      case Indexed(_) => true
      case Deleting(todo, paths) =>
        && (forall i :: i in todo ==> i < s.nextId && todo[i] in s.purpose && s.purpose[todo[i]] == OfRow(i))
        && (forall p :: p in paths ==> RowGone(s, p))
      case Unlinking(paths) => forall p :: p in paths ==> RowGone(s, p)
  }

  ghost predicate Inv(s: Sys) {
    (forall i :: RowInv(s, i)) && (forall j :: JobInv(s, j))
  }

  /** A row that is gone stays gone: ids are never reused. */
  lemma GoneStaysGone(s: Sys, e: Event, path: Path)
    requires Enabled(s, e) && RowGone(s, path)
    requires e.InsertRow? ==> JobInv(s, e.job)
    ensures RowGone(Step(s, e), path)
  {
  }

  lemma StepKeepsRow(s: Sys, e: Event, i: nat)
    requires Inv(s) && Enabled(s, e)
    ensures RowInv(Step(s, e), i)
  {
    assert RowInv(s, i);
    match e
    case InsertRow(j, _) => assert JobInv(s, j);
    case Unlink(j, path, _) => assert JobInv(s, j); assert RowGone(s, path);
    case _ =>
  }

  lemma StepKeepsJob(s: Sys, e: Event, j: Job)
    requires Inv(s) && Enabled(s, e)
    ensures JobInv(Step(s, e), j)
  {
    var s' := Step(s, e);
    assert JobInv(s, j);
    if e.InsertRow? { assert JobInv(s, e.job); }
    if e.Unlink? {
      assert JobInv(s, e.job) && RowGone(s, e.path);
    }
    forall p | RowGone(s, p)
      ensures RowGone(s', p)
    {
      GoneStaysGone(s, e, p);
    }
    match e
    case SelectStale(k, keep) => assert forall i :: i in StaleIds(s.rows, s.jobs[k].d, keep) ==> RowInv(s, i);
    case SelectOne(_, id) => assert RowInv(s, id);
    case DeleteRow(k, id) => assert JobInv(s, k);
    case _ =>
  }

  lemma StepKeepsInv(s: Sys, e: Event)
    requires Inv(s) && Enabled(s, e)
    ensures Inv(Step(s, e))
  {
    forall i
      ensures RowInv(Step(s, e), i)
    {
      StepKeepsRow(s, e, i);
    }
    forall j
      ensures JobInv(Step(s, e), j)
    {
      StepKeepsJob(s, e, j);
    }
  }

  lemma {:induction false} RunKeepsInv(s: Sys, es: seq<Event>)
    requires Inv(s) && Valid(s, es)
    ensures Inv(Run(s, es))
    decreases es
  {
    if es != [] {
      StepKeepsInv(s, es[0]);
      RunKeepsInv(Step(s, es[0]), es[1..]);
    }
  }

  /** At every intermediate step of any interleaving, every indexed row still has its file on disk. */
  lemma IndexedRowsHaveFiles(es: seq<Event>, i: nat)
    requires Valid(EMPTY, es) && i in Run(EMPTY, es).rows
    ensures Run(EMPTY, es).rows[i].path in Run(EMPTY, es).files
  {
    RunKeepsInv(EMPTY, es);
    assert RowInv(Run(EMPTY, es), i);
  }

  // ----- no file is left over -----

  /** A job is going to index the path or to unlink it. */
  predicate Holds(w: Work, p: Path) {
    match w
    case Written(_, path) => path == p
    case Indexed(_) => false
    case Deleting(_, paths) => p in paths
    case Unlinking(paths) => p in paths
  }

  ghost predicate Accounted(s: Sys, p: Path) {
    p in s.files ==> (exists i :: i in s.rows && s.rows[i].path == p) || exists j :: j in s.jobs && Holds(s.jobs[j], p)
  }

  /** What a deleting job has on its list is what the rows say. */
  ghost predicate ListsRows(s: Sys) {
    forall j, i :: j in s.jobs && s.jobs[j].Deleting? && i in s.jobs[j].todo && i in s.rows ==> s.jobs[j].todo[i] == s.rows[i].path
  }

  lemma StepListsRows(s: Sys, e: Event)
    requires Inv(s) && ListsRows(s) && Enabled(s, e)
    ensures ListsRows(Step(s, e))
  {
    if e.InsertRow? {
      forall j | j in s.jobs && s.jobs[j].Deleting?
        ensures s.nextId !in s.jobs[j].todo
      {
        assert JobInv(s, j);
      }
    }
  }

  lemma StepAccounts(s: Sys, e: Event, p: Path)
    requires Inv(s) && ListsRows(s) && Accounted(s, p) && Enabled(s, e) && !e.Unpair? && (e.Unlink? ==> e.ok)
    ensures Accounted(Step(s, e), p)
  {
    var s' := Step(s, e);
    if p in s'.files {
      if e.WriteFile? && e.path == p {
        assert Holds(s'.jobs[e.job], p);
      } else if i :| i in s.rows && s.rows[i].path == p {
        assert RowInv(s, i);
        if i !in s'.rows { assert Holds(s'.jobs[e.job], p); } else { assert s'.rows[i].path == p; }
      } else {
        var j :| j in s.jobs && Holds(s.jobs[j], p);
        if e.InsertRow? && e.job == j {
          assert s'.rows[s.nextId].path == p;
        } else {
          assert Holds(s'.jobs[j], p);
        }
      }
    }
  }

  lemma {:induction false} RunAccounts(s: Sys, es: seq<Event>, p: Path)
    requires Inv(s) && ListsRows(s) && Accounted(s, p) && Valid(s, es)
    requires forall e :: e in es ==> !e.Unpair? && (e.Unlink? ==> e.ok)
    ensures Inv(Run(s, es)) && Accounted(Run(s, es), p)
    decreases es
  {
    if es != [] {
      assert es[0] in es && forall e :: e in es[1..] ==> e in es;
      StepKeepsInv(s, es[0]);
      StepListsRows(s, es[0]);
      StepAccounts(s, es[0], p);
      hide Inv, ListsRows, Accounted, Step, Enabled;
      RunAccounts(Step(s, es[0]), es[1..], p);
    }
  }

  /**
   Once every job is done, the files on disk are exactly those of the rows that are left, unless a
   device was unpaired or an unlink failed.
   */
  lemma FilesAreThoseOfRows(es: seq<Event>, p: Path)
    requires Valid(EMPTY, es) && forall e :: e in es ==> !e.Unpair? && (e.Unlink? ==> e.ok)
    requires var s := Run(EMPTY, es); forall j :: j in s.jobs ==> s.jobs[j] == Unlinking({})
    ensures var s := Run(EMPTY, es); p in s.files <==> exists i :: i in s.rows && s.rows[i].path == p
  {
    RunAccounts(EMPTY, es, p);
    var s := Run(EMPTY, es);
    forall i | i in s.rows
      ensures s.rows[i].path in s.files
    {
      assert RowInv(s, i);
    }
  }
}

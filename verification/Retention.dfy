/**
 Capture retention (hub/db.py prune_theft_media, hub/app.py _capture_to_store): a device keeps
 its newest rows up to a cap, and a row is removed before its file is.
 */
module Retention {
  import opened Prelude

  type Device = string
  type Path = string

  datatype Row = Row(id: nat, device: Device, createdAt: int, path: Path)

  /** ORDER BY created_at DESC, id DESC puts q before r. */
  predicate Newer(q: Row, r: Row) {
    q.createdAt > r.createdAt || (q.createdAt == r.createdAt && q.id > r.id)
  }

  /** How many rows come before r. */
  function Rank(s: set<Row>, r: Row): nat {
    |set q | q in s && Newer(q, r)|
  }

  /** The rows an OFFSET of keep leaves out. */
  function Newest(s: set<Row>, keep: nat): set<Row> {
    set r | r in s && Rank(s, r) < keep
  }

  predicate UniqueIds(s: set<Row>) {
    forall a, b :: a in s && b in s && a.id == b.id ==> a == b
  }

  function RowsOf(rows: map<nat, Row>, d: Device): set<Row> {
    set i | i in rows && rows[i].device == d :: rows[i]
  }

  function IdsOf(rows: map<nat, Row>, d: Device): (ids: set<nat>)
    ensures forall i :: i in ids <==> i in rows && rows[i].device == d
  {
    set i | i in rows && rows[i].device == d
  }

  /** The ids of the device's rows beyond the cap. */
  function StaleIds(rows: map<nat, Row>, d: Device, keep: nat): set<nat> {
    set i | i in rows && rows[i].device == d && rows[i] !in Newest(RowsOf(rows, d), keep)
  }

  /** The table after pruning device d. */
  function Pruned(rows: map<nat, Row>, d: Device, keep: nat): map<nat, Row> {
    rows - StaleIds(rows, d, keep)
  }

  function PathsOf(rows: map<nat, Row>, ids: set<nat>): set<Path>
    requires ids <= rows.Keys
  {
    set i | i in ids :: rows[i].path
  }

  function SetOf(paths: seq<Path>): set<Path> {
    set p | p in paths
  }

  predicate WellKeyed(rows: map<nat, Row>) {
    forall i :: i in rows ==> rows[i].id == i
  }

  class MediaIndex {
    var rows: map<nat, Row>
    var nextId: nat

    ghost predicate Valid()
      reads this
    {
      WellKeyed(rows) && forall i :: i in rows ==> i < nextId
    }

    constructor ()
      ensures Valid() && rows == map[]
    {
      rows, nextId := map[], 1;
    }

    method AddTheftMedia(d: Device, path: Path, now: int) returns (id: nat)
      requires Valid()
      modifies this
      ensures Valid() && id == old(nextId) && id !in old(rows)
      ensures rows == old(rows)[id := Row(id, d, now, path)] && nextId == id + 1
    {
      id := nextId;
      rows := rows[id := Row(id, d, now, path)];
      nextId := nextId + 1;
    }

    /** Deletes the device's rows beyond the cap one by one and returns their paths. */
    method PruneTheftMedia(d: Device, keep: int) returns (paths: seq<Path>)
      requires Valid()
      modifies this`rows
      ensures var k := if keep > 0 then keep else 0;
        && rows == Pruned(old(rows), d, k)
        && SetOf(paths) == PathsOf(old(rows), StaleIds(old(rows), d, k)) && |paths| == |StaleIds(old(rows), d, k)|
      ensures forall i :: i in rows ==> i in old(rows) && rows[i] == old(rows)[i]
      ensures forall i :: i in old(rows) && old(rows)[i].device != d ==> i in rows
      ensures forall i, j :: i in rows && rows[i].device == d && j in old(rows) && j !in rows ==>
        var p, q := rows[i], old(rows)[j];
        p.createdAt > q.createdAt || (p.createdAt == q.createdAt && p.id > q.id)
      ensures var n := |IdsOf(old(rows), d)|;
        |IdsOf(rows, d)| == if keep <= 0 then 0 else if n < keep then n else keep
      ensures Valid()
    {
      var k := if keep > 0 then keep else 0;
      var stale := StaleIds(rows, d, k);
      PrunedIs(rows, d, k);
      PrunedIds(rows, d, k);
      hide StaleIds, IdsOf, SetOf, PathsOf, Pruned;
      paths := DeleteRows(stale);
    }

    /** One DELETE per row of the SELECT's result. */
    method DeleteRows(ids: set<nat>) returns (paths: seq<Path>)
      requires ids <= rows.Keys
      modifies this`rows
      ensures rows == old(rows) - ids
      ensures SetOf(paths) == PathsOf(old(rows), ids) && |paths| == |ids|
    {
      var todo := ids;
      ghost var gone: set<nat> := {};
      paths := [];
      assert SetOf(paths) == PathsOf(rows, gone) && rows - gone == rows;
      hide SetOf, PathsOf;
      while todo != {}
        invariant todo !! gone && todo + gone == ids
        invariant rows == old(rows) - gone && |paths| == |gone|
        invariant SetOf(paths) == PathsOf(old(rows), gone)
      {
        var i :| i in todo;
        assert rows[i] == old(rows)[i];
        OneMoreGone(old(rows), gone, paths, i);
        paths := paths + [rows[i].path];
        rows, todo, gone := rows - {i}, todo - {i}, gone + {i};
      }
      assert gone == ids;
    }
  }

  lemma PrunedIs(rows: map<nat, Row>, d: Device, keep: nat)
    ensures Pruned(rows, d, keep) == rows - StaleIds(rows, d, keep) && StaleIds(rows, d, keep) <= rows.Keys
  {
  }

  lemma OneMoreGone(rows: map<nat, Row>, gone: set<nat>, paths: seq<Path>, i: nat)
    requires gone <= rows.Keys && i in rows && i !in gone
    requires SetOf(paths) == PathsOf(rows, gone)
    ensures (rows - gone) - {i} == rows - (gone + {i})
    ensures SetOf(paths + [rows[i].path]) == PathsOf(rows, gone + {i})
  {
    var p := rows[i].path;
    assert SetOf(paths + [p]) == SetOf(paths) + {p};
    assert PathsOf(rows, gone + {i}) == PathsOf(rows, gone) + {p};
  }

  /** Pruning keeps the newest of the device's rows, deletes the others and touches no other device. */
  lemma PrunedRows(rows: map<nat, Row>, d: Device, keep: nat)
    ensures RowsOf(Pruned(rows, d, keep), d) == Newest(RowsOf(rows, d), keep)
    ensures (set i | i in StaleIds(rows, d, keep) :: rows[i]) == RowsOf(rows, d) - Newest(RowsOf(rows, d), keep)
    ensures forall e :: e != d ==> RowsOf(Pruned(rows, d, keep), e) == RowsOf(rows, e)
  {
    hide Newest;
    var rows' := Pruned(rows, d, keep);
    assert forall i :: i in rows' ==> i in rows && rows'[i] == rows[i];
    NewestSubset(RowsOf(rows, d), keep);
    forall r | r in Newest(RowsOf(rows, d), keep)
      ensures r in RowsOf(rows', d)
    {
      var i :| i in rows && rows[i].device == d && rows[i] == r;
      assert i in rows';
    }
    forall e | e != d
      ensures RowsOf(rows', e) == RowsOf(rows, e)
    {
      forall r | r in RowsOf(rows, e)
        ensures r in RowsOf(rows', e)
      {
        var i :| i in rows && rows[i].device == e && rows[i] == r;
        assert i in rows';
      }
    }
  }

  /** The ids of a device are as many as its rows. */
  lemma {:induction false} AsManyRows(rows: map<nat, Row>, ids: set<nat>)
    requires WellKeyed(rows) && ids <= rows.Keys
    ensures |set i | i in ids :: rows[i]| == |ids|
  {
    if ids != {} {
      var i :| i in ids;
      AsManyRows(rows, ids - {i});
      assert (set j | j in ids :: rows[j]) == (set j | j in ids - {i} :: rows[j]) + {rows[i]};
    }
  }

  lemma RowCount(rows: map<nat, Row>, d: Device)
    requires WellKeyed(rows)
    ensures |IdsOf(rows, d)| == |RowsOf(rows, d)|
  {
    var ids := IdsOf(rows, d);
    AsManyRows(rows, ids);
    assert (set i | i in ids :: rows[i]) == RowsOf(rows, d);
  }

  /** What pruning leaves, id by id: the same rows, other devices' all, and of the device's the newest up to the cap. */
  lemma PrunedIds(rows: map<nat, Row>, d: Device, keep: nat)
    requires WellKeyed(rows)
    ensures var rows' := rows - StaleIds(rows, d, keep);
      && (forall i, j :: i in rows' && rows'[i].device == d && j in rows && j !in rows' ==> Newer(rows'[i], rows[j]))
      && (var n := |IdsOf(rows, d)|;
          |IdsOf(rows', d)| == if n < keep then n else keep)
  {
    var rows', all := rows - StaleIds(rows, d, keep), RowsOf(rows, d);
    PrunedRows(rows, d, keep);
    RowCount(rows, d);
    RowCount(rows', d);
    KeptCount(all, keep);
    forall i, j | i in rows' && rows'[i].device == d && j in rows && j !in rows'
      ensures Newer(rows'[i], rows[j])
    {
      assert rows[i] in all && rows[j] in all;
      KeptAreNewer(all, keep, rows[i], rows[j]);
    }
  }

  lemma NewestSubset(s: set<Row>, keep: nat)
    ensures Newest(s, keep) <= s
  {
  }

  // ----- the newest rows -----

  lemma {:induction false} SubsetSize<T>(a: set<T>, b: set<T>)
    requires a <= b
    ensures |a| <= |b|
  {
    if a != {} {
      var x :| x in a;
      SubsetSize(a - {x}, b - {x});
    }
  }

  /** A newer row has a smaller rank. */
  lemma RankOrder(s: set<Row>, p: Row, q: Row)
    requires p in s && Newer(p, q)
    ensures Rank(s, p) < Rank(s, q)
  {
    var a, b := set x | x in s && Newer(x, p), set x | x in s && Newer(x, q);
    assert p !in a && a + {p} <= b;
    SubsetSize(a + {p}, b);
  }

  lemma {:induction false} NewestRow(s: set<Row>) returns (top: Row)
    requires s != {} && UniqueIds(s)
    ensures top in s && forall r :: r in s && r != top ==> Newer(top, r)
    decreases s
  {
    var x :| x in s;
    var rest := s - {x};
    assert forall r :: r in s ==> r == x || r in rest;
    if rest == {} {
      top := x;
    } else {
      top := NewestRow(rest);
      if Newer(x, top) { top := x; }
    }
  }

  lemma {:induction false} OldestRow(s: set<Row>) returns (bottom: Row)
    requires s != {} && UniqueIds(s)
    ensures bottom in s && forall r :: r in s && r != bottom ==> Newer(r, bottom)
    decreases s
  {
    var x :| x in s;
    var rest := s - {x};
    assert forall r :: r in s ==> r == x || r in rest;
    if rest == {} {
      bottom := x;
    } else {
      bottom := OldestRow(rest);
      if Newer(bottom, x) { bottom := x; }
    }
  }

  /** What is kept is newer than what is not. */
  lemma KeptAreNewer(s: set<Row>, keep: nat, p: Row, q: Row)
    requires UniqueIds(s) && p in Newest(s, keep) && q in s - Newest(s, keep)
    ensures p.createdAt > q.createdAt || (p.createdAt == q.createdAt && p.id > q.id)
  {
    if Newer(q, p) { RankOrder(s, q, p); }
  }

  /** The cap is filled as far as there are rows. */
  lemma KeptCount(s: set<Row>, keep: nat)
    requires UniqueIds(s)
    ensures |Newest(s, keep)| == if |s| < keep then |s| else keep
  {
    var kept := Newest(s, keep);
    SubsetSize(kept, s);
    if kept != {} {
      var oldest := OldestRow(kept);
      RankOfOldestKept(s, keep, oldest);
    }
    if kept != s {
      assert s == kept + (s - kept);
      var q :| q in s - kept;
      KeptAreFull(s, keep, q);
    }
  }

  lemma RankOfOldestKept(s: set<Row>, keep: nat, oldest: Row)
    requires UniqueIds(s) && oldest in Newest(s, keep)
    requires forall r :: r in Newest(s, keep) && r != oldest ==> Newer(r, oldest)
    ensures |Newest(s, keep)| <= keep
  {
    var before := set q | q in s && Newer(q, oldest);
    assert Newest(s, keep) - {oldest} <= before;
    SubsetSize(Newest(s, keep) - {oldest}, before);
  }

  lemma RankOfNewestDropped(s: set<Row>, keep: nat, newest: Row)
    requires UniqueIds(s) && newest in s - Newest(s, keep)
    requires forall r :: r in s - Newest(s, keep) && r != newest ==> Newer(newest, r)
    ensures |Newest(s, keep)| >= keep
  {
    var before := set q | q in s && Newer(q, newest);
    assert forall r :: r in s && r !in Newest(s, keep) ==> r in s - Newest(s, keep);
    assert before <= Newest(s, keep);
    SubsetSize(before, Newest(s, keep));
  }

  lemma RankMonotone(a: set<Row>, b: set<Row>, r: Row)
    requires a <= b
    ensures Rank(a, r) <= Rank(b, r)
  {
    SubsetSize(set q | q in a && Newer(q, r), set q | q in b && Newer(q, r));
  }

  /** A row with everything in a newer than it ranks behind all of them. */
  lemma RankBehind(a: set<Row>, b: set<Row>, r: Row)
    requires a <= b && forall q :: q in a ==> Newer(q, r)
    ensures Rank(b, r) >= |a|
  {
    SubsetSize(a, set q | q in b && Newer(q, r));
  }

  /** Keeping the newest of what was kept plus one more is keeping the newest of everything. */
  lemma NewestOfNewest(s: set<Row>, x: Row, keep: nat)
    requires UniqueIds(s + {x})
    ensures Newest(Newest(s, keep) + {x}, keep) == Newest(s + {x}, keep)
  {
    var n, t := Newest(s, keep), s + {x};
    var u := n + {x};
    forall r | r in t
      ensures r in Newest(u, keep) <==> r in Newest(t, keep)
    {
      RankMonotone(u, t, r);
      RankMonotone(s, t, r);
      if r in u && Rank(u, r) < keep { StillNewest(s, x, keep, r); }
    }
  }

  lemma StillNewest(s: set<Row>, x: Row, keep: nat, r: Row)
    requires UniqueIds(s + {x})
    requires r in Newest(s, keep) + {x} && Rank(Newest(s, keep) + {x}, r) < keep
    ensures Rank(s + {x}, r) < keep
  {
    var n, t := Newest(s, keep), s + {x};
    var u := n + {x};
    if q :| q in t && Newer(q, r) && q !in u {
      forall p | p in n
        ensures Newer(p, r)
      {
        KeptAreNewer(s, keep, p, q);
      }
      RankBehind(n, u, r);
      KeptCount(s, keep);
      KeptAreFull(s, keep, q);
    } else {
      assert (set q | q in t && Newer(q, r)) == (set q | q in u && Newer(q, r));
    }
  }

  lemma KeptAreFull(s: set<Row>, keep: nat, q: Row)
    requires UniqueIds(s) && q in s - Newest(s, keep)
    ensures |Newest(s, keep)| >= keep
  {
    var newest := NewestRow(s - Newest(s, keep));
    RankOfNewestDropped(s, keep, newest);
  }

  // ----- captures over time -----

  datatype Shot = Shot(device: Device, createdAt: int, path: Path)

  /** The table after a sequence of undisturbed captures under one cap. */
  function AfterShots(shots: seq<Shot>, keep: nat): map<nat, Row> {
    if shots == [] then map[]
    else
      var rows, n := AfterShots(shots[..|shots| - 1], keep), |shots|;
      var shot := shots[n - 1];
      Pruned(rows[n := Row(n, shot.device, shot.createdAt, shot.path)], shot.device, keep)
  }

  /** Every row ever captured for a device. */
  function Ever(shots: seq<Shot>, d: Device): set<Row> {
    set i | 0 <= i < |shots| && shots[i].device == d :: Row(i + 1, d, shots[i].createdAt, shots[i].path)
  }

  lemma EverGrows(shots: seq<Shot>, d: Device)
    requires shots != []
    ensures var shot := shots[|shots| - 1];
      Ever(shots, d) == Ever(shots[..|shots| - 1], d) +
        if shot.device == d then {Row(|shots|, d, shot.createdAt, shot.path)} else {}
  {
    var front := shots[..|shots| - 1];
    forall r | r in Ever(front, d)
      ensures r in Ever(shots, d)
    {
      var i :| 0 <= i < |front| && front[i].device == d && r == Row(i + 1, d, front[i].createdAt, front[i].path);
      assert shots[i] == front[i];
    }
    forall r | r in Ever(shots, d)
      ensures r in Ever(front, d) || (shots[|shots| - 1].device == d && r == Row(|shots|, d, shots[|shots| - 1].createdAt, shots[|shots| - 1].path))
    {
      var i :| 0 <= i < |shots| && shots[i].device == d && r == Row(i + 1, d, shots[i].createdAt, shots[i].path);
      if i < |front| { assert front[i] == shots[i]; }
    }
  }

  lemma EverIds(shots: seq<Shot>, d: Device)
    ensures UniqueIds(Ever(shots, d)) && forall r :: r in Ever(shots, d) ==> r.id <= |shots|
  {
  }

  lemma TableIds(rows: map<nat, Row>, row: Row, d: Device, keep: nat)
    requires WellKeyed(rows) && forall i :: i in rows ==> i < row.id
    ensures row.id !in rows
    ensures var rows' := Pruned(rows[row.id := row], d, keep); WellKeyed(rows') && forall i :: i in rows' ==> i <= row.id
  {
  }

  /** After any captures of any devices, each device holds exactly the newest of all it ever captured. */
  lemma {:induction false} KeepsNewestEver(shots: seq<Shot>, keep: nat, d: Device)
    ensures WellKeyed(AfterShots(shots, keep)) && forall i :: i in AfterShots(shots, keep) ==> i <= |shots|
    ensures RowsOf(AfterShots(shots, keep), d) == Newest(Ever(shots, d), keep)
  {
    hide Newest, RowsOf, Pruned, Ever, WellKeyed;
    if shots == [] {
      NothingYet(d, keep);
    } else {
      var n := |shots|;
      var front, shot := shots[..n - 1], shots[n - 1];
      var rows, row := AfterShots(front, keep), Row(n, shot.device, shot.createdAt, shot.path);
      KeepsNewestEver(front, keep, d);
      EverGrows(shots, d);
      TableIds(rows, row, shot.device, keep);
      PrunedRows(rows[n := row], shot.device, keep);
      RowsOfInserted(rows, row, d);
      if shot.device == d {
        EverIds(front, d);
        EverIds(shots, d);
        NewestOfNewest(Ever(front, d), row, keep);
      } else {
        assert RowsOf(rows, d) + {} == RowsOf(rows, d);
        assert Ever(front, d) + {} == Ever(front, d);
      }
    }
  }

  lemma NothingYet(d: Device, keep: nat)
    ensures WellKeyed(map[]) && RowsOf(map[], d) == {} == Newest(Ever([], d), keep)
  {
  }

  lemma RowsOfInserted(rows: map<nat, Row>, row: Row, d: Device)
    requires row.id !in rows
    ensures RowsOf(rows[row.id := row], d) == RowsOf(rows, d) + if row.device == d then {row} else {}
  {
    var rows' := rows[row.id := row];
    forall r | r in RowsOf(rows, d)
      ensures r in RowsOf(rows', d)
    {
      var i :| i in rows && rows[i].device == d && rows[i] == r;
      assert rows'[i] == r;
    }
    if row.device == d { assert rows'[row.id] == row; }
  }
}

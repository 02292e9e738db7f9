/**
 What a client sees of the limiter, in its own numbers: when it is refused, and for how long; and
 what the sweep leaves of the other addresses.
 */
module RateLimiterLaws {
  import opened Prelude
  import opened RateLimiter
  import opened RateLimiterRuns
  import opened RateLimiterBound

  /**
   The fifth failure of an address within 60 seconds, with no successful login since the first of
   them, is followed by a refusal until exactly 300 seconds after it; event j is that failure.
   */
  lemma FifthFailureBlocks(start: real, es: seq<Event>, i: nat, j: nat, ip: Ip, t: real)
    requires Valid(Opening(start), es) && i <= j < |es| && es[j].Fail? && es[j].ip == ip
    requires NoSuccess(es[i..j + 1], ip) && |FailTimes(es[i..j + 1], ip)| >= 5
    requires es[j].t - es[i].t <= 60.0 && t >= es[j].t
    ensures Answer(Run(Opening(start), es[..j + 1]).tables, ip, t) == if t < es[j].t + 300.0 then es[j].t + 300.0 - t else 0.0
  {
    EmptyHistoriesAgree(start);
    hide *;
    var front, seg := es[..i], es[i..j + 1];
    assert seg[0] == es[i] && seg[|seg| - 1] == es[j];
    CutOut(Opening(start), es, i, j + 1);
    RunKeepsDiscipline(Opening(start), map[], front);
    StretchBlocks(Run(Opening(start), front), RefRun(map[], front), seg, ip, t);
  }

  /** A stretch of a run is a run from where it starts. */
  lemma CutOut(d: Desk, es: seq<Event>, i: nat, j: nat)
    requires Valid(d, es) && i <= j <= |es|
    ensures Valid(d, es[..i]) && Valid(Run(d, es[..i]), es[i..j])
    ensures Run(d, es[..j]) == Run(Run(d, es[..i]), es[i..j])
  {
    hide *;
    assert es == es[..j] + es[j..] && es[..j] == es[..i] + es[i..j];
    RunSplits(d, es[..j], es[j..]);
    RunSplits(d, es[..i], es[i..j]);
  }

  lemma StretchBlocks(d: Desk, hs: map<Ip, History>, seg: seq<Event>, ip: Ip, t: real)
    requires AllAgree(d, hs) && AllDisciplined(hs) && Valid(d, seg) && NoSuccess(seg, ip) && |FailTimes(seg, ip)| >= 5
    requires var last := seg[|seg| - 1]; last.Fail? && last.ip == ip && last.t - seg[0].t <= 60.0 && t >= last.t
    ensures Answer(Run(d, seg).tables, ip, t) ==
      if t < seg[|seg| - 1].t + 300.0 then seg[|seg| - 1].t + 300.0 - t else 0.0
  {
    RunKeepsDiscipline(d, hs, seg);
    HistoryGrows(hs, seg, ip);
    FailTimesWithin(d, seg, ip);
    LastFailure(seg, ip);
    ClockOfRun(d, seg);
    assert Disciplined(HistoryOf(hs, ip)) && Disciplined(HistoryOf(RefRun(hs, seg), ip));
    assert AgreesAt(Run(d, seg), RefRun(hs, seg), ip);
    assert HistoryOf(hs, ip).success <= |HistoryOf(hs, ip).fails|;
    hide *;
    FiveBlock(HistoryOf(RefRun(hs, seg), ip), HistoryOf(hs, ip).fails, FailTimes(seg, ip), seg[0].t);
    BlockIsAnswered(Run(d, seg), RefRun(hs, seg), ip, seg[|seg| - 1].t + 300.0, t);
  }

  /** A history that ends with five failures in the window, the last success before them, is blocked. */
  lemma FiveBlock(h: History, before: seq<real>, f: seq<real>, first: real)
    requires Disciplined(h) && h.fails == before + f && h.success <= |before| && |f| >= 5
    requires AtLeast(f, first) && f[|f| - 1] - first <= 60.0
    ensures h.until == Some(f[|f| - 1] + 300.0)
  {
    var n := |h.fails|;
    assert h.fails[n - 1] == f[|f| - 1] && h.fails[n - 5] == f[|f| - 5];
    hide Paced, Sorted;
  }

  lemma BlockIsAnswered(d: Desk, hs: map<Ip, History>, ip: Ip, until: real, t: real)
    requires AgreesAt(d, hs, ip) && HistoryOf(hs, ip).until == Some(until) && d.clock + 300.0 == until && t >= d.clock
    ensures Answer(d.tables, ip, t) == if t < until then until - t else 0.0
  {
    hide HistoryOf;
    assert UntilOf(d.tables, ip) == Some(until);
  }

  lemma {:induction false} LastFailure(seg: seq<Event>, ip: Ip)
    requires seg != [] && seg[|seg| - 1].Fail? && seg[|seg| - 1].ip == ip
    ensures FailTimes(seg, ip) != [] && FailTimes(seg, ip)[|FailTimes(seg, ip)| - 1] == seg[|seg| - 1].t
  {
    if |seg| > 1 {
      LastFailure(seg[1..], ip);
    } else {
      assert FailTimes(seg[1..], ip) == [];
    }
  }

  lemma {:induction false} ClockOfRun(d: Desk, es: seq<Event>)
    ensures Run(d, es).clock == if es == [] then d.clock else es[|es| - 1].t
    decreases es
  {
    if es != [] { ClockOfRun(Step(d, es[0]), es[1..]); }
  }

  // ----- no refusal without a reason -----

  /** Whoever is blocked until u failed five times in the 60 seconds before u - 300. */
  ghost predicate Deserved(h: History) {
    h.until.Some? ==> BlockedByFive(h.fails, h.until.value)
  }

  ghost predicate BlockedByFive(fails: seq<real>, until: real) {
    exists n :: 5 <= n <= |fails| && FiveBefore(fails, n, until)
  }

  predicate FiveBefore(fails: seq<real>, n: nat, until: real)
    requires 5 <= n <= |fails|
  {
    until == fails[n - 1] + 300.0 && fails[n - 1] - fails[n - 5] <= 60.0
  }

  lemma {:induction false} RecentIsShort(s: seq<real>, c: real)
    requires Sorted(s) && |Recent(s, c)| >= 5
    ensures |s| >= 5 && s[|s| - 5] >= c
  {
    PruneIsRecent(s, c);
    PruneIsSuffix(s, c);
    var r := Prune(s, c);
    assert r[0] == s[|s| - |r|];
    assert s[|s| - 5] >= s[|s| - |r|];
  }

  lemma FiveFound(fails: seq<real>, reset: nat, t: real)
    requires Sorted(fails + [t]) && reset <= |fails| && |Recent((fails + [t])[reset..], t - 60.0)| >= 5
    ensures BlockedByFive(fails + [t], t + 300.0)
  {
    var all := fails + [t];
    var full := all[reset..];
    RecentIsShort(full, t - 60.0);
    assert full[|full| - 5] == all[|all| - 5];
    hide Recent, Sorted;
    assert FiveBefore(all, |all|, t + 300.0);
  }

  lemma StillFive(fails: seq<real>, t: real, until: real)
    requires BlockedByFive(fails, until)
    ensures BlockedByFive(fails + [t], until)
  {
    var k :| 5 <= k <= |fails| && FiveBefore(fails, k, until);
    assert FiveBefore(fails + [t], k, until);
  }

  lemma FailIsDeserved(h: History, t: real)
    requires Deserved(h) && h.reset <= |h.fails| && Sorted(h.fails) && AtMost(h.fails, t)
    ensures Deserved(RefFail(h, t))
  {
    SortedAppend(h.fails, t);
    hide Recent, Sorted, AtMost, BlockedByFive;
    if |Recent((h.fails + [t])[h.reset..], t - WINDOW)| >= RATE_MAX {
      FiveFound(h.fails, h.reset, t);
    } else if h.until.Some? {
      StillFive(h.fails, t, h.until.value);
    }
  }

  lemma {:induction false} RunIsDeserved(d: Desk, hs: map<Ip, History>, es: seq<Event>, ip: Ip)
    requires AllAgree(d, hs) && Valid(d, es) && Deserved(HistoryOf(hs, ip))
    ensures Deserved(HistoryOf(RefRun(hs, es), ip)) && AllAgree(Run(d, es), RefRun(hs, es))
    decreases es
  {
    if es != [] {
      var e, h := es[0], HistoryOf(hs, ip);
      assert AgreesAt(d, hs, ip);
      StepAgrees(d, hs, e);
      if e.Fail? && e.ip == ip { FailIsDeserved(h, e.t); }
      assert Deserved(HistoryOf(RefStep(hs, e), ip)) by { hide RefFail, Agrees; }
      hide AllAgree, Step, RefStep, HistoryOf, Deserved, Enabled;
      RunIsDeserved(Step(d, e), RefStep(hs, e), es[1..], ip);
    }
  }

  /** A refused address failed five times within 60 seconds, the last of them at most 300 seconds ago, and is refused until exactly 300 seconds after that one. */
  lemma RefusedOnlyAfterFive(start: real, es: seq<Event>, ip: Ip, t: real)
    requires Valid(Opening(start), es) && t >= Run(Opening(start), es).clock
    requires Answer(Run(Opening(start), es).tables, ip, t) > 0.0
    ensures BlockedByFive(FailTimes(es, ip), t + Answer(Run(Opening(start), es).tables, ip, t))
  {
    EmptyHistoriesAgree(start);
    var hs := RefRun(map[], es);
    assert Deserved(HistoryOf(map[], ip));
    assert HistoryOf(map[], ip).fails + FailTimes(es, ip) == FailTimes(es, ip);
    hide *;
    RunIsDeserved(Opening(start), map[], es, ip);
    HistoryGrows(map[], es, ip);
    AnswerIsDeserved(Run(Opening(start), es), hs, ip, t);
  }

  lemma AnswerIsDeserved(d: Desk, hs: map<Ip, History>, ip: Ip, t: real)
    requires AllAgree(d, hs) && Deserved(HistoryOf(hs, ip)) && t >= d.clock && Answer(d.tables, ip, t) > 0.0
    ensures BlockedByFive(HistoryOf(hs, ip).fails, t + Answer(d.tables, ip, t))
  {
    assert AgreesAt(d, hs, ip);
    hide BlockedByFive, HistoryOf, AllAgree;
    assert HistoryOf(hs, ip).until == UntilOf(d.tables, ip);
  }


  // ----- the sweep -----

  /**
   After a failure recorded while more than 10,000 addresses are tracked, of the others only those
   are left whose oldest entry is at most 60 seconds old or whose block still runs; with fewer,
   nothing of them is touched.
   */
  lemma SweepDropsTheRest(t: Tables, ip: Ip, now: real, k: Ip)
    requires k != ip
    ensures var t' := AfterFail(t, ip, now);
      && (|t.failLog| > 10_000 && k in t'.failLog ==> t'.failLog[k] != [] && t'.failLog[k][0] >= now - 60.0)
      && (|t.failLog| > 10_000 && k in t'.blockUntil ==> t'.blockUntil[k] > now)
      && (|t.failLog| <= 10_000 ==> (k in t'.failLog <==> k in t.failLog) && (k in t.failLog ==> t'.failLog[k] == t.failLog[k]))
      && (|t.failLog| <= 10_000 ==> (k in t'.blockUntil <==> k in t.blockUntil) && (k in t.blockUntil ==> t'.blockUntil[k] == t.blockUntil[k]))
  {
    if k in t.failLog { PruneIsSuffix(t.failLog[k], now - WINDOW); }
  }

  /** And it drops nothing that could still count: every entry of the last 60 seconds and every running block is kept. */
  lemma SweepKeepsTheRecent(t: Tables, ip: Ip, now: real, k: Ip)
    requires k != ip
    ensures var t' := AfterFail(t, ip, now);
      && (forall i :: 0 <= i < |LogOf(t, k)| && LogOf(t, k)[i] >= now - 60.0 ==> LogOf(t, k)[i] in LogOf(t', k))
      && (k in t.blockUntil && t.blockUntil[k] > now ==> k in t'.blockUntil && t'.blockUntil[k] == t.blockUntil[k])
  {
    var log, kept := LogOf(t, k), Prune(LogOf(t, k), now - WINDOW);
    PruneIsSuffix(log, now - WINDOW);
    assert LogOf(AfterFail(t, ip, now), k) == log || LogOf(AfterFail(t, ip, now), k) == kept;
    forall i | 0 <= i < |log| && log[i] >= now - 60.0
      ensures log[i] in kept
    {
      assert kept[i - (|log| - |kept|)] == log[i];
    }
  }
}

/**
 The numeric promise of the limiter: how many failed logins one address can get
 through in any stretch of time, and how long a block lasts.
 */
module RateLimiterBound {
  import opened Prelude
  import opened RateLimiter
  import opened RateLimiterRuns

  /** The times of ip's recorded failures. */
  function FailTimes(es: seq<Event>, ip: Ip): seq<real> {
    if es == [] then [] else (if es[0].Fail? && es[0].ip == ip then [es[0].t] else []) + FailTimes(es[1..], ip)
  }

  predicate NoSuccess(es: seq<Event>, ip: Ip) {
    forall i :: 0 <= i < |es| ==> !(es[i].Clear? && es[i].ip == ip)
  }

  /** From index lo on, five failures either take more than a window or are followed by a block. */
  ghost predicate Paced(f: seq<real>, lo: nat) {
    forall i :: lo <= i < |f| - 4 ==> PacedAt(f, i)
  }

  predicate PacedAt(f: seq<real>, i: nat)
    requires i < |f| - 4
  {
    f[i + 4] - f[i] > WINDOW || (i + 5 < |f| ==> f[i + 5] >= f[i + 4] + BLOCK)
  }

  /** What the history of one address looks like between two successes. */
  ghost predicate Disciplined(h: History) {
    var n := |h.fails|;
    && h.success <= h.reset <= n
    && Sorted(h.fails)
    && Paced(h.fails, h.success)
    && (h.success < h.reset < n ==> h.fails[h.reset] >= h.fails[h.reset - 1] + BLOCK)
    && (n >= h.success + 5 && h.fails[n - 1] - h.fails[n - 5] <= WINDOW ==> h.reset == n)
    && (h.success < h.reset == n ==> h.until == Some(h.fails[n - 1] + BLOCK))
  }

  ghost predicate AllDisciplined(hs: map<Ip, History>) {
    forall ip :: Disciplined(HistoryOf(hs, ip))
  }

  /** Five failures inside the window are five counted failures. */
  lemma FiveAreCounted(s: seq<real>, c: real)
    requires Sorted(s) && |s| >= 5 && s[|s| - 5] >= c
    ensures |Recent(s, c)| >= 5
  {
    PruneIsRecent(s, c);
    PruneIsSuffix(s, c);
  }

  lemma PacedAppend(h: History, now: real)
    requires Disciplined(h) && AtMost(h.fails, now)
    requires h.until.Some? ==> h.until.value <= now
    ensures Paced(h.fails + [now], h.success)
  {
    var n, fails := |h.fails|, h.fails + [now];
    forall i | h.success <= i < |fails| - 4
      ensures PacedAt(fails, i)
    {
      if i + 5 <= n {
        assert PacedAt(h.fails, i);
      }
    }
  }

  /** If the last four failures are that recent, none of them was cut off by a block. */
  lemma NoResetInside(h: History, now: real)
    requires Disciplined(h) && AtMost(h.fails, now)
    requires h.until.Some? ==> h.until.value <= now
    requires |h.fails| >= h.success + 4 && now - h.fails[|h.fails| - 4] <= WINDOW
    ensures h.reset <= |h.fails| - 4
  {
    var n := |h.fails|;
    assert forall k :: n - 4 <= k < n ==> h.fails[k] >= h.fails[n - 4];
  }

  /** Five failures within a window since the last success were all counted, so they block. */
  lemma FullWindowBlocks(h: History, now: real)
    requires Sorted(h.fails) && AtMost(h.fails, now) && |h.fails| >= 4 && h.reset <= |h.fails| - 4
    requires now - h.fails[|h.fails| - 4] <= WINDOW
    ensures RefFail(h, now).reset == |h.fails| + 1
  {
    var full := (h.fails + [now])[h.reset..];
    SortedAppend(h.fails, now);
    assert full[|full| - 5] == h.fails[|h.fails| - 4];
    FiveAreCounted(full, now - WINDOW);
  }

  /** The clauses that concern where counting resumes, once order and pace are known. */
  lemma DisciplineOf(h: History, h': History, now: real)
    requires Disciplined(h) && h' == RefFail(h, now)
    requires Sorted(h'.fails) && Paced(h'.fails, h.success)
    requires |h.fails| >= h.success + 4 && now - h.fails[|h.fails| - 4] <= WINDOW ==> h'.reset == |h.fails| + 1
    requires h.success < h.reset == |h.fails| ==> now >= h.fails[|h.fails| - 1] + BLOCK
    ensures Disciplined(h')
  {
    hide Paced, Recent;
    var n := |h.fails|;
    assert h'.fails == h.fails + [now] && h'.success == h.success;
    assert h'.reset == h.reset || (h'.reset == n + 1 && h'.until == Some(now + BLOCK));
  }

  lemma FailKeepsDiscipline(h: History, now: real)
    requires Disciplined(h) && AtMost(h.fails, now)
    requires h.until.Some? ==> h.until.value <= now
    ensures Disciplined(RefFail(h, now))
  {
    var n := |h.fails|;
    SortedAppend(h.fails, now);
    PacedAppend(h, now);
    if n >= h.success + 4 && now - h.fails[n - 4] <= WINDOW {
      NoResetInside(h, now);
      FullWindowBlocks(h, now);
    }
    if h.success < h.reset == n {
      assert now >= h.fails[n - 1] + BLOCK;
    }
    DisciplineOf(h, RefFail(h, now), now);
  }

  lemma StepKeepsDiscipline(d: Desk, hs: map<Ip, History>, e: Event)
    requires AllAgree(d, hs) && AllDisciplined(hs) && Enabled(d, e)
    ensures AllDisciplined(RefStep(hs, e))
  {
    forall ip
      ensures Disciplined(HistoryOf(RefStep(hs, e), ip))
    {
      assert AgreesAt(d, hs, ip) && Disciplined(HistoryOf(hs, ip));
      if ip == e.ip && e.Fail? {
        FailKeepsDiscipline(HistoryOf(hs, ip), e.t);
      }
    }
  }

  lemma {:induction false} RunKeepsDiscipline(d: Desk, hs: map<Ip, History>, es: seq<Event>)
    requires AllAgree(d, hs) && AllDisciplined(hs) && Valid(d, es)
    ensures AllAgree(Run(d, es), RefRun(hs, es)) && AllDisciplined(RefRun(hs, es))
    decreases es
  {
    if es != [] {
      StepAgrees(d, hs, es[0]);
      StepKeepsDiscipline(d, hs, es[0]);
      RunKeepsDiscipline(Step(d, es[0]), RefStep(hs, es[0]), es[1..]);
    }
  }

  /** The reference history grows by exactly the failures of the run. */
  lemma {:induction false} HistoryGrows(hs: map<Ip, History>, es: seq<Event>, ip: Ip)
    ensures HistoryOf(RefRun(hs, es), ip).fails == HistoryOf(hs, ip).fails + FailTimes(es, ip)
    ensures NoSuccess(es, ip) ==> HistoryOf(RefRun(hs, es), ip).success == HistoryOf(hs, ip).success
    decreases es
  {
    if es != [] {
      StepGrowsHistory(hs, es[0], ip);
      HistoryGrows(RefStep(hs, es[0]), es[1..], ip);
      hide RefStep, HistoryOf, RefRun;
      Associative(HistoryOf(hs, ip).fails, if es[0].Fail? && es[0].ip == ip then [es[0].t] else [], FailTimes(es[1..], ip));
      assert NoSuccess(es, ip) ==> NoSuccess(es[1..], ip) && NoSuccess([es[0]], ip);
    }
  }

  lemma StepGrowsHistory(hs: map<Ip, History>, e: Event, ip: Ip)
    ensures HistoryOf(RefStep(hs, e), ip).fails ==
      HistoryOf(hs, ip).fails + (if e.Fail? && e.ip == ip then [e.t] else [])
    ensures NoSuccess([e], ip) ==> HistoryOf(RefStep(hs, e), ip).success == HistoryOf(hs, ip).success
  {
    assert [e][0] == e;
  }

  /** 4q+1 steps of a paced log take at least q windows. */
  lemma {:induction false} PacedSpan(f: seq<real>, q: nat)
    requires Sorted(f) && Paced(f, 0) && |f| >= 4 * q + 2
    ensures f[4 * q + 1] - f[0] >= q as real * WINDOW
    decreases q
  {
    if q == 1 {
      assert PacedAt(f, 0);
    } else if q > 1 {
      assert PacedAt(f, 0);
      if f[4] - f[0] > WINDOW {
        PacedTail(f, 4);
        PacedSpan(f[4..], q - 1);
      } else {
        PacedTail(f, 5);
        PacedSpan(f[5..], q - 2);
        assert f[5..][4 * (q - 2) + 1] == f[4 * q - 2];
      }
    }
  }

  lemma PacedTail(f: seq<real>, k: nat)
    requires Sorted(f) && k <= |f| && Paced(f, k)
    ensures Sorted(f[k..]) && Paced(f[k..], 0)
  {
    var g := f[k..];
    forall i | 0 <= i < |g| - 4
      ensures PacedAt(g, i)
    {
      assert PacedAt(f, i + k);
    }
  }

  lemma {:induction false} RunSplits(d: Desk, a: seq<Event>, b: seq<Event>)
    requires Valid(d, a + b)
    ensures Valid(d, a) && Valid(Run(d, a), b) && Run(d, a + b) == Run(Run(d, a), b)
    decreases a
  {
    if a == [] {
      assert a + b == b;
    } else {
      assert (a + b)[1..] == a[1..] + b;
      RunSplits(Step(d, a[0]), a[1..], b);
    }
  }

  lemma {:induction false} FailTimesWithin(d: Desk, es: seq<Event>, ip: Ip)
    requires Valid(d, es) && es != []
    ensures es[0].t <= es[|es| - 1].t
    ensures AtLeast(FailTimes(es, ip), es[0].t) && AtMost(FailTimes(es, ip), es[|es| - 1].t)
    decreases es
  {
    if |es| > 1 {
      FailTimesWithin(Step(d, es[0]), es[1..], ip);
    } else {
      assert FailTimes(es[1..], ip) == [];
    }
  }

  lemma EmptyHistoriesAgree(start: real)
    ensures AllAgree(Opening(start), map[]) && AllDisciplined(map[])
  {
    forall ip
      ensures AgreesAt(Opening(start), map[], ip)
    {
    }
  }

  /**
   However the requests of all addresses interleave: over any stretch of span seconds in which
   ip does not log in successfully, at most 4*floor(span/60)+5 of its attempts fail unblocked.
   */
  lemma FailureBound(start: real, es: seq<Event>, i: nat, j: nat, ip: Ip, span: real)
    requires Valid(Opening(start), es) && i <= j <= |es|
    requires NoSuccess(es[i..j], ip)
    requires span >= 0.0 && (i < j ==> es[j - 1].t - es[i].t <= span)
    ensures |FailTimes(es[i..j], ip)| <= 4 * (span / 60.0).Floor + 5
  {
    var seg := es[i..j];
    if seg != [] {
      assert es[i..] == seg + es[j..] by { hide *; }
      assert es == es[..i] + es[i..] by { hide *; }
      RunSplits(Opening(start), es[..i], seg + es[j..]);
      var d, hs := Run(Opening(start), es[..i]), RefRun(map[], es[..i]);
      RunSplits(d, seg, es[j..]);
      EmptyHistoriesAgree(start);
      hide AllAgree, AllDisciplined, Run, Valid, RefRun, FailTimes, Step, RefStep, Enabled;
      RunKeepsDiscipline(Opening(start), map[], es[..i]);
      StretchIsPaced(d, hs, seg, ip);
      FailTimesWithin(d, seg, ip);
      PacedBound(FailTimes(seg, ip), seg[0].t, seg[|seg| - 1].t, span);
    }
  }

  /** The failures of a stretch without success are paced. */
  lemma StretchIsPaced(d: Desk, hs: map<Ip, History>, seg: seq<Event>, ip: Ip)
    requires AllAgree(d, hs) && AllDisciplined(hs) && Valid(d, seg) && NoSuccess(seg, ip)
    ensures Sorted(FailTimes(seg, ip)) && Paced(FailTimes(seg, ip), 0)
  {
    RunKeepsDiscipline(d, hs, seg);
    HistoryGrows(hs, seg, ip);
    var h, h' := HistoryOf(hs, ip), HistoryOf(RefRun(hs, seg), ip);
    assert Disciplined(h) && Disciplined(h');
    hide AllAgree, Run, Valid, RefRun, HistoryOf, FailTimes;
    assert FailTimes(seg, ip) == h'.fails[|h.fails|..];
    PacedTail(h'.fails, |h.fails|);
  }

  /** Paced failures within span seconds are at most so many. */
  lemma PacedBound(f: seq<real>, first: real, last: real, span: real)
    requires Sorted(f) && Paced(f, 0) && AtLeast(f, first) && AtMost(f, last) && last - first <= span && span >= 0.0
    ensures |f| <= 4 * (span / 60.0).Floor + 5
  {
    var q := (span / 60.0).Floor + 1;
    assert span / 60.0 < q as real;
    if |f| >= 4 * q + 2 {
      PacedSpan(f, q);
    }
  }

  /** An answer above 0 right after a failure means that failure just triggered a block. */
  lemma TriggeredBlock(d: Desk, hs: map<Ip, History>, last: Event)
    requires AllAgree(d, hs) && Enabled(d, last) && last.Fail?
    requires Answer(Step(d, last).tables, last.ip, last.t) > 0.0
    ensures AllAgree(Step(d, last), RefStep(hs, last))
    ensures HistoryOf(RefStep(hs, last), last.ip).until == Some(last.t + BLOCK)
  {
    StepAgrees(d, hs, last);
    assert AgreesAt(d, hs, last.ip) && AgreesAt(Step(d, last), RefStep(hs, last), last.ip);
  }

  /** A failure that triggers a block keeps every later attempt out for exactly 300 seconds. */
  lemma BlockLastsExactly(start: real, es: seq<Event>, last: Event, more: seq<Event>, check: Event)
    requires last.Fail? && check.Check? && check.ip == last.ip
    requires Valid(Opening(start), es + ([last] + (more + [check])))
    requires Answer(Step(Run(Opening(start), es), last).tables, last.ip, last.t) > 0.0
    requires forall k :: 0 <= k < |more| && more[k].ip == last.ip ==> more[k].t < last.t + 300.0
    ensures forall k :: 0 <= k < |more| && more[k].ip == last.ip ==> more[k].Check?
    ensures Answer(Run(Step(Run(Opening(start), es), last), more).tables, last.ip, check.t)
         == if check.t < last.t + 300.0 then last.t + 300.0 - check.t else 0.0
  {
    RunSplits(Opening(start), es, [last] + (more + [check]));
    EmptyHistoriesAgree(start);
    hide AllAgree, RefStep, HistoryOf, Step, Valid, Run, RefRun, Answer, Answers, RefAnswers;
    RunAgrees(Opening(start), map[], es);
    BlockFrom(Run(Opening(start), es), RefRun(map[], es), last, more, check);
  }

  lemma BlockFrom(d: Desk, hs: map<Ip, History>, last: Event, more: seq<Event>, check: Event)
    requires AllAgree(d, hs) && last.Fail? && check.Check? && check.ip == last.ip
    requires Valid(d, [last] + (more + [check]))
    requires Answer(Step(d, last).tables, last.ip, last.t) > 0.0
    requires forall k :: 0 <= k < |more| && more[k].ip == last.ip ==> more[k].t < last.t + BLOCK
    ensures forall k :: 0 <= k < |more| && more[k].ip == last.ip ==> more[k].Check?
    ensures Answer(Run(Step(d, last), more).tables, last.ip, check.t)
         == if check.t < last.t + BLOCK then last.t + BLOCK - check.t else 0.0
  {
    assert ([last] + (more + [check]))[1..] == more + [check];
    hide AllAgree, RefStep, HistoryOf, Step, Answer;
    TriggeredBlock(d, hs, last);
    RunSplits(Step(d, last), more, [check]);
    assert last.ip !in Step(d, last).admitted by { FailLeaves(d, last); }
    var d', hs' := Run(Step(d, last), more), RefRun(RefStep(hs, last), more);
    BlockHolds(Step(d, last), RefStep(hs, last), more, last.ip, last.t + BLOCK);
    assert Enabled(d', check);
    hide Run, RefRun, Valid, Enabled;
    StepAgrees(d', hs', check);
  }

  lemma FailLeaves(d: Desk, e: Event)
    requires e.Fail?
    ensures e.ip !in Step(d, e).admitted
  {
    hide AfterFail;
  }

  lemma {:induction false} BlockHolds(d: Desk, hs: map<Ip, History>, es: seq<Event>, ip: Ip, until: real)
    requires AllAgree(d, hs) && Valid(d, es)
    requires HistoryOf(hs, ip).until == Some(until) && ip !in d.admitted
    requires forall k :: 0 <= k < |es| && es[k].ip == ip ==> es[k].t < until
    ensures forall k :: 0 <= k < |es| && es[k].ip == ip ==> es[k].Check?
    ensures AllAgree(Run(d, es), RefRun(hs, es))
    ensures HistoryOf(RefRun(hs, es), ip).until == Some(until)
    decreases es
  {
    if es != [] {
      assert AgreesAt(d, hs, ip);
      StepAgrees(d, hs, es[0]);
      BlockHolds(Step(d, es[0]), RefStep(hs, es[0]), es[1..], ip, until);
    }
  }
}

/**
 Whole runs of the limiter. login_post calls rate_check first and only a request
 that was let through goes on to rate_record_fail or rate_clear; requests of
 different addresses interleave freely, those of one address follow each other.
 The reference limiter forgets nothing: it keeps every failure an address ever
 made and only remembers from where to count.
 */
module RateLimiterRuns {
  import opened Prelude
  import opened RateLimiter

  datatype Event =
    | Check(ip: Ip, t: real)
    | Fail(ip: Ip, t: real)
    | Clear(ip: Ip, t: real)

  /** The limiter, the addresses whose current request was let through, and the clock. */
  datatype Desk = Desk(tables: Tables, admitted: set<Ip>, clock: real)

  function Opening(start: real): Desk {
    Desk(Tables(map[], map[]), {}, start)
  }

  /** The order login_post imposes, at nondecreasing times. */
  predicate Enabled(d: Desk, e: Event) {
    && e.t >= d.clock
    && (e.ip in d.admitted <==> !e.Check?)
  }

  function Step(d: Desk, e: Event): Desk {
    match e
    case Check(ip, t) =>
      Desk(AfterCheck(d.tables, ip, t), if Answer(d.tables, ip, t) > 0.0 then d.admitted else d.admitted + {ip}, t)
    case Fail(ip, t) => Desk(AfterFail(d.tables, ip, t), d.admitted - {ip}, t)
    case Clear(ip, t) => Desk(AfterClear(d.tables, ip), d.admitted - {ip}, t)
  }

  predicate Valid(d: Desk, es: seq<Event>)
    decreases es
  {
    es != [] ==> Enabled(d, es[0]) && Valid(Step(d, es[0]), es[1..])
  }

  function Run(d: Desk, es: seq<Event>): Desk
    decreases es
  {
    if es == [] then d else Run(Step(d, es[0]), es[1..])
  }

  /** What rate_check answered, in order. */
  function Answers(d: Desk, es: seq<Event>): seq<real>
    decreases es
  {
    if es == [] then []
    else (if es[0].Check? then [Answer(d.tables, es[0].ip, es[0].t)] else []) + Answers(Step(d, es[0]), es[1..])
  }

  // ----- the reference limiter: nothing is ever dropped -----

  /** All failures of one address; counting starts at reset, the last success came before success. */
  datatype History = History(fails: seq<real>, reset: nat, success: nat, until: Option<real>)

  function HistoryOf(hs: map<Ip, History>, ip: Ip): History {
    if ip in hs then hs[ip] else History([], 0, 0, None)
  }

  /** The entries of s not older than cutoff. */
  function Recent(s: seq<real>, cutoff: real): seq<real> {
    if s == [] then [] else (if s[0] >= cutoff then [s[0]] else []) + Recent(s[1..], cutoff)
  }

  function RefAnswer(h: History, t: real): real {
    if h.until.Some? && h.until.value > t then h.until.value - t else 0.0
  }

  function RefFail(h: History, t: real): History {
    var fails := h.fails + [t];
    if h.reset <= |h.fails| && |Recent(fails[h.reset..], t - WINDOW)| >= RATE_MAX
    then History(fails, |fails|, h.success, Some(t + BLOCK))
    else h.(fails := fails)
  }

  function RefStep(hs: map<Ip, History>, e: Event): map<Ip, History> {
    match e
    case Check(_, _) => hs
    case Fail(ip, t) => hs[ip := RefFail(HistoryOf(hs, ip), t)]
    case Clear(ip, _) =>
      var h := HistoryOf(hs, ip);
      hs[ip := History(h.fails, |h.fails|, |h.fails|, None)]
  }

  function RefRun(hs: map<Ip, History>, es: seq<Event>): map<Ip, History>
    decreases es
  {
    if es == [] then hs else RefRun(RefStep(hs, es[0]), es[1..])
  }

  function RefAnswers(hs: map<Ip, History>, es: seq<Event>): seq<real>
    decreases es
  {
    if es == [] then []
    else (if es[0].Check? then [RefAnswer(HistoryOf(hs, es[0].ip), es[0].t)] else []) + RefAnswers(RefStep(hs, es[0]), es[1..])
  }

  // ----- pruned log against full history -----

  predicate Sorted(s: seq<real>) {
    forall i, j :: 0 <= i < j < |s| ==> s[i] <= s[j]
  }

  predicate AtMost(s: seq<real>, bound: real) {
    forall i :: 0 <= i < |s| ==> s[i] <= bound
  }

  predicate AtLeast(s: seq<real>, bound: real) {
    forall i :: 0 <= i < |s| ==> s[i] >= bound
  }

  function LogOf(t: Tables, ip: Ip): seq<real> {
    if ip in t.failLog then t.failLog[ip] else []
  }

  function UntilOf(t: Tables, ip: Ip): Option<real> {
    if ip in t.blockUntil then Some(t.blockUntil[ip]) else None
  }

  /** One address's pruned state says what its history says, from now on. */
  ghost predicate Agrees(log: seq<real>, until: Option<real>, h: History, now: real, admitted: bool) {
    && h.success <= h.reset <= |h.fails|
    && Sorted(h.fails) && AtMost(h.fails, now)
    && Sorted(log) && |log| < RATE_MAX
    && AtMost(log, now)
    && (forall c :: c >= now - WINDOW ==> Recent(log, c) == Recent(h.fails[h.reset..], c))
    && (until.Some? ==> log == [])
    && (admitted ==> until == None && (h.until.Some? ==> h.until.value <= now))
    && (h.until.Some? && h.until.value > now ==> until == h.until)
    && (until.Some? && until.value > now ==> h.until == until)
  }

  lemma {:induction false} RecentAppend(s: seq<real>, x: real, c: real)
    ensures Recent(s + [x], c) == Recent(s, c) + (if x >= c then [x] else [])
  {
    if s != [] {
      assert (s + [x])[1..] == s[1..] + [x];
      RecentAppend(s[1..], x, c);
    }
  }

  lemma {:induction false} PruneIsSuffix(s: seq<real>, c: real)
    ensures |Prune(s, c)| <= |s| && Prune(s, c) == s[|s| - |Prune(s, c)|..]
    ensures forall i :: 0 <= i < |s| - |Prune(s, c)| ==> s[i] < c
    ensures Prune(s, c) != [] ==> Prune(s, c)[0] >= c
  {
    if s != [] && s[0] < c {
      PruneIsSuffix(s[1..], c);
      assert forall i :: 0 < i < |s| - |Prune(s, c)| ==> s[i] == s[1..][i - 1];
    }
  }

  lemma {:induction false} RecentAll(s: seq<real>, c: real)
    requires AtLeast(s, c)
    ensures Recent(s, c) == s
  {
    if s != [] {
      RecentAll(s[1..], c);
    }
  }

  /** On a sorted log, popping from the left is filtering. */
  lemma {:induction false} PruneIsRecent(s: seq<real>, c: real)
    requires Sorted(s)
    ensures Prune(s, c) == Recent(s, c)
  {
    if s != [] {
      if s[0] < c {
        PruneIsRecent(s[1..], c);
      } else {
        RecentAll(s, c);
      }
    }
  }

  /** Pruning at a cutoff is invisible at every later cutoff. */
  lemma {:induction false} PruneInvisible(s: seq<real>, a: real, c: real)
    requires a <= c
    ensures Recent(Prune(s, a), c) == Recent(s, c)
  {
    if s != [] && s[0] < a {
      PruneInvisible(s[1..], a, c);
    }
  }

  lemma PruneTwice(s: seq<real>, c: real)
    ensures Prune(Prune(s, c), c) == Prune(s, c)
  {
    PruneIsSuffix(s, c);
  }

  /** The sweep never changes what any address's state means from now on. */
  lemma SweepKeepsAgreement(t: Tables, ip: Ip, h: History, now: real, admitted: bool)
    requires Agrees(LogOf(t, ip), UntilOf(t, ip), h, now, admitted)
    ensures Agrees(LogOf(Sweep(t, now), ip), UntilOf(Sweep(t, now), ip), h, now, admitted)
    ensures LogOf(Sweep(t, now), ip) == Prune(LogOf(t, ip), now - WINDOW)
  {
    var log := LogOf(t, ip);
    PruneIsSuffix(log, now - WINDOW);
    forall c | c >= now - WINDOW
      ensures Recent(Prune(log, now - WINDOW), c) == Recent(log, c)
    {
      PruneInvisible(log, now - WINDOW, c);
    }
  }

  lemma AgreementAges(log: seq<real>, until: Option<real>, h: History, now: real, later: real, admitted: bool)
    requires Agrees(log, until, h, now, admitted) && now <= later
    ensures Agrees(log, until, h, later, admitted)
  {
  }

  lemma SortedAppend(s: seq<real>, x: real)
    requires Sorted(s) && AtMost(s, x)
    ensures Sorted(s + [x]) && AtMost(s + [x], x)
  {
  }

  lemma PruneKeepsOrder(s: seq<real>, c: real, bound: real)
    requires Sorted(s) && AtMost(s, bound)
    ensures Sorted(Prune(s, c)) && AtMost(Prune(s, c), bound)
  {
    PruneIsSuffix(s, c);
  }

  /** The window just before the length test holds exactly the failures that count. */
  lemma WindowAgrees(log: seq<real>, full: seq<real>, now: real, c: real)
    requires Sorted(log) && c >= now - WINDOW
    requires forall c :: c >= now - WINDOW ==> Recent(log, c) == Recent(full, c)
    ensures Recent(Prune(log, now - WINDOW) + [now], c) == Recent(full + [now], c)
    ensures Prune(log, now - WINDOW) + [now] == Recent(full + [now], now - WINDOW)
  {
    PruneIsRecent(log, now - WINDOW);
    RecentAppend(full, now, now - WINDOW);
    PruneInvisible(log, now - WINDOW, c);
    RecentAppend(Prune(log, now - WINDOW), now, c);
    RecentAppend(full, now, c);
  }

  lemma FailKeepsAgreement(log: seq<real>, h: History, now: real)
    requires Agrees(log, None, h, now, true)
    ensures var l := Prune(log, now - WINDOW) + [now];
      if |l| >= RATE_MAX then Agrees([], Some(now + BLOCK), RefFail(h, now), now, false)
      else Agrees(l, None, RefFail(h, now), now, false)
  {
    var full, l := h.fails[h.reset..], Prune(log, now - WINDOW) + [now];
    assert (h.fails + [now])[h.reset..] == full + [now];
    SortedAppend(h.fails, now);
    WindowAgrees(log, full, now, now);
    if |l| >= RATE_MAX {
      assert RefFail(h, now).fails[|h.fails| + 1..] == [];
    } else {
      PruneKeepsOrder(log, now - WINDOW, now);
      SortedAppend(Prune(log, now - WINDOW), now);
      forall c | c >= now - WINDOW
        ensures Recent(l, c) == Recent(full + [now], c)
      {
        WindowAgrees(log, full, now, c);
      }
    }
  }

  /** What rate_record_fail leaves at each address, whether or not it swept. */
  lemma AfterFailAt(t: Tables, ip: Ip, k: Ip, now: real)
    requires UntilOf(t, ip) == None
    ensures k != ip ==> LogOf(AfterFail(t, ip, now), k) == LogOf(MaybeSweep(t, now), k)
    ensures k != ip ==> UntilOf(AfterFail(t, ip, now), k) == UntilOf(MaybeSweep(t, now), k)
    ensures var l := Prune(LogOf(t, ip), now - WINDOW) + [now];
      && LogOf(AfterFail(t, ip, now), ip) == (if |l| >= RATE_MAX then [] else l)
      && UntilOf(AfterFail(t, ip, now), ip) == (if |l| >= RATE_MAX then Some(now + BLOCK) else None)
  {
    PruneTwice(LogOf(t, ip), now - WINDOW);
  }

  ghost predicate AgreesAt(d: Desk, hs: map<Ip, History>, ip: Ip) {
    Agrees(LogOf(d.tables, ip), UntilOf(d.tables, ip), HistoryOf(hs, ip), d.clock, ip in d.admitted)
  }

  ghost predicate AllAgree(d: Desk, hs: map<Ip, History>) {
    forall ip :: AgreesAt(d, hs, ip)
  }

  lemma CheckAgrees(d: Desk, hs: map<Ip, History>, e: Event, ip: Ip)
    requires e.Check? && Enabled(d, e) && AgreesAt(d, hs, ip)
    ensures AgreesAt(Step(d, e), RefStep(hs, e), ip)
    ensures ip == e.ip ==> Answer(d.tables, ip, e.t) == RefAnswer(HistoryOf(hs, ip), e.t)
  {
    AgreementAges(LogOf(d.tables, ip), UntilOf(d.tables, ip), HistoryOf(hs, ip), d.clock, e.t, ip in d.admitted);
  }

  lemma ClearAgrees(d: Desk, hs: map<Ip, History>, e: Event, ip: Ip)
    requires e.Clear? && Enabled(d, e) && AgreesAt(d, hs, ip)
    ensures AgreesAt(Step(d, e), RefStep(hs, e), ip)
  {
    var h := HistoryOf(hs, ip);
    AgreementAges(LogOf(d.tables, ip), UntilOf(d.tables, ip), h, d.clock, e.t, ip in d.admitted);
    assert h.fails[|h.fails|..] == [];
  }

  lemma FailAgreesHere(d: Desk, hs: map<Ip, History>, e: Event)
    requires e.Fail? && Enabled(d, e) && AgreesAt(d, hs, e.ip)
    ensures AgreesAt(Step(d, e), RefStep(hs, e), e.ip)
  {
    var h, log, l := HistoryOf(hs, e.ip), LogOf(d.tables, e.ip), Prune(LogOf(d.tables, e.ip), e.t - WINDOW) + [e.t];
    assert UntilOf(d.tables, e.ip) == None;
    assert Agrees(log, None, h, e.t, true) by { AgreementAges(log, None, h, d.clock, e.t, true); }
    hide Agrees;
    FailKeepsAgreement(log, h, e.t);
    AfterFailAt(d.tables, e.ip, e.ip, e.t);
    assert HistoryOf(RefStep(hs, e), e.ip) == RefFail(h, e.t);
    assert LogOf(Step(d, e).tables, e.ip) == if |l| >= RATE_MAX then [] else l;
  }

  lemma FailAgreesElsewhere(d: Desk, hs: map<Ip, History>, e: Event, ip: Ip)
    requires e.Fail? && Enabled(d, e) && AgreesAt(d, hs, ip) && AgreesAt(d, hs, e.ip) && ip != e.ip
    ensures AgreesAt(Step(d, e), RefStep(hs, e), ip)
  {
    var h, log, until, admitted := HistoryOf(hs, ip), LogOf(d.tables, ip), UntilOf(d.tables, ip), ip in d.admitted;
    assert UntilOf(d.tables, e.ip) == None;
    hide Agrees;
    AgreementAges(log, until, h, d.clock, e.t, admitted);
    SweepKeepsAgreement(d.tables, ip, h, e.t, admitted);
    AfterFailAt(d.tables, e.ip, ip, e.t);
    assert HistoryOf(RefStep(hs, e), ip) == h;
    assert LogOf(Step(d, e).tables, ip) == LogOf(MaybeSweep(d.tables, e.t), ip);
    assert UntilOf(Step(d, e).tables, ip) == UntilOf(MaybeSweep(d.tables, e.t), ip);
    assert ip in Step(d, e).admitted <==> admitted;
  }

  /** One event keeps every address in agreement, and its answer is the reference's. */
  lemma StepAgrees(d: Desk, hs: map<Ip, History>, e: Event)
    requires AllAgree(d, hs) && Enabled(d, e)
    ensures AllAgree(Step(d, e), RefStep(hs, e))
    ensures e.Check? ==> Answer(d.tables, e.ip, e.t) == RefAnswer(HistoryOf(hs, e.ip), e.t)
  {
    forall ip
      ensures AgreesAt(Step(d, e), RefStep(hs, e), ip)
      ensures e.Check? && ip == e.ip ==> Answer(d.tables, ip, e.t) == RefAnswer(HistoryOf(hs, ip), e.t)
    {
      assert AgreesAt(d, hs, ip) && AgreesAt(d, hs, e.ip);
      match e
      case Check(_, _) => CheckAgrees(d, hs, e, ip);
      case Fail(_, _) =>
        if ip == e.ip { FailAgreesHere(d, hs, e); } else { FailAgreesElsewhere(d, hs, e, ip); }
      case Clear(_, _) => ClearAgrees(d, hs, e, ip);
    }
  }

  /** Over every run: same answers as the limiter that forgets nothing; logs stay sorted and short. */
  lemma {:induction false} RunAgrees(d: Desk, hs: map<Ip, History>, es: seq<Event>)
    requires AllAgree(d, hs) && Valid(d, es)
    ensures Answers(d, es) == RefAnswers(hs, es)
    ensures AllAgree(Run(d, es), RefRun(hs, es))
    decreases es
  {
    if es != [] {
      StepAgrees(d, hs, es[0]);
      RunAgrees(Step(d, es[0]), RefStep(hs, es[0]), es[1..]);
    }
  }

  lemma PruningIsInvisible(start: real, es: seq<Event>)
    requires Valid(Opening(start), es)
    ensures Answers(Opening(start), es) == RefAnswers(map[], es)
    ensures forall ip :: ip in Run(Opening(start), es).tables.failLog ==>
      var log := Run(Opening(start), es).tables.failLog[ip]; Sorted(log) && |log| < RATE_MAX
  {
    RunAgrees(Opening(start), map[], es);
    var d := Run(Opening(start), es);
    forall ip | ip in d.tables.failLog
      ensures Sorted(d.tables.failLog[ip]) && |d.tables.failLog[ip]| < RATE_MAX
    {
      assert AgreesAt(d, RefRun(map[], es), ip);
    }
  }
}

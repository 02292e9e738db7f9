/**
 Requests of one address that overlap: a request holds nothing between its rate_check and its
 rate_record_fail or rate_clear, so any number of them can be in between. The promises about
 failures, blocks and pruning hold for at most one request in flight, and for no more.
 */
module RateLimiterOverlap {
  import opened Prelude
  import opened RateLimiter
  import opened RateLimiterRuns
  import opened RateLimiterBound
  import opened RateLimiterTight

  /** The limiter, how many requests of each address were let through and are not done, and the clock. */
  datatype Hall = Hall(tables: Tables, inFlight: multiset<Ip>, clock: real)

  function Doors(start: real): Hall {
    Hall(Tables(map[], map[]), multiset{}, start)
  }

  /** The order login_post imposes on each request, with at most cap requests of an address in flight. */
  predicate MayGo(h: Hall, e: Event, cap: nat) {
    && e.t >= h.clock
    && (if e.Check? then h.inFlight[e.ip] < cap else h.inFlight[e.ip] > 0)
  }

  function Go(h: Hall, e: Event): Hall {
    match e
    case Check(ip, t) =>
      Hall(AfterCheck(h.tables, ip, t), if Answer(h.tables, ip, t) > 0.0 then h.inFlight else h.inFlight + multiset{ip}, t)
    case Fail(ip, t) => Hall(AfterFail(h.tables, ip, t), h.inFlight - multiset{ip}, t)
    case Clear(ip, t) => Hall(AfterClear(h.tables, ip), h.inFlight - multiset{ip}, t)
  }

  predicate Passable(h: Hall, es: seq<Event>, cap: nat)
    decreases es
  {
    es != [] ==> MayGo(h, es[0], cap) && Passable(Go(h, es[0]), es[1..], cap)
  }

  function Pass(h: Hall, es: seq<Event>): Hall
    decreases es
  {
    if es == [] then h else Pass(Go(h, es[0]), es[1..])
  }

  /** What rate_check answered, in order. */
  function Replies(h: Hall, es: seq<Event>): seq<real>
    decreases es
  {
    if es == [] then []
    else (if es[0].Check? then [Answer(h.tables, es[0].ip, es[0].t)] else []) + Replies(Go(h, es[0]), es[1..])
  }

  // ----- the three promises, for a number of requests in flight -----

  /** ip does not succeed between i and j, which are at most span seconds apart. */
  predicate Stretch(es: seq<Event>, i: nat, j: nat, ip: Ip, span: real) {
    i <= j <= |es| && NoSuccess(es[i..j], ip) && span >= 0.0 && (i < j ==> es[j - 1].t - es[i].t <= span)
  }

  /** The bound of FailureBound, for all runs with at most cap requests of an address in flight. */
  ghost predicate BoundHolds(cap: nat) {
    forall start, es, i, j, ip, span ::
      Passable(Doors(start), es, cap) && Stretch(es, i, j, ip, span) ==>
        |FailTimes(es[i..j], ip)| <= 4 * (span / 60.0).Floor + 5
  }

  /** The last event is the failure that triggers a block. */
  predicate Triggers(t: Tables, last: Event) {
    last.Fail? && UntilOf(AfterFail(t, last.ip, last.t), last.ip) == Some(last.t + 300.0)
  }

  /** check comes after a block was triggered by last, with nothing of its address after the block in between. */
  predicate BlockedRun(start: real, es: seq<Event>, last: Event, more: seq<Event>, check: Event) {
    && Triggers(Pass(Doors(start), es).tables, last)
    && check.Check? && check.ip == last.ip
    && forall k :: 0 <= k < |more| && more[k].ip == last.ip ==> more[k].t < last.t + 300.0
  }

  /** A block lasts exactly 300 seconds, in all such runs. */
  ghost predicate BlocksLast(cap: nat) {
    forall start, es, last, more, check ::
      Passable(Doors(start), es + ([last] + (more + [check])), cap) && BlockedRun(start, es, last, more, check) ==>
        Answer(Pass(Go(Pass(Doors(start), es), last), more).tables, last.ip, check.t)
          == if check.t < last.t + 300.0 then last.t + 300.0 - check.t else 0.0
  }

  /** The limiter answers as the one that forgets nothing, in all such runs. */
  ghost predicate PruningUnseen(cap: nat) {
    forall start, es :: Passable(Doors(start), es, cap) ==> Replies(Doors(start), es) == RefAnswers(map[], es)
  }

  // ----- one request at a time is the desk -----

  /** The hall of at most one request per address, seen as a desk. */
  function DeskOf(h: Hall): Desk {
    Desk(h.tables, (set ip | ip in h.inFlight), h.clock)
  }

  ghost predicate Single(h: Hall) {
    forall ip :: h.inFlight[ip] <= 1
  }

  lemma GoIsStep(h: Hall, e: Event, cap: nat)
    requires Single(h) && cap <= 1 && MayGo(h, e, cap)
    ensures Enabled(DeskOf(h), e) && Single(Go(h, e)) && DeskOf(Go(h, e)) == Step(DeskOf(h), e)
  {
    hide AfterCheck, AfterFail, AfterClear, Answer;
    assert forall ip :: ip in Go(h, e).inFlight <==> ip in Step(DeskOf(h), e).admitted;
  }

  lemma {:induction false} PassIsRun(h: Hall, es: seq<Event>, cap: nat)
    requires Single(h) && cap <= 1 && Passable(h, es, cap)
    ensures Valid(DeskOf(h), es) && Single(Pass(h, es)) && DeskOf(Pass(h, es)) == Run(DeskOf(h), es)
    ensures Replies(h, es) == Answers(DeskOf(h), es)
    decreases es
  {
    if es != [] {
      GoIsStep(h, es[0], cap);
      PassIsRun(Go(h, es[0]), es[1..], cap);
      hide DeskOf, Go, Step, MayGo, Enabled, Answer, Single;
      assert h.tables == DeskOf(h).tables by { DeskHasTables(h); }
    }
  }

  lemma DeskHasTables(h: Hall)
    ensures DeskOf(h).tables == h.tables
  {
  }

  lemma DoorsAreOpening(start: real)
    ensures Single(Doors(start)) && DeskOf(Doors(start)) == Opening(start)
  {
    assert DeskOf(Doors(start)).admitted == {};
  }

  // ----- and a desk is a hall, whatever the cap -----

  function HallOf(d: Desk): Hall {
    Hall(d.tables, multiset(d.admitted), d.clock)
  }

  lemma StepIsGo(d: Desk, e: Event, cap: nat)
    requires Enabled(d, e) && cap >= 1
    ensures MayGo(HallOf(d), e, cap) && Go(HallOf(d), e) == HallOf(Step(d, e))
  {
    hide AfterCheck, AfterFail, AfterClear, Answer;
    assert multiset(d.admitted + {e.ip}) == if e.ip in d.admitted then multiset(d.admitted) else multiset(d.admitted) + multiset{e.ip};
    assert multiset(d.admitted - {e.ip}) == multiset(d.admitted) - multiset{e.ip};
  }

  lemma {:induction false} RunIsPass(d: Desk, es: seq<Event>, cap: nat)
    requires Valid(d, es) && cap >= 1
    ensures Passable(HallOf(d), es, cap) && Pass(HallOf(d), es) == HallOf(Run(d, es))
    ensures Replies(HallOf(d), es) == Answers(d, es)
    decreases es
  {
    if es != [] {
      StepIsGo(d, es[0], cap);
      RunIsPass(Step(d, es[0]), es[1..], cap);
      hide Go, Step, MayGo, Enabled, Answer;
    }
  }

  lemma {:induction false} PassJoins(h: Hall, a: seq<Event>, b: seq<Event>, cap: nat)
    ensures Passable(h, a + b, cap) <==> Passable(h, a, cap) && Passable(Pass(h, a), b, cap)
    ensures Pass(h, a + b) == Pass(Pass(h, a), b)
    ensures Replies(h, a + b) == Replies(h, a) + Replies(Pass(h, a), b)
    decreases a
  {
    if a == [] {
      assert a + b == b;
    } else {
      assert (a + b)[1..] == a[1..] + b;
      hide Go, MayGo, Answer;
      PassJoins(Go(h, a[0]), a[1..], b, cap);
      Associative(if a[0].Check? then [Answer(h.tables, a[0].ip, a[0].t)] else [], Replies(Go(h, a[0]), a[1..]), Replies(Pass(h, a), b));
    }
  }

  lemma PassOne(h: Hall, e: Event, cap: nat)
    ensures Passable(h, [e], cap) <==> MayGo(h, e, cap)
    ensures Pass(h, [e]) == Go(h, e)
    ensures Replies(h, [e]) == if e.Check? then [Answer(h.tables, e.ip, e.t)] else []
  {
    assert [e][1..] == [];
  }

  // ----- two requests at once -----

  function Checks(ip: Ip, t: real, n: nat): seq<Event> {
    if n == 0 then [] else [Check(ip, t)] + Checks(ip, t, n - 1)
  }

  function Fails(ip: Ip, t: real, n: nat): seq<Event> {
    if n == 0 then [] else [Fail(ip, t)] + Fails(ip, t, n - 1)
  }

  lemma {:induction false} ChecksPass(h: Hall, ip: Ip, t: real, n: nat, cap: nat)
    requires ip !in h.tables.blockUntil && h.clock <= t && h.inFlight[ip] + n <= cap
    ensures Passable(h, Checks(ip, t, n), cap)
    ensures var h' := Pass(h, Checks(ip, t, n)); h'.tables == h.tables && h'.clock <= t && h'.inFlight[ip] == h.inFlight[ip] + n
    decreases n
  {
    if n > 0 {
      var h1 := Go(h, Check(ip, t));
      assert h1.tables == h.tables && h1.inFlight[ip] == h.inFlight[ip] + 1;
      ChecksPass(h1, ip, t, n - 1, cap);
      PassJoins(h, [Check(ip, t)], Checks(ip, t, n - 1), cap);
      PassOne(h, Check(ip, t), cap);
    }
  }

  lemma {:induction false} FailsPass(h: Hall, ip: Ip, t: real, n: nat, cap: nat)
    requires h.clock <= t && h.inFlight[ip] >= n
    ensures Passable(h, Fails(ip, t, n), cap)
    decreases n
  {
    if n > 0 {
      var h1 := Go(h, Fail(ip, t));
      assert h1.inFlight[ip] == h.inFlight[ip] - 1 && h1.clock == t && MayGo(h, Fail(ip, t), cap);
      hide Go, MayGo, Passable, Pass;
      FailsPass(h1, ip, t, n - 1, cap);
      PassJoins(h, [Fail(ip, t)], Fails(ip, t, n - 1), cap);
      PassOne(h, Fail(ip, t), cap);
    }
  }

  lemma {:induction false} ChecksShape(ip: Ip, t: real, n: nat)
    ensures FailTimes(Checks(ip, t, n), ip) == [] && |Checks(ip, t, n)| == n
    ensures forall i :: 0 <= i < n ==> Checks(ip, t, n)[i] == Check(ip, t)
  {
    if n > 0 {
      ChecksShape(ip, t, n - 1);
      assert Checks(ip, t, n)[1..] == Checks(ip, t, n - 1);
    }
  }

  lemma {:induction false} FailsShape(ip: Ip, t: real, n: nat)
    ensures |FailTimes(Fails(ip, t, n), ip)| == n && |Fails(ip, t, n)| == n
    ensures forall i :: 0 <= i < n ==> Fails(ip, t, n)[i] == Fail(ip, t)
  {
    if n > 0 {
      FailsShape(ip, t, n - 1);
      assert Fails(ip, t, n)[1..] == Fails(ip, t, n - 1);
    }
  }

  /** Four failed logins at once, one after the other. */
  lemma FourFail(ip: Ip, cap: nat)
    requires cap >= 1
    ensures Passable(Doors(0.0), Burst(ip, 0.0, 4), cap)
    ensures Pass(Doors(0.0), Burst(ip, 0.0, 4)) == Hall(Tables(map[ip := Same(0.0, 4)], map[]), multiset{}, 0.0)
  {
    var d := Opening(0.0);
    assert HallOf(d) == Doors(0.0);
    BurstRuns(d, ip, [], 0.0, 0, 4);
    RunIsPass(d, Burst(ip, 0.0, 4), cap);
    hide Same, Burst, Run, Valid, Passable, Pass;
  }

  function Crowd(ip: Ip, cap: nat): seq<Event> {
    Burst(ip, 0.0, 4) + (Checks(ip, 0.0, cap) + Fails(ip, 0.0, cap))
  }

  /** With cap requests in flight, cap+4 failures get through at a single instant. */
  lemma CrowdGetsThrough(ip: Ip, cap: nat)
    requires cap >= 1
    ensures Passable(Doors(0.0), Crowd(ip, cap), cap)
    ensures var es := Crowd(ip, cap); Stretch(es, 0, |es|, ip, 0.0) && |FailTimes(es[0..|es|], ip)| == cap + 4
  {
    var a, b, c := Burst(ip, 0.0, 4), Checks(ip, 0.0, cap), Fails(ip, 0.0, cap);
    FourFail(ip, cap);
    CrowdShape(ip, cap);
    assert Crowd(ip, cap)[0..|Crowd(ip, cap)|] == Crowd(ip, cap);
    var h := Pass(Doors(0.0), a);
    assert ip !in h.tables.blockUntil && h.clock == 0.0 && h.inFlight[ip] == 0;
    hide Passable, Pass, Burst, Same, Checks, Fails, FailTimes, NoSuccess;
    ChecksPass(h, ip, 0.0, cap, cap);
    FailsPass(Pass(h, b), ip, 0.0, cap, cap);
    PassJoins(h, b, c, cap);
    PassJoins(Doors(0.0), a, b + c, cap);
  }

  lemma CrowdShape(ip: Ip, cap: nat)
    ensures var es := Crowd(ip, cap);
      && NoSuccess(es, ip) && |FailTimes(es, ip)| == cap + 4 && forall i :: 0 <= i < |es| ==> es[i].t == 0.0
  {
    var a, b, c := Burst(ip, 0.0, 4), Checks(ip, 0.0, cap), Fails(ip, 0.0, cap);
    BurstShape(ip, 0.0, 4);
    ChecksShape(ip, 0.0, cap);
    FailsShape(ip, 0.0, cap);
    FailTimesJoin(b, c, ip);
    FailTimesJoin(a, b + c, ip);
    hide Burst, Checks, Fails, FailTimes;
    var es := a + (b + c);
    forall i | 0 <= i < |es|
      ensures es[i].t == 0.0 && !(es[i].Clear? && es[i].ip == ip)
    {
      if i < |a| {
        assert es[i] == a[i];
      } else if i < |a| + |b| {
        assert es[i] == b[i - |a|];
      } else {
        assert es[i] == c[i - |a| - |b|];
      }
    }
  }

  /** The bound on failures holds for all runs with at most cap requests of an address in flight exactly when cap is at most one. */
  lemma BoundHoldsIff(cap: nat)
    ensures BoundHolds(cap) <==> cap <= 1
  {
    if cap <= 1 {
      forall start, es, i: nat, j: nat, ip, span | Passable(Doors(start), es, cap) && Stretch(es, i, j, ip, span)
        ensures |FailTimes(es[i..j], ip)| <= 4 * (span / 60.0).Floor + 5
      {
        DoorsAreOpening(start);
        PassIsRun(Doors(start), es, cap);
        FailureBound(start, es, i, j, ip, span);
      }
    } else {
      var es := Crowd("a", cap);
      CrowdGetsThrough("a", cap);
      hide Crowd, Passable, Stretch, FailTimes;
      assert Passable(Doors(0.0), es, cap) && Stretch(es, 0, |es|, "a", 0.0);
    }
  }

  // ----- what a second request does to a block -----

  /** Four failures, then two requests of which one fails. */
  lemma OneOfTwoFails(ip: Ip, cap: nat)
    requires cap >= 2
    ensures var es := Burst(ip, 0.0, 4) + [Check(ip, 0.0), Check(ip, 0.0)];
      && Passable(Doors(0.0), es, cap)
      && Pass(Doors(0.0), es) == Hall(Tables(map[ip := Same(0.0, 4)], map[]), multiset{ip, ip}, 0.0)
      && Go(Pass(Doors(0.0), es), Fail(ip, 0.0)) == Hall(Tables(map[ip := []], map[ip := BLOCK]), multiset{ip}, 0.0)
  {
    var a, b := Burst(ip, 0.0, 4), [Check(ip, 0.0), Check(ip, 0.0)];
    FourFail(ip, cap);
    var h := Pass(Doors(0.0), a);
    hide Burst;
    PassJoins(Doors(0.0), a, b, cap);
    assert b == [Check(ip, 0.0)] + [Check(ip, 0.0)];
    PassJoins(h, [Check(ip, 0.0)], [Check(ip, 0.0)], cap);
    PassOne(h, Check(ip, 0.0), cap);
    PassOne(Go(h, Check(ip, 0.0)), Check(ip, 0.0), cap);
    PruneNothing(Same(0.0, 4), 0.0 - WINDOW);
    var h2 := Go(Go(h, Check(ip, 0.0)), Check(ip, 0.0));
    assert h2.inFlight == multiset{ip, ip};
    assert |h2.tables.failLog| == 1;
    assert h2.inFlight - multiset{ip} == multiset{ip};
  }

  /** A block lasts exactly its time in all runs with at most cap requests in flight exactly when cap is at most one: a second request that succeeds lifts it. */
  lemma BlocksLastIff(cap: nat)
    ensures BlocksLast(cap) <==> cap <= 1
  {
    if cap <= 1 {
      forall start, es, last, more, check |
          Passable(Doors(start), es + ([last] + (more + [check])), cap) && BlockedRun(start, es, last, more, check)
        ensures Answer(Pass(Go(Pass(Doors(start), es), last), more).tables, last.ip, check.t)
             == if check.t < last.t + 300.0 then last.t + 300.0 - check.t else 0.0
      {
        BlocksLastAlone(start, es, last, more, check, cap);
      }
    } else {
      SecondSuccessLifts("a", cap);
    }
  }

  /** Two requests at once: one fails and triggers a block, the other succeeds and lifts it. */
  lemma SecondSuccessLifts(ip: Ip, cap: nat)
    requires cap >= 2
    ensures !BlocksLast(cap)
  {
    var es, last, clear, check := Burst(ip, 0.0, 4) + [Check(ip, 0.0), Check(ip, 0.0)], Fail(ip, 0.0), Clear(ip, 0.0), Check(ip, 1.0);
    OneOfTwoFails(ip, cap);
    ClearLifts(Pass(Doors(0.0), es), ip, cap);
    assert BlockedRun(0.0, es, last, [clear], check) by { hide Passable, Pass, Go, Burst, Triggers, Same, Answer; }
    hide Passable, Pass, Go, MayGo, BlockedRun, Answer, Burst, Triggers, Same;
    ThreeMore(Doors(0.0), es, last, clear, check, cap);
    assert Passable(Doors(0.0), es + ([last] + ([clear] + [check])), cap);
  }

  lemma ThreeMore(h: Hall, es: seq<Event>, a: Event, b: Event, c: Event, cap: nat)
    requires Passable(h, es, cap)
    requires var h0 := Pass(h, es);
      MayGo(h0, a, cap) && MayGo(Go(h0, a), b, cap) && MayGo(Go(Go(h0, a), b), c, cap)
    ensures Passable(h, es + ([a] + ([b] + [c])), cap) && Pass(Go(Pass(h, es), a), [b]) == Go(Go(Pass(h, es), a), b)
  {
    var h0 := Pass(h, es);
    PassOne(h0, a, cap);
    PassOne(Go(h0, a), b, cap);
    PassOne(Go(Go(h0, a), b), c, cap);
    hide Passable, Pass, Go, MayGo;
    PassJoins(h, es, [a] + ([b] + [c]), cap);
    PassJoins(h0, [a], [b] + [c], cap);
    PassJoins(Go(h0, a), [b], [c], cap);
  }

  lemma ClearLifts(h: Hall, ip: Ip, cap: nat)
    requires cap >= 2 && h.inFlight == multiset{ip, ip} && h.clock == 0.0
    requires Go(h, Fail(ip, 0.0)) == Hall(Tables(map[ip := []], map[ip := BLOCK]), multiset{ip}, 0.0)
    ensures var h1 := Go(h, Fail(ip, 0.0));
      var h2 := Go(h1, Clear(ip, 0.0));
      && MayGo(h, Fail(ip, 0.0), cap) && MayGo(h1, Clear(ip, 0.0), cap) && MayGo(h2, Check(ip, 1.0), cap)
      && Triggers(h.tables, Fail(ip, 0.0)) && Answer(h2.tables, ip, 1.0) == 0.0
  {
    assert Go(h, Fail(ip, 0.0)).tables == AfterFail(h.tables, ip, 0.0);
    hide AfterFail;
  }

  lemma BlocksLastAlone(start: real, es: seq<Event>, last: Event, more: seq<Event>, check: Event, cap: nat)
    requires cap <= 1 && Passable(Doors(start), es + ([last] + (more + [check])), cap) && BlockedRun(start, es, last, more, check)
    ensures Answer(Pass(Go(Pass(Doors(start), es), last), more).tables, last.ip, check.t)
         == if check.t < last.t + 300.0 then last.t + 300.0 - check.t else 0.0
  {
    hide Passable, Pass, Valid, Run, Prune, MaybeSweep, AfterFail, Enabled;
    var all := es + ([last] + (more + [check]));
    DoorsAreOpening(start);
    PassIsRun(Doors(start), all, cap);
    PassJoins(Doors(start), es, [last] + (more + [check]), cap);
    PassIsRun(Doors(start), es, cap);
    var h := Pass(Doors(start), es);
    PassJoins(h, [last], more + [check], cap);
    PassOne(h, last, cap);
    PassJoins(Go(h, last), more, [check], cap);
    GoIsStep(h, last, cap);
    PassIsRun(Go(h, last), more, cap);
    DeskHasTables(h);
    DeskHasTables(Go(h, last));
    DeskHasTables(Pass(Go(h, last), more));
    hide DeskOf, Passable, Pass, Go, Valid, Run, Prune, MaybeSweep;
    assert UntilOf(Step(Run(Opening(start), es), last).tables, last.ip) == Some(last.t + BLOCK);
    BlockLastsExactly(start, es, last, more, check);
  }

  // ----- what a second request does to pruning -----

  lemma {:induction false} RefJoins(hs: map<Ip, History>, a: seq<Event>, b: seq<Event>)
    ensures RefRun(hs, a + b) == RefRun(RefRun(hs, a), b)
    ensures RefAnswers(hs, a + b) == RefAnswers(hs, a) + RefAnswers(RefRun(hs, a), b)
    decreases a
  {
    if a == [] {
      assert a + b == b;
    } else {
      assert (a + b)[1..] == a[1..] + b;
      hide RefStep, RefAnswer, HistoryOf;
      RefJoins(RefStep(hs, a[0]), a[1..], b);
      Associative(if a[0].Check? then [RefAnswer(HistoryOf(hs, a[0].ip), a[0].t)] else [],
                  RefAnswers(RefStep(hs, a[0]), a[1..]), RefAnswers(RefRun(hs, a), b));
    }
  }

  lemma RefOne(hs: map<Ip, History>, e: Event)
    ensures RefRun(hs, [e]) == RefStep(hs, e)
    ensures RefAnswers(hs, [e]) == if e.Check? then [RefAnswer(HistoryOf(hs, e.ip), e.t)] else []
  {
    assert [e][1..] == [];
  }

  /** One failed login, as the reference sees it. */
  lemma RefPair(hs: map<Ip, History>, ip: Ip, t: real)
    ensures HistoryOf(RefRun(hs, [Check(ip, t), Fail(ip, t)]), ip) == RefFail(HistoryOf(hs, ip), t)
  {
    assert [Check(ip, t), Fail(ip, t)] == [Check(ip, t)] + [Fail(ip, t)];
    RefJoins(hs, [Check(ip, t)], [Fail(ip, t)]);
    RefOne(hs, Check(ip, t));
    RefOne(hs, Fail(ip, t));
    hide RefFail;
  }

  /** n failures that do not fill the window are just appended. */
  lemma {:induction false} RefBurst(hs: map<Ip, History>, ip: Ip, t: real, n: nat)
    requires var h := HistoryOf(hs, ip); h.reset <= |h.fails| && AtLeast(h.fails[h.reset..], t - WINDOW) && |h.fails| - h.reset + n < 5
    ensures var h := HistoryOf(hs, ip);
      HistoryOf(RefRun(hs, Burst(ip, t, n)), ip) == h.(fails := h.fails + Same(t, n))
    decreases n
  {
    var h := HistoryOf(hs, ip);
    if n == 0 {
      assert h.fails + Same(t, 0) == h.fails;
      assert RefRun(hs, Burst(ip, t, 0)) == hs;
    } else {
      var pair, rest := [Check(ip, t), Fail(ip, t)], Burst(ip, t, n - 1);
      var hs' := RefRun(hs, pair);
      RefPair(hs, ip, t);
      RefFailAppends(h, t);
      SameFromFront(t, n);
      assert Burst(ip, t, n) == pair + rest;
      var h' := h.(fails := h.fails + [t]);
      assert h'.fails[h'.reset..] == h.fails[h.reset..] + [t];
      hide RefFail, RefRun, HistoryOf, Burst, Same;
      RefJoins(hs, pair, rest);
      RefBurst(hs', ip, t, n - 1);
      Associative(h.fails, [t], Same(t, n - 1));
    }
  }

  lemma RefFailAppends(h: History, t: real)
    requires h.reset <= |h.fails| && AtLeast(h.fails[h.reset..], t - WINDOW)
    ensures RefFail(h, t) == if |h.fails| - h.reset + 1 < 5 then h.(fails := h.fails + [t])
                             else History(h.fails + [t], |h.fails| + 1, h.success, Some(t + BLOCK))
  {
    assert (h.fails + [t])[h.reset..] == h.fails[h.reset..] + [t];
    RecentAll(h.fails[h.reset..] + [t], t - WINDOW);
  }

  lemma {:induction false} SameFromFront(t: real, n: nat)
    requires n > 0
    ensures Same(t, n) == [t] + Same(t, n - 1)
  {
    if n > 1 { SameFromFront(t, n - 1); }
  }

  /** A failure recorded 290 seconds into a block, dropped unread by the check that finds the block over. */
  function Forgotten(ip: Ip): seq<Event> {
    Burst(ip, 0.0, 4) + [Check(ip, 0.0), Check(ip, 0.0)] + ([Fail(ip, 0.0), Fail(ip, 290.0)] + Burst(ip, 300.0, 4))
  }

  lemma LimiterForgets(ip: Ip, cap: nat)
    requires cap >= 2
    ensures Passable(Doors(0.0), Forgotten(ip), cap)
    ensures var h := Pass(Doors(0.0), Forgotten(ip)); h.tables.blockUntil == map[] && h.clock == 300.0 && h.inFlight == multiset{}
  {
    var a, b, c := Burst(ip, 0.0, 4) + [Check(ip, 0.0), Check(ip, 0.0)], [Fail(ip, 0.0), Fail(ip, 290.0)], Burst(ip, 300.0, 4);
    OneOfTwoFails(ip, cap);
    var h := Pass(Doors(0.0), a);
    var d := Desk(Tables(map[ip := [290.0]], map[ip := BLOCK]), {}, 290.0);
    LateFailure(h, ip, cap);
    LimiterStartsAfresh(d, ip);
    RunIsPass(d, c, cap);
    PassJoins(h, b, c, cap);
    PassJoins(Doors(0.0), a, b + c, cap);
    assert Pass(h, b) == HallOf(d);
  }

  lemma LateFailure(h: Hall, ip: Ip, cap: nat)
    requires h == Hall(Tables(map[ip := Same(0.0, 4)], map[]), multiset{ip, ip}, 0.0)
    requires Go(h, Fail(ip, 0.0)) == Hall(Tables(map[ip := []], map[ip := BLOCK]), multiset{ip}, 0.0)
    ensures Passable(h, [Fail(ip, 0.0), Fail(ip, 290.0)], cap)
    ensures Pass(h, [Fail(ip, 0.0), Fail(ip, 290.0)]) == Hall(Tables(map[ip := [290.0]], map[ip := BLOCK]), multiset{}, 290.0)
  {
    assert [Fail(ip, 0.0), Fail(ip, 290.0)] == [Fail(ip, 0.0)] + [Fail(ip, 290.0)];
    PassJoins(h, [Fail(ip, 0.0)], [Fail(ip, 290.0)], cap);
    PassOne(h, Fail(ip, 0.0), cap);
    PassOne(Go(h, Fail(ip, 0.0)), Fail(ip, 290.0), cap);
    var t := Tables(map[ip := []], map[ip := BLOCK]);
    assert |t.failLog| == 1;
    assert Prune([], 290.0 - WINDOW) + [290.0] == [290.0];
    assert MaybeSweep(t, 290.0) == t;
    assert t.failLog[ip := [290.0]] == map[ip := [290.0]];
    assert AfterFail(t, ip, 290.0) == Tables(map[ip := [290.0]], map[ip := BLOCK]);
    assert multiset{ip} - multiset{ip} == multiset{};
  }

  lemma LimiterStartsAfresh(d: Desk, ip: Ip)
    requires d == Desk(Tables(map[ip := [290.0]], map[ip := BLOCK]), {}, 290.0)
    ensures var es := Burst(ip, 300.0, 4);
      Valid(d, es) && Run(d, es).tables.blockUntil == map[] && Run(d, es).clock == 300.0 && Run(d, es).admitted == {}
  {
    var d1 := Step(d, Check(ip, 300.0));
    assert d1 == Desk(Tables(map[], map[]), {ip}, 300.0);
    var d2 := Step(d1, Fail(ip, 300.0));
    assert Prune([], 300.0 - WINDOW) + [300.0] == [300.0];
    assert MaybeSweep(d1.tables, 300.0) == d1.tables;
    assert d2.tables == Tables(map[ip := [300.0]], map[]);
    assert d2.admitted == {};
    assert Same(300.0, 1) == [300.0];
    assert Quiet(d2, ip, Same(300.0, 1));
    PruneNothing(Same(300.0, 1), 300.0 - WINDOW);
    BurstRuns(d2, ip, Same(300.0, 1), 300.0, 1, 3);
    TwoMore(d, ip, 300.0, 4);
  }

  lemma ReferenceRemembers(ip: Ip)
    ensures HistoryOf(RefRun(map[], Forgotten(ip)), ip).until == Some(600.0)
  {
    var a, b, c := Burst(ip, 0.0, 4) + [Check(ip, 0.0), Check(ip, 0.0)], [Fail(ip, 0.0), Fail(ip, 290.0)], Burst(ip, 300.0, 4);
    var hs: map<Ip, History> := map[];
    RefJoins(hs, a, b + c);
    RefJoins(RefRun(hs, a), b, c);
    RefJoins(hs, Burst(ip, 0.0, 4), [Check(ip, 0.0), Check(ip, 0.0)]);
    RefBurst(hs, ip, 0.0, 4);
    var hs1 := RefRun(hs, Burst(ip, 0.0, 4));
    assert [Check(ip, 0.0), Check(ip, 0.0)] == [Check(ip, 0.0)] + [Check(ip, 0.0)];
    RefJoins(hs1, [Check(ip, 0.0)], [Check(ip, 0.0)]);
    RefOne(hs1, Check(ip, 0.0));
    assert RefRun(hs, a) == hs1;
    TwoLateFailures(hs1, ip);
    FiveInWindow(RefRun(hs1, b), ip);
  }

  lemma TwoLateFailures(hs: map<Ip, History>, ip: Ip)
    requires HistoryOf(hs, ip) == History([] + Same(0.0, 4), 0, 0, None)
    ensures var h := HistoryOf(RefRun(hs, [Fail(ip, 0.0), Fail(ip, 290.0)]), ip);
      |h.fails| == 6 && h.reset == 5 && h.fails[5] == 290.0
  {
    assert [Fail(ip, 0.0), Fail(ip, 290.0)] == [Fail(ip, 0.0)] + [Fail(ip, 290.0)];
    RefJoins(hs, [Fail(ip, 0.0)], [Fail(ip, 290.0)]);
    RefOne(hs, Fail(ip, 0.0));
    RefOne(RefStep(hs, Fail(ip, 0.0)), Fail(ip, 290.0));
    var h := HistoryOf(hs, ip);
    assert h.fails[0..] == h.fails;
    RefFailAppends(h, 0.0);
    var h1 := RefFail(h, 0.0);
    assert h1.fails[5..] == [];
    RefFailAppends(h1, 290.0);
  }

  lemma FiveInWindow(hs: map<Ip, History>, ip: Ip)
    requires var h := HistoryOf(hs, ip); |h.fails| == 6 && h.reset == 5 && h.fails[5] == 290.0
    ensures HistoryOf(RefRun(hs, Burst(ip, 300.0, 4)), ip).until == Some(600.0)
  {
    var h := HistoryOf(hs, ip);
    var t := 300.0;
    var three, pair := Burst(ip, t, 3), [Check(ip, t), Fail(ip, t)];
    RefBurst(hs, ip, t, 3);
    BurstFromBack(ip, t, 3);
    var h1 := HistoryOf(RefRun(hs, three), ip);
    assert h1.fails[5..] == [290.0] + Same(t, 3);
    hide RefRun, HistoryOf, Burst, Same, RefFail;
    RefJoins(hs, three, pair);
    RefPair(RefRun(hs, three), ip, t);
    RefFailAppends(h1, t);
  }

  lemma {:induction false} BurstFromBack(ip: Ip, t: real, n: nat)
    ensures Burst(ip, t, n + 1) == Burst(ip, t, n) + [Check(ip, t), Fail(ip, t)]
  {
    if n > 0 {
      BurstFromBack(ip, t, n - 1);
      Associative([Check(ip, t), Fail(ip, t)], Burst(ip, t, n - 1), [Check(ip, t), Fail(ip, t)]);
    } else {
      assert Burst(ip, t, 0) == [];
      assert Burst(ip, t, 1) == [Check(ip, t), Fail(ip, t)] + [];
    }
  }

  /** Pruning is invisible in all runs with at most cap requests in flight exactly when cap is at most one. */
  lemma PruningUnseenIff(cap: nat)
    ensures PruningUnseen(cap) <==> cap <= 1
  {
    if cap <= 1 {
      forall start, es | Passable(Doors(start), es, cap)
        ensures Replies(Doors(start), es) == RefAnswers(map[], es)
      {
        DoorsAreOpening(start);
        PassIsRun(Doors(start), es, cap);
        PruningIsInvisible(start, es);
      }
    } else {
      LimiterForgets("a", cap);
      ReferenceRemembers("a");
      AnswersPart("a", Forgotten("a"), cap);
    }
  }

  /** A check at 300 that the limiter lets through and the reference refuses. */
  lemma AnswersPart(ip: Ip, es: seq<Event>, cap: nat)
    requires Passable(Doors(0.0), es, cap) && cap >= 1
    requires var h := Pass(Doors(0.0), es); h.tables.blockUntil == map[] && h.clock == 300.0 && h.inFlight == multiset{}
    requires HistoryOf(RefRun(map[], es), ip).until == Some(600.0)
    ensures !PruningUnseen(cap)
  {
    var check := Check(ip, 300.0);
    var h, hs := Pass(Doors(0.0), es), RefRun(map[], es);
    assert MayGo(h, check, cap) && Answer(h.tables, ip, 300.0) == 0.0 && RefAnswer(HistoryOf(hs, ip), 300.0) == 300.0;
    PassOne(h, check, cap);
    RefOne(hs, check);
    hide Pass, RefRun, HistoryOf, RefAnswer, Answer, MayGo, Passable, Replies, RefAnswers;
    PassJoins(Doors(0.0), es, [check], cap);
    RefJoins(map[], es, [check]);
    var a, b := Replies(Doors(0.0), es), RefAnswers(map[], es);
    assert (a + [0.0])[|a|] == 0.0 && (b + [300.0])[|b|] == 300.0;
    assert a + [0.0] != b + [300.0];
    assert Passable(Doors(0.0), es + [check], cap);
  }
}

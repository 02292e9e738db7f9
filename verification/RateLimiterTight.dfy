/** The numeric bound of the limiter is attained. */
module RateLimiterTight {
  import opened Prelude
  import opened RateLimiter
  import opened RateLimiterRuns
  import opened RateLimiterBound

  /** n failed logins at once. */
  function Burst(ip: Ip, t: real, n: nat): seq<Event> {
    if n == 0 then [] else [Check(ip, t), Fail(ip, t)] + Burst(ip, t, n - 1)
  }

  /** Four failures every step seconds, k times, then five at once. */
  function Ladder(ip: Ip, t: real, step: real, k: nat): seq<Event>
    decreases k
  {
    if k == 0 then Burst(ip, t, 5) else Burst(ip, t, 4) + Ladder(ip, t + step, step, k - 1)
  }

  /** Only ip was ever seen, it is not blocked and its window holds log. */
  ghost predicate Quiet(d: Desk, ip: Ip, log: seq<real>) {
    && d.admitted == {} && d.tables.blockUntil == map[]
    && (d.tables.failLog == map[ip := log] || (d.tables.failLog == map[] && log == []))
  }

  lemma {:induction false} BurstShape(ip: Ip, t: real, n: nat)
    ensures |FailTimes(Burst(ip, t, n), ip)| == n && NoSuccess(Burst(ip, t, n), ip)
    ensures forall i :: 0 <= i < |Burst(ip, t, n)| ==> Burst(ip, t, n)[i].t == t
  {
    if n > 0 {
      var rest := Burst(ip, t, n - 1);
      BurstShape(ip, t, n - 1);
      assert Burst(ip, t, n)[1..] == [Fail(ip, t)] + rest && ([Fail(ip, t)] + rest)[1..] == rest;
      assert FailTimes([Fail(ip, t)] + rest, ip) == [t] + FailTimes(rest, ip);
    }
  }

  /** A login that fails while the window has room is appended to it. */
  lemma OneFailure(d: Desk, ip: Ip, log: seq<real>, t: real)
    requires Quiet(d, ip, log) && d.clock <= t
    ensures Enabled(d, Check(ip, t)) && Enabled(Step(d, Check(ip, t)), Fail(ip, t))
    ensures Step(Step(d, Check(ip, t)), Fail(ip, t)).clock == t
    ensures |Prune(log, t - WINDOW)| < 4 ==>
      Quiet(Step(Step(d, Check(ip, t)), Fail(ip, t)), ip, Prune(log, t - WINDOW) + [t])
  {
    var d1 := Step(d, Check(ip, t));
    assert d1.tables == d.tables;
    assert |d1.tables.failLog| <= 1;
  }

  lemma PruneNothing(log: seq<real>, c: real)
    requires AtLeast(log, c)
    ensures Prune(log, c) == log
  {
  }

  /** n equal times. */
  function Same(t: real, n: nat): (s: seq<real>)
    ensures |s| == n && forall i :: 0 <= i < n ==> s[i] == t
  {
    if n == 0 then [] else Same(t, n - 1) + [t]
  }

  /** n failures at time t on top of a window that holds m of them already. */
  lemma {:induction false} BurstRuns(d: Desk, ip: Ip, log: seq<real>, t: real, m: nat, n: nat)
    requires Quiet(d, ip, log) && d.clock <= t && Prune(log, t - WINDOW) == Same(t, m)
    requires n > 0 && m + n <= 5
    ensures Valid(d, Burst(ip, t, n)) && Run(d, Burst(ip, t, n)).clock == t
    ensures m + n < 5 ==> Quiet(Run(d, Burst(ip, t, n)), ip, Same(t, m + n))
    decreases n
  {
    OneFailure(d, ip, log, t);
    PruneNothing(Same(t, m + 1), t - WINDOW);
    TwoMore(d, ip, t, n);
    hide Quiet, Step, Enabled, Prune, Burst;
    if n > 1 {
      BurstRuns(Step(Step(d, Check(ip, t)), Fail(ip, t)), ip, Same(t, m + 1), t, m + 1, n - 1);
    } else {
      assert Burst(ip, t, n - 1) == [] by { NoBurst(ip, t); }
    }
  }

  lemma NoBurst(ip: Ip, t: real)
    ensures Burst(ip, t, 0) == []
  {
  }

  /** A burst is its first request and the rest. */
  lemma TwoMore(d: Desk, ip: Ip, t: real, n: nat)
    requires n > 0
    ensures var d1 := Step(d, Check(ip, t));
      && (Valid(d, Burst(ip, t, n)) <==>
            Enabled(d, Check(ip, t)) && Enabled(d1, Fail(ip, t)) && Valid(Step(d1, Fail(ip, t)), Burst(ip, t, n - 1)))
      && Run(d, Burst(ip, t, n)) == Run(Step(d1, Fail(ip, t)), Burst(ip, t, n - 1))
  {
    var rest := Burst(ip, t, n - 1);
    hide Step, Enabled;
    assert Burst(ip, t, n)[1..] == [Fail(ip, t)] + rest && ([Fail(ip, t)] + rest)[1..] == rest;
  }

  lemma PruneAll(log: seq<real>, c: real)
    requires forall i :: 0 <= i < |log| ==> log[i] < c
    ensures Prune(log, c) == []
  {
    PruneIsSuffix(log, c);
  }

  lemma {:induction false} LadderShape(ip: Ip, t: real, step: real, k: nat)
    ensures NoSuccess(Ladder(ip, t, step, k), ip) && |FailTimes(Ladder(ip, t, step, k), ip)| == 4 * k + 5
    ensures Ladder(ip, t, step, k) != []
    decreases k
  {
    if k == 0 {
      BurstShape(ip, t, 5);
    } else {
      BurstShape(ip, t, 4);
      LadderShape(ip, t + step, step, k - 1);
      FailTimesJoin(Burst(ip, t, 4), Ladder(ip, t + step, step, k - 1), ip);
    }
  }

  lemma {:induction false} LadderTimes(ip: Ip, t: real, step: real, k: nat, i: nat)
    requires step >= 0.0 && i < |Ladder(ip, t, step, k)|
    ensures t <= Ladder(ip, t, step, k)[i].t <= t + k as real * step
    decreases k
  {
    if k == 0 {
      BurstShape(ip, t, 5);
    } else {
      BurstShape(ip, t, 4);
      OneMoreStep(k, step);
      hide Burst;
      var first, rest := Burst(ip, t, 4), Ladder(ip, t + step, step, k - 1);
      assert Ladder(ip, t, step, k) == first + rest;
      if i >= |first| {
        LadderTimes(ip, t + step, step, k - 1, i - |first|);
        assert (first + rest)[i] == rest[i - |first|];
      }
    }
  }

  lemma OneMoreStep(k: nat, step: real)
    requires k > 0 && step >= 0.0
    ensures k as real * step == (k - 1) as real * step + step && (k - 1) as real * step >= 0.0
  {
    assert k as real == (k - 1) as real + 1.0;
  }

  /** Four failures, and by the next rung the window is empty again. */
  lemma Rung(d: Desk, ip: Ip, log: seq<real>, t: real, step: real)
    requires Quiet(d, ip, log) && d.clock <= t && Prune(log, t - WINDOW) == [] && step > WINDOW
    ensures Valid(d, Burst(ip, t, 4)) && Run(d, Burst(ip, t, 4)).clock <= t + step
    ensures Quiet(Run(d, Burst(ip, t, 4)), ip, Same(t, 4)) && Prune(Same(t, 4), t + step - WINDOW) == []
  {
    BurstRuns(d, ip, log, t, 0, 4);
    PruneAll(Same(t, 4), t + step - WINDOW);
  }

  lemma {:induction false} LadderRuns(d: Desk, ip: Ip, log: seq<real>, t: real, step: real, k: nat)
    requires Quiet(d, ip, log) && d.clock <= t && Prune(log, t - WINDOW) == [] && step > WINDOW
    ensures Valid(d, Ladder(ip, t, step, k))
    decreases k
  {
    hide Quiet, Burst, Step, Enabled, Prune, Valid, Run, Same;
    if k == 0 {
      assert Same(t, 0) == [];
      BurstRuns(d, ip, log, t, 0, 5);
    } else {
      Rung(d, ip, log, t, step);
      LadderRuns(Run(d, Burst(ip, t, 4)), ip, Same(t, 4), t + step, step, k - 1);
      ValidJoins(d, Burst(ip, t, 4), Ladder(ip, t + step, step, k - 1));
    }
  }

  lemma {:induction false} ValidJoins(d: Desk, a: seq<Event>, b: seq<Event>)
    requires Valid(d, a) && Valid(Run(d, a), b)
    ensures Valid(d, a + b)
    decreases a
  {
    if a == [] {
      assert a + b == b;
    } else {
      assert (a + b)[1..] == a[1..] + b;
      hide Step, Enabled;
      ValidJoins(Step(d, a[0]), a[1..], b);
    }
  }

  lemma {:induction false} FailTimesJoin(a: seq<Event>, b: seq<Event>, ip: Ip)
    ensures FailTimes(a + b, ip) == FailTimes(a, ip) + FailTimes(b, ip)
  {
    if a == [] {
      assert a + b == b;
    } else {
      assert (a + b)[1..] == a[1..] + b;
      FailTimesJoin(a[1..], b, ip);
    }
  }

  /** A step slightly longer than the window: k of them take less than k+1 windows. */
  function TightStep(k: nat): real {
    WINDOW + 30.0 / (k + 1) as real
  }

  lemma LadderSpan(k: nat)
    ensures TightStep(k) > WINDOW && k as real * TightStep(k) >= 0.0
    ensures (k as real * TightStep(k) / WINDOW).Floor == k
  {
    var part := 30.0 / (k + 1) as real;
    assert k as real * part <= 30.0;
    assert k as real * TightStep(k) == k as real * WINDOW + k as real * part;
    assert k as real <= k as real * TightStep(k) / WINDOW < k as real + 1.0;
  }

  /** For every k some run gets 4k+5 failures through within a span whose bound is 4k+5: the bound is exact. */
  lemma BoundIsAttained(ip: Ip, k: nat)
    ensures var es, span := Ladder(ip, 0.0, TightStep(k), k), k as real * TightStep(k);
      && Valid(Opening(0.0), es) && NoSuccess(es, ip)
      && es != [] && es[|es| - 1].t - es[0].t <= span
      && |FailTimes(es, ip)| == 4 * (span / 60.0).Floor + 5 == 4 * k + 5
  {
    LadderSpan(k);
    hide Ladder, FailTimes, Valid, NoSuccess, Run, Step;
    var step := TightStep(k);
    var es := Ladder(ip, 0.0, step, k);
    LadderShape(ip, 0.0, step, k);
    LadderTimes(ip, 0.0, step, k, 0);
    LadderTimes(ip, 0.0, step, k, |es| - 1);
    LadderRuns(Opening(0.0), ip, [], 0.0, step, k);
  }
}

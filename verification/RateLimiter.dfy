/**
 The failed-login limiter of hub/auth.py: two tables updated in place under one
 lock, a sliding window per client address, and an opportunistic sweep of both
 tables once more than MAX_TRACKED addresses are remembered.
 */
module RateLimiter {
  import opened Prelude

  type Ip = string

  const WINDOW: real := 60.0
  const RATE_MAX: nat := 5
  const BLOCK: real := 300.0
  const MAX_TRACKED: nat := 10_000

  /** The two module-level dictionaries. */
  datatype Tables = Tables(failLog: map<Ip, seq<real>>, blockUntil: map<Ip, real>)

  /** A log without its leading entries older than cutoff. */
  function Prune(log: seq<real>, cutoff: real): seq<real> {
    if log != [] && log[0] < cutoff then Prune(log[1..], cutoff) else log
  }

  /** The garbage-collection pass: every log pruned, empty logs and expired blocks dropped. */
  function Sweep(t: Tables, now: real): Tables {
    Tables(map k | k in t.failLog && Prune(t.failLog[k], now - WINDOW) != [] :: Prune(t.failLog[k], now - WINDOW),
           map k | k in t.blockUntil && t.blockUntil[k] > now :: t.blockUntil[k])
  }

  /** The tables after rate_check. */
  function AfterCheck(t: Tables, ip: Ip, now: real): Tables {
    if ip in t.blockUntil && t.blockUntil[ip] <= now
    then Tables(t.failLog - {ip}, t.blockUntil - {ip})
    else t
  }

  /** What rate_check answers: the seconds left of the block, 0 when the attempt may go on. */
  function Answer(t: Tables, ip: Ip, now: real): real {
    if ip in t.blockUntil && t.blockUntil[ip] > now then t.blockUntil[ip] - now else 0.0
  }

  /** The sweep runs only when too many addresses are tracked. */
  function MaybeSweep(t: Tables, now: real): Tables {
    if |t.failLog| > MAX_TRACKED then Sweep(t, now) else t
  }

  /** The tables after rate_record_fail. */
  function AfterFail(t: Tables, ip: Ip, now: real): Tables {
    var u := MaybeSweep(t, now);
    var log := Prune(if ip in u.failLog then u.failLog[ip] else [], now - WINDOW) + [now];
    if |log| >= RATE_MAX
    then Tables(u.failLog[ip := []], u.blockUntil[ip := now + BLOCK])
    else Tables(u.failLog[ip := log], u.blockUntil)
  }

  /** The tables after rate_clear. */
  function AfterClear(t: Tables, ip: Ip): Tables {
    Tables(t.failLog - {ip}, t.blockUntil - {ip})
  }

  /** The limiter as hub/auth.py keeps it: two dictionaries mutated in place. */
  class Limiter {
    var failLog: map<Ip, seq<real>>
    var blockUntil: map<Ip, real>

    function View(): Tables
      reads this
    {
      Tables(failLog, blockUntil)
    }

    constructor ()
      ensures View() == Tables(map[], map[])
    {
      failLog, blockUntil := map[], map[];
    }

    method RateCheck(ip: Ip, now: real) returns (retry: real)
      modifies this
      ensures retry == Answer(old(View()), ip, now)
      ensures View() == AfterCheck(old(View()), ip, now)
      ensures retry > 0.0 ==> ip in old(blockUntil) && now + retry == old(blockUntil)[ip] && View() == old(View())
      ensures retry <= 0.0 ==> retry == 0.0 && ip !in blockUntil && (ip in old(blockUntil) ==> old(blockUntil)[ip] <= now)
    {
      if ip !in blockUntil { return 0.0; }
      var until := blockUntil[ip];
      if until > now { return until - now; }
      blockUntil := blockUntil - {ip};
      failLog := failLog - {ip};
      return 0.0;
    }

    method RateRecordFail(ip: Ip, now: real)
      modifies this
      ensures View() == AfterFail(old(View()), ip, now)
    {
      if |failLog| > MAX_TRACKED {
        SweepLogs(now);
        SweepBlocks(now);
      }
      var log := PopOld(if ip in failLog then failLog[ip] else [], now - WINDOW);
      log := log + [now];
      if |log| >= RATE_MAX {
        blockUntil := blockUntil[ip := now + BLOCK];
        log := [];
      }
      failLog := failLog[ip := log];
    }

    method RateClear(ip: Ip)
      modifies this
      ensures View() == AfterClear(old(View()), ip)
      ensures ip !in failLog && ip !in blockUntil
      ensures forall k :: k != ip ==> (k in failLog <==> k in old(failLog)) && (k in blockUntil <==> k in old(blockUntil))
      ensures forall k :: k != ip && k in failLog ==> failLog[k] == old(failLog)[k]
      ensures forall k :: k != ip && k in blockUntil ==> blockUntil[k] == old(blockUntil)[k]
    {
      failLog := failLog - {ip};
      blockUntil := blockUntil - {ip};
    }

    /** The popleft loop. */
    static method PopOld(log: seq<real>, cutoff: real) returns (rest: seq<real>)
      ensures rest == Prune(log, cutoff)
    {
      rest := log;
      while rest != [] && rest[0] < cutoff
        invariant Prune(rest, cutoff) == Prune(log, cutoff)
      {
        rest := rest[1..];
      }
    }

    method SweepLogs(now: real)
      modifies this`failLog
      ensures failLog == Sweep(old(View()), now).failLog
    {
      var cutoff := now - WINDOW;
      var keys := failLog.Keys;
      while keys != {}
        invariant keys <= old(failLog).Keys
        invariant forall k :: k in failLog <==>
          k in keys || (k in old(failLog) && k !in keys && Prune(old(failLog)[k], cutoff) != [])
        invariant forall k :: k in keys ==> failLog[k] == old(failLog)[k]
        invariant forall k :: k in failLog && k !in keys ==> failLog[k] == Prune(old(failLog)[k], cutoff)
      {
        var k :| k in keys;
        var log := PopOld(failLog[k], cutoff);
        if log == [] {
          failLog := failLog - {k};
        } else {
          failLog := failLog[k := log];
        }
        keys := keys - {k};
      }
    }

    method SweepBlocks(now: real)
      modifies this`blockUntil
      ensures blockUntil == Sweep(old(View()), now).blockUntil
    {
      var keys := blockUntil.Keys;
      while keys != {}
        invariant keys <= old(blockUntil).Keys
        invariant forall k :: k in blockUntil <==> k in old(blockUntil) && (k in keys || old(blockUntil)[k] > now)
        invariant forall k :: k in blockUntil ==> blockUntil[k] == old(blockUntil)[k]
      {
        var k :| k in keys;
        if blockUntil[k] <= now {
          blockUntil := blockUntil - {k};
        }
        keys := keys - {k};
      }
    }
  }
}

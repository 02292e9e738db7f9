/** How the agent remembers hub nodes and fails over between them (agent/agent.py). */
module NodeFailover {
  import opened Prelude
  import opened Text

  type Url = string

  function RStripAll(us: seq<Url>): (r: seq<Url>)
    ensures |r| == |us| && forall i :: 0 <= i < |us| ==> r[i] == RStrip(us[i])
  {
    seq(|us|, i requires 0 <= i < |us| => RStrip(us[i]))
  }

  /** First occurrences of the non-empty strings, in order. */
  function Dedup(us: seq<Url>): seq<Url> {
    if us == [] then []
    else
      var kept, u := Dedup(us[..|us| - 1]), us[|us| - 1];
      if u == "" || u in kept then kept else kept + [u]
  }

  predicate Distinct(us: seq<Url>) {
    forall i, j :: 0 <= i < j < |us| ==> us[i] != us[j]
  }

  /** Not empty and without a trailing slash. */
  predicate IsCandidate(u: Url) {
    u != "" && u[|u| - 1] != '/'
  }

  predicate Clean(us: seq<Url>) {
    Distinct(us) && forall u :: u in us ==> IsCandidate(u)
  }

  // ----- removing duplicates -----

  lemma {:induction false} DedupIsDistinct(us: seq<Url>)
    ensures Distinct(Dedup(us)) && forall u :: u in Dedup(us) <==> u != "" && u in us
  {
    if us != [] {
      var front, u := us[..|us| - 1], us[|us| - 1];
      DedupIsDistinct(front);
      assert us == front + [u];
    }
  }

  /** What is kept stands in the order of first occurrence. */
  lemma {:induction false} DedupKeepsOrder(us: seq<Url>, a: nat, b: nat)
    requires a < b < |us| && us[a] != "" && us[b] != "" && us[b] !in us[..b]
    ensures Before(Dedup(us), us[a], us[b])
  {
    var front, u := us[..|us| - 1], us[|us| - 1];
    DedupIsDistinct(front);
    if b < |us| - 1 {
      assert front[..b] == us[..b];
      DedupKeepsOrder(front, a, b);
      var i, j :| 0 <= i < j < |Dedup(front)| && Dedup(front)[i] == us[a] && Dedup(front)[j] == us[b];
      assert Dedup(us)[i] == us[a] && Dedup(us)[j] == us[b];
    } else {
      assert front[a] == us[a] && us[a] in Dedup(front);
      assert Dedup(us) == Dedup(front) + [u];
      var i :| 0 <= i < |Dedup(front)| && Dedup(front)[i] == us[a];
      assert Dedup(us)[i] == us[a] && Dedup(us)[|Dedup(front)|] == us[b];
    }
  }

  ghost predicate Before(us: seq<Url>, u: Url, v: Url) {
    exists i, j :: 0 <= i < j < |us| && us[i] == u && us[j] == v
  }

  lemma DedupOneMore(us: seq<Url>, u: Url)
    ensures Dedup(us + [u]) == if u == "" || u in Dedup(us) then Dedup(us) else Dedup(us) + [u]
  {
    assert (us + [u])[..|us|] == us;
  }

  lemma {:induction false} DedupKeepsPrefix(xs: seq<Url>, ys: seq<Url>)
    ensures Dedup(xs) <= Dedup(xs + ys)
  {
    if ys == [] {
      assert xs + ys == xs;
    } else {
      var front, y := ys[..|ys| - 1], ys[|ys| - 1];
      assert xs + ys == (xs + front) + [y];
      DedupKeepsPrefix(xs, front);
      DedupOneMore(xs + front, y);
    }
  }

  lemma {:induction false} DedupAddKnown(xs: seq<Url>, ys: seq<Url>)
    requires forall y :: y in ys ==> y == "" || y in Dedup(xs)
    ensures Dedup(xs + ys) == Dedup(xs)
  {
    if ys == [] {
      assert xs + ys == xs;
    } else {
      var front, y := ys[..|ys| - 1], ys[|ys| - 1];
      assert xs + ys == (xs + front) + [y];
      DedupAddKnown(xs, front);
      DedupOneMore(xs + front, y);
    }
  }

  lemma TailIsFresh(all: seq<Url>, head: seq<Url>, u: Url)
    requires Distinct(all) && head <= all && u in all[|head|..]
    ensures u !in head && u in all
  {
    var j :| 0 <= j < |all| - |head| && all[|head|..][j] == u;
    forall i | 0 <= i < |head|
      ensures head[i] != u
    {
      assert head[i] == all[i] && all[|head| + j] == u;
    }
  }

  predicate NewTo(known: seq<Url>, us: seq<Url>) {
    Distinct(us) && forall u :: u in us ==> u != "" && u !in known
  }

  lemma NewToSplit(known: seq<Url>, front: seq<Url>, u: Url)
    requires NewTo(known, front + [u])
    ensures NewTo(known, front) && u != "" && u !in known + front
  {
    var us := front + [u];
    assert us[|front|] == u;
    assert us[|front|..] == [u];
    TailIsFresh(us, front, u);
    assert forall v :: v in front ==> v in us;
    assert forall i :: 0 <= i < |front| ==> front[i] == us[i];
  }

  lemma {:induction false} DedupAddFresh(xs: seq<Url>, ys: seq<Url>)
    requires NewTo(Dedup(xs), ys)
    ensures Dedup(xs + ys) == Dedup(xs) + ys
  {
    if ys == [] {
      assert xs + ys == xs;
    } else {
      var front, y := ys[..|ys| - 1], ys[|ys| - 1];
      assert ys == front + [y];
      hide *;
      NewToSplit(Dedup(xs), front, y);
      DedupAddFresh(xs, front);
      DedupOneMore(xs + front, y);
      Associative(xs, front, [y]);
      Associative(Dedup(xs), front, [y]);
    }
  }

  lemma DedupOfClean(us: seq<Url>)
    requires Distinct(us) && forall u :: u in us ==> u != ""
    ensures Dedup(us) == us
  {
    DedupAddFresh([], us);
    assert Dedup([]) == [] && [] + us == us;
  }

  lemma TailOfDistinct(all: seq<Url>, head: seq<Url>)
    requires Distinct(all) && head <= all
    ensures Distinct(all[|head|..]) && forall u :: u in all[|head|..] ==> u !in head && u in all
  {
    forall u | u in all[|head|..]
      ensures u !in head && u in all
    {
      TailIsFresh(all, head, u);
    }
    assert forall j :: 0 <= j < |all| - |head| ==> all[|head|..][j] == all[|head| + j];
  }

  /** Merging the result of a merge changes nothing. */
  lemma DedupAgain(xs: seq<Url>, ys: seq<Url>)
    ensures Dedup(xs + Dedup(xs + ys)) == Dedup(xs + ys)
  {
    var head, all := Dedup(xs), Dedup(xs + ys);
    DedupKeepsPrefix(xs, ys);
    DedupIsDistinct(xs + ys);
    TailOfDistinct(all, head);
    var added := all[|head|..];
    assert NewTo(head, added);
    hide Dedup, Distinct, NewTo;
    DedupAddKnown(xs, head);
    DedupAddFresh(xs + head, added);
    assert all == head + added;
    Associative(xs, head, added);
  }

  /** What is ahead only matters through what it leaves. */
  lemma {:induction false} DedupSameFront(a: seq<Url>, b: seq<Url>, ys: seq<Url>)
    requires Dedup(a) == Dedup(b)
    ensures Dedup(a + ys) == Dedup(b + ys)
  {
    if ys == [] {
      assert a + ys == a && b + ys == b;
    } else {
      var front, y := ys[..|ys| - 1], ys[|ys| - 1];
      assert a + ys == (a + front) + [y] && b + ys == (b + front) + [y];
      hide Dedup;
      DedupSameFront(a, b, front);
      DedupOneMore(a + front, y);
      DedupOneMore(b + front, y);
    }
  }

  lemma DedupRepeatedHead(u: Url, us: seq<Url>)
    requires u != "" && us != [] && us[0] == u
    ensures Dedup([u] + us) == Dedup(us) && Dedup(["", u] + us) == Dedup(us)
  {
    DedupOfOneOrTwo(u);
    assert us == [u] + us[1..];
    hide *;
    DedupSameFront([u, u], [u], us[1..]);
    DedupSameFront(["", u], [u], us);
    Associative([u], [u], us[1..]);
    assert [u] + [u] == [u, u];
  }

  lemma DedupOfTwo(u: Url, v: Url)
    ensures Dedup([u, v]) == (if u == "" then [] else [u]) + (if v == "" || v == u then [] else [v])
  {
    assert [u, v][..1] == [u] && [u][..0] == [];
    assert Dedup([u]) == if u == "" then [] else [u];
  }

  lemma DedupOfOneOrTwo(u: Url)
    requires u != ""
    ensures Dedup([u, u]) == Dedup([u]) == Dedup(["", u])
  {
    assert [u, u][..1] == [u] && [u][..0] == [] && ["", u][..1] == [""] && [""][..0] == [];
  }

  lemma RStripAllOfClean(us: seq<Url>)
    requires Clean(us)
    ensures RStripAll(us) == us
  {
    forall i | 0 <= i < |us|
      ensures RStripAll(us)[i] == us[i]
    {
      assert us[i] in us;
    }
  }

  // ----- the saved configuration -----

  datatype Config = Config(hubUrl: Url, nodes: seq<Url>)

  /** The nodes to try, for the value of the HUB_URL override. */
  function Candidates(env: Url, cfg: Config): seq<Url> {
    Dedup([RStrip(env), RStrip(cfg.hubUrl)] + RStripAll(cfg.nodes))
  }

  function Merged(base: Url, ack: seq<Url>, known: seq<Url>): seq<Url> {
    Dedup([base] + RStripAll(ack) + RStripAll(known))
  }

  function Reached(cfg: Config, base: Url, ack: seq<Url>): Config {
    Config(base, Merged(base, ack, cfg.nodes))
  }

  lemma AllStripped(us: seq<Url>)
    ensures forall u :: u in RStripAll(us) && u != "" ==> IsCandidate(u)
  {
    forall u | u in RStripAll(us) && u != ""
      ensures IsCandidate(u)
    {
      var i :| 0 <= i < |us| && RStripAll(us)[i] == u;
      RStripMeans(us[i]);
    }
  }

  lemma CandidatesAreClean(env: Url, cfg: Config)
    ensures Clean(Candidates(env, cfg))
  {
    var us := [RStrip(env), RStrip(cfg.hubUrl)] + RStripAll(cfg.nodes);
    DedupIsDistinct(us);
    AllStripped(cfg.nodes);
    RStripMeans(env);
    RStripMeans(cfg.hubUrl);
    assert forall u :: u in us && u != "" ==> IsCandidate(u);
    hide Dedup, RStrip, RStripAll, IsCandidate;
  }

  /**
   The candidates are the override, the last hub and the saved nodes without their trailing
   slashes, whatever of them is left; the override comes first, and without one the last hub does.
   */
  lemma CandidatesMean(env: Url, cfg: Config)
    ensures var us := Candidates(env, cfg);
      && (forall u :: u in us ==> u != "" && u[|u| - 1] != '/')
      && (forall u :: u in us <==> u != "" && (u == RStrip(env) || u == RStrip(cfg.hubUrl) || u in RStripAll(cfg.nodes)))
      && (forall i, j :: 0 <= i < j < |us| ==> us[i] != us[j])
      && (RStrip(env) != "" ==> us != [] && us[0] == RStrip(env))
      && (RStrip(env) == "" && RStrip(cfg.hubUrl) != "" ==> us != [] && us[0] == RStrip(cfg.hubUrl))
      && (RStrip(env) != "" && RStrip(cfg.hubUrl) !in ["", RStrip(env)] ==> |us| > 1 && us[1] == RStrip(cfg.hubUrl))
  {
    var e, h, nodes := RStrip(env), RStrip(cfg.hubUrl), RStripAll(cfg.nodes);
    CandidatesAreClean(env, cfg);
    DedupIsDistinct([e, h] + nodes);
    DedupKeepsPrefix([e, h], nodes);
    DedupOfTwo(e, h);
    hide Dedup, RStrip, RStripAll;
  }

  /** With an override the next round tries it first, and then the rest of the saved list in its order. */
  lemma OverrideGoesFirst(env: Url, cfg: Config, base: Url, ack: seq<Url>)
    requires IsCandidate(base) && RStrip(env) != ""
    ensures var us, saved := Candidates(env, Reached(cfg, base, ack)), Merged(base, ack, cfg.nodes);
      && us != [] && us[0] == RStrip(env) && (forall u :: u in us <==> u == RStrip(env) || u in saved)
      && forall i, j :: 0 <= i < j < |saved| && saved[i] != RStrip(env) && saved[j] != RStrip(env) ==> Before(us, saved[i], saved[j])
  {
    var cfg', e, saved := Reached(cfg, base, ack), RStrip(env), Merged(base, ack, cfg.nodes);
    MergedIsClean(base, ack, cfg.nodes);
    RStripAllOfClean(saved);
    CandidatesMean(env, cfg');
    var all := [e, saved[0]] + saved;
    assert RStrip(base) == base && Candidates(env, cfg') == Dedup(all) by { hide Dedup, Merged; }
    assert e != "";
    assert forall u :: u in saved ==> u != "";
    hide Dedup, RStrip, RStripAll, Merged, Candidates, Reached, Before, IsCandidate;
    forall i, j | 0 <= i < j < |saved| && saved[i] != e && saved[j] != e
      ensures Before(Dedup(all), saved[i], saved[j])
    {
      assert saved[i] in saved && saved[j] in saved;
      SavedKeepsOrder(e, saved, i, j);
    }
  }

  lemma SavedKeepsOrder(e: Url, saved: seq<Url>, i: nat, j: nat)
    requires Distinct(saved) && i < j < |saved| && saved[i] !in ["", e] && saved[j] !in ["", e]
    ensures Before(Dedup([e, saved[0]] + saved), saved[i], saved[j])
  {
    var all := [e, saved[0]] + saved;
    assert all[i + 2] == saved[i];
    NotInFront(saved, e, j);
    hide *;
    DedupKeepsOrder(all, i + 2, j + 2);
  }

  /** A later node of a list without duplicates does not occur before its own place. */
  lemma NotInFront(saved: seq<Url>, e: Url, j: nat)
    requires Distinct(saved) && 0 < j < |saved| && saved[j] != e
    ensures var all := [e, saved[0]] + saved; all[j + 2] == saved[j] && all[j + 2] !in all[..j + 2]
  {
    var all := [e, saved[0]] + saved;
    assert all[..j + 2] == [e, saved[0]] + saved[..j];
    assert saved[j] !in saved[..j];
  }

  /** A merge is clean, starts with the node just reached, and holds that node, the ack's nodes and the known nodes. */
  lemma MergedIsClean(base: Url, ack: seq<Url>, known: seq<Url>)
    requires IsCandidate(base)
    ensures Clean(Merged(base, ack, known)) && Merged(base, ack, known) != [] && Merged(base, ack, known)[0] == base
    ensures forall u :: u in Merged(base, ack, known) <==> u != "" && (u == base || u in RStripAll(ack) || u in RStripAll(known))
  {
    var us := [base] + RStripAll(ack) + RStripAll(known);
    DedupIsDistinct(us);
    AllStripped(ack);
    AllStripped(known);
    DedupKeepsPrefix([base], RStripAll(ack) + RStripAll(known));
    assert us == [base] + (RStripAll(ack) + RStripAll(known));
    assert Dedup([base]) == [base];
    hide Dedup, RStrip, RStripAll, IsCandidate;
  }

  /** Connecting again with the same answer changes nothing, so nothing is saved. */
  lemma RepeatedConnectIsFixpoint(cfg: Config, base: Url, ack: seq<Url>)
    requires IsCandidate(base)
    ensures Reached(Reached(cfg, base, ack), base, ack) == Reached(cfg, base, ack)
  {
    MergedIsClean(base, ack, cfg.nodes);
    RStripAllOfClean(Merged(base, ack, cfg.nodes));
    DedupAgain([base] + RStripAll(ack), RStripAll(cfg.nodes));
  }

  /** Without an override the next round tries exactly the saved list, the node last reached first. */
  lemma NextRoundTriesSavedList(cfg: Config, base: Url, ack: seq<Url>)
    requires IsCandidate(base)
    ensures Candidates("", Reached(cfg, base, ack)) == Merged(base, ack, cfg.nodes)
  {
    var nodes := Merged(base, ack, cfg.nodes);
    MergedIsClean(base, ack, cfg.nodes);
    RStripAllOfClean(nodes);
    assert RStrip("") == "";
    DedupRepeatedHead(base, nodes);
    DedupOfClean(nodes);
  }

  // ----- connects over time -----

  datatype Connect = Connect(base: Url, ack: seq<Url>)

  function After(cfg: Config, log: seq<Connect>): Config {
    if log == [] then cfg else
      var last := log[|log| - 1];
      Reached(After(cfg, log[..|log| - 1]), last.base, last.ack)
  }

  /** Learned from the saved list, from a node reached or from a node's answer. */
  ghost predicate Learned(cfg: Config, log: seq<Connect>, u: Url) {
    u != "" && (u in RStripAll(cfg.nodes) || exists i :: 0 <= i < |log| && LearnedFrom(log[i], u))
  }

  predicate LearnedFrom(c: Connect, u: Url) {
    u == c.base || u in RStripAll(c.ack)
  }

  predicate FromCandidates(log: seq<Connect>) {
    forall i :: 0 <= i < |log| ==> IsCandidate(log[i].base)
  }

  /**
   After any connects the saved list is free of duplicates and trailing slashes, starts with the
   node last reached, and holds exactly the nodes ever learned.
   */
  lemma {:induction false} SavedListIsWhatWasLearned(cfg: Config, log: seq<Connect>)
    requires log != [] && FromCandidates(log)
    ensures var saved := After(cfg, log);
      && Clean(saved.nodes) && saved.nodes != [] && saved.nodes[0] == saved.hubUrl == log[|log| - 1].base
      && forall u :: u in saved.nodes <==> Learned(cfg, log, u)
  {
    var front, last := log[..|log| - 1], log[|log| - 1];
    var before := After(cfg, front);
    MergedIsClean(last.base, last.ack, before.nodes);
    if front != [] {
      SavedListIsWhatWasLearned(cfg, front);
      RStripAllOfClean(before.nodes);
    }
    hide Merged, RStripAll, RStrip, Clean, IsCandidate;
    forall u
      ensures u in After(cfg, log).nodes <==> Learned(cfg, log, u)
    {
      LearnedOneMore(cfg, front, last, u);
      assert log == front + [last];
    }
  }

  lemma LearnedOneMore(cfg: Config, front: seq<Connect>, last: Connect, u: Url)
    ensures Learned(cfg, front + [last], u) <==> Learned(cfg, front, u) || (u != "" && LearnedFrom(last, u))
  {
    var log := front + [last];
    assert forall i :: 0 <= i < |front| ==> log[i] == front[i];
    assert log[|front|] == last;
    hide LearnedFrom, RStripAll;
  }

  /** The address of first pairing is only kept when it was itself reached, listed or answered. */
  lemma FirstAddressIsKeptIff(cfg: Config, log: seq<Connect>)
    requires log != [] && FromCandidates(log) && IsCandidate(cfg.hubUrl)
    ensures cfg.hubUrl in Candidates("", After(cfg, log)) <==> Learned(cfg, log, cfg.hubUrl)
  {
    var front, last := log[..|log| - 1], log[|log| - 1];
    SavedListIsWhatWasLearned(cfg, log);
    NextRoundTriesSavedList(After(cfg, front), last.base, last.ack);
  }

  /** It is forgotten when another node is reached and nobody names it. */
  lemma FirstAddressForgotten()
    ensures var first, log := "http://a", [Connect("http://b", [])];
      first in Candidates("", Config(first, [])) && first !in Candidates("", After(Config(first, []), log))
  {
    var cfg, log := Config("http://a", []), [Connect("http://b", [])];
    HttpAddress("http://a");
    HttpAddress("http://b");
    DedupIsDistinct([RStrip(""), RStrip(cfg.hubUrl)] + RStripAll(cfg.nodes));
    FirstAddressIsKeptIff(cfg, log);
    assert "http://a"[7] != "http://b"[7];
  }

  lemma HttpAddress(u: Url)
    requires u != [] && u[|u| - 1] != '/'
    ensures IsCandidate(u)
  {
  }

  // ----- rounds -----

  datatype Ending = Ended | Dropped | Unpaired

  /** How one attempt goes: no usable answer, a refusal, or a session after an answer naming nodes. */
  datatype Attempt = Unreachable | Refused(fatal: bool) | Session(ack: seq<Url>, ending: Ending)

  /** True, False and None of _connect_once. */
  datatype Result = Served | Fatal | TryNext

  predicate IsHttp(u: Url) {
    "https://" <= u || "http://" <= u
  }

  function Outcome(u: Url, a: Attempt): Result {
    if !IsHttp(u) then TryNext
    else match a
      case Unreachable => TryNext
      case Refused(fatal) => if fatal then Fatal else TryNext
      case Session(_, Ended) => Served
      case Session(_, Dropped) => TryNext
      case Session(_, Unpaired) => Fatal
  }

  function Connects(u: Url, a: Attempt): seq<Connect> {
    if IsHttp(u) && a.Session? then [Connect(u, a.ack)] else []
  }

  /** Only an address with a web scheme is tried; only a session that ended serves; only an unpaired one or a fatal refusal is fatal; only a session is remembered. */
  lemma OutcomeMeans(u: Url, a: Attempt)
    ensures var http := "https://" <= u || "http://" <= u;
      && (Outcome(u, a) == Served <==> http && a.Session? && a.ending == Ended)
      && (Outcome(u, a) == Fatal <==> http && ((a.Session? && a.ending == Unpaired) || (a.Refused? && a.fatal)))
      && Connects(u, a) == (if http && a.Session? then [Connect(u, a.ack)] else [])
  {
  }

  /** The attempts of one round, each candidate's going as the world has it. */
  datatype Walked = Walked(tried: seq<Url>, log: seq<Connect>, result: Result)

  function Walk(candidates: seq<Url>, world: Url -> Attempt): Walked {
    if candidates == [] then Walked([], [], TryNext)
    else
      var u := candidates[0];
      var log, r := Connects(u, world(u)), Outcome(u, world(u));
      if r != TryNext then Walked([u], log, r)
      else
        var w := Walk(candidates[1..], world);
        Walked([u] + w.tried, log + w.log, w.result)
  }

  function Longer(backoff: real): real {
    if backoff * 1.7 <= 60.0 then backoff * 1.7 else 60.0
  }

  datatype State = State(cfg: Config, backoff: real, exited: bool, log: seq<Connect>)

  /** What a round starts with: the override in the environment and how each attempt will go. */
  datatype Setting = Setting(env: Url, world: Url -> Attempt)

  function Round(s: State, x: Setting): State {
    if s.exited then s
    else
      var w := Walk(Candidates(x.env, s.cfg), x.world);
      State(After(s.cfg, w.log),
            match w.result case Served => 1.0 case Fatal => s.backoff case TryNext => Longer(s.backoff),
            w.result == Fatal, s.log + w.log)
  }

  function Run(s: State, rounds: seq<Setting>): State
    decreases |rounds|
  {
    if rounds == [] then s else Run(Round(s, rounds[0]), rounds[1..])
  }

  /** A round's result is the last attempt's. */
  lemma {:induction false} LastOutcome(candidates: seq<Url>, world: Url -> Attempt)
    ensures var w := Walk(candidates, world);
      if w.tried == [] then w.result == TryNext
      else w.result == Outcome(w.tried[|w.tried| - 1], world(w.tried[|w.tried| - 1]))
  {
    if candidates != [] { LastOutcome(candidates[1..], world); }
  }

  /** A round tries a prefix of its candidates, each once, and stops early only on a session that ended or a fatal refusal. */
  lemma {:induction false} TriesEachOnce(candidates: seq<Url>, world: Url -> Attempt)
    requires Distinct(candidates)
    ensures var w := Walk(candidates, world);
      && w.tried <= candidates && Distinct(w.tried)
      && (forall i :: 0 <= i < |w.tried| - 1 ==> Outcome(w.tried[i], world(w.tried[i])) == TryNext)
      && (if w.result == TryNext then w.tried == candidates
          else w.tried != [] && Outcome(w.tried[|w.tried| - 1], world(w.tried[|w.tried| - 1])) == w.result)
  {
    TriesInTurn(candidates, world);
    LastOutcome(candidates, world);
    hide *;
    PrefixIsDistinct(Walk(candidates, world).tried, candidates);
  }

  lemma {:induction false} TriesInTurn(candidates: seq<Url>, world: Url -> Attempt)
    ensures var w := Walk(candidates, world);
      && w.tried <= candidates && (w.result == TryNext ==> w.tried == candidates) && (w.tried == [] ==> candidates == [])
      && forall i :: 0 <= i < |w.tried| - 1 ==> Outcome(w.tried[i], world(w.tried[i])) == TryNext
  {
    hide Outcome;
    if candidates != [] && Outcome(candidates[0], world(candidates[0])) == TryNext {
      var rest := candidates[1..];
      TriesInTurn(rest, world);
      var w, v := Walk(candidates, world), Walk(rest, world);
      assert w.tried == [candidates[0]] + v.tried && w.result == v.result;
      hide Walk;
      assert forall i :: 0 < i < |w.tried| ==> w.tried[i] == v.tried[i - 1];
    }
  }

  ghost predicate LastIs(tried: seq<Url>, world: Url -> Attempt, ok: Attempt -> bool) {
    tried != [] && var u := tried[|tried| - 1]; ("https://" <= u || "http://" <= u) && ok(world(u))
  }

  /**
   A round ends the agent exactly when the last address tried said so; the pause is then left as it
   is. It goes back to a second exactly when the last address tried held a session to its end; and
   otherwise, all candidates having been tried, it grows by 1.7, to at most a minute.
   */
  lemma RoundEnds(s: State, x: Setting)
    requires !s.exited
    ensures var s', tried := Round(s, x), Walk(Candidates(x.env, s.cfg), x.world).tried;
      var fatal := LastIs(tried, x.world, (a: Attempt) => (a.Session? && a.ending == Unpaired) || (a.Refused? && a.fatal));
      var served := LastIs(tried, x.world, (a: Attempt) => a.Session? && a.ending == Ended);
      && (s'.exited <==> fatal)
      && (fatal || served || tried == Candidates(x.env, s.cfg))
      && s'.backoff == (if fatal then s.backoff else if served then 1.0 else if s.backoff * 1.7 <= 60.0 then s.backoff * 1.7 else 60.0)
  {
    var candidates := Candidates(x.env, s.cfg);
    CandidatesAreClean(x.env, s.cfg);
    TriesEachOnce(candidates, x.world);
    var w := Walk(candidates, x.world);
    LastOutcome(candidates, x.world);
    if w.tried != [] {
      var u := w.tried[|w.tried| - 1];
      OutcomeMeans(u, x.world(u));
    }
    hide Walk, Candidates, After, Outcome, Clean, Distinct;
  }

  lemma PrefixIsDistinct(part: seq<Url>, whole: seq<Url>)
    requires part <= whole && Distinct(whole)
    ensures Distinct(part)
  {
    assert forall i :: 0 <= i < |part| ==> part[i] == whole[i];
  }

  lemma {:induction false} ConnectsAreTried(candidates: seq<Url>, world: Url -> Attempt)
    requires forall u :: u in candidates ==> IsCandidate(u)
    ensures FromCandidates(Walk(candidates, world).log)
  {
    if candidates != [] {
      assert IsCandidate(candidates[0]);
      ConnectsAreTried(candidates[1..], world);
    }
  }

  lemma {:induction false} AfterAppend(cfg: Config, a: seq<Connect>, b: seq<Connect>)
    ensures After(cfg, a + b) == After(After(cfg, a), b)
  {
    if b == [] {
      assert a + b == a;
    } else {
      assert (a + b)[..|a + b| - 1] == a + b[..|b| - 1];
      AfterAppend(cfg, a, b[..|b| - 1]);
    }
  }

  lemma {:induction false} RunFollowsLog(cfg: Config, s: State, rounds: seq<Setting>)
    requires s.cfg == After(cfg, s.log) && FromCandidates(s.log)
    ensures var s' := Run(s, rounds); s'.cfg == After(cfg, s'.log) && FromCandidates(s'.log)
    decreases |rounds|
  {
    if rounds != [] {
      var x := rounds[0];
      if !s.exited {
        var candidates := Candidates(x.env, s.cfg);
        CandidatesAreClean(x.env, s.cfg);
        ConnectsAreTried(candidates, x.world);
        AfterAppend(cfg, s.log, Walk(candidates, x.world).log);
      }
      hide Candidates, Walk, After;
      RunFollowsLog(cfg, Round(s, x), rounds[1..]);
    }
  }

  function Start(cfg: Config): State {
    State(cfg, 1.0, false, [])
  }

  /**
   Whatever the rounds do: once a node has answered, the saved list is clean, starts with the
   node last reached, and holds exactly the nodes ever learned; before that it is untouched.
   */
  lemma RunRemembersEveryNode(cfg: Config, rounds: seq<Setting>)
    ensures var s := Run(Start(cfg), rounds);
      && (s.log == [] ==> s.cfg == cfg)
      && (s.log != [] ==>
        && Clean(s.cfg.nodes) && s.cfg.nodes != [] && s.cfg.nodes[0] == s.cfg.hubUrl == s.log[|s.log| - 1].base
        && forall u :: u in s.cfg.nodes <==> Learned(cfg, s.log, u))
  {
    RunFollowsLog(cfg, Start(cfg), rounds);
    var s := Run(Start(cfg), rounds);
    if s.log != [] { SavedListIsWhatWasLearned(cfg, s.log); }
  }

  /** The pause between rounds stays between a second and a minute. */
  lemma {:induction false} BackoffInRange(s: State, rounds: seq<Setting>)
    requires 1.0 <= s.backoff <= 60.0
    ensures 1.0 <= Run(s, rounds).backoff <= 60.0
    decreases |rounds|
  {
    if rounds != [] {
      hide Walk, Candidates, After;
      BackoffInRange(Round(s, rounds[0]), rounds[1..]);
    }
  }

  function Power(n: nat): real {
    if n == 0 then 1.0 else 1.7 * Power(n - 1)
  }

  predicate AllUnreached(s: State, rounds: seq<Setting>)
    decreases |rounds|
  {
    rounds == [] ||
    (!s.exited && Walk(Candidates(rounds[0].env, s.cfg), rounds[0].world).result == TryNext && AllUnreached(Round(s, rounds[0]), rounds[1..]))
  }

  /** Rounds in which nothing works multiply the pause by 1.7 each, up to a minute, which eight of them reach. */
  lemma {:induction false} BackoffGrows(s: State, rounds: seq<Setting>, k: nat)
    requires AllUnreached(s, rounds) && s.backoff == if Power(k) <= 60.0 then Power(k) else 60.0
    ensures var n := k + |rounds|;
      Run(s, rounds).backoff == if Power(n) <= 60.0 then Power(n) else 60.0
    ensures k + |rounds| >= 8 <==> Run(s, rounds).backoff == 60.0
    decreases |rounds|
  {
    if rounds == [] {
      PowerAtEight(k);
    } else {
      PauseGrows(k);
      assert Round(s, rounds[0]).backoff == Longer(s.backoff) by { hide Walk, Candidates, After, Longer, Power; }
      hide Walk, Candidates, After, Power, Longer, Round;
      BackoffGrows(Round(s, rounds[0]), rounds[1..], k + 1);
    }
  }

  lemma PauseGrows(k: nat)
    ensures Longer(if Power(k) <= 60.0 then Power(k) else 60.0) == if Power(k + 1) <= 60.0 then Power(k + 1) else 60.0
  {
    PowerGrows(k, k + 1);
  }

  lemma {:induction false} PowerGrows(m: nat, n: nat)
    requires m <= n
    ensures 1.0 <= Power(m) <= Power(n)
    decreases n
  {
    if m < n {
      PowerGrows(m, n - 1);
    } else if m > 0 {
      PowerGrows(m - 1, m - 1);
    }
  }

  lemma PowerAtEight(n: nat)
    ensures n >= 8 <==> Power(n) >= 60.0
  {
    assert Power(4) == 8.3521;
    assert Power(7) == 41.0338673;
    assert Power(8) == 69.75757441;
    if n >= 8 { PowerGrows(8, n); } else { PowerGrows(n, 7); }
  }

  // ----- the running agent -----

  class Agent {
    var cfg: Config
    var backoff: real

    constructor (saved: Config)
      ensures cfg == saved && backoff == 1.0
    {
      cfg, backoff := saved, 1.0;
    }

    /** The loop over a list that keeps each non-empty string once. */
    method KeepFirst(us: seq<Url>) returns (out: seq<Url>)
      ensures out == Dedup(us)
    {
      var seen: set<Url> := {};
      out := [];
      for i := 0 to |us|
        invariant out == Dedup(us[..i]) && forall u :: u in seen <==> u in out
      {
        assert us[..i + 1] == us[..i] + [us[i]];
        DedupOneMore(us[..i], us[i]);
        if us[i] != "" && us[i] !in seen {
          seen := seen + {us[i]};
          out := out + [us[i]];
        }
      }
      assert us[..|us|] == us;
    }

    method CandidateUrls(env: Url) returns (out: seq<Url>)
      ensures out == Candidates(env, cfg) == Dedup([RStrip(env), RStrip(cfg.hubUrl)] + RStripAll(cfg.nodes))
    {
      out := KeepFirst([RStrip(env), RStrip(cfg.hubUrl)] + RStripAll(cfg.nodes));
    }

    method ConnectOnce(base: Url, attempt: Attempt) returns (result: Result)
      modifies this`cfg
      ensures result == Outcome(base, attempt) && cfg == After(old(cfg), Connects(base, attempt))
      ensures var http := "https://" <= base || "http://" <= base;
        && (result == Served <==> http && attempt.Session? && attempt.ending == Ended)
        && (result == Fatal <==> http && ((attempt.Session? && attempt.ending == Unpaired) || (attempt.Refused? && attempt.fatal)))
        && cfg == if http && attempt.Session?
          then Config(base, Dedup([base] + RStripAll(attempt.ack) + RStripAll(old(cfg).nodes))) else old(cfg)
    {
      if !IsHttp(base) || attempt.Unreachable? { return TryNext; }
      if attempt.Refused? { return if attempt.fatal then Fatal else TryNext; }
      var merged := KeepFirst([base] + RStripAll(attempt.ack) + RStripAll(cfg.nodes));
      assert Connects(base, attempt)[..0] == [];
      if cfg.hubUrl != base || cfg.nodes != merged {
        cfg := Config(base, merged);
      }
      return match attempt.ending case Ended => Served case Dropped => TryNext case Unpaired => Fatal;
    }

    /** One pass of run_forever's loop. */
    method RunRound(x: Setting) returns (tried: seq<Url>, exit: bool)
      modifies this
      ensures var s := Round(State(old(cfg), old(backoff), false, []), x);
        cfg == s.cfg && backoff == s.backoff && exit == s.exited
      ensures tried == Walk(Candidates(x.env, old(cfg)), x.world).tried
    {
      var candidates := CandidateUrls(x.env);
      ghost var all := Walk(candidates, x.world);
      ghost var log: seq<Connect> := [];
      tried := [];
      hide Walk, Outcome, Connects, Candidates;
      var rest := candidates;
      while rest != []
        invariant log + Walk(rest, x.world).log == all.log && tried + Walk(rest, x.world).tried == all.tried
        invariant Walk(rest, x.world).result == all.result
        invariant cfg == After(old(cfg), log) && backoff == old(backoff)
      {
        var url := rest[0];
        WalkOneMore(rest, x.world, log, tried);
        AfterAppend(old(cfg), log, Connects(url, x.world(url)));
        log := log + Connects(url, x.world(url));
        var result := ConnectOnce(url, x.world(url));
        tried := tried + [url];
        if result == Fatal { return tried, true; }
        if result == Served {
          backoff := 1.0;
          return tried, false;
        }
        rest := rest[1..];
      }
      WalkNothing(x.world);
      assert log + [] == log && tried + [] == tried;
      backoff := if backoff * 1.7 <= 60.0 then backoff * 1.7 else 60.0;
      exit := false;
    }
  }

  lemma WalkNothing(world: Url -> Attempt)
    ensures Walk([], world) == Walked([], [], TryNext)
  {
  }

  lemma WalkOneMore(rest: seq<Url>, world: Url -> Attempt, log: seq<Connect>, tried: seq<Url>)
    requires rest != []
    ensures var u, w, v := rest[0], Walk(rest, world), Walk(rest[1..], world);
      var now, first := log + Connects(u, world(u)), tried + [u];
      if Outcome(u, world(u)) == TryNext
      then log + w.log == now + v.log && tried + w.tried == first + v.tried && w.result == v.result
      else log + w.log == now && tried + w.tried == first && w.result == Outcome(u, world(u))
  {
    hide Outcome, Connects;
    var u, v := rest[0], Walk(rest[1..], world);
    Associative(log, Connects(u, world(u)), v.log);
    Associative(tried, [u], v.tried);
  }
}

/** Choosing the node for a download, and how failures move the choice on. */
module Selection {
  import opened Common
  import opened MetricLog
  import opened Scoring
  import opened NodeList
  import Merging
  import Routes

  /** Enabled and matching: no targets match every registry. */
  predicate Eligible(n: NodeInfo, registry: string) {
    n.enabled && (n.targets == [] || registry in n.targets)
  }

  /**
   The scores the candidates get. Every candidate is scored at its own reading of the clock;
   `clocks` holds one reading for each position of the list.
   */
  function Scores(nodes: Nodes, registry: string, log: Log, clocks: seq<int>): (s: seq<Option<int>>)
    requires |clocks| == |nodes|
    ensures |s| == |nodes|
    ensures forall i | 0 <= i < |s| ::
              s[i] == if Eligible(nodes[i], registry) then Some(ComputeScore(log, nodes[i].url, clocks[i]).score) else None
  {
    seq(|nodes|, i requires 0 <= i < |nodes| =>
      if Eligible(nodes[i], registry) then Some(ComputeScore(log, nodes[i].url, clocks[i]).score) else None)
  }

  /** The loop over the candidates: a later candidate wins when it is at least as good. */
  function Pick(scores: seq<Option<int>>): (best: Option<nat>)
    ensures best.Some? ==> best.value < |scores| && scores[best.value].Some?
  {
    if scores == [] then None
    else
      var best, s := Pick(Init(scores)), Last(scores);
      var bestScore := if best == None then 0 else scores[best.value].value;
      if s.Some? && s.value >= bestScore then Some(|scores| - 1) else best
  }

  /** `i` is the last position with the highest score. */
  predicate IsLastBest(scores: seq<Option<int>>, i: nat) {
    && i < |scores| && scores[i].Some?
    && (forall j | 0 <= j < |scores| && scores[j].Some? :: scores[j].value <= scores[i].value)
    && (forall j | i < j < |scores| && scores[j].Some? :: scores[j].value < scores[i].value)
  }

  predicate NonNegative(scores: seq<Option<int>>) {
    forall j | 0 <= j < |scores| && scores[j].Some? :: scores[j].value >= 0
  }

  lemma LastBestUnique(scores: seq<Option<int>>, i: nat, j: nat)
    requires IsLastBest(scores, i) && IsLastBest(scores, j)
    ensures i == j
  {
  }

  /** The best position so far, against one more candidate. */
  lemma LastBestSnoc(scores: seq<Option<int>>, i: nat)
    requires scores != [] && IsLastBest(Init(scores), i)
    ensures var last := Last(scores);
            IsLastBest(scores, if last.Some? && last.value >= scores[i].value then |scores| - 1 else i)
  {
    assert forall j | 0 <= j < |scores| - 1 :: Init(scores)[j] == scores[j];
  }

  lemma OnlyCandidateIsBest(scores: seq<Option<int>>)
    requires scores != [] && Last(scores).Some? && forall j | 0 <= j < |Init(scores)| :: Init(scores)[j] == None
    ensures IsLastBest(scores, |scores| - 1)
  {
    assert forall j | 0 <= j < |scores| - 1 :: Init(scores)[j] == scores[j];
  }

  /** The loop picks a last maximum, or nothing when there is no candidate. */
  lemma {:induction false} PickIsBest(scores: seq<Option<int>>)
    requires NonNegative(scores)
    ensures match Pick(scores)
            case None => forall j | 0 <= j < |scores| :: scores[j] == None
            case Some(i) => IsLastBest(scores, i)
  {
    hide IsLastBest;
    if scores != [] {
      var init := Init(scores);
      assert forall j | 0 <= j < |init| :: init[j] == scores[j];
      PickIsBest(init);
      if Pick(init).Some? {
        LastBestSnoc(scores, Pick(init).value);
      } else if Last(scores).Some? {
        OnlyCandidateIsBest(scores);
      }
    }
  }

  /** The loop finds the last maximum, and nothing exactly when there is no candidate. */
  lemma {:induction false} PicksLastBest(scores: seq<Option<int>>)
    requires NonNegative(scores)
    ensures Pick(scores) == None <==> forall j | 0 <= j < |scores| :: scores[j] == None
    ensures forall i: nat :: Pick(scores) == Some(i) <==> IsLastBest(scores, i)
  {
    hide Pick;
    PickIsBest(scores);
    forall i: nat | IsLastBest(scores, i)
      ensures Pick(scores) == Some(i)
    {
      if Pick(scores).Some? { LastBestUnique(scores, i, Pick(scores).value); }
    }
  }

  function SelectBest(nodes: Nodes, registry: string, log: Log, clocks: seq<int>): Option<nat>
    requires |clocks| == |nodes|
  {
    Pick(Scores(nodes, registry, log, clocks))
  }

  /** Scores are never negative, and zero exactly for failing nodes. */
  lemma ScoresOfNodes(nodes: Nodes, registry: string, log: Log, clocks: seq<int>)
    requires |clocks| == |nodes|
    ensures NonNegative(Scores(nodes, registry, log, clocks))
    ensures forall j | 0 <= j < |nodes| ::
              Scores(nodes, registry, log, clocks)[j] == Some(0)
              <==> Eligible(nodes[j], registry) && Failing(log, nodes[j].url)
  {
    hide ComputeScore, Failing;
    forall i | 0 <= i < |nodes| {
      ScoreRange(log, nodes[i].url, clocks[i]);
    }
  }

  /**
   Nothing is selected exactly when no node is eligible; otherwise it is the last eligible node of
   maximal score, and a failing node only if all eligible nodes are failing.
   */
  lemma {:induction false} SelectionIsLastArgmax(nodes: Nodes, registry: string, log: Log, clocks: seq<int>)
    requires |clocks| == |nodes|
    ensures var best, scores := SelectBest(nodes, registry, log, clocks), Scores(nodes, registry, log, clocks);
            && (best == None <==> forall j | 0 <= j < |nodes| :: !Eligible(nodes[j], registry))
            && (forall i: nat :: best == Some(i) <==> IsLastBest(scores, i))
            && (best.Some? && Failing(log, nodes[best.value].url) ==>
                  forall j | 0 <= j < |nodes| && Eligible(nodes[j], registry) :: Failing(log, nodes[j].url))
  {
    hide ComputeScore, Failing, Eligible;
    var scores, best := Scores(nodes, registry, log, clocks), SelectBest(nodes, registry, log, clocks);
    ScoresOfNodes(nodes, registry, log, clocks);
    PicksLastBest(scores);
    if best == None {
      forall j | 0 <= j < |nodes| ensures !Eligible(nodes[j], registry) { assert scores[j] == None; }
    } else {
      assert IsLastBest(scores, best.value);
      if Failing(log, nodes[best.value].url) {
        forall j | 0 <= j < |nodes| && Eligible(nodes[j], registry)
          ensures Failing(log, nodes[j].url)
        {
          assert scores[j].value <= scores[best.value].value == 0;
        }
      }
    }
  }

  /** Without a database the first eligible node is taken. */
  function FirstEligible(nodes: Nodes, registry: string): (first: Option<nat>)
    ensures first == None <==> forall j | 0 <= j < |nodes| :: !Eligible(nodes[j], registry)
    ensures first.Some? ==> first.value < |nodes| && Eligible(nodes[first.value], registry)
                            && forall j | 0 <= j < first.value :: !Eligible(nodes[j], registry)
  {
    if nodes == [] then None
    else
      var first := FirstEligible(Init(nodes), registry);
      if first.Some? then first
      else if Eligible(Last(nodes), registry) then Some(|nodes| - 1) else None
  }

  // ---------- which nodes matter ----------

  /** Nobody is selected exactly when every node is disabled or limited to other registries. */
  lemma {:induction false} NobodySelected(nodes: Nodes, registry: string, log: Log, clocks: seq<int>)
    requires |clocks| == |nodes|
    ensures var none := forall n | n in nodes :: !n.enabled || (n.targets != [] && registry !in n.targets);
            && (SelectBest(nodes, registry, log, clocks) == None <==> none)
            && (FirstEligible(nodes, registry) == None <==> none)
  {
    SelectionIsLastArgmax(nodes, registry, log, clocks);
  }

  /** Whoever is selected is enabled and serves the registry. */
  lemma {:induction false} SelectedServes(nodes: Nodes, registry: string, log: Log, clocks: seq<int>)
    requires |clocks| == |nodes|
    ensures forall i | SelectBest(nodes, registry, log, clocks) == Some(i) || FirstEligible(nodes, registry) == Some(i) ::
              i < |nodes| && nodes[i].enabled && (nodes[i].targets == [] || registry in nodes[i].targets)
  {
    SelectionIsLastArgmax(nodes, registry, log, clocks);
  }

  /** The node that is selected with a database, and its score. */
  function Winner(nodes: Nodes, registry: string, log: Log, clocks: seq<int>): Option<(NodeInfo, int)>
    requires |clocks| == |nodes|
  {
    match SelectBest(nodes, registry, log, clocks)
    case None => None
    case Some(i) => Some((nodes[i], ComputeScore(log, nodes[i].url, clocks[i]).score))
  }

  function FirstNode(nodes: Nodes, registry: string): Option<NodeInfo> {
    match FirstEligible(nodes, registry)
    case None => None
    case Some(i) => Some(nodes[i])
  }

  /** The nodes that `keep` accepts, each with its clock reading. */
  function Kept(nodes: Nodes, clocks: seq<int>, keep: NodeInfo -> bool): (r: (Nodes, seq<int>))
    requires |clocks| == |nodes|
    ensures |r.0| == |r.1|
  {
    if nodes == [] then ([], [])
    else
      var (some, times) := Kept(Init(nodes), Init(clocks), keep);
      if keep(Last(nodes)) then (some + [Last(nodes)], times + [Last(clocks)]) else (some, times)
  }

  /** A candidate at the end of the list wins when it is at least as good as the best before it. */
  lemma WinnerSnoc(nodes: Nodes, registry: string, log: Log, clocks: seq<int>, n: NodeInfo, clock: int)
    requires |clocks| == |nodes|
    ensures var best, score := Winner(nodes, registry, log, clocks), ComputeScore(log, n.url, clock).score;
            Winner(nodes + [n], registry, log, clocks + [clock])
            == if Eligible(n, registry) && score >= (if best == None then 0 else best.value.1) then Some((n, score)) else best
  {
    hide ComputeScore, Eligible;
    var longer := Scores(nodes + [n], registry, log, clocks + [clock]);
    assert Init(longer) == Scores(nodes, registry, log, clocks);
  }

  lemma FirstNodeSnoc(nodes: Nodes, registry: string, n: NodeInfo)
    ensures var first := FirstNode(nodes, registry);
            FirstNode(nodes + [n], registry)
            == if first.Some? then first else if Eligible(n, registry) then Some(n) else None
  {
    hide Eligible;
    assert Init(nodes + [n]) == nodes;
  }

  /**
   Deleting nodes that are disabled or limited to other registries changes no selection, with or
   without a database: neither who is selected nor the score.
   */
  lemma {:induction false} OthersDoNotMatter(nodes: Nodes, registry: string, log: Log, clocks: seq<int>,
                                             keep: NodeInfo -> bool)
    requires |clocks| == |nodes|
    requires forall n | n in nodes && n.enabled && (n.targets == [] || registry in n.targets) :: keep(n)
    ensures var (some, times) := Kept(nodes, clocks, keep);
            && Winner(some, registry, log, times) == Winner(nodes, registry, log, clocks)
            && FirstNode(some, registry) == FirstNode(nodes, registry)
  {
    if nodes != [] {
      hide Winner, FirstNode, ComputeScore, Eligible, Kept;
      var init, n := Init(nodes), Last(nodes);
      ServingAreKept(nodes, registry, keep);
      OthersDoNotMatter(init, registry, log, Init(clocks), keep);
      KeptSnoc(nodes, clocks, keep);
      var (some, times) := Kept(init, Init(clocks), keep);
      WinnerSnoc(init, registry, log, Init(clocks), n, Last(clocks));
      WinnerSnoc(some, registry, log, times, n, Last(clocks));
      FirstNodeSnoc(init, registry, n);
      FirstNodeSnoc(some, registry, n);
    }
  }

  lemma ServingAreKept(nodes: Nodes, registry: string, keep: NodeInfo -> bool)
    requires nodes != []
    requires forall n | n in nodes && n.enabled && (n.targets == [] || registry in n.targets) :: keep(n)
    ensures Eligible(Last(nodes), registry) ==> keep(Last(nodes))
    ensures forall n | n in Init(nodes) && n.enabled && (n.targets == [] || registry in n.targets) :: keep(n)
  {
    assert Last(nodes) in nodes && forall m | m in Init(nodes) :: m in nodes;
  }

  lemma KeptSnoc(nodes: Nodes, clocks: seq<int>, keep: NodeInfo -> bool)
    requires |clocks| == |nodes| > 0
    ensures Init(nodes) + [Last(nodes)] == nodes && Init(clocks) + [Last(clocks)] == clocks
    ensures var (some, times) := Kept(Init(nodes), Init(clocks), keep);
            Kept(nodes, clocks, keep)
            == if keep(Last(nodes)) then (some + [Last(nodes)], times + [Last(clocks)]) else (some, times)
  {
  }

  // ---------- failover ----------

  /** The eligible nodes whose latest latency or speed is nonzero. */
  function Alive(nodes: Nodes, registry: string, log: Log): set<string> {
    set i | 0 <= i < |nodes| && Eligible(nodes[i], registry) && !Failing(log, nodes[i].url) :: nodes[i].url
  }

  /** One attempt: the clock readings of the selection, and what is recorded besides zeros. */
  datatype Round = Round(clocks: seq<int>, now: int, kb: int, ok: bool)

  /** A selection followed by a record without latency and speed, as an immediate failure leaves it. */
  function Attempt(nodes: Nodes, registry: string, log: Log, r: Round): (Log, Option<string>)
    requires |r.clocks| == |nodes|
  {
    match SelectBest(nodes, registry, log, r.clocks)
    case None => (log, None)
    case Some(i) => (log + Batch(nodes[i].url, 0, 0, r.kb, r.ok, r.now), Some(nodes[i].url))
  }

  lemma FailureRetires(nodes: Nodes, registry: string, log: Log, url: string, kb: int, ok: bool, now: int)
    ensures Alive(nodes, registry, log + Batch(url, 0, 0, kb, ok, now)) == Alive(nodes, registry, log) - {url}
  {
    hide Failing, Eligible, Batch;
    var after := log + Batch(url, 0, 0, kb, ok, now);
    FailingAfterBatch(log, url, 0, 0, kb, ok, now);
    forall other | other != url
      ensures Failing(after, other) <==> Failing(log, other)
    {
      OthersKeepFailing(log, url, kb, ok, now, other);
    }
  }

  lemma OthersKeepFailing(log: Log, url: string, kb: int, ok: bool, now: int, other: string)
    requires other != url
    ensures Failing(log + Batch(url, 0, 0, kb, ok, now), other) <==> Failing(log, other)
  {
    BatchHistories(log, url, 0, 0, kb, ok, now, other);
  }

  /** While some node is alive, an attempt selects an alive one and takes it out. */
  lemma {:induction false} AttemptRetiresOne(nodes: Nodes, registry: string, log: Log, r: Round)
    requires |r.clocks| == |nodes| && Alive(nodes, registry, log) != {}
    ensures var (after, picked) := Attempt(nodes, registry, log, r);
            && picked.Some? && picked.value in Alive(nodes, registry, log)
            && Alive(nodes, registry, after) == Alive(nodes, registry, log) - {picked.value}
  {
    hide Failing, Batch, Scores, ComputeScore;
    SelectionIsLastArgmax(nodes, registry, log, r.clocks);
    var url :| url in Alive(nodes, registry, log);
    var best := SelectBest(nodes, registry, log, r.clocks).value;
    FailureRetires(nodes, registry, log, nodes[best].url, r.kb, r.ok, r.now);
  }

  function LogAfter(nodes: Nodes, registry: string, log: Log, rounds: seq<Round>): Log
    requires forall r | r in rounds :: |r.clocks| == |nodes|
  {
    if rounds == [] then log
    else Attempt(nodes, registry, LogAfter(nodes, registry, log, Init(rounds)), Last(rounds)).0
  }

  function Picks(nodes: Nodes, registry: string, log: Log, rounds: seq<Round>): seq<Option<string>>
    requires forall r | r in rounds :: |r.clocks| == |nodes|
  {
    if rounds == [] then []
    else Picks(nodes, registry, log, Init(rounds))
         + [Attempt(nodes, registry, LogAfter(nodes, registry, log, Init(rounds)), Last(rounds)).1]
  }

  function Urls(picks: seq<Option<string>>): set<string> {
    set p | p in picks && p.Some? :: p.value
  }

  /** Every pick names a node, and no two the same. */
  predicate AllDifferent(picks: seq<Option<string>>) {
    && (forall k | 0 <= k < |picks| :: picks[k].Some?)
    && (forall j, k | 0 <= j < k < |picks| :: picks[j] != picks[k])
  }

  lemma DifferentSnoc(picks: seq<Option<string>>, url: string)
    requires AllDifferent(picks) && url !in Urls(picks)
    ensures AllDifferent(picks + [Some(url)]) && Urls(picks + [Some(url)]) == Urls(picks) + {url}
  {
    forall k | 0 <= k < |picks| ensures picks[k] != Some(url) { assert picks[k] in picks; }
  }

  /**
   As long as there are no more attempts than alive nodes, every attempt tries a node that was
   alive and has not been tried, whatever the clock shows; the number of alive nodes drops by one
   each time, so that as many attempts as alive nodes try all of them.
   */
  lemma {:induction false} FailoverTriesEveryNode(nodes: Nodes, registry: string, log: Log, rounds: seq<Round>)
    requires forall r | r in rounds :: |r.clocks| == |nodes|
    requires |rounds| <= |Alive(nodes, registry, log)|
    ensures var alive, picks := Alive(nodes, registry, log), Picks(nodes, registry, log, rounds);
            var left := Alive(nodes, registry, LogAfter(nodes, registry, log, rounds));
            && |picks| == |rounds| && AllDifferent(picks)
            && Urls(picks) <= alive && left == alive - Urls(picks) && |left| == |alive| - |rounds|
  {
    hide Alive, Attempt, AllDifferent, Urls;
    if rounds == [] {
      NoPicks();
    } else {
      var init := Init(rounds);
      assert forall r | r in init :: r in rounds;
      assert Last(rounds) in rounds;
      FailoverTriesEveryNode(nodes, registry, log, init);
      var alive, picks := Alive(nodes, registry, log), Picks(nodes, registry, log, init);
      var before := LogAfter(nodes, registry, log, init);
      assert |Alive(nodes, registry, before)| > 0;
      AttemptRetiresOne(nodes, registry, before, Last(rounds));
      var url := Attempt(nodes, registry, before, Last(rounds)).1.value;
      DifferentSnoc(picks, url);
      assert alive - Urls(picks) - {url} == alive - (Urls(picks) + {url});
    }
  }

  lemma NoPicks()
    ensures Urls([]) == {} && AllDifferent([])
  {
  }

  // ---------- failures that report a latency ----------

  /** A download that fails `latency` milliseconds after it was sent; the clock moves on in between. */
  datatype Try = Try(clocks: seq<int>, latency: int, now: int)

  function TryOnce(nodes: Nodes, registry: string, log: Log, t: Try): (Log, Option<nat>)
    requires |t.clocks| == |nodes|
  {
    match SelectBest(nodes, registry, log, t.clocks)
    case None => (log, None)
    case Some(i) => (log + Batch(nodes[i].url, t.latency, 0, 0, false, t.now), Some(i))
  }

  function LogAfterTries(nodes: Nodes, registry: string, log: Log, tries: seq<Try>): Log
    requires forall t | t in tries :: |t.clocks| == |nodes|
  {
    if tries == [] then log
    else TryOnce(nodes, registry, LogAfterTries(nodes, registry, log, Init(tries)), Last(tries)).0
  }

  function Tried(nodes: Nodes, registry: string, log: Log, tries: seq<Try>): seq<Option<nat>>
    requires forall t | t in tries :: |t.clocks| == |nodes|
  {
    if tries == [] then []
    else Tried(nodes, registry, log, Init(tries))
         + [TryOnce(nodes, registry, LogAfterTries(nodes, registry, log, Init(tries)), Last(tries)).1]
  }

  /** Every other node of the registry scores less than a node whose latencies are all `ms`. */
  ghost predicate OthersBelow(nodes: Nodes, registry: string, log: Log, a: nat, ms: int, clocks: seq<int>)
    requires |clocks| == |nodes| && a < |nodes|
  {
    forall j | 0 <= j < |nodes| && j != a && Eligible(nodes[j], registry) ::
      nodes[j].url != nodes[a].url && ComputeScore(log, nodes[j].url, clocks[j]).score < LatencyOnly(ms)
  }

  /** When the latest latency of node `a` was recorded. */
  function LatestTime(tries: seq<Try>, time: int): int {
    if tries == [] then time else Last(tries).now
  }

  /** Each try fails after at most `ms` milliseconds and finds the other nodes scored below. */
  ghost predicate QuickTries(nodes: Nodes, registry: string, log: Log, a: nat, ms: int, tries: seq<Try>)
    requires a < |nodes|
  {
    forall t | t in tries ::
      |t.clocks| == |nodes| && 0 < t.latency <= ms && OthersBelow(nodes, registry, log, a, ms, t.clocks)
  }

  /** Each try begins within a day of the record before it. */
  predicate Spaced(a: nat, time: int, tries: seq<Try>) {
    tries == [] ||
    (&& Spaced(a, time, Init(tries))
     && a < |Last(tries).clocks| && Last(tries).clocks[a] - LatestTime(Init(tries), time) < LATENCY_WINDOW)
  }

  lemma TopIsSelected(nodes: Nodes, registry: string, log: Log, a: nat, ms: int, time: int, clocks: seq<int>)
    requires |clocks| == |nodes| && a < |nodes| && Eligible(nodes[a], registry)
    requires Quick(log, nodes[a].url, ms, time) && clocks[a] - time < LATENCY_WINDOW
    requires OthersBelow(nodes, registry, log, a, ms, clocks)
    ensures SelectBest(nodes, registry, log, clocks) == Some(a)
  {
    hide ComputeScore, Failing, Eligible, LatencyOnly, Quick;
    QuickScoresHigh(log, nodes[a].url, ms, time, clocks[a]);
    SelectionIsLastArgmax(nodes, registry, log, clocks);
    assert IsLastBest(Scores(nodes, registry, log, clocks), a);
  }

  lemma FailureStaysQuick(log: Log, url: string, ms: int, time: int, latency: int, now: int)
    requires Quick(log, url, ms, time) && 0 < latency <= ms
    ensures Quick(log + Batch(url, latency, 0, 0, false, now), url, ms, now)
  {
    BatchHistories(log, url, latency, 0, 0, false, now, url);
  }

  lemma OthersStayBelow(nodes: Nodes, registry: string, log: Log, log': Log, a: nat, ms: int, clocks: seq<int>)
    requires |clocks| == |nodes| && a < |nodes| && OthersBelow(nodes, registry, log, a, ms, clocks)
    requires OnlyFrom(log, log', nodes[a].url)
    ensures OthersBelow(nodes, registry, log', a, ms, clocks)
  {
    hide ComputeScore, Eligible;
    var more :| log' == log + more && forall e | e in more :: e.url == nodes[a].url;
    forall j | 0 <= j < |nodes| && j != a && Eligible(nodes[j], registry)
      ensures ComputeScore(log', nodes[j].url, clocks[j]) == ComputeScore(log, nodes[j].url, clocks[j])
    {
      SnapshotIgnoresOthers(log, more, nodes[j].url, clocks[j]);
    }
  }

  /** `log'` is `log` with rows of the node `url` added. */
  ghost predicate OnlyFrom(log: Log, log': Log, url: string) {
    exists more :: log' == log + more && forall e | e in more :: e.url == url
  }

  lemma OnlyFromBatch(log: Log, log': Log, url: string, latency: int, now: int)
    requires OnlyFrom(log, log', url)
    ensures OnlyFrom(log, log' + Batch(url, latency, 0, 0, false, now), url)
  {
    var more :| log' == log + more && forall e | e in more :: e.url == url;
    var b := Batch(url, latency, 0, 0, false, now);
    assert log' + b == log + (more + b);
  }

  /** One more try, after any number of them. */
  lemma TryAgain(nodes: Nodes, registry: string, log: Log, before: Log, a: nat, ms: int, time: int, t: Try)
    requires a < |nodes| && |t.clocks| == |nodes| && Eligible(nodes[a], registry)
    requires Quick(before, nodes[a].url, ms, time) && OnlyFrom(log, before, nodes[a].url)
    requires OthersBelow(nodes, registry, log, a, ms, t.clocks)
    requires t.clocks[a] - time < LATENCY_WINDOW && 0 < t.latency <= ms
    ensures var (after, picked) := TryOnce(nodes, registry, before, t);
            picked == Some(a) && Quick(after, nodes[a].url, ms, t.now) && OnlyFrom(log, after, nodes[a].url)
  {
    hide Eligible, Quick, OthersBelow, OnlyFrom, Batch, SelectBest;
    OthersStayBelow(nodes, registry, log, before, a, ms, t.clocks);
    TopIsSelected(nodes, registry, before, a, ms, time, t.clocks);
    FailureStaysQuick(before, nodes[a].url, ms, time, t.latency, t.now);
    OnlyFromBatch(log, before, nodes[a].url, t.latency, t.now);
  }

  /**
   A failure that reports a positive latency does not move the choice on. A node that answers within
   `ms` and always fails is selected at every try, through any number of tries, as long as each
   begins within a day of the one before and the other nodes score less than `ms` alone gives.
   */
  lemma {:induction false} QuickFailuresAreRetried(nodes: Nodes, registry: string, log: Log, a: nat, ms: int,
                                                   time: int, tries: seq<Try>)
    requires a < |nodes| && Eligible(nodes[a], registry) && Quick(log, nodes[a].url, ms, time)
    requires QuickTries(nodes, registry, log, a, ms, tries) && Spaced(a, time, tries)
    ensures |Tried(nodes, registry, log, tries)| == |tries|
    ensures forall k | 0 <= k < |tries| :: Tried(nodes, registry, log, tries)[k] == Some(a)
    ensures var after := LogAfterTries(nodes, registry, log, tries);
            Quick(after, nodes[a].url, ms, LatestTime(tries, time)) && OnlyFrom(log, after, nodes[a].url)
  {
    hide Eligible, Quick, OthersBelow, OnlyFrom, TryOnce;
    if tries == [] {
      NothingAdded(log, nodes[a].url);
    } else {
      var init, t := Init(tries), Last(tries);
      assert t in tries && forall u | u in init :: u in tries;
      var before := LogAfterTries(nodes, registry, log, init);
      QuickFailuresAreRetried(nodes, registry, log, a, ms, time, init);
      TryAgain(nodes, registry, log, before, a, ms, LatestTime(init, time), t);
    }
  }

  lemma NothingAdded(log: Log, url: string)
    ensures OnlyFrom(log, log, url)
  {
    assert log == log + [];
  }

  /** The other nodes of the registry have URLs of their own, and all their rows are a week old. */
  ghost predicate OthersIdle(nodes: Nodes, registry: string, log: Log, a: nat, clocks: seq<int>)
    requires |clocks| == |nodes| && a < |nodes|
  {
    forall j | 0 <= j < |nodes| && j != a && Eligible(nodes[j], registry) ::
      nodes[j].url != nodes[a].url
      && forall e | e in log && e.url == nodes[j].url :: e.time <= clocks[j] - SUCCESS_WINDOW
  }

  lemma IdleNodesBelow(nodes: Nodes, registry: string, log: Log, a: nat, ms: int, clocks: seq<int>)
    requires |clocks| == |nodes| && a < |nodes| && OthersIdle(nodes, registry, log, a, clocks) && 0 < ms < 500
    ensures OthersBelow(nodes, registry, log, a, ms, clocks)
  {
    hide ComputeScore, Eligible, LatencyOnly;
    LatencyOnlyValue(ms);
    assert LatencyOnly(ms) > 3250;
    forall j | 0 <= j < |nodes| && j != a && Eligible(nodes[j], registry)
      ensures ComputeScore(log, nodes[j].url, clocks[j]).score <= 3250
    {
      ColdScore(log, nodes[j].url, clocks[j]);
    }
  }

  /**
   In particular nodes that have not been tried for a week never get their turn beside a node that
   keeps failing in under half a second, even if they work.
   */
  lemma {:induction false} IdleNodesAreNeverTried(nodes: Nodes, registry: string, log: Log, a: nat, ms: int,
                                                  time: int, tries: seq<Try>)
    requires a < |nodes| && Eligible(nodes[a], registry) && Quick(log, nodes[a].url, ms, time) && 0 < ms < 500
    requires forall t | t in tries ::
               |t.clocks| == |nodes| && 0 < t.latency <= ms && OthersIdle(nodes, registry, log, a, t.clocks)
    requires Spaced(a, time, tries)
    ensures forall p | p in Tried(nodes, registry, log, tries) :: p == Some(a)
  {
    hide OthersIdle, OthersBelow, Eligible, Quick;
    forall t | t in tries
      ensures OthersBelow(nodes, registry, log, a, ms, t.clocks)
    {
      IdleNodesBelow(nodes, registry, log, a, ms, t.clocks);
    }
    QuickFailuresAreRetried(nodes, registry, log, a, ms, time, tries);
  }

  // ---------- configured and fetched nodes ----------

  /** A configured mirror serves the registry under which it is configured, and no other. */
  lemma ConfiguredNodeServes(cfg: Config, i: nat, registry: string)
    requires i < |InitNodes(cfg)|
    ensures Eligible(InitNodes(cfg)[i], registry)
            <==> registry == if i < |cfg.dockerhub| then "dockerhub" else "ghcr"
  {
    ConfiguredNodes(cfg);
  }

  /**
   A fetched node serves exactly one registry; one whose name or URL was taken for `gcr` is never
   eligible, because no image name belongs to that registry.
   */
  lemma FetchedNodeServes(item: Merging.ProxyItem, image: string)
    ensures var n, registry := Merging.ToNode(item), Routes.DetectRegistry(image);
            && (Eligible(n, registry) <==> n.targets == [registry])
            && (n.targets == ["gcr"] ==> !Eligible(n, registry))
  {
  }
}

/** The node manager: the shared list, selection, and recording of downloads. */
module NodeManager {
  import opened Common
  import opened NodeList
  import Database
  import LogRuns
  import MetricLog
  import NodeTable
  import Scoring
  import Sel = Selection

  /** A node of the list: fixed data, and the figures computed on demand. */
  class Node {
    const info: NodeInfo
    var score: int
    var latency: real
    var speed: real
    var success: real
    var bytes: int

    constructor (info: NodeInfo)
      ensures this.info == info && score == 0
    {
      this.info := info;
      score, latency, speed, success, bytes := 0, 0.0, 0.0, 0.0, 0;
    }
  }

  function Infos(nodes: seq<Node>): Nodes {
    seq(|nodes|, i requires 0 <= i < |nodes| => nodes[i].info)
  }

  lemma InfosSnoc(nodes: seq<Node>, n: Node)
    ensures Infos(nodes + [n]) == Infos(nodes) + [n.info]
  {
  }

  predicate NoAlias(nodes: seq<Node>) {
    forall i, j | 0 <= i < j < |nodes| :: nodes[i] != nodes[j]
  }

  /** Every eligible node among the first `next` carries its computed score. */
  ghost predicate Scored(nodes: seq<Node>, scores: seq<Option<int>>, next: nat)
    requires next <= |nodes| == |scores|
    reads nodes
  {
    forall i | 0 <= i < next && scores[i].Some? :: nodes[i].score == scores[i].value
  }

  /** `positions` are the positions of all scored nodes, ascending. */
  ghost predicate Lists(positions: seq<nat>, scores: seq<Option<int>>) {
    && (forall i, j | 0 <= i < j < |positions| :: positions[i] < positions[j])
    && (forall i :: i in positions <==> 0 <= i < |scores| && scores[i].Some?)
  }

  lemma PickSnoc(scores: seq<Option<int>>, k: nat)
    requires k < |scores|
    ensures Sel.Pick(scores[..k + 1])
            == var best := Sel.Pick(scores[..k]);
               var bestScore := if best == None then 0 else scores[best.value].value;
               if scores[k].Some? && scores[k].value >= bestScore then Some(k) else best
  {
    assert Init(scores[..k + 1]) == scores[..k] && Last(scores[..k + 1]) == scores[k];
  }

  class Manager {
    var nodes: seq<Node>
    const db: Database.DB?

    ghost predicate Valid()
      reads this
    {
      NoAlias(nodes)
    }

    ghost function List(): Nodes
      reads this
    {
      Infos(nodes)
    }

    /** `NewManagerWithStore`; `loadFails` tells whether reading the table fails. */
    constructor (cfg: Config, db: Database.DB?, loadFails: bool)
      ensures Valid() && this.db == db
      ensures List() == if db == null || loadFails then InitNodes(cfg) else NewList(cfg, NodeTable.Load(db.nodes))
    {
      this.db := db;
      nodes := [];
      new;
      LoadConfig(cfg);
      if db != null {
        LoadFromDB(loadFails);
      }
    }

    /** Appends a node for every mirror of the configuration. */
    method LoadConfig(cfg: Config)
      requires nodes == []
      modifies this`nodes
      ensures Valid()
      ensures List() == InitNodes(cfg)
    {
      AddMirrors(cfg.dockerhub, "dockerhub");
      AddMirrors(cfg.ghcr, "ghcr");
    }

    method AddMirrors(mirrors: seq<Mirror>, target: string)
      requires Valid()
      modifies this`nodes
      ensures Valid()
      ensures List() == old(List()) + FromMirrors(mirrors, target)
    {
      for i := 0 to |mirrors|
        invariant Valid()
        invariant List() == old(List()) + FromMirrors(mirrors[..i], target)
      {
        assert Init(mirrors[..i + 1]) == mirrors[..i] && Last(mirrors[..i + 1]) == mirrors[i];
        var n := new Node(FromMirror(mirrors[i], target));
        InfosSnoc(nodes, n);
        nodes := nodes + [n];
      }
      assert mirrors[..|mirrors|] == mirrors;
    }

    /** Appends the rows whose URL the list did not contain at the start. */
    method LoadFromDB(fails: bool)
      requires Valid() && db != null
      modifies this`nodes
      ensures Valid()
      ensures List() == if fails then old(List()) else LoadFromDb(old(List()), NodeTable.Load(db.nodes))
    {
      var loaded := db.LoadNodes(fails);
      if loaded == None {
        return;
      }
      var rows := loaded.value;
      var existing := set n | n in nodes :: n.info.url;
      for i := 0 to |rows|
        invariant Valid()
        invariant List() == LoadFromDb(old(List()), rows[..i])
      {
        assert Init(rows[..i + 1]) == rows[..i] && Last(rows[..i + 1]) == rows[i];
        KnownUrls(old(nodes), rows[i].url);
        if rows[i].url in existing {
          continue;
        }
        var n := new Node(rows[i]);
        InfosSnoc(nodes, n);
        nodes := nodes + [n];
      }
      assert rows[..|rows|] == rows;
    }

    /** Appends the node unless its URL is in the list. */
    method AddNode(node: Node)
      requires Valid()
      modifies this`nodes
      ensures Valid()
      ensures List() == NodeList.AddNode(old(List()), node.info)
      ensures nodes == old(nodes) || nodes == old(nodes) + [node]
    {
      for i := 0 to |nodes|
        invariant forall j | 0 <= j < i :: nodes[j].info.url != node.info.url
      {
        if nodes[i].info.url == node.info.url {
          assert List()[i].url == node.info.url;
          return;
        }
      }
      InfosSnoc(nodes, node);
      nodes := nodes + [node];
    }

    /** Replaces the list by the nodes of a new configuration. */
    method ReloadNodes(cfg: Config)
      modifies this`nodes
      ensures Valid() && List() == InitNodes(cfg)
    {
      nodes := [];
      LoadConfig(cfg);
    }

    /** Saves the list to the database. */
    method PersistNodes(now: int, beginFails: bool, failAt: Option<nat>, commitFails: bool) returns (ok: bool)
      modifies db
      ensures db == null ==> !ok
      ensures db != null ==>
                && (ok <==> !beginFails && !commitFails && (failAt == None || failAt.value >= |nodes|))
                && db.nodes == (if ok then NodeTable.SaveAll(old(db.nodes), List(), now) else old(db.nodes))
                && db.metrics == old(db.metrics)
    {
      if db == null {
        return false;
      }
      ok := db.SaveNodes(Infos(nodes), now, beginFails, failAt, commitFails);
    }

    /** The positions of the eligible nodes, in list order. */
    method Candidates(registry: string) returns (positions: seq<nat>)
      ensures forall i, j | 0 <= i < j < |positions| :: positions[i] < positions[j]
      ensures forall i :: i in positions <==> 0 <= i < |nodes| && Sel.Eligible(nodes[i].info, registry)
      ensures forall i :: i in positions <==>
                0 <= i < |nodes| && nodes[i].info.enabled
                && (nodes[i].info.targets == [] || registry in nodes[i].info.targets)
    {
      positions := [];
      for i := 0 to |nodes|
        invariant forall k | 0 <= k < |positions| :: positions[k] < i
        invariant forall j, k | 0 <= j < k < |positions| :: positions[j] < positions[k]
        invariant forall k :: k in positions <==> 0 <= k < i && Sel.Eligible(nodes[k].info, registry)
      {
        if nodes[i].info.enabled && (nodes[i].info.targets == [] || registry in nodes[i].info.targets) {
          positions := positions + [i];
        }
      }
    }

    /**
     Scores every candidate and keeps the last best one; without a database the first candidate is
     taken. `clocks` are the clock readings at the positions of the list.
     */
    method SelectBest(registry: string, clocks: seq<int>) returns (best: Node?)
      requires Valid() && |clocks| == |nodes|
      modifies nodes
      ensures db != null ==>
                && Scored(nodes, Sel.Scores(List(), registry, db.metrics, clocks), |nodes|)
                && match Sel.SelectBest(List(), registry, db.metrics, clocks)
                   case None => best == null
                   case Some(i) => best == nodes[i]
      ensures db == null ==>
                match Sel.FirstEligible(List(), registry)
                case None => best == null
                case Some(i) => best == nodes[i]
      ensures best != null ==>
                best in nodes && best.info.enabled && (best.info.targets == [] || registry in best.info.targets)
      ensures best == null <==>
                forall n | n in nodes :: !n.info.enabled || (n.info.targets != [] && registry !in n.info.targets)
    {
      hide Sel.SelectBest, Sel.FirstEligible, Sel.Scores, Lists, Scored;
      ServingNodes(registry, clocks);
      var candidates := Candidates(registry);
      if db == null {
        best := FirstOf(registry, candidates);
      } else {
        AreListed(registry, clocks, candidates);
        best := BestOf(registry, clocks, candidates);
      }
    }

    lemma AreListed(registry: string, clocks: seq<int>, positions: seq<nat>)
      requires db != null && |clocks| == |nodes|
      requires forall i, j | 0 <= i < j < |positions| :: positions[i] < positions[j]
      requires forall i :: i in positions <==> 0 <= i < |nodes| && Sel.Eligible(nodes[i].info, registry)
      ensures Lists(positions, Sel.Scores(List(), registry, db.metrics, clocks))
    {
      hide Sel.Eligible;
    }

    /** Selection over the list, in terms of the nodes. */
    lemma ServingNodes(registry: string, clocks: seq<int>)
      requires |clocks| == |nodes|
      ensures var none := forall n | n in nodes :: !n.info.enabled || (n.info.targets != [] && registry !in n.info.targets);
              && (db != null ==> (Sel.SelectBest(List(), registry, db.metrics, clocks) == None <==> none))
              && (Sel.FirstEligible(List(), registry) == None <==> none)
      ensures forall i | (db != null && Sel.SelectBest(List(), registry, db.metrics, clocks) == Some(i))
                         || Sel.FirstEligible(List(), registry) == Some(i) ::
                i < |nodes| && nodes[i].info.enabled
                && (nodes[i].info.targets == [] || registry in nodes[i].info.targets)
    {
      hide Sel.SelectBest, Sel.FirstEligible;
      var log := if db == null then [] else db.metrics;
      Sel.NobodySelected(List(), registry, log, clocks);
      Sel.SelectedServes(List(), registry, log, clocks);
      assert forall i | 0 <= i < |nodes| :: List()[i] == nodes[i].info && List()[i] in List();
    }

    /** The loop over the candidates when there is a database. */
    method BestOf(registry: string, clocks: seq<int>, candidates: seq<nat>) returns (best: Node?)
      requires Valid() && |clocks| == |nodes| && db != null
      requires Lists(candidates, Sel.Scores(List(), registry, db.metrics, clocks))
      modifies nodes
      ensures Scored(nodes, Sel.Scores(List(), registry, db.metrics, clocks), |nodes|)
      ensures match Sel.SelectBest(List(), registry, db.metrics, clocks)
              case None => best == null
              case Some(i) => best == nodes[i]
    {
      hide Sel.Pick, Lists, Scoring.ComputeScore;
      best := null;
      var bestScore := 0;
      ghost var scores, next := Sel.Scores(List(), registry, db.metrics, clocks), 0;
      NothingPicked(scores);
      for k := 0 to |candidates|
        invariant 0 <= next <= |nodes| && Reached(candidates, k) == next
        invariant Scored(nodes, scores, next)
        invariant match Sel.Pick(scores[..next])
                  case None => best == null && bestScore == 0
                  case Some(i) => best == nodes[i] && bestScore == scores[i].value
      {
        CandidateStep(scores, candidates, k);
        var n := nodes[candidates[k]];
        var ss := db.ComputeScore(n.info.url, clocks[candidates[k]]);
        n.score := ss.score;
        if ss.score >= bestScore {
          bestScore := ss.score;
          best := n;
        }
        next := candidates[k] + 1;
      }
      NoMoreCandidates(scores, candidates);
    }

    /** Without a database the first candidate is kept. */
    method FirstOf(registry: string, candidates: seq<nat>) returns (best: Node?)
      requires forall i, j | 0 <= i < j < |candidates| :: candidates[i] < candidates[j]
      requires forall i :: i in candidates <==> 0 <= i < |nodes| && Sel.Eligible(nodes[i].info, registry)
      ensures match Sel.FirstEligible(List(), registry)
              case None => best == null
              case Some(i) => best == nodes[i]
    {
      best := null;
      assert candidates != [] ==> candidates[0] in candidates;
      for k := 0 to |candidates|
        invariant best == if k == 0 then null else nodes[candidates[0]]
      {
        assert candidates[k] in candidates;
        if best == null {
          best := nodes[candidates[k]];
        }
      }
      FirstCandidate(List(), registry, candidates);
    }

    /** Scores all nodes for display. */
    method GetScoredNodes(clocks: seq<int>) returns (r: seq<Node>)
      requires Valid() && |clocks| == |nodes|
      modifies nodes
      ensures r == nodes
      ensures db != null ==> forall i | 0 <= i < |nodes| ::
                var n, s := nodes[i], Scoring.ComputeScore(db.metrics, nodes[i].info.url, clocks[i]);
                n.score == s.score && n.latency == s.latency && n.speed == s.speed && n.success == s.success
                && n.bytes == s.bytes
    {
      hide Scoring.ComputeScore;
      r := nodes;
      if db == null {
        return;
      }
      for k := 0 to |r|
        invariant forall i | 0 <= i < k ::
                    var n, s := nodes[i], Scoring.ComputeScore(db.metrics, nodes[i].info.url, clocks[i]);
                    n.score == s.score && n.latency == s.latency && n.speed == s.speed && n.success == s.success
                    && n.bytes == s.bytes
      {
        var ss := db.ComputeScore(r[k].info.url, clocks[k]);
        r[k].score := ss.score;
        r[k].latency := ss.latency;
        r[k].speed := ss.speed;
        r[k].success := ss.success;
        r[k].bytes := ss.bytes;
      }
    }

    method RecordMetric(url: string, kind: MetricLog.Kind, value: int, now: int, fails: bool)
      modifies db
      ensures db != null ==>
                && db.metrics == LogRuns.Apply(old(db.metrics), LogRuns.Metric(MetricLog.Event(url, kind, value, now), fails))
                && db.nodes == old(db.nodes)
    {
      if db == null {
        return;
      }
      var _ := db.InsertMetricEvent(url, kind, value, now, fails);
    }

    method RecordDownload(url: string, latency: int, speed: int, kb: int, success: bool, now: int, fault: LogRuns.TxFault)
      modifies db
      ensures db != null ==>
                && db.metrics == LogRuns.Apply(old(db.metrics),
                                               LogRuns.Download(url, latency, speed, kb, success, now, fault))
                && db.nodes == old(db.nodes)
    {
      if db == null {
        return;
      }
      var _ := db.InsertDownloadEvents(url, latency, speed, kb, success, now, fault);
    }
  }

  lemma KnownUrls(nodes: seq<Node>, url: string)
    ensures url in (set n | n in nodes :: n.info.url) <==> HasUrl(Infos(nodes), url)
  {
    if i :| 0 <= i < |Infos(nodes)| && Infos(nodes)[i].url == url { assert nodes[i] in nodes; }
    if n :| n in nodes && n.info.url == url {
      var i :| 0 <= i < |nodes| && nodes[i] == n;
      assert Infos(nodes)[i].url == url;
    }
  }

  /** The position after the first `k` candidates. */
  function Reached(candidates: seq<nat>, k: nat): nat
    requires k <= |candidates|
  {
    if k == 0 then 0 else candidates[k - 1] + 1
  }

  lemma NothingPicked(scores: seq<Option<int>>)
    ensures Sel.Pick(scores[..0]) == None
  {
  }

  /** Positions without a score change no pick. */
  lemma {:induction false} SkipUnscored(scores: seq<Option<int>>, lo: nat, hi: nat)
    requires lo <= hi <= |scores| && forall i | lo <= i < hi :: scores[i] == None
    ensures Sel.Pick(scores[..lo]) == Sel.Pick(scores[..hi])
    decreases hi
  {
    if lo < hi {
      PickSnoc(scores, hi - 1);
      SkipUnscored(scores, lo, hi - 1);
    }
  }

  /** Between two successive candidates no node is scored. */
  lemma Between(scores: seq<Option<int>>, candidates: seq<nat>, k: nat, i: nat)
    requires Lists(candidates, scores) && k <= |candidates| && Reached(candidates, k) <= i < |scores|
    requires k < |candidates| ==> i < candidates[k]
    ensures scores[i] == None
  {
    forall j | 0 <= j < |candidates|
      ensures candidates[j] != i
    {
      if j < k {
        assert candidates[j] <= candidates[k - 1];
      } else {
        assert candidates[k] <= candidates[j];
      }
    }
  }

  /** The next candidate competes with the best one so far. */
  lemma CandidateStep(scores: seq<Option<int>>, candidates: seq<nat>, k: nat)
    requires Lists(candidates, scores) && k < |candidates|
    ensures Reached(candidates, k) <= candidates[k] < |scores| && scores[candidates[k]].Some?
    ensures forall i | Reached(candidates, k) <= i < candidates[k] :: scores[i] == None
    ensures Sel.Pick(scores[..candidates[k] + 1])
            == var best := Sel.Pick(scores[..Reached(candidates, k)]);
               var bestScore := if best == None then 0 else scores[best.value].value;
               if scores[candidates[k]].value >= bestScore then Some(candidates[k]) else best
  {
    assert candidates[k] in candidates;
    forall i | Reached(candidates, k) <= i < candidates[k]
      ensures scores[i] == None
    {
      Between(scores, candidates, k, i);
    }
    SkipUnscored(scores, Reached(candidates, k), candidates[k]);
    PickSnoc(scores, candidates[k]);
  }

  /** Behind the last candidate no node is scored. */
  lemma NoMoreCandidates(scores: seq<Option<int>>, candidates: seq<nat>)
    requires Lists(candidates, scores)
    ensures Reached(candidates, |candidates|) <= |scores|
    ensures forall i | Reached(candidates, |candidates|) <= i < |scores| :: scores[i] == None
    ensures Sel.Pick(scores[..Reached(candidates, |candidates|)]) == Sel.Pick(scores)
  {
    if candidates != [] { assert candidates[|candidates| - 1] in candidates; }
    forall i | Reached(candidates, |candidates|) <= i < |scores|
      ensures scores[i] == None
    {
      Between(scores, candidates, |candidates|, i);
    }
    SkipUnscored(scores, Reached(candidates, |candidates|), |scores|);
    assert scores[..|scores|] == scores;
  }

  lemma FirstCandidate(nodes: Nodes, registry: string, candidates: seq<nat>)
    requires forall i, j | 0 <= i < j < |candidates| :: candidates[i] < candidates[j]
    requires forall i :: i in candidates <==> 0 <= i < |nodes| && Sel.Eligible(nodes[i], registry)
    ensures Sel.FirstEligible(nodes, registry) == if candidates == [] then None else Some(candidates[0])
  {
    var first := Sel.FirstEligible(nodes, registry);
    if candidates != [] {
      assert candidates[0] in candidates;
      assert forall j | 0 <= j < |candidates| :: candidates[0] <= candidates[j];
    }
    if first.Some? {
      assert first.value in candidates;
    }
  }
}

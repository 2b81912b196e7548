/** A download: select a node, request the blob from it, record what happened. */
module Downloader {
  import opened Common
  import opened NodeManager
  import LogRuns
  import NodeList
  import opened MetricLog
  import Routes
  import opened Scoring
  import Sel = Selection

  /** How the request ends: latencies are measured in whole milliseconds. */
  datatype Outcome =
    | BadRequest
    | TransportError(latency: nat)
    | BadStatus(latency: nat)
    | Response(latency: nat, contentLength: int)

  datatype Request = Request(name: string, digest: string, registry: string)
  datatype Result = NoNode | Failed(blobUrl: string) | Got(blobUrl: string, contentLength: int)

  /** Integer division as the program performs it, rounding towards zero. */
  function DivTowardsZero(a: int, b: int): int
    requires b > 0
  {
    if a >= 0 then a / b else -((-a) / b)
  }

  function ReportedLatency(o: Outcome): nat {
    if o.BadRequest? then 0 else o.latency
  }

  function ReportedSpeed(o: Outcome): int {
    if o.Response? && o.latency > 0 && o.contentLength > 0 then o.contentLength / o.latency else 0
  }

  function ReportedKb(o: Outcome): int {
    if o.Response? then DivTowardsZero(o.contentLength, 1024) else 0
  }

  /** The insert a download on `url` causes. */
  function Record(url: string, o: Outcome, now: int, fault: LogRuns.TxFault): LogRuns.Insert {
    LogRuns.Download(url, ReportedLatency(o), ReportedSpeed(o), ReportedKb(o), o.Response?, now, fault)
  }

  /**
   `after` is `before` with one row of each kind, which tell what was measured: the latency, the
   speed in whole bytes per millisecond, whether there was a response, and its size in whole
   kibibytes, both rounded towards zero and zero without a response.
   */
  ghost predicate Reported(before: Log, after: Log, url: string, o: Outcome, now: int) {
    && |after| == |before| + 4 && after[..|before|] == before
    && var rows := after[|before|..];
       var latency, speed, kb := rows[0].value, rows[1].value, rows[3].value;
       && (forall r | r in rows :: r.url == url && r.time == now)
       && rows[0].kind == Latency && rows[1].kind == Speed && rows[2].kind == Success && rows[3].kind == Bytes
       && rows[2].value == (if o.Response? then 1 else 0)
       && match o
          case BadRequest => latency == 0 && speed == 0 && kb == 0
          case TransportError(l) => latency == l && speed == 0 && kb == 0
          case BadStatus(l) => latency == l && speed == 0 && kb == 0
          case Response(l, c) =>
            && latency == l
            && (if l > 0 && c > 0 then speed * l <= c < (speed + 1) * l else speed == 0)
            && (if c >= 0 then kb * 1024 <= c < (kb + 1) * 1024 else (kb - 1) * 1024 < c <= kb * 1024)
  }

  lemma Quotient(a: int, b: int)
    requires a >= 0 && b > 0
    ensures a / b * b <= a < (a / b + 1) * b
  {
  }

  /** The rows of a recorded download tell what was measured, and are the node's latest. */
  lemma RecordIsReported(log: Log, url: string, o: Outcome, now: int)
    ensures var after := LogRuns.Apply(log, Record(url, o, now, LogRuns.NoFault));
            && Reported(log, after, url, o, now)
            && Latest(History(after, url, Latency)) == after[|log|].value
            && Latest(History(after, url, Speed)) == after[|log| + 1].value
            && Latest(History(after, url, Success)) == after[|log| + 2].value
            && Latest(History(after, url, Bytes)) == after[|log| + 3].value
  {
    hide History;
    BatchHistories(log, url, ReportedLatency(o), ReportedSpeed(o), ReportedKb(o), o.Response?, now, url);
    if o.Response? && o.latency > 0 && o.contentLength > 0 { Quotient(o.contentLength, o.latency); }
  }

  /** What the caller gets from the node at `blobUrl`. */
  function Reply(blobUrl: string, o: Outcome): Result {
    if o.Response? then Got(blobUrl, o.contentLength) else Failed(blobUrl)
  }

  /** `clocks` are the clock readings of the selection, `now` that of the record. */
  method Download(mgr: Manager, req: Request, clocks: seq<int>, o: Outcome, now: int, fault: LogRuns.TxFault)
    returns (r: Result)
    requires mgr.Valid() && |clocks| == |mgr.nodes| && |req.digest| >= 19
    modifies mgr.nodes, mgr.db
    ensures mgr.db != null ==>
              match Sel.SelectBest(mgr.List(), req.registry, old(mgr.db.metrics), clocks)
              case None => r == NoNode && mgr.db.metrics == old(mgr.db.metrics)
              case Some(i) =>
                var url := mgr.List()[i].url;
                var blobUrl := Routes.BlobUrl(url, req.name, req.digest);
                && mgr.db.metrics == LogRuns.Apply(old(mgr.db.metrics), Record(url, o, now, fault))
                && r == Reply(blobUrl, o)
                && (fault.NoFault? ==> Reported(old(mgr.db.metrics), mgr.db.metrics, url, o, now))
    ensures r.NoNode? <==>
              forall n | n in mgr.nodes :: !n.info.enabled || (n.info.targets != [] && req.registry !in n.info.targets)
    ensures !r.NoNode? ==> (r.Got? <==> o.Response?) && (r.Got? ==> r.contentLength == o.contentLength)
    ensures mgr.db == null ==>
              match Sel.FirstEligible(mgr.List(), req.registry)
              case None => r == NoNode
              case Some(i) => r == Reply(Routes.BlobUrl(mgr.List()[i].url, req.name, req.digest), o)
  {
    hide Reported, Routes.BlobUrl, History;
    var node := mgr.SelectBest(req.registry, clocks);
    if node == null {
      return NoNode;
    }
    if mgr.db != null { RecordIsReported(mgr.db.metrics, node.info.url, o, now); }
    var blobUrl := Routes.BlobUrl(node.info.url, req.name, req.digest);
    match o {
      case BadRequest =>
        mgr.RecordDownload(node.info.url, 0, 0, 0, false, now, fault);
        return Failed(blobUrl);
      case TransportError(latency) =>
        mgr.RecordDownload(node.info.url, latency, 0, 0, false, now, fault);
        return Failed(blobUrl);
      case BadStatus(latency) =>
        mgr.RecordDownload(node.info.url, latency, 0, 0, false, now, fault);
        return Failed(blobUrl);
      case Response(latency, contentLength) =>
        var speed := 0;
        var kb := DivTowardsZero(contentLength, 1024);
        if latency > 0 && contentLength > 0 {
          speed := contentLength / latency;
        }
        mgr.RecordDownload(node.info.url, latency, speed, kb, true, now, fault);
        return Got(blobUrl, contentLength);
    }
  }

  /**
   A recorded download leaves its node with score 0 exactly when the measured latency was below one
   millisecond, whether it failed or succeeded; failures that took longer leave at least 1500.
   */
  lemma RetiresIffNoLatency(log: Log, url: string, o: Outcome, now: int, later: int)
    ensures var after := LogRuns.Apply(log, Record(url, o, now, LogRuns.NoFault));
            var score := ComputeScore(after, url, later).score;
            && (score == 0 <==> ReportedLatency(o) == 0)
            && (score >= 1500 <==> ReportedLatency(o) > 0)
  {
    var after := LogRuns.Apply(log, Record(url, o, now, LogRuns.NoFault));
    FailingAfterBatch(log, url, ReportedLatency(o), ReportedSpeed(o), ReportedKb(o), o.Response?, now);
    ScoreRange(after, url, later);
  }

  /** A recorded download below one millisecond is an attempt in the sense of the failover runs. */
  lemma ImmediateDownloadIsAttempt(nodes: NodeList.Nodes, registry: string, log: Log, clocks: seq<int>, o: Outcome,
                                   now: int, i: nat)
    requires |clocks| == |nodes| && Sel.SelectBest(nodes, registry, log, clocks) == Some(i)
    requires ReportedLatency(o) == 0
    ensures i < |nodes|
    ensures Sel.Attempt(nodes, registry, log, Sel.Round(clocks, now, ReportedKb(o), o.Response?))
            == (LogRuns.Apply(log, Record(nodes[i].url, o, now, LogRuns.NoFault)), Some(nodes[i].url))
  {
  }

  /** A download on one node leaves the snapshot of every other node as it was. */
  lemma {:induction false} DownloadLeavesOthers(log: Log, url: string, o: Outcome, now: int,
                                                fault: LogRuns.TxFault, other: string, later: int)
    requires other != url
    ensures ComputeScore(LogRuns.Apply(log, Record(url, o, now, fault)), other, later) == ComputeScore(log, other, later)
  {
    if LogRuns.Commits(fault) {
      SnapshotIgnoresOthers(log, Batch(url, ReportedLatency(o), ReportedSpeed(o), ReportedKb(o), o.Response?, now),
                            other, later);
    }
  }
}

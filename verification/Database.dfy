/** The database object: the metric table and the node table, updated in place. */
module Database {
  import opened Common
  import opened MetricLog
  import opened LogRuns
  import NodeList
  import opened NodeTable
  import Scoring

  class DB {
    var metrics: Log
    var nodes: Table

    constructor ()
      ensures metrics == [] && nodes == []
    {
      metrics, nodes := [], [];
    }

    /** Inserts one row with the current time. */
    method InsertMetricEvent(url: string, kind: Kind, value: int, now: int, fails: bool) returns (ok: bool)
      modifies this`metrics
      ensures ok == !fails
      ensures metrics == Apply(old(metrics), Metric(Event(url, kind, value, now), fails))
    {
      if fails {
        return false;
      }
      metrics := metrics + [Event(url, kind, value, now)];
      return true;
    }

    /** Inserts the four rows of a download in one transaction; a failed statement stops the rest. */
    method InsertDownloadEvents(url: string, latency: int, speed: int, kb: int, success: bool, now: int, fault: TxFault)
      returns (ok: bool)
      modifies this`metrics
      ensures ok == Commits(fault)
      ensures metrics == Apply(old(metrics), Download(url, latency, speed, kb, success, now, fault))
    {
      if fault.BeginFails? {
        return false;
      }
      var tx := [];
      var rows := [Event(url, Latency, latency, now), Event(url, Speed, speed, now),
                   Event(url, Success, if success then 1 else 0, now), Event(url, Bytes, kb, now)];
      var failed := false;
      for i := 0 to 4
        invariant failed <==> fault.StatementFails? && fault.k < i
        invariant !failed ==> tx == rows[..i]
      {
        if !failed {
          if fault == StatementFails(i) {
            failed := true;
          } else {
            tx := tx + [rows[i]];
          }
        }
      }
      if failed || fault.CommitFails? {
        return false;
      }
      assert rows[..4] == rows;
      metrics := metrics + tx;
      return true;
    }

    function ComputeScore(url: string, now: int): Scoring.Snapshot
      reads this`metrics
    {
      Scoring.ComputeScore(metrics, url, now)
    }

    /** Upserts all nodes in one transaction; on any failure the table is as before. */
    method SaveNodes(batch: NodeList.Nodes, now: int, beginFails: bool, failAt: Option<nat>, commitFails: bool)
      returns (ok: bool)
      modifies this`nodes
      ensures ok <==> !beginFails && !commitFails && (failAt == None || failAt.value >= |batch|)
      ensures nodes == if ok then SaveAll(old(nodes), batch, now) else old(nodes)
    {
      if beginFails {
        return false;
      }
      var tx := nodes;
      for i := 0 to |batch|
        invariant tx == SaveAll(nodes, batch[..i], now)
        invariant failAt.Some? ==> failAt.value >= i
      {
        if failAt == Some(i) {
          return false;
        }
        assert Init(batch[..i + 1]) == batch[..i] && Last(batch[..i + 1]) == batch[i];
        tx := Upsert(tx, batch[i], now);
      }
      if commitFails {
        return false;
      }
      assert batch[..|batch|] == batch;
      nodes := tx;
      return true;
    }

    /** Reads all rows, decoding targets and tags row by row. */
    method LoadNodes(fails: bool) returns (r: Option<NodeList.Nodes>)
      ensures r == if fails then None else Some(Load(nodes))
    {
      if fails {
        return None;
      }
      var result := [];
      for i := 0 to |nodes|
        invariant result == Load(nodes[..i])
      {
        var n := NodeList.NodeInfo(nodes[i].url, nodes[i].displayName, nodes[i].enabled != 0, nodes[i].targets,
                                   nodes[i].token, []);
        var named := NamedSlots(nodes[i].slots);
        result := result + [n.(tags := named)];
      }
      assert nodes[..|nodes|] == nodes;
      return Some(result);
    }

    static method NamedSlots(slots: seq<NodeList.Tag>) returns (tags: seq<NodeList.Tag>)
      ensures tags == Named(slots)
    {
      tags := [];
      for i := 0 to |slots|
        invariant tags == Named(slots[..i])
      {
        assert Init(slots[..i + 1]) == slots[..i] && Last(slots[..i + 1]) == slots[i];
        if slots[i].name != "" {
          tags := tags + [slots[i]];
        }
      }
      assert slots[..|slots|] == slots;
    }
  }
}

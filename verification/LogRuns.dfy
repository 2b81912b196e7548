/** Runs of inserts into the metric log: batches are all or nothing. */
module LogRuns {
  import opened Common
  import opened MetricLog
  import opened Scoring

  /** Where the transaction of one download fails, if it does; statements are numbered from 0. */
  datatype TxFault = NoFault | BeginFails | StatementFails(k: nat) | CommitFails

  predicate Commits(f: TxFault) {
    f.NoFault? || (f.StatementFails? && f.k >= 4)
  }

  /** `RecordDownload` inserts a batch, `RecordMetric` a single row of the latency or speed test. */
  datatype Insert =
    | Download(url: string, latency: int, speed: int, kb: int, ok: bool, now: int, fault: TxFault)
    | Metric(row: Event, fails: bool)

  function Apply(log: Log, op: Insert): Log {
    match op
    case Download(url, latency, speed, kb, ok, now, fault) =>
      if Commits(fault) then log + Batch(url, latency, speed, kb, ok, now) else log
    case Metric(row, fails) => if fails then log else log + [row]
  }

  function ApplyAll(ops: seq<Insert>): Log {
    if ops == [] then [] else Apply(ApplyAll(Init(ops)), Last(ops))
  }

  /** The single inserts the admin interface makes. */
  predicate FromAdmin(op: Insert) {
    op.Metric? ==> op.row.kind == Latency || op.row.kind == Speed
  }

  function Batches(ops: seq<Insert>, url: string): nat {
    if ops == [] then 0
    else Batches(Init(ops), url)
         + if Last(ops).Download? && Last(ops).url == url && Commits(Last(ops).fault) then 1 else 0
  }

  function Singles(ops: seq<Insert>, url: string, kind: Kind): nat {
    if ops == [] then 0
    else Singles(Init(ops), url, kind)
         + if Last(ops).Metric? && !Last(ops).fails && Last(ops).row.url == url && Last(ops).row.kind == kind then 1 else 0
  }

  lemma OneInsert(log: Log, op: Insert, url: string)
    requires FromAdmin(op)
    ensures var after, n := Apply(log, op), Batches([op], url);
            && |History(after, url, Success)| == |History(log, url, Success)| + n
            && |History(after, url, Bytes)| == |History(log, url, Bytes)| + n
            && |History(after, url, Latency)| == |History(log, url, Latency)| + n + Singles([op], url, Latency)
            && |History(after, url, Speed)| == |History(log, url, Speed)| + n + Singles([op], url, Speed)
  {
    assert Init([op]) == [] && Last([op]) == op;
    match op
    case Download(u, latency, speed, kb, ok, now, _) => BatchHistories(log, u, latency, speed, kb, ok, now, url);
    case Metric(row, _) =>
      HistorySnoc(log, row, url, Success);
      HistorySnoc(log, row, url, Bytes);
      HistorySnoc(log, row, url, Latency);
      HistorySnoc(log, row, url, Speed);
  }

  lemma CountsSnoc(ops: seq<Insert>, url: string, kind: Kind)
    requires ops != []
    ensures Batches(ops, url) == Batches(Init(ops), url) + Batches([Last(ops)], url)
    ensures Singles(ops, url, kind) == Singles(Init(ops), url, kind) + Singles([Last(ops)], url, kind)
  {
    assert Init([Last(ops)]) == [];
  }

  /**
   Whatever inserts fail, each node has as many success and bytes rows as committed downloads, and
   its latency and speed rows exceed that number by exactly its single inserts.
   */
  lemma {:induction false} BatchesAreAtomic(ops: seq<Insert>, url: string)
    requires forall op | op in ops :: FromAdmin(op)
    ensures var log, n := ApplyAll(ops), Batches(ops, url);
            && |History(log, url, Success)| == n
            && |History(log, url, Bytes)| == n
            && |History(log, url, Latency)| == n + Singles(ops, url, Latency)
            && |History(log, url, Speed)| == n + Singles(ops, url, Speed)
  {
    hide Apply;
    if ops != [] {
      assert forall op | op in Init(ops) :: op in ops;
      assert Last(ops) in ops;
      BatchesAreAtomic(Init(ops), url);
      OneInsert(ApplyAll(Init(ops)), Last(ops), url);
      CountsSnoc(ops, url, Latency);
      CountsSnoc(ops, url, Speed);
    }
  }
}

/** The score of a node, computed from the metric log, in exact arithmetic. */
module Scoring {
  import opened MetricLog

  const LATENCY_WINDOW := 86400
  const SPEED_WINDOW := 172800
  const SUCCESS_WINDOW := 604800

  datatype Snapshot = Snapshot(latency: real, speed: real, success: real, bytes: int, score: int)

  function Min(a: real, b: real): real {
    if a <= b then a else b
  }

  /** Values of one node and kind within the window ending at `now`. */
  function Window(log: Log, url: string, kind: Kind, now: int, seconds: int): seq<int> {
    Since(History(log, url, kind), now - seconds)
  }

  function LatencyScore(latency: real): real {
    if latency == 0.0 then 0.5 else 1.0 - Min(latency / 1000.0, 1.0)
  }

  function SpeedScore(speed: real): real {
    Min(speed / 102400.0, 1.0)
  }

  function Weighted(latency: real, speed: real, success: real): real {
    0.35 * LatencyScore(latency) + 0.25 * SpeedScore(speed) + 0.25 * success + 0.15
  }

  /** The latest latency and the latest speed are both absent or zero. */
  predicate Failing(log: Log, url: string) {
    Latest(History(log, url, Latency)) <= 0 && Latest(History(log, url, Speed)) <= 0
  }

  function Values(rows: seq<Event>): seq<int> {
    if rows == [] then [] else Values(rows[..|rows| - 1]) + [rows[|rows| - 1].value]
  }

  function ComputeScore(log: Log, url: string, now: int): Snapshot {
    var latency := PositiveAverage(Window(log, url, Latency, now, LATENCY_WINDOW));
    var speed := PositiveAverage(Window(log, url, Speed, now, SPEED_WINDOW));
    var success := SuccessRate(Window(log, url, Success, now, SUCCESS_WINDOW));
    var bytes := Sum(Values(History(log, url, Bytes)));
    Snapshot(latency, speed, success, bytes,
             if Failing(log, url) then 0 else (Weighted(latency, speed, success) * 10000.0).Floor)
  }

  // ---------- range ----------

  lemma FloorMono(a: real, b: real)
    requires a <= b
    ensures a.Floor <= b.Floor
  {
  }

  lemma ScoreParts(latency: real, speed: real, success: real)
    requires latency == 0.0 || latency >= 1.0
    requires speed >= 0.0 && 0.0 <= success <= 1.0
    ensures 0.15 <= Weighted(latency, speed, success) <= 0.99965
  {
  }

  /** Whatever the log and the clock, a score is 0, exactly for failing nodes, or in 1500 to 9996. */
  lemma {:induction false} ScoreRange(log: Log, url: string, now: int)
    ensures var score := ComputeScore(log, url, now).score;
            && (score == 0 <==> Failing(log, url))
            && (score == 0 || 1500 <= score <= 9996)
  {
    PositiveAverageRange(Window(log, url, Latency, now, LATENCY_WINDOW));
    PositiveAverageRange(Window(log, url, Speed, now, SPEED_WINDOW));
    SuccessRateRange(Window(log, url, Success, now, SUCCESS_WINDOW));
    var s := ComputeScore(log, url, now);
    ScoreParts(s.latency, s.speed, s.success);
  }

  lemma OneRow(e: Event, url: string, kind: Kind, now: int, seconds: int)
    requires e.time > now - seconds
    ensures History([e], url, kind) == if e.url == url && e.kind == kind then [e] else []
    ensures e.url == url && e.kind == kind ==> Window([e], url, kind, now, seconds) == [e.value]
    ensures !(e.url == url && e.kind == kind) ==> Window([e], url, kind, now, seconds) == []
  {
    HistorySnoc([], e, url, kind);
    SinceSnoc([], e, now - seconds);
    assert [] + [e] == [e];
  }

  lemma OnePositive(v: int)
    requires v > 0
    ensures PositiveAverage([v]) == v as real
  {
    PositiveSnoc([], v);
    SumSnoc([], v);
    assert [] + [v] == [v];
  }

  /** The lowest nonzero score: a slow node that was never downloaded from. */
  lemma LowestScoreReached(url: string, now: int)
    ensures ComputeScore([Event(url, Latency, 1000, now)], url, now).score == 1500
  {
    var e := Event(url, Latency, 1000, now);
    OneRow(e, url, Latency, now, LATENCY_WINDOW);
    OneRow(e, url, Speed, now, SPEED_WINDOW);
    OneRow(e, url, Success, now, SUCCESS_WINDOW);
    OnePositive(1000);
    assert ComputeScore([e], url, now).latency == 1000.0;
    assert Weighted(1000.0, 0.0, 0.0) * 10000.0 == 1500.0;
  }

  // ---------- one download ----------

  /** The rows of one download. */
  function Batch(url: string, latency: int, speed: int, kb: int, ok: bool, now: int): Log {
    [Event(url, Latency, latency, now), Event(url, Speed, speed, now),
     Event(url, Success, if ok then 1 else 0, now), Event(url, Bytes, kb, now)]
  }

  /** Each kind gains exactly one row of the downloading node, and no other node gains any. */
  lemma BatchHistories(log: Log, url: string, latency: int, speed: int, kb: int, ok: bool, now: int, other: string)
    ensures var after, b := log + Batch(url, latency, speed, kb, ok, now), Batch(url, latency, speed, kb, ok, now);
            && History(after, url, Latency) == History(log, url, Latency) + [b[0]]
            && History(after, url, Speed) == History(log, url, Speed) + [b[1]]
            && History(after, url, Success) == History(log, url, Success) + [b[2]]
            && History(after, url, Bytes) == History(log, url, Bytes) + [b[3]]
            && (forall l :: History(after, url, Other(l)) == History(log, url, Other(l)))
            && (other != url ==> forall k :: History(after, other, k) == History(log, other, k))
  {
    var b := Batch(url, latency, speed, kb, ok, now);
    var l1, l2, l3 := log + [b[0]], log + [b[0]] + [b[1]], log + [b[0]] + [b[1]] + [b[2]];
    assert log + b == l3 + [b[3]];
    forall k, u
      ensures History(log + b, u, k) == (if u == url then
                History(log, u, k) + (if k == Latency then [b[0]] else if k == Speed then [b[1]]
                                      else if k == Success then [b[2]] else if k == Bytes then [b[3]] else [])
              else History(log, u, k))
    {
      HistorySnoc(log, b[0], u, k);
      HistorySnoc(l1, b[1], u, k);
      HistorySnoc(l2, b[2], u, k);
      HistorySnoc(l3, b[3], u, k);
    }
  }

  /** What the snapshot sees of a download recorded at the moment of scoring. */
  lemma BatchWindows(log: Log, url: string, latency: int, speed: int, kb: int, ok: bool, now: int)
    ensures var after := log + Batch(url, latency, speed, kb, ok, now);
            && Window(after, url, Latency, now, LATENCY_WINDOW) == Window(log, url, Latency, now, LATENCY_WINDOW) + [latency]
            && Window(after, url, Speed, now, SPEED_WINDOW) == Window(log, url, Speed, now, SPEED_WINDOW) + [speed]
            && Window(after, url, Success, now, SUCCESS_WINDOW)
               == Window(log, url, Success, now, SUCCESS_WINDOW) + [if ok then 1 else 0]
            && (Failing(after, url) <==> latency <= 0 && speed <= 0)
  {
    var b := Batch(url, latency, speed, kb, ok, now);
    BatchHistories(log, url, latency, speed, kb, ok, now, url);
    SinceSnoc(History(log, url, Latency), b[0], now - LATENCY_WINDOW);
    SinceSnoc(History(log, url, Speed), b[1], now - SPEED_WINDOW);
    SinceSnoc(History(log, url, Success), b[2], now - SUCCESS_WINDOW);
  }

  lemma {:induction false} ValuesSnoc(rows: seq<Event>, e: Event)
    ensures Values(rows + [e]) == Values(rows) + [e.value]
  {
    Snoc(rows, e);
  }

  /** A download adds its bytes to the node's total, whatever the clock. */
  lemma BytesAccumulate(log: Log, url: string, latency: int, speed: int, kb: int, ok: bool, now: int, later: int)
    ensures ComputeScore(log + Batch(url, latency, speed, kb, ok, now), url, later).bytes
            == ComputeScore(log, url, later).bytes + kb
  {
    BatchHistories(log, url, latency, speed, kb, ok, now, url);
    ValuesSnoc(History(log, url, Bytes), Batch(url, latency, speed, kb, ok, now)[3]);
    SumSnoc(Values(History(log, url, Bytes)), kb);
  }

  lemma WeightedMono(l: real, s: real, r: real, l': real, s': real, r': real)
    requires 0.0 < l <= l' && 0.0 <= s' <= s && r' <= r
    ensures Weighted(l', s', r') <= Weighted(l, s, r)
  {
    assert l / 1000.0 <= l' / 1000.0;
    assert s' / 102400.0 <= s / 102400.0;
  }

  /** A failed download no faster than the average never raises the score of a working node. */
  lemma {:induction false} FailureNeverRaises(log: Log, url: string, latency: int, kb: int, now: int)
    requires !Failing(log, url)
    requires latency as real >= ComputeScore(log, url, now).latency > 0.0
    ensures ComputeScore(log + Batch(url, latency, 0, kb, false, now), url, now).score
            <= ComputeScore(log, url, now).score
  {
    var after := log + Batch(url, latency, 0, kb, false, now);
    var s, t := ComputeScore(log, url, now), ComputeScore(after, url, now);
    BatchWindows(log, url, latency, 0, kb, false, now);
    PositiveAverageSnoc(Window(log, url, Latency, now, LATENCY_WINDOW), latency);
    PositiveAverageSnoc(Window(log, url, Speed, now, SPEED_WINDOW), 0);
    PositiveAverageRange(Window(log, url, Speed, now, SPEED_WINDOW));
    SuccessRateSnoc(Window(log, url, Success, now, SUCCESS_WINDOW), 0);
    WeightedMono(s.latency, s.speed, s.success, t.latency, t.speed, t.success);
    FloorMono(Weighted(t.latency, t.speed, t.success) * 10000.0, Weighted(s.latency, s.speed, s.success) * 10000.0);
  }

  /** A successful download at least as fast as the averages never lowers the score. */
  lemma SuccessNeverLowers(log: Log, url: string, latency: int, speed: int, kb: int, now: int)
    requires 0.0 < latency as real <= ComputeScore(log, url, now).latency
    requires speed as real >= ComputeScore(log, url, now).speed
    ensures ComputeScore(log, url, now).score
            <= ComputeScore(log + Batch(url, latency, speed, kb, true, now), url, now).score
  {
    var after := log + Batch(url, latency, speed, kb, true, now);
    var s, t := ComputeScore(log, url, now), ComputeScore(after, url, now);
    BatchWindows(log, url, latency, speed, kb, true, now);
    PositiveAverageSnoc(Window(log, url, Latency, now, LATENCY_WINDOW), latency);
    PositiveAverageRange(Window(after, url, Latency, now, LATENCY_WINDOW));
    PositiveAverageSnoc(Window(log, url, Speed, now, SPEED_WINDOW), speed);
    PositiveAverageRange(Window(log, url, Speed, now, SPEED_WINDOW));
    SuccessRateSnoc(Window(log, url, Success, now, SUCCESS_WINDOW), 1);
    WeightedMono(t.latency, t.speed, t.success, s.latency, s.speed, s.success);
    FloorMono(Weighted(s.latency, s.speed, s.success) * 10000.0, Weighted(t.latency, t.speed, t.success) * 10000.0);
    ScoreRange(log, url, now);
    ScoreRange(after, url, now);
  }

  /** After any download, the node counts as failing exactly when it reported neither value. */
  lemma FailingAfterBatch(log: Log, url: string, latency: int, speed: int, kb: int, ok: bool, now: int)
    ensures Failing(log + Batch(url, latency, speed, kb, ok, now), url) <==> latency <= 0 && speed <= 0
  {
    BatchWindows(log, url, latency, speed, kb, ok, now);
  }

  lemma EmptyWindows(url: string, now: int)
    ensures forall kind, seconds :: Window([], url, kind, now, seconds) == []
  {
  }

  lemma OneSuccess()
    ensures SuccessRate([1]) == 1.0
  {
    SumSnoc([], 1);
    assert [] + [1] == [1];
  }

  /** The highest score: one fast, successful download. */
  lemma HighestScoreReached(url: string, now: int)
    ensures ComputeScore(Batch(url, 1, 102400, 0, true, now), url, now).score == 9996
  {
    hide Window, Failing, Batch, History, Sum, Values;
    assert [] + Batch(url, 1, 102400, 0, true, now) == Batch(url, 1, 102400, 0, true, now);
    BatchWindows([], url, 1, 102400, 0, true, now);
    EmptyWindows(url, now);
    OnePositive(1);
    OnePositive(102400);
    OneSuccess();
    assert [] + [1] == [1] && [] + [102400] == [102400];
    assert Weighted(1.0, 102400.0, 1.0) * 10000.0 == 9996.5;
  }

  // ---------- windows and other nodes ----------

  /** Appending rows of other nodes changes nothing in a node's snapshot. */
  lemma SnapshotIgnoresOthers(log: Log, more: Log, url: string, now: int)
    requires forall e | e in more :: e.url != url
    ensures ComputeScore(log + more, url, now) == ComputeScore(log, url, now)
  {
    HistoryIgnoresOthers(log, more, url, Latency);
    HistoryIgnoresOthers(log, more, url, Speed);
    HistoryIgnoresOthers(log, more, url, Success);
    HistoryIgnoresOthers(log, more, url, Bytes);
  }

  lemma WindowEmpty(log: Log, url: string, kind: Kind, now: int, seconds: int)
    requires forall e | e in log && e.url == url :: e.time <= now - seconds
    ensures Window(log, url, kind, now, seconds) == []
  {
    HistoryFromLog(log, url, kind);
    AllOlder(History(log, url, kind), now - seconds);
  }

  /** Once all rows of a node are seven days old, its score stays the same for ever. */
  lemma ColdScore(log: Log, url: string, now: int)
    requires forall e | e in log && e.url == url :: e.time <= now - SUCCESS_WINDOW
    ensures forall later | later >= now ::
              ComputeScore(log, url, later).score == if Failing(log, url) then 0 else 3250
  {
    forall later | later >= now
      ensures ComputeScore(log, url, later).score == if Failing(log, url) then 0 else 3250
    {
      WindowEmpty(log, url, Latency, later, LATENCY_WINDOW);
      WindowEmpty(log, url, Speed, later, SPEED_WINDOW);
      WindowEmpty(log, url, Success, later, SUCCESS_WINDOW);
      assert Weighted(0.0, 0.0, 0.0) * 10000.0 == 3250.0;
    }
  }

  /** Whether the row counts for the node's average or rate when it is scored at `now`. */
  predicate InWindow(e: Event, url: string, now: int) {
    && e.url == url
    && match e.kind
       case Latency => now - e.time < 86400
       case Speed => now - e.time < 172800
       case Success => now - e.time < 604800
       case _ => false
  }

  function WindowOf(kind: Kind): int {
    if kind == Latency then LATENCY_WINDOW else if kind == Speed then SPEED_WINDOW else SUCCESS_WINDOW
  }

  lemma WindowConcat(log: Log, more: Log, url: string, kind: Kind, now: int, seconds: int)
    ensures Window(log + more, url, kind, now, seconds)
            == Window(log, url, kind, now, seconds) + Window(more, url, kind, now, seconds)
  {
    HistoryConcat(log, more, url, kind);
    SinceConcat(History(log, url, kind), History(more, url, kind), now - seconds);
  }

  /**
   Wherever a row stands in a log, it enters its node's average or rate exactly when it is younger
   than 24 hours (latency), 48 hours (speed) or seven days (success).
   */
  lemma {:induction false} WindowEdges(before: Log, e: Event, later: Log, url: string, kind: Kind, now: int)
    requires kind in {Latency, Speed, Success}
    ensures var pre, post := Window(before, url, kind, now, WindowOf(kind)), Window(later, url, kind, now, WindowOf(kind));
            Window(before + [e] + later, url, kind, now, WindowOf(kind))
            == pre + (if e.kind == kind && InWindow(e, url, now) then [e.value] else []) + post
  {
    hide Window;
    WindowConcat(before + [e], later, url, kind, now, WindowOf(kind));
    WindowSnoc(before, e, url, kind, now, WindowOf(kind));
  }

  lemma WindowSnoc(log: Log, e: Event, url: string, kind: Kind, now: int, seconds: int)
    ensures Window(log + [e], url, kind, now, seconds)
            == Window(log, url, kind, now, seconds)
               + if e.url == url && e.kind == kind && now - e.time < seconds then [e.value] else []
  {
    hide History, Since;
    HistorySnoc(log, e, url, kind);
    SinceSnoc(History(log, url, kind), e, now - seconds);
  }

  /** A failure reported with a positive latency gives a node with score 0 at least 1500 again. */
  lemma FailureRevives(log: Log, url: string, latency: int, kb: int, now: int)
    requires Failing(log, url)
    ensures ComputeScore(log, url, now).score == 0
    ensures ComputeScore(log + Batch(url, latency, 0, kb, false, now), url, now).score >= 1500 <==> latency > 0
  {
    FailingAfterBatch(log, url, latency, 0, kb, false, now);
    ScoreRange(log + Batch(url, latency, 0, kb, false, now), url, now);
  }

  // ---------- failures that report a latency ----------

  /** The score of a node with average latency `ms`, no speed and no success. */
  function LatencyOnly(ms: int): int {
    (Weighted(ms as real, 0.0, 0.0) * 10000.0).Floor
  }

  /** Up to a second, every millisecond costs three and a half points. */
  lemma LatencyOnlyValue(ms: int)
    requires 0 < ms <= 1000
    ensures LatencyOnly(ms) == (5000.0 - 3.5 * ms as real).Floor
  {
    assert Weighted(ms as real, 0.0, 0.0) * 10000.0 == 5000.0 - 3.5 * ms as real;
  }

  /** The node's latest latency was recorded at `time`, and none of its latencies exceeds `ms`. */
  ghost predicate Quick(log: Log, url: string, ms: int, time: int) {
    var rows := History(log, url, Latency);
    && rows != [] && rows[|rows| - 1].time == time
    && (forall e | e in rows :: 0 < e.value <= ms)
  }

  lemma QuickWindow(log: Log, url: string, ms: int, time: int, now: int)
    requires Quick(log, url, ms, time) && now - time < LATENCY_WINDOW
    ensures !Failing(log, url)
    ensures 0.0 < ComputeScore(log, url, now).latency <= ms as real
  {
    var rows, values := History(log, url, Latency), Window(log, url, Latency, now, LATENCY_WINDOW);
    var last := rows[|rows| - 1];
    assert last in rows;
    SinceValues(rows, now - LATENCY_WINDOW);
    assert values[|values| - 1] == last.value;
    PositiveAverageRange(values);
    AverageBetween(values, 1, ms);
  }

  /**
   As long as its latest latency is less than a day old, a node with no latency above `ms` scores at
   least what `ms` alone gives, however often and whenever it failed.
   */
  lemma {:induction false} QuickScoresHigh(log: Log, url: string, ms: int, time: int, now: int)
    requires Quick(log, url, ms, time) && now - time < LATENCY_WINDOW
    ensures ComputeScore(log, url, now).score >= LatencyOnly(ms)
  {
    var s := ComputeScore(log, url, now);
    QuickWindow(log, url, ms, time, now);
    PositiveAverageRange(Window(log, url, Speed, now, SPEED_WINDOW));
    SuccessRateRange(Window(log, url, Success, now, SUCCESS_WINDOW));
    WeightedMono(s.latency, s.speed, s.success, ms as real, 0.0, 0.0);
    FloorMono(Weighted(ms as real, 0.0, 0.0) * 10000.0, Weighted(s.latency, s.speed, s.success) * 10000.0);
  }

  /** A node that has only failed, always after `ms`, scores exactly that. */
  lemma {:induction false} ScoreOfFailures(log: Log, url: string, ms: int, time: int, now: int)
    requires Quick(log, url, ms, time) && now - time < LATENCY_WINDOW
    requires forall e | e in History(log, url, Latency) :: e.value == ms
    requires forall e | e in History(log, url, Speed) :: e.value <= 0
    requires forall e | e in History(log, url, Success) :: e.value != 1
    ensures ComputeScore(log, url, now).score == LatencyOnly(ms)
  {
    QuickWindow(log, url, ms, time, now);
    SinceValues(History(log, url, Latency), now - LATENCY_WINDOW);
    SinceValues(History(log, url, Speed), now - SPEED_WINDOW);
    SinceValues(History(log, url, Success), now - SUCCESS_WINDOW);
    AverageBetween(Window(log, url, Latency, now, LATENCY_WINDOW), ms, ms);
    NonePositive(Window(log, url, Speed, now, SPEED_WINDOW));
    NoSuccess(Window(log, url, Success, now, SUCCESS_WINDOW));
    PositiveAverageRange(Window(log, url, Latency, now, LATENCY_WINDOW));
  }

  // ---------- the snapshot in terms of the rows of the log ----------

  /** The latency figure is the average of the node's positive values younger than 24 hours. */
  lemma {:induction false} LatencyIsAverage(log: Log, url: string, now: int)
    ensures var rows := set i: nat | i < |log| && log[i].url == url && log[i].kind == Latency
                                   && log[i].value > 0 && now - log[i].time < 86400;
            var figure := ComputeScore(log, url, now).latency;
            figure * |rows| as real == SumAt(log, rows) as real && (rows == {} ==> figure == 0.0)
  {
    hide Failing, Weighted, History, Since, SumAt, Sum, Values;
    PositiveFigure(log, url, Latency, now, 86400);
    assert (set i: nat | i < |log| && log[i].url == url && log[i].kind == Latency
                         && log[i].value > 0 && now - log[i].time < 86400)
           == Above(log, Young(log, url, Latency, now, 86400));
  }

  /** The speed figure is the average of the node's positive values younger than 48 hours. */
  lemma {:induction false} SpeedIsAverage(log: Log, url: string, now: int)
    ensures var rows := set i: nat | i < |log| && log[i].url == url && log[i].kind == Speed
                                   && log[i].value > 0 && now - log[i].time < 172800;
            var figure := ComputeScore(log, url, now).speed;
            figure * |rows| as real == SumAt(log, rows) as real && (rows == {} ==> figure == 0.0)
  {
    hide Failing, Weighted, History, Since, SumAt, Sum, Values;
    PositiveFigure(log, url, Speed, now, 172800);
    assert (set i: nat | i < |log| && log[i].url == url && log[i].kind == Speed
                         && log[i].value > 0 && now - log[i].time < 172800)
           == Above(log, Young(log, url, Speed, now, 172800));
  }

  /** The success figure is the share of ones among the node's rows younger than seven days. */
  lemma {:induction false} SuccessIsShare(log: Log, url: string, now: int)
    ensures var rows := set i: nat | i < |log| && log[i].url == url && log[i].kind == Success
                                   && now - log[i].time < 604800;
            var ones := set i | i in rows && log[i].value == 1;
            var figure := ComputeScore(log, url, now).success;
            figure * |rows| as real == |ones| as real && (rows == {} ==> figure == 0.0)
  {
    hide Failing, Weighted, History, Since, SumAt, Sum, Values;
    RateFigure(log, url, now);
    var rows := set i: nat | i < |log| && log[i].url == url && log[i].kind == Success && now - log[i].time < 604800;
    assert rows == Young(log, url, Success, now, 604800);
    assert (set i | i in rows && log[i].value == 1) == OnesAt(log, rows);
  }

  /** The bytes figure is the total of all of the node's rows, whatever their age. */
  lemma {:induction false} BytesAreTotal(log: Log, url: string, now: int)
    ensures ComputeScore(log, url, now).bytes
            == SumAt(log, set i: nat | i < |log| && log[i].url == url && log[i].kind == Bytes)
  {
    hide Failing, Weighted, History, Since, SumAt, Sum, Values;
    BytesFigure(log, url);
    assert (set i: nat | i < |log| && log[i].url == url && log[i].kind == Bytes) == Rows(log, url, Bytes);
  }

  function Rows(log: Log, url: string, kind: Kind): set<nat> {
    set i: nat | i < |log| && log[i].url == url && log[i].kind == kind
  }

  lemma PositiveFigure(log: Log, url: string, kind: Kind, now: int, seconds: int)
    ensures var average, rows := PositiveAverage(Window(log, url, kind, now, seconds)),
                                 Above(log, Young(log, url, kind, now, seconds));
            average * |rows| as real == SumAt(log, rows) as real && (rows == {} ==> average == 0.0)
  {
    hide Positive, Sum, SumAt, Above, Young, Since, History;
    WindowIsRows(log, url, kind, now, seconds);
    var p := Positive(Window(log, url, kind, now, seconds));
    if p != [] { QuotientTimes(Sum(p) as real, |p| as real); }
    else { NothingToSum(log); }
  }

  lemma RateFigure(log: Log, url: string, now: int)
    ensures var rate, rows := SuccessRate(Window(log, url, Success, now, 604800)), Young(log, url, Success, now, 604800);
            rate * |rows| as real == |OnesAt(log, rows)| as real && (rows == {} ==> rate == 0.0)
  {
    hide Ones, OnesAt, Young, Since, History;
    WindowIsRows(log, url, Success, now, 604800);
    var values := Window(log, url, Success, now, 604800);
    if values != [] { QuotientTimes(Ones(values) as real, |values| as real); }
    else { NoOnes(values); }
  }

  lemma QuotientTimes(a: real, b: real)
    requires b != 0.0
    ensures a / b * b == a
  {
  }

  lemma {:induction false} NothingToSum(log: Log)
    ensures SumAt(log, {}) == 0
  {
    if log != [] { NothingToSum(log[..|log| - 1]); }
  }

  lemma RowsSnoc(log: Log, e: Event, url: string, kind: Kind)
    ensures Rows(log + [e], url, kind)
            == Rows(log, url, kind) + if e.url == url && e.kind == kind then {|log|} else {}
    ensures forall i | i in Rows(log, url, kind) :: i < |log|
  {
  }

  lemma {:induction false} BytesFigure(log: Log, url: string)
    ensures Sum(Values(History(log, url, Bytes))) == SumAt(log, Rows(log, url, Bytes))
  {
    if log == [] {
      assert Rows(log, url, Bytes) == {};
    } else {
      var init, e := log[..|log| - 1], log[|log| - 1];
      BytesFigure(init, url);
      BytesFigureSnoc(init, e, url);
      assert init + [e] == log;
    }
  }

  lemma BytesFigureSnoc(log: Log, e: Event, url: string)
    requires Sum(Values(History(log, url, Bytes))) == SumAt(log, Rows(log, url, Bytes))
    ensures Sum(Values(History(log + [e], url, Bytes))) == SumAt(log + [e], Rows(log + [e], url, Bytes))
  {
    hide Sum, Values, History, Rows, SumAt;
    HistorySnoc(log, e, url, Bytes);
    ValuesSnoc(History(log, url, Bytes), e);
    SumSnoc(Values(History(log, url, Bytes)), e.value);
    RowsSnoc(log, e, url, Bytes);
    PositionsSnoc(log, e, Rows(log, url, Bytes), Rows(log + [e], url, Bytes));
  }

  /** The last row of its node and kind. */
  predicate IsLatest(log: Log, i: nat) {
    i < |log| && forall j | i < j < |log| :: log[j].url != log[i].url || log[j].kind != log[i].kind
  }

  lemma {:induction false} LatestRow(log: Log, url: string, kind: Kind)
    ensures Latest(History(log, url, kind)) <= 0
            <==> forall i: nat | IsLatest(log, i) && log[i].url == url && log[i].kind == kind :: log[i].value <= 0
  {
    if log != [] {
      hide History;
      var init, e := log[..|log| - 1], log[|log| - 1];
      assert init + [e] == log;
      LatestRow(init, url, kind);
      HistorySnoc(init, e, url, kind);
      assert IsLatest(log, |log| - 1);
      if !(e.url == url && e.kind == kind) {
        assert forall i: nat | i < |log| && log[i].url == url && log[i].kind == kind ::
            IsLatest(log, i) <==> IsLatest(init, i);
      }
    }
  }

  /** A score is zero exactly when neither the last latency nor the last speed of the node is positive. */
  lemma {:induction false} ZeroScore(log: Log, url: string, now: int)
    ensures ComputeScore(log, url, now).score == 0
            <==> forall i: nat | IsLatest(log, i) && log[i].url == url && (log[i].kind == Latency || log[i].kind == Speed) ::
                   log[i].value <= 0
  {
    hide IsLatest, ComputeScore, History;
    ScoreRange(log, url, now);
    LatestRow(log, url, Latency);
    LatestRow(log, url, Speed);
  }

  /** The latency that counts: no measurement is as good as half a second, and no latency worse than one. */
  function CountedLatency(latency: real): real {
    if latency == 0.0 then 500.0 else if latency > 1000.0 then 1000.0 else latency
  }

  function CountedSpeed(speed: real): real {
    if speed > 102400.0 then 102400.0 else speed
  }

  /**
   Between any two snapshots with a score: each millisecond costs three and a half points, each 1024
   of speed and each hundredth of the success rate bring 25, up to rounding.
   */
  lemma {:induction false} ScoreDifference(a: Log, aUrl: string, aNow: int, b: Log, bUrl: string, bNow: int)
    requires !Failing(a, aUrl) && !Failing(b, bUrl)
    ensures var s, t := ComputeScore(a, aUrl, aNow), ComputeScore(b, bUrl, bNow);
            var gain := 3.5 * (CountedLatency(s.latency) - CountedLatency(t.latency))
                        + 25.0 * (CountedSpeed(t.speed) - CountedSpeed(s.speed)) / 1024.0
                        + 25.0 * (t.success - s.success) / 0.01;
            gain - 1.0 < (t.score - s.score) as real < gain + 1.0
  {
    hide Failing, Window, PositiveAverage, SuccessRate, Sum, Values, History;
    var s, t := ComputeScore(a, aUrl, aNow), ComputeScore(b, bUrl, bNow);
    PointsOf(s.latency, s.speed, s.success);
    PointsOf(t.latency, t.speed, t.success);
    PositiveAverageRange(Window(a, aUrl, Latency, aNow, LATENCY_WINDOW));
    PositiveAverageRange(Window(b, bUrl, Latency, bNow, LATENCY_WINDOW));
  }

  lemma PointsOf(latency: real, speed: real, success: real)
    ensures Weighted(latency, speed, success) * 10000.0
            == 5000.0 - 3.5 * CountedLatency(latency) + 2500.0 * (CountedSpeed(speed) / 102400.0) + 2500.0 * success
  {
    assert latency != 0.0 ==> 0.35 * (1.0 - Min(latency / 1000.0, 1.0)) * 10000.0 == 3500.0 - 3.5 * CountedLatency(latency);
  }
}

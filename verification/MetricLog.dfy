/** The append-only table of metric events, and the reads that scoring performs on it. */
module MetricLog {

  datatype Kind = Latency | Speed | Success | Bytes | Other(name: string)
  datatype Event = Event(url: string, kind: Kind, value: int, time: int)

  /** The rows in insertion order; the row id is the position. */
  type Log = seq<Event>

  /** The rows of one node and one kind. */
  function History(log: Log, url: string, kind: Kind): seq<Event> {
    if log == [] then []
    else
      var older, e := History(log[..|log| - 1], url, kind), log[|log| - 1];
      if e.url == url && e.kind == kind then older + [e] else older
  }

  /** The values recorded after `cutoff`. */
  function Since(rows: seq<Event>, cutoff: int): seq<int> {
    if rows == [] then []
    else
      var older, e := Since(rows[..|rows| - 1], cutoff), rows[|rows| - 1];
      if e.time > cutoff then older + [e.value] else older
  }

  function Positive(values: seq<int>): seq<int> {
    if values == [] then []
    else
      var v := values[|values| - 1];
      if v > 0 then Positive(values[..|values| - 1]) + [v] else Positive(values[..|values| - 1])
  }

  function Sum(values: seq<int>): int {
    if values == [] then 0 else Sum(values[..|values| - 1]) + values[|values| - 1]
  }

  function Ones(values: seq<int>): nat {
    if values == [] then 0
    else Ones(values[..|values| - 1]) + if values[|values| - 1] == 1 then 1 else 0
  }

  /** The average of the positive values, or 0 when there is none. */
  function PositiveAverage(values: seq<int>): real {
    var p := Positive(values);
    if p == [] then 0.0 else Sum(p) as real / |p| as real
  }

  function SuccessRate(values: seq<int>): real {
    if values == [] then 0.0 else Ones(values) as real / |values| as real
  }

  /** The value of the latest row, or 0 when there is none. */
  function Latest(rows: seq<Event>): int {
    if rows == [] then 0 else rows[|rows| - 1].value
  }

  // ---------- one more event ----------

  lemma Snoc<T>(s: seq<T>, x: T)
    ensures (s + [x])[..|s + [x]| - 1] == s
  {
  }

  lemma HistorySnoc(log: Log, e: Event, url: string, kind: Kind)
    ensures History(log + [e], url, kind)
            == if e.url == url && e.kind == kind then History(log, url, kind) + [e] else History(log, url, kind)
  {
    Snoc(log, e);
  }

  lemma SinceSnoc(rows: seq<Event>, e: Event, cutoff: int)
    ensures Since(rows + [e], cutoff) == if e.time > cutoff then Since(rows, cutoff) + [e.value] else Since(rows, cutoff)
  {
    Snoc(rows, e);
  }

  lemma PositiveSnoc(values: seq<int>, v: int)
    ensures Positive(values + [v]) == if v > 0 then Positive(values) + [v] else Positive(values)
  {
    Snoc(values, v);
  }

  lemma SumSnoc(values: seq<int>, v: int)
    ensures Sum(values + [v]) == Sum(values) + v
    ensures Ones(values + [v]) == Ones(values) + if v == 1 then 1 else 0
  {
    Snoc(values, v);
  }

  /** Every positive integer is at least one, so their sum is at least their number. */
  lemma {:induction false} PositiveSum(values: seq<int>)
    ensures Sum(Positive(values)) >= |Positive(values)|
  {
    if values != [] {
      var older, v := values[..|values| - 1], values[|values| - 1];
      PositiveSum(older);
      if v > 0 { SumSnoc(Positive(older), v); }
    }
  }

  lemma {:induction false} OnesBound(values: seq<int>)
    ensures Ones(values) <= |values|
  {
    if values != [] {
      OnesBound(values[..|values| - 1]);
    }
  }

  /** Old rows only: nothing is within the window. */
  lemma {:induction false} AllOlder(rows: seq<Event>, cutoff: int)
    requires forall e | e in rows :: e.time <= cutoff
    ensures Since(rows, cutoff) == []
  {
    if rows != [] {
      AllOlder(rows[..|rows| - 1], cutoff);
    }
  }

  lemma {:induction false} HistoryFromLog(log: Log, url: string, kind: Kind)
    ensures forall e | e in History(log, url, kind) :: e in log && e.url == url && e.kind == kind
  {
    if log != [] {
      HistoryFromLog(log[..|log| - 1], url, kind);
    }
  }

  /** Rows of other nodes are invisible. */
  lemma {:induction false} HistoryIgnoresOthers(log: Log, more: Log, url: string, kind: Kind)
    requires forall e | e in more :: e.url != url
    ensures History(log + more, url, kind) == History(log, url, kind)
  {
    if more == [] {
      assert log + more == log;
    } else {
      var init, e := more[..|more| - 1], more[|more| - 1];
      HistoryIgnoresOthers(log, init, url, kind);
      assert log + more == (log + init) + [e];
      HistorySnoc(log + init, e, url, kind);
    }
  }

  lemma {:induction false} HistoryConcat(log: Log, more: Log, url: string, kind: Kind)
    ensures History(log + more, url, kind) == History(log, url, kind) + History(more, url, kind)
  {
    if more == [] {
      assert log + more == log;
    } else {
      var init, e := more[..|more| - 1], more[|more| - 1];
      HistoryConcat(log, init, url, kind);
      assert log + more == (log + init) + [e];
      HistorySnoc(log + init, e, url, kind);
    }
  }

  lemma {:induction false} SinceConcat(rows: seq<Event>, more: seq<Event>, cutoff: int)
    ensures Since(rows + more, cutoff) == Since(rows, cutoff) + Since(more, cutoff)
  {
    if more == [] {
      assert rows + more == rows;
    } else {
      var init, e := more[..|more| - 1], more[|more| - 1];
      SinceConcat(rows, init, cutoff);
      assert rows + more == (rows + init) + [e];
      SinceSnoc(rows + init, e, cutoff);
    }
  }

  // ---------- averages ----------

  lemma MulMono(a: real, b: real, c: real)
    requires c > 0.0
    ensures a <= b <==> a * c <= b * c
  {
    if a <= b {
      assert 0.0 <= (b - a) * c;
    } else {
      assert 0.0 < (a - b) * c;
    }
  }

  lemma QuotientBound(a: real, b: real, c: real)
    requires b > 0.0
    ensures a / b <= c <==> a <= c * b
    ensures a / b >= c <==> a >= c * b
  {
    assert (a / b) * b == a;
    MulMono(a / b, c, b);
    MulMono(c, a / b, b);
  }

  /** An average moves towards the value added. */
  lemma AverageSnoc(sum: real, n: real, v: real)
    requires n > 0.0
    ensures v >= sum / n <==> (sum + v) / (n + 1.0) >= sum / n
    ensures v <= sum / n <==> (sum + v) / (n + 1.0) <= sum / n
  {
    var avg := sum / n;
    assert avg * n == sum;
    QuotientBound(sum + v, n + 1.0, avg);
    assert avg * (n + 1.0) == sum + avg;
  }

  lemma PositiveAverageSnoc(values: seq<int>, v: int)
    ensures var before, after := PositiveAverage(values), PositiveAverage(values + [v]);
            && (v <= 0 ==> after == before)
            && (v > 0 && before == 0.0 ==> after == v as real)
            && (v > 0 && before > 0.0 ==> (v as real >= before <==> after >= before)
                                          && (v as real <= before <==> after <= before))
  {
    PositiveSnoc(values, v);
    PositiveAverageRange(values);
    if v > 0 {
      var p := Positive(values);
      SumSnoc(p, v);
      if p != [] {
        AverageSnoc(Sum(p) as real, |p| as real, v as real);
      }
    }
  }

  /** An average of positive integers is at least one. */
  lemma PositiveAverageRange(values: seq<int>)
    ensures PositiveAverage(values) == 0.0 <==> Positive(values) == []
    ensures PositiveAverage(values) == 0.0 || PositiveAverage(values) >= 1.0
  {
    PositiveSum(values);
    var p := Positive(values);
    if p != [] {
      QuotientBound(Sum(p) as real, |p| as real, 1.0);
    }
  }

  lemma SuccessRateRange(values: seq<int>)
    ensures 0.0 <= SuccessRate(values) <= 1.0
  {
    OnesBound(values);
    if values != [] {
      QuotientBound(Ones(values) as real, |values| as real, 0.0);
      QuotientBound(Ones(values) as real, |values| as real, 1.0);
    }
  }

  /** A success never lowers the rate and a failure never raises it. */
  lemma SuccessRateSnoc(values: seq<int>, v: int)
    ensures v == 1 ==> SuccessRate(values + [v]) >= SuccessRate(values)
    ensures v != 1 ==> SuccessRate(values + [v]) <= SuccessRate(values)
  {
    SumSnoc(values, v);
    SuccessRateRange(values);
    SuccessRateRange(values + [v]);
    if values != [] {
      AverageSnoc(Ones(values) as real, |values| as real, if v == 1 then 1.0 else 0.0);
    }
  }

  // ---------- bounds on averages ----------

  ghost predicate Recorded(rows: seq<Event>, v: int) {
    exists e :: e in rows && e.value == v
  }

  lemma {:induction false} SinceValues(rows: seq<Event>, cutoff: int)
    ensures forall i | 0 <= i < |Since(rows, cutoff)| :: Recorded(rows, Since(rows, cutoff)[i])
  {
    if rows != [] {
      var older, last := rows[..|rows| - 1], rows[|rows| - 1];
      SinceValues(older, cutoff);
      assert last in rows;
      forall i | 0 <= i < |Since(rows, cutoff)|
        ensures Recorded(rows, Since(rows, cutoff)[i])
      {
        if i < |Since(older, cutoff)| {
          var e :| e in older && e.value == Since(older, cutoff)[i];
          assert e in rows;
        }
      }
    }
  }

  lemma SumOneMore(sum: int, n: int, v: int, lo: int, hi: int)
    requires lo * n <= sum <= hi * n && lo <= v <= hi
    ensures lo * (n + 1) <= sum + v <= hi * (n + 1)
  {
  }

  lemma {:induction false} SumBetween(values: seq<int>, lo: int, hi: int)
    requires forall i | 0 <= i < |values| :: values[i] > 0 ==> lo <= values[i] <= hi
    ensures lo * |Positive(values)| <= Sum(Positive(values)) <= hi * |Positive(values)|
  {
    hide Sum;
    if values == [] {
      EmptySum();
    } else {
      var older, v := values[..|values| - 1], values[|values| - 1];
      SumBetween(older, lo, hi);
      if v > 0 {
        SumSnoc(Positive(older), v);
        SumOneMore(Sum(Positive(older)), |Positive(older)|, v, lo, hi);
      }
    }
  }

  lemma EmptySum()
    ensures Sum([]) == 0
  {
  }

  lemma QuotientBetween(sum: int, n: int, lo: int, hi: int)
    requires n > 0 && lo * n <= sum <= hi * n
    ensures lo as real <= sum as real / n as real <= hi as real
  {
    assert (lo * n) as real == lo as real * n as real && (hi * n) as real == hi as real * n as real;
    QuotientBound(sum as real, n as real, lo as real);
    QuotientBound(sum as real, n as real, hi as real);
  }

  /** The average lies between the least and the greatest positive value. */
  lemma AverageBetween(values: seq<int>, lo: int, hi: int)
    requires forall i | 0 <= i < |values| :: values[i] > 0 ==> lo <= values[i] <= hi
    ensures Positive(values) != [] ==> lo as real <= PositiveAverage(values) <= hi as real
  {
    hide Positive, Sum;
    SumBetween(values, lo, hi);
    var p := Positive(values);
    if p != [] { QuotientBetween(Sum(p), |p|, lo, hi); }
  }

  lemma {:induction false} NonePositive(values: seq<int>)
    requires forall i | 0 <= i < |values| :: values[i] <= 0
    ensures PositiveAverage(values) == 0.0
  {
    if values != [] {
      NonePositive(values[..|values| - 1]);
      PositiveAverageRange(values[..|values| - 1]);
    }
  }

  lemma {:induction false} NoSuccess(values: seq<int>)
    requires forall i | 0 <= i < |values| :: values[i] != 1
    ensures SuccessRate(values) == 0.0
  {
    NoOnes(values);
  }

  lemma {:induction false} NoOnes(values: seq<int>)
    requires forall i | 0 <= i < |values| :: values[i] != 1
    ensures Ones(values) == 0
  {
    if values != [] {
      NoOnes(values[..|values| - 1]);
    }
  }

  // ---------- the queries in terms of rows ----------

  /** The positions of the rows of one node and kind that are younger than `seconds`. */
  function Young(log: Log, url: string, kind: Kind, now: int, seconds: int): set<nat> {
    set i: nat | i < |log| && log[i].url == url && log[i].kind == kind && now - log[i].time < seconds
  }

  /** The sum of the values at the given positions. */
  function SumAt(log: Log, positions: set<nat>): int {
    if log == [] then 0
    else SumAt(log[..|log| - 1], positions) + if |log| - 1 in positions then log[|log| - 1].value else 0
  }

  lemma {:induction false} SumAtPrefix(log: Log, a: set<nat>, b: set<nat>)
    requires forall i: nat | i < |log| :: i in a <==> i in b
    ensures SumAt(log, a) == SumAt(log, b)
  {
    if log != [] {
      SumAtPrefix(log[..|log| - 1], a, b);
    }
  }

  /** One more row, which the positions `after` may or may not hold. */
  lemma PositionsSnoc(log: Log, e: Event, before: set<nat>, after: set<nat>)
    requires forall i | i in before :: i < |log|
    requires after == before || after == before + {|log|}
    ensures |after| == |before| + if |log| in after then 1 else 0
    ensures SumAt(log + [e], after) == SumAt(log, before) + if |log| in after then e.value else 0
  {
    Snoc(log, e);
    SumAtPrefix(log, before, after);
  }

  lemma YoungSnoc(log: Log, e: Event, url: string, kind: Kind, now: int, seconds: int)
    ensures Young(log + [e], url, kind, now, seconds)
            == Young(log, url, kind, now, seconds)
               + if e.url == url && e.kind == kind && now - e.time < seconds then {|log|} else {}
  {
  }

  function Above(log: Log, positions: set<nat>): set<nat> {
    set i | i in positions && i < |log| && log[i].value > 0
  }

  function OnesAt(log: Log, positions: set<nat>): set<nat> {
    set i | i in positions && i < |log| && log[i].value == 1
  }

  lemma SelectedSnoc(log: Log, e: Event, before: set<nat>, after: set<nat>)
    requires forall i | i in before :: i < |log|
    requires after == before || after == before + {|log|}
    ensures Above(log + [e], after)
            == if |log| in after && e.value > 0 then Above(log, before) + {|log|} else Above(log, before)
    ensures OnesAt(log + [e], after)
            == if |log| in after && e.value == 1 then OnesAt(log, before) + {|log|} else OnesAt(log, before)
    ensures forall i | i in Above(log, before) :: i < |log|
    ensures forall i | i in OnesAt(log, before) :: i < |log|
  {
  }

  /** Filtering, counting and summing the window is counting and summing rows. */
  ghost predicate WindowIs(log: Log, values: seq<int>, young: set<nat>) {
    && |values| == |young| && Ones(values) == |OnesAt(log, young)|
    && |Positive(values)| == |Above(log, young)|
    && Sum(Positive(values)) == SumAt(log, Above(log, young))
  }

  lemma {:induction false} WindowIsRows(log: Log, url: string, kind: Kind, now: int, seconds: int)
    ensures WindowIs(log, Since(History(log, url, kind), now - seconds), Young(log, url, kind, now, seconds))
  {
    if log != [] {
      var init, e := log[..|log| - 1], log[|log| - 1];
      WindowIsRows(init, url, kind, now, seconds);
      WindowIsRowsSnoc(init, e, url, kind, now, seconds);
      assert init + [e] == log;
    }
  }

  lemma WindowIsRowsSnoc(log: Log, e: Event, url: string, kind: Kind, now: int, seconds: int)
    requires WindowIs(log, Since(History(log, url, kind), now - seconds), Young(log, url, kind, now, seconds))
    ensures WindowIs(log + [e], Since(History(log + [e], url, kind), now - seconds),
                     Young(log + [e], url, kind, now, seconds))
  {
    hide WindowIs, History, Since, Young;
    var values, young := Since(History(log, url, kind), now - seconds), Young(log, url, kind, now, seconds);
    HistorySnoc(log, e, url, kind);
    SinceSnoc(History(log, url, kind), e, now - seconds);
    YoungSnoc(log, e, url, kind, now, seconds);
    YoungBelow(log, url, kind, now, seconds);
    WindowSnocIs(log, e, values, young, e.url == url && e.kind == kind && now - e.time < seconds);
  }

  lemma YoungBelow(log: Log, url: string, kind: Kind, now: int, seconds: int)
    ensures forall i | i in Young(log, url, kind, now, seconds) :: i < |log|
  {
  }

  lemma WindowSnocIs(log: Log, e: Event, values: seq<int>, young: set<nat>, counts: bool)
    requires WindowIs(log, values, young) && forall i | i in young :: i < |log|
    ensures WindowIs(log + [e], if counts then values + [e.value] else values,
                     young + if counts then {|log|} else {})
  {
    hide WindowIs;
    if counts {
      WindowGains(log, e, values, young);
    } else {
      WindowKeeps(log, e, values, young);
      assert young + {} == young;
    }
  }

  lemma WindowGains(log: Log, e: Event, values: seq<int>, young: set<nat>)
    requires WindowIs(log, values, young) && forall i | i in young :: i < |log|
    ensures WindowIs(log + [e], values + [e.value], young + {|log|})
  {
    hide Ones, Positive, Sum, SumAt, Above, OnesAt;
    SelectedSnoc(log, e, young, young + {|log|});
    PositivesGain(log, e, values, young);
    OnesGain(log, e, values, young);
  }

  lemma PositivesGain(log: Log, e: Event, values: seq<int>, young: set<nat>)
    requires |Positive(values)| == |Above(log, young)| && Sum(Positive(values)) == SumAt(log, Above(log, young))
    requires forall i | i in young :: i < |log|
    ensures |Positive(values + [e.value])| == |Above(log + [e], young + {|log|})|
    ensures Sum(Positive(values + [e.value])) == SumAt(log + [e], Above(log + [e], young + {|log|}))
  {
    hide Positive, Sum, SumAt, Above;
    SelectedSnoc(log, e, young, young + {|log|});
    PositionsSnoc(log, e, Above(log, young), Above(log + [e], young + {|log|}));
    PositiveSnoc(values, e.value);
    SumSnoc(Positive(values), e.value);
  }

  lemma OnesGain(log: Log, e: Event, values: seq<int>, young: set<nat>)
    requires Ones(values) == |OnesAt(log, young)| && forall i | i in young :: i < |log|
    ensures Ones(values + [e.value]) == |OnesAt(log + [e], young + {|log|})|
  {
    hide Ones, OnesAt, SumAt;
    SelectedSnoc(log, e, young, young + {|log|});
    PositionsSnoc(log, e, OnesAt(log, young), OnesAt(log + [e], young + {|log|}));
    SumSnoc(values, e.value);
  }

  lemma WindowKeeps(log: Log, e: Event, values: seq<int>, young: set<nat>)
    requires WindowIs(log, values, young) && forall i | i in young :: i < |log|
    ensures WindowIs(log + [e], values, young)
  {
    hide Ones, Positive, Sum, SumAt, Above, OnesAt;
    SelectedSnoc(log, e, young, young);
    PositionsSnoc(log, e, Above(log, young), Above(log + [e], young));
  }
}

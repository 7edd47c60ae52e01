/**
 * The two tabs of the panel: the time-series chart of λF, with a fixed
 * [0, 1] axis and two dotted reference lines, and the data table, which shows
 * the history newest first. Both give way to an information message when the
 * history is empty.
 */
module Charts {
  import opened Wrappers
  import opened Records
  import History

  /** The dotted "critical level" line. */
  const CriticalLine: real := 0.7
  /** The dotted "risk level" line. */
  const RiskLine: real := 0.5

  /**
   * The content of the line chart: one (timestamp, λF) point per record, the
   * y-axis range, and the heights of the horizontal reference lines in the
   * order they are added.
   */
  datatype Chart = Chart(points: seq<(int, real)>, yMin: real, yMax: real, referenceLines: seq<real>)

  /** The chart for a history; none for an empty one. */
  function TimeSeriesChart(h: seq<Record>): (c: Option<Chart>)
    ensures c.None? <==> h == []
    ensures c.Some? ==> c.value.yMin == 0.0 && c.value.yMax == 1.0
    ensures c.Some? ==> c.value.referenceLines == [CriticalLine, RiskLine]
    ensures c.Some? ==> |c.value.points| == |h|
    ensures c.Some? ==> forall i :: 0 <= i < |h| ==> c.value.points[i] == (h[i].timestamp, h[i].lambdaF)
  {
    if h == [] then None
    else
      var points := seq(|h|, i requires 0 <= i < |h| => (h[i].timestamp, h[i].lambdaF));
      Some(Chart(points, 0.0, 1.0, [CriticalLine, RiskLine]))
  }

  /** On an ascending history the chart's points run forward in time. */
  lemma ChartRunsForward(h: seq<Record>)
    requires SortedAsc(h) && h != []
    ensures forall i, j :: 0 <= i < j < |h| ==>
              TimeSeriesChart(h).value.points[i].0 <= TimeSeriesChart(h).value.points[j].0
  {
  }

  function Reverse(s: seq<Record>): (r: seq<Record>)
    ensures |r| == |s|
    ensures forall k :: 0 <= k < |s| ==> r[k] == s[|s| - 1 - k]
    ensures multiset(r) == multiset(s)
  {
    if s == [] then []
    else
      assert s == [s[0]] + s[1..];
      Reverse(s[1..]) + [s[0]]
  }

  /** The table's order: the history sorted by timestamp, newest first. */
  function TableView(h: seq<Record>): (t: seq<Record>)
    ensures SortedDesc(t)
    ensures multiset(t) == multiset(h)
  {
    Reverse(History.SortByTime(h))
  }

  /** The data table for a history; none for an empty one. */
  function DataTable(h: seq<Record>): (t: Option<seq<Record>>)
    ensures t.None? <==> h == []
    ensures t.Some? ==> SortedDesc(t.value) && multiset(t.value) == multiset(h)
  {
    if h == [] then None else Some(TableView(h))
  }

  /** On an ascending history the table is the chart series read backwards. */
  lemma TableIsReversedSeries(h: seq<Record>)
    requires SortedAsc(h)
    ensures TableView(h) == Reverse(h)
  {
    History.SortedFixpoint(h);
  }

  /**
   * With distinct timestamps every newest-first ordering of an ascending
   * history is its reverse, whatever sorting algorithm produced it.
   */
  lemma DescendingOrderIsReverse(h: seq<Record>, t: seq<Record>)
    requires SortedAsc(h) && DistinctTimes(h)
    requires SortedDesc(t) && multiset(t) == multiset(h)
    ensures t == Reverse(h)
  {
    var u := Reverse(t);
    assert SortedAsc(u);
    History.SortedUnique(h, u);
    assert Reverse(u) == t;
  }
}

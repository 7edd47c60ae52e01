/**
 * The main metrics of the panel: the latest λF value, its change against the
 * previous record, and the coloured status box chosen from the store's own
 * status string. An empty history shows a "no data yet" warning instead.
 */
module Metrics {
  import opened Wrappers
  import opened Records

  /** The latest record, the λF it is compared with, and the change between them. */
  datatype Snapshot = Snapshot(latest: Record, previous: real, delta: real)

  /** The three message boxes the status can be shown in. */
  datatype Alert = ErrorBox | WarningBox | SuccessBox

  /** The main metrics section: the warning for an empty history, or the metric and the status box. */
  datatype Panel = NoHistory | Shown(snapshot: Snapshot, alert: Alert)

  const Critical: string := "Kritik"
  const Risky: string := "Riskli"

  /**
   * The latest record and its delta: against the second-to-last record's λF,
   * or against zero when the history holds a single record.
   */
  function LatestSnapshot(h: seq<Record>): (s: Option<Snapshot>)
    ensures s.None? <==> h == []
    ensures s.Some? ==> s.value.latest == h[|h| - 1]
    ensures s.Some? ==> s.value.latest.lambdaF == s.value.previous + s.value.delta
    ensures s.Some? && |h| == 1 ==> s.value.delta == h[0].lambdaF
    ensures s.Some? && |h| > 1 ==> s.value.delta == h[|h| - 1].lambdaF - h[|h| - 2].lambdaF
  {
    if h == [] then None
    else
      var current := h[|h| - 1].lambdaF;
      var previous := if |h| > 1 then h[|h| - 2].lambdaF else 0.0;
      Some(Snapshot(h[|h| - 1], previous, current - previous))
  }

  /** The status box: exactly one of the three, decided by the status string alone. */
  function AlertFor(status: Option<string>): (a: Alert)
    ensures a == ErrorBox <==> status == Some(Critical)
    ensures a == WarningBox <==> status == Some(Risky)
    ensures a == SuccessBox <==> status != Some(Critical) && status != Some(Risky)
  {
    if status == Some(Critical) then ErrorBox
    else if status == Some(Risky) then WarningBox
    else SuccessBox
  }

  /** The main metrics section for a history. */
  function MainMetrics(h: seq<Record>): (p: Panel)
    ensures p.NoHistory? <==> h == []
    ensures p.Shown? ==> p.snapshot.latest == h[|h| - 1]
    ensures p.Shown? ==> LatestSnapshot(h) == Some(p.snapshot)
    ensures p.Shown? ==> p.alert == AlertFor(h[|h| - 1].status)
  {
    match LatestSnapshot(h)
    case None => NoHistory
    case Some(s) => Shown(s, AlertFor(s.latest.status))
  }

  /** A single record is compared with zero, so its delta is its own λF. */
  lemma SingleRecordDelta(r: Record)
    ensures LatestSnapshot([r]) == Some(Snapshot(r, 0.0, r.lambdaF))
  {
  }

  /** Two records: the delta is the later λF minus the earlier one. */
  lemma TwoRecordDelta(r1: Record, r2: Record)
    ensures LatestSnapshot([r1, r2]).value.delta == r2.lambdaF - r1.lambdaF
  {
  }

  /** Appending a record makes the old latest record the new baseline. */
  lemma AppendDelta(h: seq<Record>, r: Record)
    requires h != []
    ensures LatestSnapshot(h + [r]).value.latest == r
    ensures LatestSnapshot(h + [r]).value.previous == LatestSnapshot(h).value.latest.lambdaF
    ensures LatestSnapshot(h + [r]).value.delta == r.lambdaF - LatestSnapshot(h).value.latest.lambdaF
  {
  }

  /** On an ascending history the latest record is the most recent one. */
  lemma LatestIsMostRecent(h: seq<Record>)
    requires SortedAsc(h) && h != []
    ensures forall r :: r in h ==> r.timestamp <= LatestSnapshot(h).value.latest.timestamp
  {
  }

  /** A missing status ("N/A") and a null status both show the success box. */
  lemma NoStatusIsSuccess()
    ensures AlertFor(Some(NotAvailable)) == SuccessBox
    ensures AlertFor(None) == SuccessBox
  {
  }

  /**
   * The box depends on the status string only, never on λF: two records with
   * the same status show the same box whatever their scores.
   */
  lemma AlertIgnoresScore(h1: seq<Record>, h2: seq<Record>)
    requires h1 != [] && h2 != []
    requires h1[|h1| - 1].status == h2[|h2| - 1].status
    ensures MainMetrics(h1).alert == MainMetrics(h2).alert
  {
  }
}

/**
 * The week-six database version: a performance reading is an ORM object whose
 * derived columns calculate_metrics fills in, the fleet statistics are taken
 * over the latest reading of each equipment, and the details view reports the
 * availability trend over the ten newest readings. The database itself and
 * its queries are replaced by sequences handed to the operations.
 */
module DbApp {
  import opened Outcomes
  import opened Reliability
  import opened Folds

  /** The columns of a PerformanceReading row; the derived ones are NULL until calculate_metrics runs. */
  datatype ReadingRow = ReadingRow(
    totalHours: real,
    uptimeHours: real,
    failures: int,
    availability: Option<real>,
    mtbf: Option<real>,
    mttr: Option<real>,
    status: Option<Status>)

  /** The derived columns are set, and are the web rule applied to the raw columns. */
  predicate FollowsRule(row: ReadingRow)
  {
    var m := SentinelMetrics(row.totalHours, row.uptimeHours, row.failures);
    row.availability == Some(m.availability) && row.mtbf == Some(m.mtbf)
    && row.mttr == Some(m.mttr) && row.status == Some(m.status)
  }

  /** A PerformanceReading object (week06-database/app_with_db.py, and unchanged in the week-eleven version). */
  class PerformanceReading {
    var totalHours: real
    var uptimeHours: real
    var failures: int
    var availability: Option<real>
    var mtbf: Option<real>
    var mttr: Option<real>
    var status: Option<Status>

    /** A reading as constructed from a request: raw values only. */
    constructor (totalHours: real, uptimeHours: real, failures: int)
      ensures Row() == ReadingRow(totalHours, uptimeHours, failures, None, None, None, None)
    {
      this.totalHours := totalHours;
      this.uptimeHours := uptimeHours;
      this.failures := failures;
      availability := None;
      mtbf := None;
      mttr := None;
      status := None;
    }

    function Row(): ReadingRow
      reads this
    {
      ReadingRow(totalHours, uptimeHours, failures, availability, mtbf, mttr, status)
    }

    /**
     * calculate_metrics: sets availability, MTBF, MTTR and status from the raw
     * columns by the web rule and leaves the raw columns alone; on a reading
     * whose metrics are already computed it changes nothing.
     */
    method CalculateMetrics()
      modifies this
      ensures totalHours == old(totalHours) && uptimeHours == old(uptimeHours) && failures == old(failures)
      ensures FollowsRule(Row())
      ensures old(FollowsRule(Row())) ==> Row() == old(Row())
    {
      var downtime := totalHours - uptimeHours;
      availability := Some(if totalHours > 0.0 then uptimeHours / totalHours * 100.0 else 0.0);
      mtbf := Some(if failures > 0 then uptimeHours / failures as real else NoFailureMtbf);
      mttr := Some(if failures > 0 then downtime / failures as real else 0.0);
      if availability.value >= 95.0 {
        status := Some(Good);
      } else if availability.value >= 90.0 {
        status := Some(Fair);
      } else {
        status := Some(Poor);
      }
    }
  }

  /** A reading created and computed as add_reading does it: the stored row follows the rule for exactly the given raw values. */
  method AddReading(totalHours: real, uptimeHours: real, failures: int) returns (reading: PerformanceReading)
    ensures fresh(reading)
    ensures reading.Row().totalHours == totalHours && reading.Row().uptimeHours == uptimeHours
            && reading.Row().failures == failures
    ensures FollowsRule(reading.Row())
  {
    reading := new PerformanceReading(totalHours, uptimeHours, failures);
    reading.CalculateMetrics();
  }

  // ---------------------------------------------------------------- get_equipment

  /** The columns get_equipment reads are set: availability on every reading, MTBF on those with failures. */
  predicate Aggregable(latest: seq<ReadingRow>)
  {
    forall i :: 0 <= i < |latest| ==>
      latest[i].availability.Some? && (latest[i].failures > 0 ==> latest[i].mtbf.Some?)
  }

  function AvailabilityValues(rows: seq<ReadingRow>): (xs: seq<real>)
    requires forall i :: 0 <= i < |rows| ==> rows[i].availability.Some?
    ensures |xs| == |rows| && forall i :: 0 <= i < |rows| ==> xs[i] == rows[i].availability.value
  {
    seq(|rows|, i requires 0 <= i < |rows| && rows[i].availability.Some? => rows[i].availability.value)
  }

  function MtbfValues(rows: seq<ReadingRow>): (xs: seq<real>)
    requires forall i :: 0 <= i < |rows| ==> rows[i].mtbf.Some?
    ensures |xs| == |rows| && forall i :: 0 <= i < |rows| ==> xs[i] == rows[i].mtbf.value
  {
    seq(|rows|, i requires 0 <= i < |rows| && rows[i].mtbf.Some? => rows[i].mtbf.value)
  }

  function IsPoor(): ReadingRow -> bool { (r: ReadingRow) => r.status == Some(Poor) }
  function HasFailures(): ReadingRow -> bool { (r: ReadingRow) => r.failures > 0 }

  /**
   * The fleet statistics of get_equipment over the latest reading of each
   * equipment: all zero without readings; otherwise the mean availability,
   * the number of POOR readings, and the mean MTBF of the readings with
   * failures (0 when there are none).
   */
  function FleetStatistics(totalEquipment: nat, latest: seq<ReadingRow>): (s: Statistics)
    requires Aggregable(latest)
    ensures s.totalEquipment == totalEquipment
    ensures latest == [] ==> s == Statistics(0.0, totalEquipment, 0, 0.0)
    ensures s.criticalAlerts == |Filter(latest, IsPoor())|
    ensures Filter(latest, HasFailures()) == [] ==> s.avgMtbf == 0.0
    ensures s.fleetAvailability == Mean(AvailabilityValues(latest))
    ensures (FailingReadingsHaveMtbf(latest); s.avgMtbf == Mean(MtbfValues(Filter(latest, HasFailures()))))
  {
    CountIsFilterLength(latest, IsPoor());
    if latest == [] then Statistics(0.0, totalEquipment, 0, 0.0)
    else
      var avgAvailability := Mean(AvailabilityValues(latest));
      var critical := Count(latest, IsPoor());
      var withFailures := Filter(latest, HasFailures());
      FailingReadingsHaveMtbf(latest);
      var avgMtbf := Mean(MtbfValues(withFailures));
      Statistics(avgAvailability, totalEquipment, critical, avgMtbf)
  }

  lemma FailingReadingsHaveMtbf(latest: seq<ReadingRow>)
    requires Aggregable(latest)
    ensures forall i :: 0 <= i < |Filter(latest, HasFailures())| ==> Filter(latest, HasFailures())[i].mtbf.Some?
  {
    var withFailures := Filter(latest, HasFailures());
    forall i | 0 <= i < |withFailures| ensures withFailures[i].mtbf.Some? {
      var x := withFailures[i];
      assert x in withFailures;
      var j :| 0 <= j < |latest| && latest[j] == x;
    }
  }

  /** When every latest availability is a percentage, so is the fleet availability. */
  lemma FleetAvailabilityRange(totalEquipment: nat, latest: seq<ReadingRow>)
    requires Aggregable(latest)
    requires forall i :: 0 <= i < |latest| ==> 0.0 <= latest[i].availability.value <= 100.0
    ensures 0.0 <= FleetStatistics(totalEquipment, latest).fleetAvailability <= 100.0
  {
    if latest != [] {
      MeanBounds(AvailabilityValues(latest), 0.0, 100.0);
    }
  }

  /** The average MTBF is a mean over exactly the readings with failures: it lies between their lowest and highest MTBF. */
  lemma AvgMtbfBetween(totalEquipment: nat, latest: seq<ReadingRow>, lo: real, hi: real)
    requires Aggregable(latest)
    requires Filter(latest, HasFailures()) != []
    requires forall r :: r in latest && r.failures > 0 ==> lo <= r.mtbf.value <= hi
    ensures lo <= FleetStatistics(totalEquipment, latest).avgMtbf <= hi
  {
    var withFailures := Filter(latest, HasFailures());
    var xs := MtbfValues(withFailures);
    forall i | 0 <= i < |xs| ensures lo <= xs[i] <= hi {
      assert withFailures[i] in withFailures;
    }
    MeanBounds(xs, lo, hi);
  }

  /** Readings computed by calculate_metrics can always be aggregated. */
  lemma ComputedReadingsAggregable(latest: seq<ReadingRow>)
    requires forall i :: 0 <= i < |latest| ==> FollowsRule(latest[i])
    ensures Aggregable(latest)
  {
  }

  // ---------------------------------------------------------------- get_equipment_details

  datatype Trend = Improving | Declining | Stable | InsufficientData

  /** The details view loads at most this many readings, newest first. */
  const HistoryLimit: nat := 10

  /** The readings the details query returns: the newest ones, at most HistoryLimit of them. */
  function RecentHistory(newestFirst: seq<real>): (h: seq<real>)
    ensures |h| <= HistoryLimit && |h| == if |newestFirst| < HistoryLimit then |newestFirst| else HistoryLimit
    ensures h == newestFirst[..|h|]
  {
    if |newestFirst| < HistoryLimit then newestFirst else newestFirst[..HistoryLimit]
  }

  /** The trend of availabilities listed newest first: the sign of newest minus oldest, given at least two readings. */
  function TrendOf(history: seq<real>): (t: Trend)
    ensures t == InsufficientData <==> |history| < 2
    ensures t == Improving <==> |history| >= 2 && history[0] > history[|history| - 1]
    ensures t == Declining <==> |history| >= 2 && history[0] < history[|history| - 1]
    ensures t == Stable <==> |history| >= 2 && history[0] == history[|history| - 1]
  {
    if |history| >= 2 then
      var change := history[0] - history[|history| - 1];
      if change > 0.0 then Improving else if change < 0.0 then Declining else Stable
    else InsufficientData
  }

  /** The details view: the trend over the ten newest readings and how many readings it saw. */
  function DetailsTrend(newestFirst: seq<real>): (r: (Trend, nat))
    ensures r.1 <= HistoryLimit
    ensures |newestFirst| >= HistoryLimit ==> r == (TrendOf(newestFirst[..HistoryLimit]), HistoryLimit)
    ensures |newestFirst| >= HistoryLimit ==>
              (r.0 == Improving <==> newestFirst[0] > newestFirst[HistoryLimit - 1])
              && (r.0 == Declining <==> newestFirst[0] < newestFirst[HistoryLimit - 1])
              && (r.0 == Stable <==> newestFirst[0] == newestFirst[HistoryLimit - 1])
    ensures |newestFirst| < HistoryLimit ==> r == (TrendOf(newestFirst), |newestFirst|)
  {
    var h := RecentHistory(newestFirst);
    (TrendOf(h), |h|)
  }

  function Reversed(s: seq<real>): (r: seq<real>)
    ensures |r| == |s| && forall i :: 0 <= i < |s| ==> r[i] == s[|s| - 1 - i]
  {
    if s == [] then [] else Reversed(s[1..]) + [s[0]]
  }

  /** Reading the same history in the opposite order swaps improving and declining and keeps the other two answers. */
  lemma TrendReversal(history: seq<real>)
    ensures TrendOf(Reversed(history)) == match TrendOf(history)
      case Improving => Declining
      case Declining => Improving
      case Stable => Stable
      case InsufficientData => InsufficientData
  {
  }
}

/**
 * The reliability-metrics rule shared by the dashboard versions: the
 * three-tier status ladder, the two ways the source marks "no failures"
 * (float('inf') in the console tools, the finite number 999999 in the web
 * applications), the CSV text of the MTBF column, and the per-reading
 * metrics of the web applications.
 */
module Reliability {

  /** The status tier stored with each record or reading. */
  datatype Status = Good | Fair | Poor

  /** The tier's text as stored and compared in the source. */
  function StatusName(s: Status): string
  {
    match s
    case Good => "GOOD"
    case Fair => "FAIR"
    case Poor => "POOR"
  }

  /** The ladder: at least 95 is GOOD, at least 90 is FAIR, anything lower is POOR. */
  function Classify(availability: real): (s: Status)
    ensures s == Good <==> availability >= 95.0
    ensures s == Fair <==> 90.0 <= availability < 95.0
    ensures s == Poor <==> availability < 90.0
  {
    if availability >= 95.0 then Good
    else if availability >= 90.0 then Fair
    else Poor
  }

  /** The order of the tiers, worst first. */
  function Rank(s: Status): nat
  {
    match s
    case Poor => 0
    case Fair => 1
    case Good => 2
  }

  /** A higher availability never gets a worse tier. */
  lemma ClassifyMonotone(a: real, b: real)
    requires a <= b
    ensures Rank(Classify(a)) <= Rank(Classify(b))
  {
  }

  /** Distinct tiers have distinct names, so comparing names compares tiers. */
  lemma StatusNameInjective(s: Status, t: Status)
    ensures StatusName(s) == StatusName(t) <==> s == t
  {
  }

  /** MTBF in the console tools: float('inf') when no failure was recorded. */
  datatype Mtbf = Infinite | Finite(hours: real)

  /** The MTBF column of fleet_data.csv: the text 'inf', or a formatted number. */
  datatype MtbfCell = InfText | Numeral(value: real)

  /** The number the web applications store as the MTBF of a reading with no failures. */
  const NoFailureMtbf: real := 999999.0

  /** The derived fields of a reading in the web applications. */
  datatype Metrics = Metrics(availability: real, mtbf: real, mttr: real, status: Status)

  /** The statistics object the web applications return with the equipment list. */
  datatype Statistics = Statistics(fleetAvailability: real, totalEquipment: nat, criticalAlerts: nat, avgMtbf: real)

  /**
   * The metrics of a reading as the web applications compute them: availability
   * in percent (0 when total is not positive), MTBF and MTTR per failure, and
   * NoFailureMtbf and 0 when the failure count is not positive.
   */
  function SentinelMetrics(totalHours: real, uptimeHours: real, failures: int): (m: Metrics)
    ensures totalHours > 0.0 ==> m.availability * totalHours == uptimeHours * 100.0
    ensures totalHours <= 0.0 ==> m.availability == 0.0
    ensures failures > 0 ==> m.mtbf * failures as real == uptimeHours
    ensures failures > 0 ==> m.mttr * failures as real + uptimeHours == totalHours
    ensures failures <= 0 ==> m.mtbf == NoFailureMtbf && m.mttr == 0.0
    ensures m.status == Classify(m.availability)
  {
    var downtime := totalHours - uptimeHours;
    var availability := if totalHours > 0.0 then uptimeHours / totalHours * 100.0 else 0.0;
    var mtbf := if failures > 0 then uptimeHours / failures as real else NoFailureMtbf;
    var mttr := if failures > 0 then downtime / failures as real else 0.0;
    Metrics(availability, mtbf, mttr, Classify(availability))
  }

  /**
   * Once uptime does not exceed total, availability is at most 100; it is
   * non-negative exactly when uptime is, or when total is not positive.
   */
  lemma SentinelAvailabilityRange(totalHours: real, uptimeHours: real, failures: int)
    requires uptimeHours <= totalHours
    ensures SentinelMetrics(totalHours, uptimeHours, failures).availability <= 100.0
    ensures SentinelMetrics(totalHours, uptimeHours, failures).availability >= 0.0
            <==> uptimeHours >= 0.0 || totalHours <= 0.0
  {
    var a := SentinelMetrics(totalHours, uptimeHours, failures).availability;
    if totalHours > 0.0 {
      assert a * totalHours == uptimeHours * 100.0;
      if a < 0.0 {
        assert a * totalHours < 0.0;
      }
      if uptimeHours < 0.0 {
        assert a * totalHours < 0.0;
      }
    }
  }

  /** The MTBF of a reading is the sentinel exactly when no failure was counted, as long as uptime per failure stays below it. */
  lemma SentinelMarksNoFailures(totalHours: real, uptimeHours: real, failures: int)
    requires uptimeHours < NoFailureMtbf
    ensures SentinelMetrics(totalHours, uptimeHours, failures).mtbf == NoFailureMtbf <==> failures <= 0
  {
    var m := SentinelMetrics(totalHours, uptimeHours, failures);
    if failures > 0 {
      assert m.mtbf * failures as real == uptimeHours;
    }
  }
}

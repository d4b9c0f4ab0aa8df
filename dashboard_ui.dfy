/**
 * The display helpers of the React dashboard: the badge class of a status,
 * the MTBF label, the tier of the fleet-availability card, the state of the
 * critical-alerts card, and the update of the add-equipment form when one
 * input changes. Rendering, fetching and timers are not modelled.
 */
module DashboardUi {
  import opened Outcomes
  import opened Text
  import opened Folds
  import opened Reliability
  import FlaskApp
  import DbApp
  import AuthApp

  /** getStatusClass: the badge class of a status string; null, NO DATA and any other text get the no-data badge. */
  function StatusClass(status: Option<string>): (c: string)
    ensures c == "badge-good" <==> status == Some("GOOD")
    ensures c == "badge-fair" <==> status == Some("FAIR")
    ensures c == "badge-poor" <==> status == Some("POOR")
    ensures c == "badge-nodata" <==> status !in {Some("GOOD"), Some("FAIR"), Some("POOR")}
  {
    match status
    case Some(s) =>
      if s == "GOOD" then "badge-good"
      else if s == "FAIR" then "badge-fair"
      else if s == "POOR" then "badge-poor"
      else "badge-nodata"
    case None => "badge-nodata"
  }

  /** Every tier name gets the badge named after it in lower case. */
  lemma TierBadge(s: Status)
    ensures StatusClass(Some(StatusName(s))) == "badge-" + ToLower(StatusName(s))
  {
    var name := StatusName(s);
    var lower := ToLower(name);
    assert |lower| == 4;
    match s {
      case Good => assert lower == "good";
      case Fair => assert lower == "fair";
      case Poor => assert lower == "poor";
    }
  }

  /**
   * In the view of a piece of equipment, the no-data badge appears exactly
   * when the equipment has no reading or its latest reading has no status.
   */
  lemma NoDataBadgeWithoutStatus(latest: Option<DbApp.ReadingRow>)
    ensures StatusClass(AuthApp.ToDict(latest).status) == "badge-nodata"
            <==> latest.None? || latest.value.status.None?
  {
    if latest.Some? && latest.value.status.Some? {
      var s := latest.value.status.value;
      assert AuthApp.ToDict(latest).status == Some(StatusName(s));
      TierBadge(s);
      assert StatusClass(Some(StatusName(s))) != "badge-nodata";
    }
  }

  /** The MTBF column: a "No failures" label, or the hours (their one-decimal text is not modelled). */
  datatype MtbfLabel = NoFailures | Hours(hours: real)

  /** formatMTBF: a missing or zero MTBF, and one at or above the sentinel, read "No failures". */
  function FormatMtbf(mtbf: Option<real>): (l: MtbfLabel)
    ensures l == NoFailures <==> mtbf.None? || mtbf.value == 0.0 || mtbf.value >= NoFailureMtbf
    ensures l.Hours? ==> l.hours == mtbf.value
  {
    if mtbf.None? || mtbf.value == 0.0 || mtbf.value >= NoFailureMtbf then NoFailures
    else Hours(mtbf.value)
  }

  /**
   * For metrics computed under the sentinel rule, the label reads "No
   * failures" for every record without failures; for a record with failures
   * it does so only when there was no uptime or the MTBF reaches the sentinel.
   */
  lemma SentinelMtbfLabel(totalHours: real, uptimeHours: real, failures: int)
    ensures failures <= 0 ==> FormatMtbf(Some(SentinelMetrics(totalHours, uptimeHours, failures).mtbf)) == NoFailures
    ensures failures > 0 ==>
              (FormatMtbf(Some(SentinelMetrics(totalHours, uptimeHours, failures).mtbf)) == NoFailures
               <==> uptimeHours == 0.0 || uptimeHours >= NoFailureMtbf * failures as real)
  {
    var m := SentinelMetrics(totalHours, uptimeHours, failures);
    if failures > 0 {
      ScaledThresholds(m.mtbf, failures as real, uptimeHours, NoFailureMtbf);
    }
  }

  lemma ScaledThresholds(x: real, n: real, y: real, bound: real)
    requires n > 0.0 && x * n == y
    ensures x == 0.0 <==> y == 0.0
    ensures x >= bound <==> y >= bound * n
  {
    if x >= bound {
      assert x * n - bound * n == (x - bound) * n;
    } else {
      assert bound * n - x * n == (bound - x) * n;
    }
  }

  /** The card class of the fleet availability: good from 95, fair from 90, poor below. */
  function FleetAvailabilityCard(availability: real): (c: string)
    ensures c == "good" <==> availability >= 95.0
    ensures c == "fair" <==> 90.0 <= availability < 95.0
    ensures c == "poor" <==> availability < 90.0
  {
    if availability >= 95.0 then "good" else if availability >= 90.0 then "fair" else "poor"
  }

  /** The card uses the same thresholds as the equipment tiers: its class is the tier's name in lower case. */
  lemma CardFollowsTier(availability: real)
    ensures FleetAvailabilityCard(availability) == ToLower(StatusName(Classify(availability)))
  {
    var lower := ToLower(StatusName(Classify(availability)));
    assert |lower| == 4;
    match Classify(availability) {
      case Good => assert lower == "good";
      case Fair => assert lower == "fair";
      case Poor => assert lower == "poor";
    }
  }

  /** The critical-alerts card is poor when there is any alert and good otherwise. */
  function CriticalAlertsCard(criticalAlerts: int): (c: string)
    ensures c == "poor" <==> criticalAlerts > 0
    ensures c == "good" <==> criticalAlerts <= 0
  {
    if criticalAlerts > 0 then "poor" else "good"
  }

  /** Fed with the statistics of the API, the alerts card is poor exactly when some record is POOR. */
  lemma AlertsCardShowsPoorRecord(equipment: seq<FlaskApp.Record>)
    ensures CriticalAlertsCard(FlaskApp.FleetStatistics(equipment).criticalAlerts) == "poor"
            <==> exists i :: 0 <= i < |equipment| && equipment[i].status == Poor
  {
    var poor := Filter(equipment, FlaskApp.IsPoor());
    if poor != [] {
      assert poor[0] in poor;
      var i :| 0 <= i < |equipment| && equipment[i] == poor[0];
      assert equipment[i].status == Poor;
    }
    if exists i :: 0 <= i < |equipment| && equipment[i].status == Poor {
      var i :| 0 <= i < |equipment| && equipment[i].status == Poor;
      FilterMembership(equipment, FlaskApp.IsPoor(), equipment[i]);
      assert poor != [];
    }
  }

  /** The six inputs of the add-equipment form, all empty. */
  const EmptyForm: map<string, string> :=
    map["name" := "", "type" := "", "location" := "", "total_hours" := "", "uptime_hours" := "", "failures" := ""]

  /** handleInputChange: the form with the named input set to the new value and every other input as it was. */
  function HandleInputChange(form: map<string, string>, name: string, value: string): (f: map<string, string>)
    ensures f.Keys == form.Keys + {name}
    ensures f[name] == value
    ensures forall k :: k in form && k != name ==> f[k] == form[k]
  {
    form[name := value]
  }

  /** Changes to two different inputs can come in either order. */
  lemma InputChangesCommute(form: map<string, string>, a: string, x: string, b: string, y: string)
    requires a != b
    ensures HandleInputChange(HandleInputChange(form, a, x), b, y) == HandleInputChange(HandleInputChange(form, b, y), a, x)
  {
    var ab := HandleInputChange(HandleInputChange(form, a, x), b, y);
    var ba := HandleInputChange(HandleInputChange(form, b, y), a, x);
    assert ab.Keys == ba.Keys;
    forall k | k in ab ensures ab[k] == ba[k] {
      if k != a && k != b {
        assert ab[k] == form[k];
      }
    }
  }
}

/**
 * The week-eleven version with user accounts: each user sees only their own
 * equipment. Modelled here are the checks of add_equipment, the dictionary an
 * equipment without readings produces, and the per-user fleet statistics.
 * The reading object and its calculate_metrics are unchanged from week six
 * and are taken from DbApp; the add request is the one of FlaskApp.
 */
module AuthApp {
  import opened Outcomes
  import opened Text
  import opened Reliability
  import opened Folds
  import opened DbApp
  import FlaskApp

  // ---------------------------------------------------------------- add_equipment

  /**
   * The refusals of add_equipment in this version: the 400 responses, and the
   * 500 response a null name produces, since None has no strip.
   */
  datatype AddError = MissingField(field: string) | NameNotText | DuplicateName | UptimeExceedsTotal

  /**
   * The checks of add_equipment, given the names of the user's equipment: the
   * first missing field, then a null name, then a stripped name the user
   * already has, then uptime above total. An empty name and a negative
   * failure count are not refused. The result is the stripped name to store.
   */
  function CheckAddRequest(ownNames: seq<string>, req: FlaskApp.AddRequest): (r: Result<string, AddError>)
    ensures !FlaskApp.HasAllFields(req) <==> r.Err? && r.error.MissingField?
    ensures r.Err? && r.error.MissingField? ==> Some(r.error.field) == FlaskApp.MissingRequiredField(req)
    ensures FlaskApp.HasAllFields(req) ==> (r == Err(NameNotText) <==> req.name.value.Null?)
    ensures FlaskApp.HasAllFields(req) && req.name.value.Text? ==>
              (r == Err(DuplicateName) <==> Strip(req.name.value.text) in ownNames)
    ensures FlaskApp.HasAllFields(req) && req.name.value.Text? ==> (r == Err(UptimeExceedsTotal)
            <==> Strip(req.name.value.text) !in ownNames && req.uptimeHours.value > req.totalHours.value)
    ensures r.Ok? ==> FlaskApp.HasAllFields(req) && req.name.value.Text?
                      && r.value == Strip(req.name.value.text) && r.value !in ownNames
  {
    match FlaskApp.MissingRequiredField(req)
    case Some(field) => Err(MissingField(field))
    case None =>
      match req.name.value
      case Null => Err(NameNotText)
      case Text(text) =>
        var name := Strip(text);
        if name in ownNames then Err(DuplicateName)
        else if req.uptimeHours.value > req.totalHours.value then Err(UptimeExceedsTotal)
        else Ok(name)
  }

  /** add_equipment: after the checks, the new equipment's first reading is created with int(failures) and computed. */
  method AddEquipment(ownNames: seq<string>, req: FlaskApp.AddRequest)
    returns (r: Result<string, AddError>, reading: Option<PerformanceReading>)
    ensures r == CheckAddRequest(ownNames, req)
    ensures r.Err? <==> reading.None?
    ensures reading.Some? ==> fresh(reading.value) && FollowsRule(reading.value.Row())
    ensures reading.Some? ==>
              (reading.value.totalHours == req.totalHours.value && reading.value.uptimeHours == req.uptimeHours.value
               && reading.value.failures == FlaskApp.RequestFailures(req))
  {
    r := CheckAddRequest(ownNames, req);
    if r.Err? {
      reading := None;
    } else {
      var created := AddReading(req.totalHours.value, req.uptimeHours.value, FlaskApp.RequestFailures(req));
      reading := Some(created);
    }
  }

  /**
   * Unlike the week-five version, a negative failure count gets through, and
   * the reading then carries the no-failure MTBF and an MTTR of 0.
   */
  lemma NegativeFailuresAccepted(ownNames: seq<string>, req: FlaskApp.AddRequest)
    requires FlaskApp.HasAllFields(req) && req.name.value.Text?
    requires Strip(req.name.value.text) !in ownNames && req.uptimeHours.value <= req.totalHours.value
    requires req.failures.value <= -1.0
    ensures CheckAddRequest(ownNames, req).Ok?
    ensures var m := SentinelMetrics(req.totalHours.value, req.uptimeHours.value, FlaskApp.RequestFailures(req));
            m.mtbf == NoFailureMtbf && m.mttr == 0.0
  {
  }

  /** Whatever the user's names, a name that is blank after strip is accepted once: it is refused only when the user already holds the empty name. */
  lemma BlankNameAccepted(ownNames: seq<string>, req: FlaskApp.AddRequest)
    requires FlaskApp.HasAllFields(req) && req.name.value.Text? && Strip(req.name.value.text) == []
    requires [] !in ownNames && req.uptimeHours.value <= req.totalHours.value
    ensures CheckAddRequest(ownNames, req) == Ok([])
  {
  }

  // ---------------------------------------------------------------- Equipment.to_dict

  /** The reading part of the dictionary Equipment.to_dict returns; a JSON null is None. */
  datatype EquipmentView = EquipmentView(status: Option<string>, availability: Option<real>, mtbf: Option<real>, failures: int)

  const NoDataStatus := "NO DATA"

  /** to_dict from the latest reading if there is one; otherwise status NO DATA and zero availability, MTBF and failures. */
  function ToDict(latest: Option<ReadingRow>): (v: EquipmentView)
    ensures latest.None? ==> v == EquipmentView(Some(NoDataStatus), Some(0.0), Some(0.0), 0)
    ensures latest.Some? ==> v.availability == latest.value.availability && v.mtbf == latest.value.mtbf
                             && v.failures == latest.value.failures
    ensures latest.Some? && latest.value.status.Some? ==> v.status == Some(StatusName(latest.value.status.value))
  {
    match latest
    case None => EquipmentView(Some(NoDataStatus), Some(0.0), Some(0.0), 0)
    case Some(r) =>
      EquipmentView(if r.status.Some? then Some(StatusName(r.status.value)) else None, r.availability, r.mtbf, r.failures)
  }

  /** The NO DATA status tells equipment without readings apart: no tier is named NO DATA. */
  lemma NoDataOnlyWithoutReadings(latest: Option<ReadingRow>)
    ensures ToDict(latest).status == Some(NoDataStatus) <==> latest.None?
  {
  }

  /** The zeros of the NO DATA view are not a reading: a computed reading with total hours has availability 0 only when its uptime is 0. */
  lemma NoDataZerosAreNotAReading(r: ReadingRow)
    requires FollowsRule(r) && r.totalHours > 0.0
    ensures r.availability == Some(0.0) <==> r.uptimeHours == 0.0
  {
    var m := SentinelMetrics(r.totalHours, r.uptimeHours, r.failures);
    assert m.availability * r.totalHours == r.uptimeHours * 100.0;
  }

  // ---------------------------------------------------------------- get_equipment

  function HasAvailability(): ReadingRow -> bool { (r: ReadingRow) => r.availability.Some? }
  function FailedBelowSentinel(): ReadingRow -> bool
  {
    (r: ReadingRow) => r.failures > 0 && r.mtbf.Some? && r.mtbf.value < NoFailureMtbf
  }

  /** The MTBF comparison in get_equipment is evaluated only for readings with failures, and those have an MTBF. */
  predicate MtbfSetWhenFailed(latest: seq<ReadingRow>)
  {
    forall i :: 0 <= i < |latest| ==> latest[i].failures > 0 ==> latest[i].mtbf.Some?
  }

  /**
   * The statistics of get_equipment over the user's equipment and its latest
   * readings: all zero without equipment or readings; otherwise the mean of
   * the availabilities that are set (0 when none is), the number of POOR
   * readings, and the mean MTBF of the readings with failures and an MTBF
   * below the sentinel (0 when none remain).
   */
  function FleetStatistics(totalEquipment: nat, latest: seq<ReadingRow>): (s: Statistics)
    requires MtbfSetWhenFailed(latest)
    ensures s.totalEquipment == totalEquipment
    ensures totalEquipment == 0 || latest == [] ==> s == Statistics(0.0, totalEquipment, 0, 0.0)
    ensures totalEquipment > 0 ==> s.criticalAlerts == |Filter(latest, IsPoor())|
    ensures Filter(latest, HasAvailability()) == [] ==> s.fleetAvailability == 0.0
    ensures Filter(latest, FailedBelowSentinel()) == [] ==> s.avgMtbf == 0.0
    ensures totalEquipment > 0 ==> s.fleetAvailability == Mean(AvailabilityValues(Filter(latest, HasAvailability())))
    ensures totalEquipment > 0 ==> s.avgMtbf == Mean(MtbfValues(Filter(latest, FailedBelowSentinel())))
  {
    CountIsFilterLength(latest, IsPoor());
    if totalEquipment == 0 || latest == [] then Statistics(0.0, totalEquipment, 0, 0.0)
    else
      var valid := Filter(latest, HasAvailability());
      var avgAvailability := Mean(AvailabilityValues(valid));
      var critical := Count(latest, IsPoor());
      var withFailures := Filter(latest, FailedBelowSentinel());
      var avgMtbf := Mean(MtbfValues(withFailures));
      Statistics(avgAvailability, totalEquipment, critical, avgMtbf)
  }

  /** The fleet availability is a mean of the availabilities that are set: it lies between their bounds. */
  lemma FleetAvailabilityBetween(totalEquipment: nat, latest: seq<ReadingRow>, lo: real, hi: real)
    requires MtbfSetWhenFailed(latest)
    requires totalEquipment > 0 && Filter(latest, HasAvailability()) != []
    requires forall r :: r in latest && r.availability.Some? ==> lo <= r.availability.value <= hi
    ensures lo <= FleetStatistics(totalEquipment, latest).fleetAvailability <= hi
  {
    var valid := Filter(latest, HasAvailability());
    var xs := AvailabilityValues(valid);
    forall i | 0 <= i < |xs| ensures lo <= xs[i] <= hi {
      assert valid[i] in valid;
    }
    MeanBounds(xs, lo, hi);
  }

  /** The average MTBF leaves the no-failure sentinel out: it is always below it, and between the bounds of the MTBFs it includes. */
  lemma AvgMtbfBelowSentinel(totalEquipment: nat, latest: seq<ReadingRow>, lo: real, hi: real)
    requires MtbfSetWhenFailed(latest)
    requires forall r :: r in latest && FailedBelowSentinel()(r) ==> lo <= r.mtbf.value <= hi
    ensures FleetStatistics(totalEquipment, latest).avgMtbf < NoFailureMtbf
    ensures totalEquipment > 0 && Filter(latest, FailedBelowSentinel()) != [] ==>
              lo <= FleetStatistics(totalEquipment, latest).avgMtbf <= hi
  {
    var withFailures := Filter(latest, FailedBelowSentinel());
    if totalEquipment > 0 && latest != [] && withFailures != [] {
      var xs := MtbfValues(withFailures);
      forall i | 0 <= i < |xs| ensures lo <= xs[i] <= hi && xs[i] < NoFailureMtbf {
        assert withFailures[i] in withFailures;
      }
      MeanBounds(xs, lo, hi);
      MeanBelow(xs, NoFailureMtbf);
    }
  }
}

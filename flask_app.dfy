/**
 * The week-five Flask dashboard, backed by fleet_data.csv: adding a record
 * with validation and metrics, the fleet statistics, the CSV text of the MTBF
 * column (999999 stands for "no failures" and is written as 'inf'), the
 * details view, deletion by name and the status filter. The HTTP layer is
 * replaced by Result values and the file by sequences of rows.
 */
module FlaskApp {
  import opened Outcomes
  import opened Text
  import opened Reliability
  import opened Folds

  /** One equipment dictionary of equipment_list. Records read back from the CSV file have no date_added. */
  datatype Record = Record(
    name: string,
    totalHours: real,
    uptimeHours: real,
    failures: int,
    availability: real,
    mtbf: real,
    mttr: real,
    status: Status,
    dateAdded: Option<string>)

  /** The record's derived fields are the web rule applied to its raw fields. */
  predicate MetricsFollowRule(r: Record)
  {
    Metrics(r.availability, r.mtbf, r.mttr, r.status) == SentinelMetrics(r.totalHours, r.uptimeHours, r.failures)
  }

  // ---------------------------------------------------------------- add_equipment

  /** A name as the JSON body carries it: a string, or null. */
  datatype JsonName = Text(text: string) | Null

  /** str(value): a string is itself, and null becomes the text None. */
  function StrOf(v: JsonName): (s: string)
    ensures v.Text? ==> s == v.text
    ensures v.Null? ==> s == "None"
  {
    match v
    case Text(t) => t
    case Null => "None"
  }

  /**
   * int(x) of a JSON number: the integer part, truncated toward zero, so that
   * -0.5 becomes 0 and 2.7 becomes 2.
   */
  function IntOf(x: real): (n: int)
    ensures x >= 0.0 ==> 0 <= n && n as real <= x < n as real + 1.0
    ensures x < 0.0 ==> n <= 0 && n as real - 1.0 < x <= n as real
  {
    if x >= 0.0 then x.Floor else -((-x).Floor)
  }

  /** A whole number is its own integer part, and the integer part is negative exactly from -1 down. */
  lemma IntOfWhole(k: int, x: real)
    ensures IntOf(k as real) == k
    ensures IntOf(x) < 0 <==> x <= -1.0
  {
  }

  /** The JSON body of an add request; a key that is absent is None, and the numbers are JSON numbers. */
  datatype AddRequest = AddRequest(
    name: Option<JsonName>,
    totalHours: Option<real>,
    uptimeHours: Option<real>,
    failures: Option<real>)

  /** The 400 responses of add_equipment. */
  datatype AddError = MissingField(field: string) | EmptyName | UptimeExceedsTotal | NegativeFailures

  predicate HasAllFields(req: AddRequest)
  {
    req.name.Some? && req.totalHours.Some? && req.uptimeHours.Some? && req.failures.Some?
  }

  /** The first of the required fields, in the order name, total_hours, uptime_hours, failures, that the request lacks. */
  function MissingRequiredField(req: AddRequest): (f: Option<string>)
    ensures f.None? <==> HasAllFields(req)
  {
    if req.name.None? then Some("name")
    else if req.totalHours.None? then Some("total_hours")
    else if req.uptimeHours.None? then Some("uptime_hours")
    else if req.failures.None? then Some("failures")
    else None
  }

  /** The name add_equipment stores: str(name).strip(). */
  function RequestName(req: AddRequest): string
    requires req.name.Some?
  {
    Strip(StrOf(req.name.value))
  }

  /** The failure count add_equipment checks and stores: int(failures). */
  function RequestFailures(req: AddRequest): int
    requires req.failures.Some?
  {
    IntOf(req.failures.value)
  }

  /**
   * The validation and metric part of add_equipment: the first missing field,
   * then an empty name after str() and strip, uptime above total, and a
   * failure count below zero after int() are refused, in that order;
   * otherwise the record carries the converted name and values, the metrics
   * of the web rule and the time of the request.
   */
  function NewEquipment(req: AddRequest, now: string): (r: Result<Record, AddError>)
    ensures req.name.None? ==> r == Err(MissingField("name"))
    ensures req.name.Some? && req.totalHours.None? ==> r == Err(MissingField("total_hours"))
    ensures req.name.Some? && req.totalHours.Some? && req.uptimeHours.None? ==> r == Err(MissingField("uptime_hours"))
    ensures req.name.Some? && req.totalHours.Some? && req.uptimeHours.Some? && req.failures.None?
            ==> r == Err(MissingField("failures"))
    ensures HasAllFields(req) ==> (r == Err(EmptyName) <==> RequestName(req) == [])
    ensures HasAllFields(req) ==> (r == Err(UptimeExceedsTotal)
            <==> RequestName(req) != [] && req.uptimeHours.value > req.totalHours.value)
    ensures HasAllFields(req) ==> (r == Err(NegativeFailures)
            <==> RequestName(req) != [] && req.uptimeHours.value <= req.totalHours.value && req.failures.value <= -1.0)
    ensures r.Ok? <==> HasAllFields(req) && RequestName(req) != [] && req.uptimeHours.value <= req.totalHours.value
                       && req.failures.value > -1.0
    ensures r.Ok? ==> HasAllFields(req) && r.value.name == RequestName(req) && r.value.dateAdded == Some(now)
    ensures r.Ok? ==> r.value.totalHours == req.totalHours.value && r.value.uptimeHours == req.uptimeHours.value
                      && r.value.failures == RequestFailures(req) && r.value.failures >= 0
    ensures r.Ok? ==> MetricsFollowRule(r.value)
  {
    match MissingRequiredField(req)
    case Some(field) => Err(MissingField(field))
    case None =>
      var name := RequestName(req);
      var totalHours, uptimeHours, failures := req.totalHours.value, req.uptimeHours.value, RequestFailures(req);
      IntOfWhole(0, req.failures.value);
      if name == [] then Err(EmptyName)
      else if uptimeHours > totalHours then Err(UptimeExceedsTotal)
      else if failures < 0 then Err(NegativeFailures)
      else
        var m := SentinelMetrics(totalHours, uptimeHours, failures);
        Ok(Record(name, totalHours, uptimeHours, failures, m.availability, m.mtbf, m.mttr, m.status, Some(now)))
  }

  /** A JSON null name is not missing: str() turns it into the text None, which is stored as the name. */
  lemma NullNameStored(req: AddRequest, now: string)
    requires HasAllFields(req) && req.name.value == Null
    requires req.uptimeHours.value <= req.totalHours.value && req.failures.value >= 0.0
    ensures NewEquipment(req, now).Ok? && NewEquipment(req, now).value.name == "None"
  {
    assert RequestName(req) == "None" by {
      assert StrOf(req.name.value) == "None";
      assert 'N' !in Whitespace && 'e' !in Whitespace;
      StripCharsUnchanged("None", Whitespace);
    }
  }

  /** A failure count between -1 and 0 passes the negative check, because int() truncates it to 0. */
  lemma FractionalNegativeFailuresAccepted(req: AddRequest, now: string)
    requires HasAllFields(req) && RequestName(req) != []
    requires req.uptimeHours.value <= req.totalHours.value && -1.0 < req.failures.value < 0.0
    ensures NewEquipment(req, now).Ok? && NewEquipment(req, now).value.failures == 0
    ensures NewEquipment(req, now).value.mtbf == NoFailureMtbf
  {
    assert RequestFailures(req) == 0;
  }

  /** Every accepted record has an availability of at most 100, and of at least 0 exactly when its uptime is not negative or its total not positive. */
  lemma AcceptedAvailabilityRange(req: AddRequest, now: string)
    requires NewEquipment(req, now).Ok?
    ensures NewEquipment(req, now).value.availability <= 100.0
    ensures NewEquipment(req, now).value.availability >= 0.0
            <==> req.uptimeHours.value >= 0.0 || req.totalHours.value <= 0.0
  {
    SentinelAvailabilityRange(req.totalHours.value, req.uptimeHours.value, RequestFailures(req));
  }

  /** add_equipment appends the accepted record to the loaded list; a refused request leaves the list as it was. */
  method AddEquipment(equipmentList: seq<Record>, req: AddRequest, now: string)
    returns (r: Result<Record, AddError>, updated: seq<Record>)
    ensures r == NewEquipment(req, now)
    ensures r.Ok? ==> updated == equipmentList + [r.value]
    ensures r.Err? ==> updated == equipmentList
  {
    r := NewEquipment(req, now);
    updated := equipmentList;
    if r.Ok? {
      updated := updated + [r.value];
    }
  }

  // ---------------------------------------------------------------- the MTBF column

  /** The MTBF column as save_equipment_data writes it: 'inf' from the sentinel upwards, the number below it. */
  function EncodeMtbf(mtbf: real): (c: MtbfCell)
    ensures c == InfText <==> mtbf >= NoFailureMtbf
    ensures c.Numeral? ==> c.value == mtbf
  {
    if mtbf < NoFailureMtbf then Numeral(mtbf) else InfText
  }

  /** The MTBF column as load_equipment_data reads it: 'inf' becomes the sentinel. */
  function DecodeMtbf(c: MtbfCell): (mtbf: real)
    ensures c == InfText ==> mtbf == NoFailureMtbf
    ensures c.Numeral? ==> mtbf == c.value
  {
    match c
    case InfText => NoFailureMtbf
    case Numeral(v) => v
  }

  /** Writing and reading back an MTBF keeps values below the sentinel and turns every larger one into the sentinel. */
  lemma MtbfRoundTrip(mtbf: real)
    ensures DecodeMtbf(EncodeMtbf(mtbf)) == if mtbf < NoFailureMtbf then mtbf else NoFailureMtbf
  {
  }

  // ---------------------------------------------------------------- the CSV rows

  /** One row of fleet_data.csv; load_equipment_data reads availability and mttr with a default of 0 when the column is absent. */
  datatype CsvRow = CsvRow(
    name: string,
    totalHours: real,
    uptimeHours: real,
    failures: int,
    availability: Option<real>,
    mtbf: MtbfCell,
    mttr: Option<real>,
    dateAdded: Option<string>)

  /** The row save_equipment_data writes for a record; a record without a date gets the time of saving. */
  function SaveRow(r: Record, now: string): CsvRow
  {
    CsvRow(r.name, r.totalHours, r.uptimeHours, r.failures, Some(r.availability), EncodeMtbf(r.mtbf), Some(r.mttr),
           Some(if r.dateAdded.Some? then r.dateAdded.value else now))
  }

  function OrZero(x: Option<real>): real
  {
    if x.Some? then x.value else 0.0
  }

  /** The record load_equipment_data builds from a row: the status is recomputed from the availability column, the date is not read. */
  function LoadRow(row: CsvRow): (r: Record)
    ensures r.status == Classify(r.availability)
    ensures r.availability == (if row.availability.Some? then row.availability.value else 0.0)
    ensures r.mtbf == DecodeMtbf(row.mtbf)
    ensures r.dateAdded.None?
    ensures r.name == row.name && r.totalHours == row.totalHours && r.uptimeHours == row.uptimeHours
            && r.failures == row.failures
    ensures r.mttr == (if row.mttr.Some? then row.mttr.value else 0.0)
  {
    var availability := OrZero(row.availability);
    var status := if availability >= 95.0 then Good else if availability >= 90.0 then Fair else Poor;
    Record(row.name, row.totalHours, row.uptimeHours, row.failures, availability,
           DecodeMtbf(row.mtbf), OrZero(row.mttr), status, None)
  }

  /**
   * Saving a record whose status follows the ladder and loading it back gives
   * the same record without its date, with an MTBF at or above the sentinel
   * read back as the sentinel.
   */
  lemma LoadSaveRoundTrip(r: Record, now: string)
    requires r.status == Classify(r.availability)
    ensures LoadRow(SaveRow(r, now)) == r.(mtbf := if r.mtbf < NoFailureMtbf then r.mtbf else NoFailureMtbf, dateAdded := None)
  {
  }

  /**
   * A record whose metrics follow the web rule and whose uptime is below the
   * sentinel survives the save and the next load unchanged except for its
   * date; every record add_equipment accepts has metrics that follow the rule.
   */
  lemma RuleRecordSurvivesReload(r: Record, later: string)
    requires MetricsFollowRule(r)
    requires r.uptimeHours < NoFailureMtbf
    ensures LoadRow(SaveRow(r, later)) == r.(dateAdded := None)
  {
    if r.failures > 0 {
      MtbfBelowUptime(r.mtbf, r.failures, r.uptimeHours);
    }
    LoadSaveRoundTrip(r, later);
  }

  lemma MtbfBelowUptime(mtbf: real, failures: int, uptime: real)
    requires failures > 0 && mtbf * failures as real == uptime && uptime < NoFailureMtbf
    ensures mtbf < NoFailureMtbf
  {
  }

  /** load_equipment_data when the file exists: one record per row, in file order. */
  method LoadEquipmentData(rows: seq<CsvRow>) returns (equipmentList: seq<Record>)
    ensures |equipmentList| == |rows|
    ensures forall i :: 0 <= i < |rows| ==> equipmentList[i] == LoadRow(rows[i])
  {
    equipmentList := [];
    for i := 0 to |rows|
      invariant |equipmentList| == i
      invariant forall k :: 0 <= k < i ==> equipmentList[k] == LoadRow(rows[k])
    {
      equipmentList := equipmentList + [LoadRow(rows[i])];
    }
  }

  /** save_equipment_data: one row per record, in list order (an empty list leaves an empty file). */
  method SaveEquipmentData(equipmentList: seq<Record>, now: string) returns (rows: seq<CsvRow>)
    ensures |rows| == |equipmentList|
    ensures forall i :: 0 <= i < |rows| ==> rows[i] == SaveRow(equipmentList[i], now)
  {
    rows := [];
    for i := 0 to |equipmentList|
      invariant |rows| == i
      invariant forall k :: 0 <= k < i ==> rows[k] == SaveRow(equipmentList[k], now)
    {
      rows := rows + [SaveRow(equipmentList[i], now)];
    }
  }

  // ---------------------------------------------------------------- get_equipment

  function Availabilities(rs: seq<Record>): (xs: seq<real>)
    ensures |xs| == |rs| && forall i :: 0 <= i < |rs| ==> xs[i] == rs[i].availability
  {
    seq(|rs|, i requires 0 <= i < |rs| => rs[i].availability)
  }

  function MtbfValues(rs: seq<Record>): (xs: seq<real>)
    ensures |xs| == |rs| && forall i :: 0 <= i < |rs| ==> xs[i] == rs[i].mtbf
  {
    seq(|rs|, i requires 0 <= i < |rs| => rs[i].mtbf)
  }

  function IsPoor(): Record -> bool { (r: Record) => r.status == Poor }
  function HasFailures(): Record -> bool { (r: Record) => r.failures > 0 }
  function BelowSentinel(): Record -> bool { (r: Record) => r.mtbf < NoFailureMtbf }
  function FailedBelowSentinel(): Record -> bool { (r: Record) => r.failures > 0 && r.mtbf < NoFailureMtbf }

  /**
   * The fleet statistics as get_equipment computes them: the mean availability,
   * the number of POOR records, and the MTBF sum over records below the
   * sentinel divided by the number of records with failures.
   */
  function FleetStatistics(equipment: seq<Record>): (s: Statistics)
    ensures equipment == [] ==> s == Statistics(0.0, 0, 0, 0.0)
    ensures s.totalEquipment == |equipment|
    ensures s.criticalAlerts == |Filter(equipment, IsPoor())|
    ensures Count(equipment, HasFailures()) == 0 ==> s.avgMtbf == 0.0
    ensures s.fleetAvailability == Mean(Availabilities(equipment))
    ensures s.avgMtbf == Quotient(Sum(MtbfValues(Filter(equipment, BelowSentinel()))), Count(equipment, HasFailures()))
  {
    CountIsFilterLength(equipment, IsPoor());
    if equipment == [] then Statistics(0.0, 0, 0, 0.0)
    else
      var avgAvailability := Mean(Availabilities(equipment));
      var totalMtbf := Sum(MtbfValues(Filter(equipment, BelowSentinel())));
      var withFailures := Count(equipment, HasFailures());
      var avgMtbf := Quotient(totalMtbf, withFailures);
      Statistics(avgAvailability, |equipment|, Count(equipment, IsPoor()), avgMtbf)
  }

  /** When every availability is a percentage, so is the fleet availability. */
  lemma FleetAvailabilityRange(equipment: seq<Record>)
    requires forall i :: 0 <= i < |equipment| ==> 0.0 <= equipment[i].availability <= 100.0
    ensures 0.0 <= FleetStatistics(equipment).fleetAvailability <= 100.0
  {
    if equipment != [] {
      MeanBounds(Availabilities(equipment), 0.0, 100.0);
    }
  }

  /** The fleet availability times the number of records is their summed availability. */
  lemma FleetAvailabilityTimesCount(equipment: seq<Record>)
    ensures FleetStatistics(equipment).fleetAvailability * |equipment| as real == Sum(Availabilities(equipment))
  {
    var xs := Availabilities(equipment);
    MeanTimesCount(xs);
    assert |xs| == |equipment|;
  }

  /** avg_mtbf times the number of records that failed is the summed MTBF of the records below the sentinel. */
  lemma AvgMtbfTimesFailing(equipment: seq<Record>, failing: nat)
    requires failing == Count(equipment, HasFailures()) && failing > 0
    ensures FleetStatistics(equipment).avgMtbf * failing as real == Sum(MtbfValues(Filter(equipment, BelowSentinel())))
  {
    QuotientTimesCount(FleetStatistics(equipment).avgMtbf, Sum(MtbfValues(Filter(equipment, BelowSentinel()))), failing);
  }

  /**
   * The numerator and denominator of avg_mtbf use different filters: a record
   * accepted with 2,000,000 hours up and one failure has an MTBF above the
   * sentinel, so it is counted in the denominator but not summed, and the
   * fleet's only failing record yields an average MTBF of 0.
   */
  lemma AvgMtbfFilterMismatch(name: string, now: string)
    requires Strip(name) != []
    ensures var r := NewEquipment(AddRequest(Some(Text(name)), Some(2000000.0), Some(2000000.0), Some(1.0)), now);
            && r.Ok? && r.value.failures == 1 && r.value.mtbf == 2000000.0
            && FleetStatistics([r.value]).avgMtbf == 0.0
  {
    var req := AddRequest(Some(Text(name)), Some(2000000.0), Some(2000000.0), Some(1.0));
    assert RequestName(req) == Strip(name);
    assert RequestFailures(req) == 1;
    var r := NewEquipment(req, now);
    assert r.Ok?;
    assert r.value.mtbf * 1.0 == 2000000.0;
    FailingRecordLeftOut(r.value);
  }

  /** A fleet of one failing record whose MTBF reaches the sentinel counts it once in the denominator and sums nothing. */
  lemma FailingRecordLeftOut(r: Record)
    requires r.failures > 0 && r.mtbf >= NoFailureMtbf
    ensures Count([r], HasFailures()) == 1 && Filter([r], BelowSentinel()) == []
    ensures FleetStatistics([r]).avgMtbf == 0.0
  {
    var xs := [r];
    assert xs[..0] == [];
    assert Filter(xs, BelowSentinel()) == Filter([], BelowSentinel()) + [];
  }

  /**
   * avg_mtbf with one filter for both the sum and the count: the records that
   * failed and whose MTBF is below the sentinel. The fleet availability and
   * the critical count are as in FleetStatistics.
   */
  function FleetStatisticsMatched(equipment: seq<Record>): (s: Statistics)
    ensures s.fleetAvailability == FleetStatistics(equipment).fleetAvailability
    ensures s.criticalAlerts == FleetStatistics(equipment).criticalAlerts
    ensures s.totalEquipment == |equipment|
    ensures Filter(equipment, FailedBelowSentinel()) == [] ==> s.avgMtbf == 0.0
    ensures s.avgMtbf == Mean(MtbfValues(Filter(equipment, FailedBelowSentinel())))
  {
    var base := FleetStatistics(equipment);
    var included := Filter(equipment, FailedBelowSentinel());
    var avgMtbf := Mean(MtbfValues(included));
    base.(avgMtbf := avgMtbf)
  }

  /** With matched filters, avg_mtbf is a mean of the MTBFs it includes: it lies between their lowest and highest values, hence below the sentinel. */
  lemma MatchedAvgMtbfBetween(equipment: seq<Record>, lo: real, hi: real)
    requires Filter(equipment, FailedBelowSentinel()) != []
    requires forall r :: r in equipment && r.failures > 0 && r.mtbf < NoFailureMtbf ==> lo <= r.mtbf <= hi
    ensures lo <= FleetStatisticsMatched(equipment).avgMtbf <= hi
    ensures FleetStatisticsMatched(equipment).avgMtbf < NoFailureMtbf
  {
    var included := Filter(equipment, FailedBelowSentinel());
    var xs := MtbfValues(included);
    forall i | 0 <= i < |xs| ensures lo <= xs[i] <= hi && xs[i] < NoFailureMtbf {
      assert included[i] in included;
    }
    MeanBounds(xs, lo, hi);
    MeanBelow(xs, NoFailureMtbf);
  }

  // ---------------------------------------------------------------- date_added across a reload

  /**
   * load_equipment_data does not read date_added back, so the next save stamps
   * every earlier record with the time of that save: a record saved with its
   * date, reloaded and saved again carries the second save's time.
   */
  lemma ReloadRestampsDate(r: Record, added: string, later: string)
    requires r.dateAdded == Some(added) && later != added
    ensures SaveRow(r, later).dateAdded == Some(added)
    ensures SaveRow(LoadRow(SaveRow(r, later)), later).dateAdded == Some(later)
  {
  }

  /** The row reader with date_added read back as stored. */
  function LoadRowKeepingDate(row: CsvRow): (r: Record)
    ensures r.dateAdded == row.dateAdded
    ensures r.status == Classify(r.availability) && r.mtbf == DecodeMtbf(row.mtbf)
  {
    LoadRow(row).(dateAdded := row.dateAdded)
  }

  /** With the date read back, a saved row that is loaded and saved again, at any later time, is the same row. */
  lemma KeptDateResavesUnchanged(r: Record, now: string, later: string)
    requires r.status == Classify(r.availability)
    ensures SaveRow(LoadRowKeepingDate(SaveRow(r, now)), later) == SaveRow(r, now)
  {
    LoadSaveRoundTrip(r, now);
    MtbfRoundTrip(r.mtbf);
  }

  // ---------------------------------------------------------------- get_equipment_details

  /** The index of the first record with exactly this name. */
  function FirstNamed(equipmentList: seq<Record>, name: string): (r: Option<nat>)
    ensures r.Some? ==> r.value < |equipmentList| && equipmentList[r.value].name == name
    ensures r.Some? ==> forall j :: 0 <= j < r.value ==> equipmentList[j].name != name
    ensures r.None? <==> forall j :: 0 <= j < |equipmentList| ==> equipmentList[j].name != name
  {
    if equipmentList == [] then None
    else if equipmentList[0].name == name then Some(0)
    else match FirstNamed(equipmentList[1..], name)
      case None => None
      case Some(k) => Some(k + 1)
  }

  datatype Priority = High | Medium | Low

  /** HIGH for POOR, MEDIUM for FAIR, LOW otherwise. */
  function MaintenancePriority(s: Status): (p: Priority)
    ensures p == High <==> s == Poor
    ensures p == Medium <==> s == Fair
    ensures p == Low <==> s == Good
  {
    match s
    case Poor => High
    case Fair => Medium
    case Good => Low
  }

  /** Availability plus a tenth of the MTBF, capped at 100. */
  function PerformanceScore(r: Record): (score: real)
    ensures score <= 100.0 && score <= r.availability + r.mtbf / 10.0
    ensures score == 100.0 || score == r.availability + r.mtbf / 10.0
  {
    var raw := r.availability + r.mtbf / 10.0;
    if raw < 100.0 then raw else 100.0
  }

  /** A record with no failures carries the sentinel MTBF, so any non-negative availability scores the full 100. */
  lemma NoFailureScoresFull(r: Record)
    requires MetricsFollowRule(r) && r.failures <= 0
    requires r.availability >= 0.0
    ensures PerformanceScore(r) == 100.0
  {
  }

  datatype Details = Details(record: Record, performanceScore: real, maintenancePriority: Priority)

  datatype NotFound = NotFound

  /** The details view: the first record with the name, with its score and priority; 404 when no record has the name. */
  function EquipmentDetails(equipmentList: seq<Record>, name: string): (d: Result<Details, NotFound>)
    ensures d.Err? <==> forall j :: 0 <= j < |equipmentList| ==> equipmentList[j].name != name
    ensures d.Ok? ==> d.value.record.name == name && d.value.record in equipmentList
    ensures d.Ok? ==> d.value.record == equipmentList[FirstNamed(equipmentList, name).value]
    ensures d.Ok? ==> d.value.performanceScore == PerformanceScore(d.value.record)
                      && d.value.maintenancePriority == MaintenancePriority(d.value.record.status)
  {
    match FirstNamed(equipmentList, name)
    case None => Err(NotFound)
    case Some(i) =>
      var r := equipmentList[i];
      Ok(Details(r, PerformanceScore(r), MaintenancePriority(r.status)))
  }

  // ---------------------------------------------------------------- delete_equipment

  function NameDiffers(name: string): Record -> bool { (r: Record) => r.name != name }

  /**
   * delete_equipment: the list without every record of that name, in order;
   * 404 exactly when no record has the name.
   */
  function DeleteEquipment(equipmentList: seq<Record>, name: string): (d: Result<seq<Record>, NotFound>)
    ensures d.Err? <==> forall j :: 0 <= j < |equipmentList| ==> equipmentList[j].name != name
    ensures d.Ok? ==> d.value == Filter(equipmentList, NameDiffers(name))
    ensures d.Ok? ==> |d.value| < |equipmentList|
    ensures d.Ok? ==> forall r :: r in d.value <==> r in equipmentList && r.name != name
  {
    var updated := Filter(equipmentList, NameDiffers(name));
    FilterKeepsAll(equipmentList, NameDiffers(name));
    forall r ensures r in updated <==> r in equipmentList && r.name != name {
      FilterMembership(equipmentList, NameDiffers(name), r);
    }
    if |updated| == |equipmentList| then Err(NotFound) else Ok(updated)
  }

  // ---------------------------------------------------------------- get_equipment_by_status

  function StatusIs(name: string): Record -> bool { (r: Record) => StatusName(r.status) == name }

  datatype StatusQuery = StatusQuery(status: string, count: nat, equipment: seq<Record>)

  /** The records whose status equals the upper-cased query, in order, with their number. */
  function EquipmentByStatus(equipmentList: seq<Record>, status: string): (q: StatusQuery)
    ensures q.status == ToUpper(status)
    ensures q.count == |q.equipment| == Count(equipmentList, StatusIs(ToUpper(status)))
    ensures forall r :: r in q.equipment <==> r in equipmentList && StatusName(r.status) == ToUpper(status)
  {
    var wanted := ToUpper(status);
    var filtered := Filter(equipmentList, StatusIs(wanted));
    CountIsFilterLength(equipmentList, StatusIs(wanted));
    forall r ensures r in filtered <==> r in equipmentList && StatusName(r.status) == wanted {
      FilterMembership(equipmentList, StatusIs(wanted), r);
    }
    StatusQuery(wanted, |filtered|, filtered)
  }

  /** The query is case-insensitive: asking for the upper-cased status gives the same answer. */
  lemma ByStatusIgnoresCase(equipmentList: seq<Record>, status: string)
    ensures EquipmentByStatus(equipmentList, ToUpper(status)) == EquipmentByStatus(equipmentList, status)
  {
    assert ToUpper(ToUpper(status)) == ToUpper(status);
  }

  /** A query that names none of GOOD, FAIR and POOR matches nothing. */
  lemma UnknownStatusMatchesNothing(equipmentList: seq<Record>, status: string)
    requires ToUpper(status) !in {"GOOD", "FAIR", "POOR"}
    ensures EquipmentByStatus(equipmentList, status).count == 0
  {
    NoneHasStatus(equipmentList, ToUpper(status));
  }

  lemma {:induction false} NoneHasStatus(equipmentList: seq<Record>, name: string)
    requires name !in {"GOOD", "FAIR", "POOR"}
    ensures Count(equipmentList, StatusIs(name)) == 0
  {
    if equipmentList != [] {
      NoneHasStatus(equipmentList[..|equipmentList| - 1], name);
    }
  }

  /** The GOOD, FAIR and POOR counts add up to the number of records. */
  lemma {:induction false} StatusCountsPartition(equipmentList: seq<Record>)
    ensures Count(equipmentList, StatusIs("GOOD")) + Count(equipmentList, StatusIs("FAIR"))
            + Count(equipmentList, StatusIs("POOR")) == |equipmentList|
  {
    if equipmentList != [] {
      StatusCountsPartition(equipmentList[..|equipmentList| - 1]);
    }
  }
}

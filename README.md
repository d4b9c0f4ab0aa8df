# Reliability metrics, modelled in Dafny

The repository is a sequence of small industrial-reliability tools. Each one
re-implements the same rule. From the total hours of a period, the uptime
hours and the failure count it derives:

- downtime;
- availability in percent;
- MTBF (mean time between failures) and MTTR (mean time to repair);
- a three-tier status: GOOD from 95 %, FAIR from 90 %, POOR below.

The tools then aggregate these metrics over a fleet. This project models
five versions of that rule and the helpers around it:

- **HelloIndustrial** (`week01-foundations`): the day-one calculator and its
  grading ladder. No failure means an infinite MTBF.
- **FleetTracker** (`week02-data-structures`): validated records and the
  pooled fleet summary. It also covers the `'inf'` text of the MTBF column
  in the CSV file and the worst and best performers of the menu.
- **FlaskApp** (`week05-flask`): the CSV-backed web API. It covers add with
  validation, fleet statistics, the `'inf'` ↔ 999999 MTBF column, details,
  delete and the status filter.
- **DbApp** (`week06-database`): the database version. It covers the
  `PerformanceReading` class whose `CalculateMetrics` updates its fields in
  place, the fleet statistics over the latest readings and the trend rule.
- **AuthApp** (`week11-auth`): the per-user version. It has its own add
  checks, its own `to_dict` defaults and its own filters in the statistics.
  It reuses the week-six reading class, whose code is identical.
- **RcaModels** and **RcaViews** (`projects/rca-tool`): the root-cause
  analysis tool. They cover the stage progress, the `RCA-<year>-<nnn>`
  reference number with its round trip, the levels of the why tree, the
  overdue rule, the dashboard counts and the grouping of facts by category.
- **FailureLog** (`daily-exercises/c_class.py`): the parser for
  `[equipment] - date - issue` lines, the critical-keyword check and the
  report of critical summaries.
- **DashboardUi** (`week10-react`): the React dashboard's badge class, MTBF
  label, card tiers and form update.

Shared definitions sit in four support modules:

- **Reliability**: the status ladder, the 999999 sentinel, the metrics
  rule used by the web versions, and the `Infinite | Finite` MTBF of the
  console versions.
- **Text**: Python's `strip` (over the characters `str.isspace` accepts),
  `split`, and `lower` and `upper` restricted to ASCII, plus decimal digits.
- **Folds**: `Sum`, `Filter`, `Count`, `Quotient`, `Mean` and `Collect`
  with their bounds.
- **Outcomes**: `Option` and `Result`.

Each file keeps its own way of saying "no failures":

- `float('inf')` in week01 and week02, modelled as `Reliability.Infinite`;
- `999999` in week05, week06 and week11, modelled as
  `Reliability.NoFailureMtbf`.

Other modelling choices:

- Hours are `real`.
- Failure counts are `int` wherever the source does not refuse negative
  counts, because negative values reach the `> 0` branches.
- Clocks become parameters: `now` for timestamps, `year` for reference
  numbers and `today` for due dates.
- File contents become sequences of rows or lines.
- Database queries become the sequences they return.

## Model

| member | source | states |
|---|---|---|
| HelloIndustrial.CalculateMtbf | week01-foundations/day01_hello_industrial.py:37-41 | infinite exactly when the failure count is 0; otherwise MTBF × failures = hours |
| HelloIndustrial.CalculateAvailability | week01-foundations/day01_hello_industrial.py:43-47 | 0 when total is 0; otherwise availability × total = uptime × 100 |
| HelloIndustrial.CalculateDowntime | week01-foundations/day01_hello_industrial.py:49-51 | downtime + uptime = total |
| HelloIndustrial.CalculateMttr | week01-foundations/day01_hello_industrial.py:53-56 | 0 when there is no failure; otherwise MTTR × failures = downtime |
| HelloIndustrial.ReliabilityGrade | week01-foundations/day01_hello_industrial.py:114-122 | EXCELLENT iff ≥ 99, GOOD iff 95 ≤ a < 99, FAIR iff 90 ≤ a < 95, NEEDS IMPROVEMENT iff < 90 |
| HelloIndustrial.GradeMonotone | week01-foundations/day01_hello_industrial.py:114-122 | a higher availability never gets a lower grade |
| HelloIndustrial.GradeRefinesStatus | week01-foundations/day01_hello_industrial.py:114-126 | EXCELLENT and GOOD are exactly the GOOD tier, FAIR the FAIR tier and NEEDS IMPROVEMENT the POOR tier |
| HelloIndustrial.CalculateReport | week01-foundations/day01_hello_industrial.py:94-97 | the interactive chain: downtime + uptime = total; MTBF is infinite iff no failure, else MTBF × failures = uptime; availability 0 when total is 0, else availability × total = uptime × 100; MTTR × failures + uptime = total; the grade is that of the availability |
| HelloIndustrial.AvailabilityIsPercentage | week01-foundations/day01_hello_industrial.py:43-47 | with 0 ≤ uptime ≤ total and total > 0, availability lies in [0, 100] |
| Reliability.Classify | week05-flask/app.py:174-179 | GOOD iff availability ≥ 95, FAIR iff 90 ≤ a < 95, POOR iff a < 90 |
| Reliability.ClassifyMonotone | week05-flask/app.py:174-179 | a higher availability never gets a worse tier |
| Reliability.StatusNameInjective | week05-flask/app.py:263 | two tiers have the same text exactly when they are the same tier, so the status filter compares tiers |
| Reliability.SentinelMetrics | week05-flask/app.py:168-179 | availability × total = uptime × 100 for total > 0, else 0; with failures, MTBF × failures = uptime and MTTR × failures + uptime = total; without failures, MTBF is 999999 and MTTR 0; the status is the tier of the availability |
| Reliability.SentinelAvailabilityRange | week05-flask/app.py:162-169 | once uptime ≤ total, availability ≤ 100, and it is ≥ 0 exactly when uptime ≥ 0 or total ≤ 0 |
| Reliability.SentinelMarksNoFailures | week05-flask/app.py:170 | while uptime stays below 999999, MTBF is the sentinel exactly when no failure was counted |
| FleetTracker.CreateEquipmentRecord | week02-data-structures/day02_fleet_tracker.py:19-67 | an empty stripped name, then uptime > total, then failures < 0 are refused, each exactly in its case; an accepted record keeps the stripped name, the raw values and the timestamp, and its derived fields follow the day-two rule |
| FleetTracker.DeriveMetrics | week02-data-structures/day02_fleet_tracker.py:49-52 | downtime = total − uptime, availability, an infinite MTBF and a zero MTTR without failures, per-failure values otherwise |
| FleetTracker.NoFailuresIsInfinite | week02-data-structures/day02_fleet_tracker.py:51-52 | an accepted record with 0 failures has an infinite MTBF and an MTTR of 0 |
| FleetTracker.DisplayFleetSummary | week02-data-structures/day02_fleet_tracker.py:70-113 | nothing for an empty fleet; otherwise each record's tier by the ladder, pooled availability Σuptime/Σtotal·100 (0 when Σtotal is 0), pooled MTBF Σuptime/Σfailures (infinite when Σfailures ≤ 0) and the record count |
| FleetTracker.PooledAvailabilityBetween | week02-data-structures/day02_fleet_tracker.py:101-106 | for records with their own availability and positive hours, the pooled availability lies between the lowest and the highest record availability |
| FleetTracker.WeightedUptimeBounds | week02-data-structures/day02_fleet_tracker.py:83-103 | lo·Σtotal ≤ Σuptime·100 ≤ hi·Σtotal when every record's availability lies in [lo, hi] |
| FleetTracker.PooledMtbfInfinite | week02-data-structures/day02_fleet_tracker.py:103-107 | with no negative counts, the fleet MTBF is infinite exactly when no record has a failure |
| FleetTracker.TotalFailuresZero | week02-data-structures/day02_fleet_tracker.py:85-103 | the pooled failure count is ≥ 0, and 0 exactly when every record has none |
| FleetTracker.EncodeMtbf | week02-data-structures/day02_fleet_tracker.py:140 | the column holds 'inf' exactly for an infinite MTBF |
| FleetTracker.DecodeMtbf | week02-data-structures/day02_fleet_tracker.py:166 | the cell 'inf' reads back as infinity and a numeral cell as the finite hours it holds |
| FleetTracker.MtbfRoundTrip | week02-data-structures/day02_fleet_tracker.py:140-166 | decoding the encoded MTBF gives the MTBF back |
| FleetTracker.LoadRow | week02-data-structures/day02_fleet_tracker.py:158-169 | the loaded record's downtime is recomputed as total − uptime; its MTBF is infinite iff the column is 'inf' |
| FleetTracker.LoadSaveRoundTrip | week02-data-structures/day02_fleet_tracker.py:133-169 | a record whose downtime is total − uptime survives being saved and loaded unchanged |
| FleetTracker.SaveFleetToCsv | week02-data-structures/day02_fleet_tracker.py:116-143 | nothing is written for an empty fleet; otherwise one row per record, in fleet order |
| FleetTracker.LoadFleetFromCsv | week02-data-structures/day02_fleet_tracker.py:150-179 | one record per row, in file order |
| FleetTracker.WorstPerformer | week02-data-structures/day02_fleet_tracker.py:216 | none iff the fleet is empty; otherwise the first record whose availability is ≤ every other |
| FleetTracker.BestPerformer | week02-data-structures/day02_fleet_tracker.py:232 | none iff the fleet is empty; otherwise the first record whose availability is ≥ every other |
| FlaskApp.MissingRequiredField | week05-flask/app.py:148-151 | nothing is missing exactly when all four fields are present |
| FlaskApp.NewEquipment | week05-flask/app.py:148-192 | the first missing field in the order name, total_hours, uptime_hours, failures; then an empty name after `str()` and strip, uptime > total, and failures ≤ −1 (below 0 after `int()` truncation), each refused exactly in its case; accepted exactly when none applies; an accepted record keeps the stripped name, the hours, the truncated failure count (≥ 0) and the timestamp, and follows the metrics rule |
| FlaskApp.StrOf | week05-flask/app.py:153 | `str()` of a JSON name: a string is itself, null is the text None |
| FlaskApp.IntOf | week05-flask/app.py:156 | `int()` of a JSON number truncates toward zero: the result lies within 1 of the number, on the side of 0 |
| FlaskApp.IntOfWhole | week05-flask/app.py:156 | `int()` keeps whole numbers, and is negative exactly for numbers ≤ −1 |
| FlaskApp.NullNameStored | week05-flask/app.py:153-160 | a null name passes the empty-name check and is stored as None |
| FlaskApp.FractionalNegativeFailuresAccepted | week05-flask/app.py:156-164 | a failure count strictly between −1 and 0 passes the negative check, is stored as 0 and gives MTBF 999999 |
| FlaskApp.AcceptedAvailabilityRange | week05-flask/app.py:162-169 | an accepted record's availability is ≤ 100, and ≥ 0 exactly when uptime ≥ 0 or total ≤ 0 |
| FlaskApp.AddEquipment | week05-flask/app.py:141-199 | the list grows by the new record on success and is unchanged on a refusal |
| FlaskApp.EncodeMtbf | week05-flask/app.py:101 | the column holds 'inf' exactly when MTBF ≥ 999999, the number otherwise |
| FlaskApp.DecodeMtbf | week05-flask/app.py:73 | 'inf' reads back as 999999, a number as itself |
| FlaskApp.MtbfRoundTrip | week05-flask/app.py:73-101 | an MTBF below 999999 survives the column; any larger one comes back as 999999 |
| FlaskApp.LoadRow | week05-flask/app.py:58-76 | name, hours and failures are copied from the row; the status is recomputed from the availability column (0 when it is absent); the MTBF is decoded; the MTTR is the column's value, or 0 when it is absent; there is no date |
| FlaskApp.LoadSaveRoundTrip | week05-flask/app.py:67-103 | saving and reloading keeps every field of a record whose status is its tier, except that MTBF is capped at 999999 and the date is dropped |
| FlaskApp.RuleRecordSurvivesReload | week05-flask/app.py:67-103 | a record that follows the rule, with uptime below 999999, reloads equal to itself apart from the date |
| FlaskApp.LoadEquipmentData | week05-flask/app.py:53-80 | one record per row, in file order |
| FlaskApp.SaveEquipmentData | week05-flask/app.py:82-106 | one row per record, in list order |
| FlaskApp.FleetStatistics | week05-flask/app.py:115-127 | all zero for an empty list; the count of records; critical alerts = number of POOR records; fleet availability = the mean of the availabilities; avg MTBF = the MTBFs below 999999 summed and divided by the number of records with failures, 0 when there are none |
| FlaskApp.FleetAvailabilityTimesCount | week05-flask/app.py:115-116 | the fleet availability times the number of records is their summed availability |
| FlaskApp.AvgMtbfTimesFailing | week05-flask/app.py:118-120 | avg MTBF times the number of records with failures is the summed MTBF of the records below 999999 |
| FlaskApp.FleetAvailabilityRange | week05-flask/app.py:116-117 | with every availability in [0, 100], the fleet availability is too |
| FlaskApp.AvgMtbfFilterMismatch | week05-flask/app.py:119-121 | a record accepted with total = uptime = 2000000 and one failure has MTBF 2000000, yet the fleet's avg MTBF is 0 |
| FlaskApp.FailingRecordLeftOut | week05-flask/app.py:119-121 | a failing record whose MTBF reaches 999999 counts in the denominator but is missing from the numerator |
| FlaskApp.FleetStatisticsMatched | week05-flask/app.py:115-127 | the corrected statistics: the same fleet availability and alerts; avg MTBF = the mean MTBF of the records that both failed and are below 999999, 0 when there are none |
| FlaskApp.MatchedAvgMtbfBetween | week05-flask/app.py:119-121 | the corrected avg MTBF lies between the lowest and highest MTBF it averages, hence below 999999 |
| FlaskApp.ReloadRestampsDate | week05-flask/app.py:67-76 | a record's date is written once, but after a reload the next save stamps the current time instead |
| FlaskApp.LoadRowKeepingDate | week05-flask/app.py:67-76 | the corrected load: the row's date is kept, and the status and MTBF are as in the original load |
| FlaskApp.KeptDateResavesUnchanged | week05-flask/app.py:82-106 | with the corrected load, saving again later writes the same row |
| FlaskApp.FirstNamed | week05-flask/app.py:217 | the index of the first record with the name, or none iff no record has it |
| FlaskApp.MaintenancePriority | week05-flask/app.py:224 | HIGH iff POOR, MEDIUM iff FAIR, LOW iff GOOD |
| FlaskApp.PerformanceScore | week05-flask/app.py:223 | min(100, availability + MTBF/10): at most both, and equal to one of them |
| FlaskApp.NoFailureScoresFull | week05-flask/app.py:223 | a record without failures, with a non-negative availability, scores 100 |
| FlaskApp.EquipmentDetails | week05-flask/app.py:212-226 | not found iff no record has the name; otherwise the first such record with its score and priority |
| FlaskApp.DeleteEquipment | week05-flask/app.py:230-246 | not found iff no record has the name; otherwise exactly the records of other names, in order, and fewer of them |
| FlaskApp.EquipmentByStatus | week05-flask/app.py:260-268 | the upper-cased status, the records whose status text equals it, and their count |
| FlaskApp.ByStatusIgnoresCase | week05-flask/app.py:263 | asking for a status in upper case gives the same answer |
| FlaskApp.UnknownStatusMatchesNothing | week05-flask/app.py:263 | a status that is not GOOD, FAIR or POOR after upper-casing matches no record |
| FlaskApp.NoneHasStatus | week05-flask/app.py:263 | no record carries a status text other than GOOD, FAIR or POOR |
| FlaskApp.StatusCountsPartition | week05-flask/app.py:260-268 | the three status counts add up to the number of records |
| DbApp.PerformanceReading.constructor | week06-database/app_with_db.py:67-79 | a new reading has its raw columns and no derived ones |
| DbApp.PerformanceReading.CalculateMetrics | week06-database/app_with_db.py:81-94 | the raw columns are unchanged, the derived columns follow the rule, and a reading that already follows it is left as it was, so a second call changes nothing |
| DbApp.AddReading | week06-database/app_with_db.py:259-290 | a fresh reading with the given raw values whose derived columns follow the rule |
| DbApp.FleetStatistics | week06-database/app_with_db.py:151-182 | all zero without readings; critical alerts = number of POOR readings; fleet availability = the mean availability of the latest readings; avg MTBF = the mean MTBF of the readings with failures, 0 when there are none |
| DbApp.FailingReadingsHaveMtbf | week06-database/app_with_db.py:167-168 | every reading that the MTBF mean sums has an MTBF |
| DbApp.FleetAvailabilityRange | week06-database/app_with_db.py:165 | with every availability in [0, 100], the fleet availability is too |
| DbApp.AvgMtbfBetween | week06-database/app_with_db.py:167-168 | the avg MTBF lies between the lowest and highest MTBF of the failing readings |
| DbApp.ComputedReadingsAggregable | week06-database/app_with_db.py:81-94 | readings computed by the rule have every column the statistics read |
| DbApp.RecentHistory | week06-database/app_with_db.py:235-236 | the newest readings, at most ten |
| DbApp.TrendOf | week06-database/app_with_db.py:239-243 | insufficient data iff fewer than 2 readings; otherwise improving, declining or stable exactly by the sign of newest − oldest |
| DbApp.DetailsTrend | week06-database/app_with_db.py:230-255 | fewer than ten readings: the trend of all of them and their number; otherwise the trend of the ten newest and 10, which is improving, declining or stable exactly as the newest is above, below or equal to the tenth newest |
| DbApp.TrendReversal | week06-database/app_with_db.py:239-243 | read oldest first, improving and declining swap and the rest stays |
| AuthApp.CheckAddRequest | week11-auth/app_with_auth.py:291-313 | the first missing field; then a null name (strip on None fails); then a stripped name the user already has; then uptime > total, each exactly in its case; otherwise the stripped name, new to the user |
| AuthApp.AddEquipment | week11-auth/app_with_auth.py:291-338 | a reading is created exactly when the checks pass, with the given hours, the failure count truncated by `int()`, and the rule's derived columns |
| AuthApp.NegativeFailuresAccepted | week11-auth/app_with_auth.py:312-325 | a failure count of −1 or less passes, and the reading gets MTBF 999999 and MTTR 0 |
| AuthApp.BlankNameAccepted | week11-auth/app_with_auth.py:302-313 | a name that is blank after strip passes when the user has no blank-named equipment |
| AuthApp.ToDict | week11-auth/app_with_auth.py:75-106 | without a reading, status NO DATA with availability, MTBF and failures 0; with one, the reading's values and status text |
| AuthApp.NoDataOnlyWithoutReadings | week11-auth/app_with_auth.py:95-106 | the status is NO DATA exactly when there is no reading |
| AuthApp.NoDataZerosAreNotAReading | week11-auth/app_with_auth.py:103-105 | a computed reading with positive total shows availability 0 exactly when its uptime is 0 |
| AuthApp.FleetStatistics | week11-auth/app_with_auth.py:245-275 | all zero without equipment or readings; critical alerts = number of POOR readings; fleet availability = the mean over the readings that have one, 0 when none has; avg MTBF = the mean over the failing readings below 999999, 0 when there are none |
| AuthApp.FleetAvailabilityBetween | week11-auth/app_with_auth.py:263-264 | the fleet availability lies between the lowest and highest availability that is set |
| AuthApp.AvgMtbfBelowSentinel | week11-auth/app_with_auth.py:266-267 | the avg MTBF is below 999999, and lies within the bounds of the MTBFs it averages |
| RcaModels.Progress | projects/rca-tool/app/models/investigation.py:61-72 | at most 100; 0 exactly for a status outside the six stages; 100 exactly for completed |
| RcaModels.ProgressIncreasesAlongStages | projects/rca-tool/app/models/investigation.py:64-71 | a later stage shows strictly more progress than an earlier one, and every stage more than 0 |
| RcaModels.ReferenceNumber | projects/rca-tool/app/models/investigation.py:59 | starts with RCA- |
| RcaModels.ReferenceNumberRoundTrip | projects/rca-tool/app/models/investigation.py:53-59 | a reference number reads back as its year and one more than the count of this year's investigations |
| RcaModels.ReferenceNumbersDistinct | projects/rca-tool/app/models/investigation.py:53-59 | different years or counts give different reference numbers |
| RcaModels.Investigation.constructor | projects/rca-tool/app/models/investigation.py:21-27 | a new investigation is at stage s0 without a reference number |
| RcaModels.Investigation.GenerateReferenceNumber | projects/rca-tool/app/models/investigation.py:53-59 | the number carries the year and one more than the stored investigations created that year; the stage is unchanged |
| RcaModels.WhyTreeNode.constructor | projects/rca-tool/app/models/investigation.py:126-134 | the column defaults: level 1, not a root cause |
| RcaModels.WhyTreeNode.CalculateLevel | projects/rca-tool/app/models/investigation.py:144-152 | level 1 without a parent id; a node with a parent id whose parent is not loaded raises and is left unchanged; otherwise the parent's level + 1, and the root-cause flag is set from level 3 on, never cleared, and untouched at a top node |
| RcaModels.BuildWhyChain | projects/rca-tool/app/models/investigation.py:144-152 | in a chain of nodes each levelled under the one before, node i is at level i + 1 and exactly the nodes from the third level on are root causes |
| RcaModels.IsOverdue | projects/rca-tool/app/models/investigation.py:184-188 | never overdue when completed or without a due date; otherwise overdue exactly when today is past the due date |
| RcaModels.OverdueStaysOverdue | projects/rca-tool/app/models/investigation.py:184-188 | an overdue item stays overdue on every later day, and is never overdue on its due date |
| RcaViews.Stats | projects/rca-tool/app/views/investigations.py:16-22 | total is the count; in progress + completed = total; overdue counts exactly the investigations more than 30 days past their incident |
| RcaViews.CategoryKeys | projects/rca-tool/app/models/investigation.py:95-100 | the names of the first n categories and nothing else |
| RcaViews.FactsByCategory | projects/rca-tool/app/views/investigations.py:57-63 | exactly the keys people, position, paper and parts; each maps to its label and its facts in original order; a fact appears under its own category only, and facts of other categories nowhere |
| RcaViews.GroupsPlaceFacts | projects/rca-tool/app/views/investigations.py:62 | each group holds a fact exactly when the fact belongs to the investigation and has the group's category |
| FailureLog.ContainsAny | daily-exercises/c_class.py:11 | true exactly when one of the keywords occurs in the text |
| FailureLog.IsCritical | daily-exercises/c_class.py:9-11 | critical exactly when the lower-cased issue contains explosion, fire, overheat or rupture anywhere |
| FailureLog.CriticalUnderExtension | daily-exercises/c_class.py:9-11 | text added around a critical issue keeps it critical |
| FailureLog.Summary | daily-exercises/c_class.py:13-14 | the summary starts with the equipment, ends with the issue, and is 13 characters longer than the three fields |
| FailureLog.ParseLine | daily-exercises/c_class.py:21-26 | an event exactly when the stripped line splits into three parts on " - "; the equipment is the first part without its enclosing brackets, the date and issue are taken verbatim |
| FailureLog.ParsedFieldsClean | daily-exercises/c_class.py:21-25 | a parsed date and issue contain no separator, and the equipment neither begins nor ends with a bracket |
| FailureLog.ParseLog | daily-exercises/c_class.py:17-27 | the events of the lines that parse, in line order |
| FailureLog.Summaries | daily-exercises/c_class.py:31-33 | one summary per event, in order |
| FailureLog.CriticalSummaries | daily-exercises/c_class.py:29-33 | the summaries of exactly the critical events, in event order |
| FailureLog.ParseFormatRoundTrip | daily-exercises/c_class.py:19-27 | an event written as `[equipment] - date - issue` parses back to itself when no field holds the separator, the equipment has no outer brackets and the issue does not end in whitespace |
| FailureLog.ParseSplitLine | daily-exercises/c_class.py:21-26 | a line that strip leaves unchanged and that splits into three parts parses into those parts |
| FailureLog.FormattedLineSplits | daily-exercises/c_class.py:21 | a written line splits into the bracketed equipment, the date and the issue |
| Text.JoinSplit | daily-exercises/c_class.py:21 | joining the parts of a split with the separator gives the text back |
| Text.SplitPartsFree | daily-exercises/c_class.py:21 | no part of a split contains the separator |
| DashboardUi.StatusClass | week10-react/reliability-dashboard/src/App.js:309-320 | badge-good, badge-fair and badge-poor exactly for GOOD, FAIR and POOR; badge-nodata for anything else, null included |
| DashboardUi.TierBadge | week10-react/reliability-dashboard/src/App.js:309-320 | every tier gets the badge named after it in lower case |
| DashboardUi.NoDataBadgeWithoutStatus | week10-react/reliability-dashboard/src/App.js:341 | in the equipment row, the no-data badge shows exactly when the equipment has no reading or its reading has no status |
| DashboardUi.FormatMtbf | week10-react/reliability-dashboard/src/App.js:322-325 | "No failures" exactly when the MTBF is missing, 0 or ≥ 999999; otherwise the hours themselves |
| DashboardUi.SentinelMtbfLabel | week10-react/reliability-dashboard/src/App.js:322-325 | for metrics computed by the rule, every reading without failures reads "No failures"; one with failures does so exactly when it had no uptime or its MTBF reaches the sentinel |
| DashboardUi.FleetAvailabilityCard | week10-react/reliability-dashboard/src/App.js:155-161 | good iff ≥ 95, fair iff 90 ≤ a < 95, poor iff < 90 |
| DashboardUi.CardFollowsTier | week10-react/reliability-dashboard/src/App.js:155-161 | the card's class is the lower-cased name of the availability's tier |
| DashboardUi.CriticalAlertsCard | week10-react/reliability-dashboard/src/App.js:172 | poor iff there is at least one alert, good otherwise |
| DashboardUi.AlertsCardShowsPoorRecord | week10-react/reliability-dashboard/src/App.js:172 | fed with the API's statistics, the card is poor exactly when some record is POOR |
| DashboardUi.HandleInputChange | week10-react/reliability-dashboard/src/App.js:55-60 | the named input holds the new value, every other input keeps its value, and no other input appears |
| DashboardUi.InputChangesCommute | week10-react/reliability-dashboard/src/App.js:55-60 | changes to two different inputs give the same form in either order |

## Left out

- Floating point is not modelled. Hours are Dafny `real`, so IEEE rounding, `round(x, 2)`, the `:.2f` and `:.1f` text and `toFixed(1)` are absent. The CSV columns hold exact numbers.
- Python's `lower` and `upper` are modelled on ASCII only; Unicode case mapping is out of scope. `strip` removes every character `str.isspace` accepts.
- FleetTracker.DecodeMtbf: a cell is either the text 'inf' or a numeral; other spellings that `float()` also reads as infinity ('Infinity', 'INF', '+inf') and text that it refuses are not modelled.
- FlaskApp.NewEquipment: the name is a JSON string or null and the three numbers are JSON numbers; a string or boolean in a numeric field, and a number or boolean as the name, which `float()`, `int()` and `str()` convert or refuse with a 500 response, are not modelled.
- AuthApp.AddEquipment: the same request as FlaskApp.NewEquipment; a string or boolean in a numeric field, and a number or boolean as the name, are not modelled.
- Every `input()`, `print`, CSV reader and writer, and file open is left out. Rows and lines are sequences; the menu loop of `main` in week02 is not modelled beyond its worst and best performers.
- Clock reads (`datetime.now`, `utcnow`) are parameters: `now`, `year`, `today` and `daysSinceIncident`.
- The sample data that week05's `load_equipment_data` returns when the CSV file is missing (week05-flask/app.py:31-52) is fixture data, not a rule; it is not modelled.
- SQLAlchemy queries are given as their results: the latest-reading query, `get_or_404`, the count of this year's investigations, and session commit and rollback.
- Flask routing, JSON parsing and the HTTP codes are `Result` values. The `ValueError`/`TypeError` paths that end in a 500 response (a non-numeric field, a division by zero with a negative total) are left out.
- Authentication, sessions, the RCA tool's other routes (`create_investigation`, `add_fact`) and the app factory are left out.
- week06's `add_equipment` is modelled only through the reading it creates (`DbApp.AddReading`); its duplicate-name query and the rest of week06 (delete, worst performers, readings listing) are not modelled.
- FlaskApp.EquipmentDetails: the source writes the score and priority into the found dictionary in place; the model returns them beside the record as a value.
- DbApp.FleetStatistics: requires `Aggregable`, because the source raises on a reading without availability, or a failing reading without MTBF, and answers 500.
- AuthApp.FleetStatistics: requires `MtbfSetWhenFailed`, because comparing a missing MTBF with 999999 raises in the source.
- RcaViews.Stats: `days_since_incident` is given per investigation; its computation from the incident date and the clock is left out.
- RcaModels.WhyTreeNode.CalculateLevel: a parent that was never flushed still has no level, because the column default of 1 is applied only when the row is inserted, and the source then raises a TypeError on `None + 1`. The model gives every node an integer level, so it does not capture that case: its constructors set the defaults that the inserted row would hold.
- RcaModels.IsOverdue: dates are compared as (year, month, day); calendar validity is not checked.
- DashboardUi.FormatMtbf: the label carries the hours as a number; the `toFixed(1)` text with its `h` suffix is not modelled.
- React state, `fetch`, timers and JSX rendering in App.js are left out apart from the helpers above.

## Findings

| source | as written | input that shows it | evidently intended | confidence | as-written member | corrected member |
|---|---|---|---|---|---|---|
| week05-flask/app.py:119-121 | the avg MTBF sums the MTBFs below 999999 but divides by the number of records with failures | one record with a non-blank name, total = uptime = 2000000 hours and 1 failure: MTBF 2000000, avg MTBF 0 (and with other failing records the mean is pulled down) | average the MTBF over the records that both failed and are below 999999, as week11 does | not executed | FlaskApp.AvgMtbfFilterMismatch | FlaskApp.MatchedAvgMtbfBetween |
| week05-flask/app.py:67-76, 103 | the loader drops `date_added`, so every later save stamps the current time as the date the equipment was added | a record added at time t, saved, reloaded and saved again at t' ≠ t: the file now says it was added at t' | keep `date_added` through a reload, so a re-save writes the same row | not executed | FlaskApp.ReloadRestampsDate | FlaskApp.KeptDateResavesUnchanged |

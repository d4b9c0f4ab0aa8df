/**
 * The day-two console fleet tracker: validated equipment records with
 * derived metrics, the pooled fleet summary, the CSV columns of a record,
 * and the worst- and best-performer menu entries. No failures is
 * float('inf') here, modelled as Reliability.Infinite.
 */
module FleetTracker {
  import opened Outcomes
  import opened Text
  import opened Reliability

  datatype Equipment = Equipment(
    name: string,
    totalHours: real,
    uptimeHours: real,
    failures: int,
    downtime: real,
    availability: real,
    mtbf: Mtbf,
    mttr: real,
    dateAdded: string)

  /** The three validation messages create_equipment_record prints before giving up. */
  datatype InputError = EmptyName | UptimeExceedsTotal | NegativeFailures

  /** The derived fields of a record agree with its raw fields under the day-two rule. */
  predicate WellDerived(e: Equipment)
  {
    && e.downtime + e.uptimeHours == e.totalHours
    && (e.totalHours > 0.0 ==> e.availability * e.totalHours == e.uptimeHours * 100.0)
    && (e.totalHours <= 0.0 ==> e.availability == 0.0)
    && (e.failures > 0 ==> e.mtbf.Finite? && e.mtbf.hours * e.failures as real == e.uptimeHours)
    && (e.failures > 0 ==> e.mttr * e.failures as real == e.downtime)
    && (e.failures <= 0 ==> e.mtbf == Infinite && e.mttr == 0.0)
  }

  /**
   * create_equipment_record with the answers to its prompts as parameters
   * (rawName is the name line before strip, now the timestamp text). The name
   * is checked first, then uptime against total, then the failure count.
   */
  function CreateEquipmentRecord(rawName: string, totalHours: real, uptimeHours: real, failures: int, now: string)
    : (r: Result<Equipment, InputError>)
    ensures r == Err(EmptyName) <==> Strip(rawName) == []
    ensures r == Err(UptimeExceedsTotal) <==> Strip(rawName) != [] && uptimeHours > totalHours
    ensures r == Err(NegativeFailures) <==> Strip(rawName) != [] && uptimeHours <= totalHours && failures < 0
    ensures r.Ok? ==> r.value.name == Strip(rawName) && r.value.dateAdded == now
    ensures r.Ok? ==> r.value.totalHours == totalHours && r.value.uptimeHours == uptimeHours && r.value.failures == failures
    ensures r.Ok? ==> WellDerived(r.value)
  {
    var name := Strip(rawName);
    if name == [] then Err(EmptyName)
    else if uptimeHours > totalHours then Err(UptimeExceedsTotal)
    else if failures < 0 then Err(NegativeFailures)
    else Ok(DeriveMetrics(name, totalHours, uptimeHours, failures, now))
  }

  /** The metric lines of create_equipment_record, applied to validated input. */
  function DeriveMetrics(name: string, totalHours: real, uptimeHours: real, failures: int, now: string): (e: Equipment)
    ensures e.name == name && e.dateAdded == now
    ensures e.totalHours == totalHours && e.uptimeHours == uptimeHours && e.failures == failures
    ensures WellDerived(e)
  {
    var downtime := totalHours - uptimeHours;
    var availability := if totalHours > 0.0 then uptimeHours / totalHours * 100.0 else 0.0;
    var mtbf := if failures > 0 then Finite(uptimeHours / failures as real) else Infinite;
    var mttr := if failures > 0 then downtime / failures as real else 0.0;
    Equipment(name, totalHours, uptimeHours, failures, downtime, availability, mtbf, mttr, now)
  }

  /** An accepted record with no failures has an infinite MTBF and a zero MTTR, never a finite stand-in. */
  lemma NoFailuresIsInfinite(rawName: string, totalHours: real, uptimeHours: real, now: string)
    requires CreateEquipmentRecord(rawName, totalHours, uptimeHours, 0, now).Ok?
    ensures CreateEquipmentRecord(rawName, totalHours, uptimeHours, 0, now).value.mtbf == Infinite
    ensures CreateEquipmentRecord(rawName, totalHours, uptimeHours, 0, now).value.mttr == 0.0
  {
  }

  // The fleet-wide sums that display_fleet_summary accumulates.

  function TotalUptime(fleet: seq<Equipment>): real
  {
    if fleet == [] then 0.0 else TotalUptime(fleet[..|fleet| - 1]) + fleet[|fleet| - 1].uptimeHours
  }

  function TotalHours(fleet: seq<Equipment>): real
  {
    if fleet == [] then 0.0 else TotalHours(fleet[..|fleet| - 1]) + fleet[|fleet| - 1].totalHours
  }

  function TotalFailures(fleet: seq<Equipment>): int
  {
    if fleet == [] then 0 else TotalFailures(fleet[..|fleet| - 1]) + fleet[|fleet| - 1].failures
  }

  /** Fleet availability: pooled uptime over pooled hours, in percent, or 0 when no hours were recorded. */
  function PooledAvailability(fleet: seq<Equipment>): real
  {
    if TotalHours(fleet) > 0.0 then TotalUptime(fleet) / TotalHours(fleet) * 100.0 else 0.0
  }

  /** Fleet MTBF: pooled uptime per pooled failure, or infinite when the pooled count is not positive. */
  function PooledMtbf(fleet: seq<Equipment>): Mtbf
  {
    if TotalFailures(fleet) > 0 then Finite(TotalUptime(fleet) / TotalFailures(fleet) as real) else Infinite
  }

  /** What display_fleet_summary prints: each record's tier, the two pooled figures and the record count. */
  datatype FleetSummary = FleetSummary(tiers: seq<Status>, availability: real, mtbf: Mtbf, totalEquipment: nat)

  /** display_fleet_summary: nothing for an empty fleet, otherwise one pass that classifies each record and accumulates the totals. */
  method DisplayFleetSummary(fleet: seq<Equipment>) returns (s: Option<FleetSummary>)
    ensures s.None? <==> fleet == []
    ensures s.Some? ==> |s.value.tiers| == |fleet|
    ensures s.Some? ==> forall i :: 0 <= i < |fleet| ==> s.value.tiers[i] == Classify(fleet[i].availability)
    ensures s.Some? ==> s.value.availability == PooledAvailability(fleet)
    ensures s.Some? ==> s.value.mtbf == PooledMtbf(fleet)
    ensures s.Some? ==> s.value.totalEquipment == |fleet|
  {
    if fleet == [] {
      return None;
    }
    var totalUptime, totalHours, totalFailures := 0.0, 0.0, 0;
    var tiers: seq<Status> := [];
    for i := 0 to |fleet|
      invariant |tiers| == i
      invariant forall k :: 0 <= k < i ==> tiers[k] == Classify(fleet[k].availability)
      invariant totalUptime == TotalUptime(fleet[..i])
      invariant totalHours == TotalHours(fleet[..i])
      invariant totalFailures == TotalFailures(fleet[..i])
    {
      var eq := fleet[i];
      var status := if eq.availability >= 95.0 then Good else if eq.availability >= 90.0 then Fair else Poor;
      tiers := tiers + [status];
      assert fleet[..i + 1][..i] == fleet[..i];
      totalUptime := totalUptime + eq.uptimeHours;
      totalHours := totalHours + eq.totalHours;
      totalFailures := totalFailures + eq.failures;
    }
    assert fleet[..|fleet|] == fleet;
    var availability := if totalHours > 0.0 then totalUptime / totalHours * 100.0 else 0.0;
    var mtbf := if totalFailures > 0 then Finite(totalUptime / totalFailures as real) else Infinite;
    s := Some(FleetSummary(tiers, availability, mtbf, |fleet|));
  }

  /**
   * For records with positive hours whose availability is their own
   * uptime/total, the pooled availability lies between the lowest and the
   * highest availability in the fleet.
   */
  lemma {:induction false} PooledAvailabilityBetween(fleet: seq<Equipment>, lo: real, hi: real)
    requires forall i :: 0 <= i < |fleet| ==> OwnAvailability(fleet[i])
    requires forall i :: 0 <= i < |fleet| ==> lo <= fleet[i].availability <= hi
    requires fleet != []
    ensures lo <= PooledAvailability(fleet) <= hi
  {
    WeightedUptimeBounds(fleet, lo, hi);
    assert forall i :: 0 <= i < |fleet| ==> fleet[i].totalHours > 0.0;
    TotalHoursPositive(fleet);
    PooledFromTotals(fleet, lo, hi);
  }

  lemma PooledFromTotals(fleet: seq<Equipment>, lo: real, hi: real)
    requires TotalHours(fleet) > 0.0
    requires lo * TotalHours(fleet) <= TotalUptime(fleet) * 100.0 <= hi * TotalHours(fleet)
    ensures lo <= PooledAvailability(fleet) <= hi
  {
    PercentBounds(TotalUptime(fleet), TotalHours(fleet), lo, hi);
  }

  lemma PercentBounds(u: real, t: real, lo: real, hi: real)
    requires t > 0.0 && lo * t <= u * 100.0 <= hi * t
    ensures lo <= u / t * 100.0 <= hi
  {
    var p := u / t * 100.0;
    assert p * t == u * 100.0;
    if p < lo {
      MulMono(p, lo, t);
    }
    if p > hi {
      MulMono(hi, p, t);
    }
  }

  lemma MulMono(a: real, b: real, t: real)
    requires a <= b && t > 0.0
    ensures a * t <= b * t
    ensures a < b ==> a * t < b * t
  {
  }

  /** The record has positive hours and its availability is its own uptime over total, in percent. */
  predicate OwnAvailability(e: Equipment)
  {
    e.totalHours > 0.0 && e.availability * e.totalHours == e.uptimeHours * 100.0
  }

  lemma {:induction false} WeightedUptimeBounds(fleet: seq<Equipment>, lo: real, hi: real)
    requires forall i :: 0 <= i < |fleet| ==> OwnAvailability(fleet[i])
    requires forall i :: 0 <= i < |fleet| ==> lo <= fleet[i].availability <= hi
    ensures lo * TotalHours(fleet) <= TotalUptime(fleet) * 100.0 <= hi * TotalHours(fleet)
  {
    if fleet != [] {
      var init, e := fleet[..|fleet| - 1], fleet[|fleet| - 1];
      forall i | 0 <= i < |init| ensures OwnAvailability(init[i]) && lo <= init[i].availability <= hi {
        assert init[i] == fleet[i];
      }
      WeightedUptimeBounds(init, lo, hi);
      assert OwnAvailability(e) && lo <= e.availability <= hi;
      assert TotalHours(fleet) == TotalHours(init) + e.totalHours;
      assert TotalUptime(fleet) == TotalUptime(init) + e.uptimeHours;
      AddWeighted(lo, hi, TotalHours(init), TotalUptime(init), e.totalHours, e.uptimeHours, e.availability);
    }
  }

  /** Adding one record whose availability lies in [lo, hi] keeps the pooled bounds. */
  lemma AddWeighted(lo: real, hi: real, hours: real, uptime: real, h: real, u: real, a: real)
    requires lo * hours <= uptime * 100.0 <= hi * hours
    requires h > 0.0 && a * h == u * 100.0 && lo <= a <= hi
    ensures lo * (hours + h) <= (uptime + u) * 100.0 <= hi * (hours + h)
  {
    MulMono(lo, a, h);
    MulMono(a, hi, h);
    Distribute(lo, hours, h);
    Distribute(hi, hours, h);
  }

  lemma Distribute(k: real, a: real, b: real)
    ensures k * (a + b) == k * a + k * b
  {
  }

  lemma {:induction false} TotalHoursPositive(fleet: seq<Equipment>)
    requires forall i :: 0 <= i < |fleet| ==> fleet[i].totalHours > 0.0
    ensures fleet != [] ==> TotalHours(fleet) > 0.0
    ensures TotalHours(fleet) >= 0.0
  {
    if fleet != [] {
      TotalHoursPositive(fleet[..|fleet| - 1]);
    }
  }

  /** With no negative failure counts, the fleet MTBF is infinite exactly when no record has a failure. */
  lemma {:induction false} PooledMtbfInfinite(fleet: seq<Equipment>)
    requires forall i :: 0 <= i < |fleet| ==> fleet[i].failures >= 0
    ensures PooledMtbf(fleet) == Infinite <==> forall i :: 0 <= i < |fleet| ==> fleet[i].failures == 0
  {
    TotalFailuresZero(fleet);
  }

  lemma {:induction false} TotalFailuresZero(fleet: seq<Equipment>)
    requires forall i :: 0 <= i < |fleet| ==> fleet[i].failures >= 0
    ensures TotalFailures(fleet) >= 0
    ensures TotalFailures(fleet) == 0 <==> forall i :: 0 <= i < |fleet| ==> fleet[i].failures == 0
  {
    if fleet != [] {
      var init := fleet[..|fleet| - 1];
      TotalFailuresZero(init);
      if TotalFailures(fleet) == 0 {
        forall i | 0 <= i < |fleet| ensures fleet[i].failures == 0 {
          if i < |init| { assert fleet[i] == init[i]; }
        }
      }
    }
  }

  // The CSV columns of a record.

  /** The MTBF column: the text 'inf' for an infinite MTBF, its number otherwise. */
  function EncodeMtbf(m: Mtbf): (c: MtbfCell)
    ensures c == InfText <==> m == Infinite
  {
    match m
    case Infinite => InfText
    case Finite(h) => Numeral(h)
  }

  /** Reading the MTBF column back: 'inf' is infinity. */
  function DecodeMtbf(c: MtbfCell): (m: Mtbf)
    ensures m == Infinite <==> c == InfText
    ensures c.Numeral? ==> m == Finite(c.value)
  {
    match c
    case InfText => Infinite
    case Numeral(v) => Finite(v)
  }

  lemma MtbfRoundTrip(m: Mtbf)
    ensures DecodeMtbf(EncodeMtbf(m)) == m
  {
  }

  /** One row of fleet_data.csv as save_fleet_to_csv writes it (there is no downtime column). */
  datatype FleetRow = FleetRow(
    name: string,
    totalHours: real,
    uptimeHours: real,
    failures: int,
    availability: real,
    mtbf: MtbfCell,
    mttr: real,
    dateAdded: string)

  function SaveRow(e: Equipment): FleetRow
  {
    FleetRow(e.name, e.totalHours, e.uptimeHours, e.failures, e.availability, EncodeMtbf(e.mtbf), e.mttr, e.dateAdded)
  }

  /** The record load_fleet_from_csv builds from a row: downtime is recomputed from the two hour columns. */
  function LoadRow(row: FleetRow): (e: Equipment)
    ensures e.downtime + e.uptimeHours == e.totalHours
    ensures e.mtbf == Infinite <==> row.mtbf == InfText
  {
    Equipment(row.name, row.totalHours, row.uptimeHours, row.failures,
              row.totalHours - row.uptimeHours, row.availability, DecodeMtbf(row.mtbf), row.mttr, row.dateAdded)
  }

  /** Saving a record and loading the row back gives the same record, for every record whose downtime is total minus uptime. */
  lemma LoadSaveRoundTrip(e: Equipment)
    requires e.downtime + e.uptimeHours == e.totalHours
    ensures LoadRow(SaveRow(e)) == e
  {
  }

  /** save_fleet_to_csv: nothing is written for an empty fleet, otherwise one row per record in fleet order. */
  method SaveFleetToCsv(fleet: seq<Equipment>) returns (rows: Option<seq<FleetRow>>)
    ensures rows.None? <==> fleet == []
    ensures rows.Some? ==> |rows.value| == |fleet| && forall i :: 0 <= i < |fleet| ==> rows.value[i] == SaveRow(fleet[i])
  {
    if fleet == [] {
      return None;
    }
    var written: seq<FleetRow> := [];
    for i := 0 to |fleet|
      invariant |written| == i
      invariant forall k :: 0 <= k < i ==> written[k] == SaveRow(fleet[k])
    {
      written := written + [SaveRow(fleet[i])];
    }
    rows := Some(written);
  }

  /** load_fleet_from_csv: one record per row, in file order. */
  method LoadFleetFromCsv(rows: seq<FleetRow>) returns (fleet: seq<Equipment>)
    ensures |fleet| == |rows|
    ensures forall i :: 0 <= i < |rows| ==> fleet[i] == LoadRow(rows[i])
  {
    fleet := [];
    for i := 0 to |rows|
      invariant |fleet| == i
      invariant forall k :: 0 <= k < i ==> fleet[k] == LoadRow(rows[k])
    {
      fleet := fleet + [LoadRow(rows[i])];
    }
  }

  /** Menu option 4, min(fleet, key=availability): the first record of lowest availability, or nothing for an empty fleet. */
  method WorstPerformer(fleet: seq<Equipment>) returns (worst: Option<nat>)
    ensures worst.None? <==> fleet == []
    ensures worst.Some? ==> worst.value < |fleet|
    ensures worst.Some? ==> forall j :: 0 <= j < |fleet| ==> fleet[worst.value].availability <= fleet[j].availability
    ensures worst.Some? ==> forall j :: 0 <= j < worst.value ==> fleet[j].availability > fleet[worst.value].availability
  {
    if fleet == [] {
      return None;
    }
    var w := 0;
    for i := 1 to |fleet|
      invariant w < i
      invariant forall j :: 0 <= j < i ==> fleet[w].availability <= fleet[j].availability
      invariant forall j :: 0 <= j < w ==> fleet[j].availability > fleet[w].availability
    {
      if fleet[i].availability < fleet[w].availability {
        w := i;
      }
    }
    worst := Some(w);
  }

  /** Menu option 6, max(fleet, key=availability): the first record of highest availability, or nothing for an empty fleet. */
  method BestPerformer(fleet: seq<Equipment>) returns (best: Option<nat>)
    ensures best.None? <==> fleet == []
    ensures best.Some? ==> best.value < |fleet|
    ensures best.Some? ==> forall j :: 0 <= j < |fleet| ==> fleet[best.value].availability >= fleet[j].availability
    ensures best.Some? ==> forall j :: 0 <= j < best.value ==> fleet[j].availability < fleet[best.value].availability
  {
    if fleet == [] {
      return None;
    }
    var b := 0;
    for i := 1 to |fleet|
      invariant b < i
      invariant forall j :: 0 <= j < i ==> fleet[b].availability >= fleet[j].availability
      invariant forall j :: 0 <= j < b ==> fleet[j].availability < fleet[b].availability
    {
      if fleet[i].availability > fleet[b].availability {
        b := i;
      }
    }
    best := Some(b);
  }
}

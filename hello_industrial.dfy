/**
 * The day-one reliability calculator: four single-formula functions and the
 * grading ladder applied to the computed availability. Here no failure means
 * an infinite MTBF (float('inf')), and the guards test for zero with `==`,
 * so negative inputs fall through to the division.
 */
module HelloIndustrial {
  import opened Reliability

  /** calculate_mtbf: infinite when there is no failure, otherwise hours per failure. */
  function CalculateMtbf(totalOperatingHours: real, numberOfFailures: int): (m: Mtbf)
    ensures m == Infinite <==> numberOfFailures == 0
    ensures m.Finite? ==> m.hours * numberOfFailures as real == totalOperatingHours
  {
    if numberOfFailures == 0 then Infinite
    else Finite(totalOperatingHours / numberOfFailures as real)
  }

  /** calculate_availability: uptime as a percentage of total hours, or 0 when total is 0. */
  function CalculateAvailability(uptimeHours: real, totalHours: real): (a: real)
    ensures totalHours == 0.0 ==> a == 0.0
    ensures totalHours != 0.0 ==> a * totalHours == uptimeHours * 100.0
  {
    if totalHours == 0.0 then 0.0 else uptimeHours / totalHours * 100.0
  }

  /** calculate_downtime: the part of the period the equipment was not up. */
  function CalculateDowntime(totalHours: real, uptimeHours: real): (d: real)
    ensures d + uptimeHours == totalHours
  {
    totalHours - uptimeHours
  }

  /** calculate_mttr: 0 when there is no failure, otherwise downtime per failure. */
  function CalculateMttr(downtimeHours: real, numberOfFailures: int): (r: real)
    ensures numberOfFailures == 0 ==> r == 0.0
    ensures numberOfFailures != 0 ==> r * numberOfFailures as real == downtimeHours
  {
    if numberOfFailures == 0 then 0.0 else downtimeHours / numberOfFailures as real
  }

  /** The reliability grade printed for the user's equipment. */
  datatype Grade = Excellent | GoodGrade | FairGrade | NeedsImprovement

  /** The grading ladder: 99, 95 and 90 are the inclusive lower bounds of the upper three grades. */
  function ReliabilityGrade(availability: real): (g: Grade)
    ensures g == Excellent <==> availability >= 99.0
    ensures g == GoodGrade <==> 95.0 <= availability < 99.0
    ensures g == FairGrade <==> 90.0 <= availability < 95.0
    ensures g == NeedsImprovement <==> availability < 90.0
  {
    if availability >= 99.0 then Excellent
    else if availability >= 95.0 then GoodGrade
    else if availability >= 90.0 then FairGrade
    else NeedsImprovement
  }

  function GradeRank(g: Grade): nat
  {
    match g
    case NeedsImprovement => 0
    case FairGrade => 1
    case GoodGrade => 2
    case Excellent => 3
  }

  /** A higher availability never gets a lower grade. */
  lemma GradeMonotone(a: real, b: real)
    requires a <= b
    ensures GradeRank(ReliabilityGrade(a)) <= GradeRank(ReliabilityGrade(b))
  {
  }

  /** The grade refines the three-tier status: EXCELLENT and GOOD are GOOD, FAIR is FAIR, the rest POOR. */
  lemma GradeRefinesStatus(a: real)
    ensures ReliabilityGrade(a) in {Excellent, GoodGrade} <==> Classify(a) == Good
    ensures ReliabilityGrade(a) == FairGrade <==> Classify(a) == Fair
    ensures ReliabilityGrade(a) == NeedsImprovement <==> Classify(a) == Poor
  {
  }

  /** The report the calculator prints for one piece of equipment, computed as the script chains the four functions. */
  datatype Report = Report(mtbf: Mtbf, availability: real, downtime: real, mttr: real, grade: Grade)

  function CalculateReport(totalHours: real, uptimeHours: real, failures: int): (r: Report)
    ensures r.downtime + uptimeHours == totalHours
    ensures failures == 0 <==> r.mtbf == Infinite
    ensures failures == 0 ==> r.mttr == 0.0
    ensures failures != 0 ==> r.mtbf.hours * failures as real == uptimeHours
    ensures failures != 0 ==> r.mttr * failures as real + uptimeHours == totalHours
    ensures totalHours == 0.0 ==> r.availability == 0.0
    ensures totalHours != 0.0 ==> r.availability * totalHours == uptimeHours * 100.0
    ensures r.grade == ReliabilityGrade(r.availability)
  {
    var mtbf := CalculateMtbf(uptimeHours, failures);
    var availability := CalculateAvailability(uptimeHours, totalHours);
    var downtime := CalculateDowntime(totalHours, uptimeHours);
    var mttr := CalculateMttr(downtime, failures);
    Report(mtbf, availability, downtime, mttr, ReliabilityGrade(availability))
  }

  /** With 0 <= uptime <= total and total positive, the availability is a percentage. */
  lemma AvailabilityIsPercentage(uptimeHours: real, totalHours: real)
    requires 0.0 <= uptimeHours <= totalHours && totalHours > 0.0
    ensures 0.0 <= CalculateAvailability(uptimeHours, totalHours) <= 100.0
  {
  }
}

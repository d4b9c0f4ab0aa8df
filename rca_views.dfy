/**
 * The investigation views of the root-cause-analysis tool: the counts on the
 * dashboard and the grouping of an investigation's facts under the four P's.
 */
module RcaViews {
  import opened Outcomes
  import opened Folds

  // ---------------------------------------------------------------- dashboard

  /** What the dashboard reads of an investigation: its stage and days_since_incident (None without an incident date). */
  datatype InvestigationSummary = InvestigationSummary(status: string, daysSinceIncident: Option<int>)

  datatype DashboardStats = DashboardStats(total: nat, inProgress: nat, completed: nat, overdue: nat)

  function IsCompleted(): InvestigationSummary -> bool { (i: InvestigationSummary) => i.status == "completed" }
  function IsOpen(): InvestigationSummary -> bool { (i: InvestigationSummary) => i.status != "completed" }

  /** An incident date more than 30 days back; `days and days > 30` is false for None and for 0. */
  function IsOverdue(): InvestigationSummary -> bool
  {
    (i: InvestigationSummary) => i.daysSinceIncident.Some? && i.daysSinceIncident.value != 0 && i.daysSinceIncident.value > 30
  }

  /**
   * The dashboard's stats: every investigation is either in progress or
   * completed, and overdue counts those whose incident is more than 30 days
   * old.
   */
  function Stats(investigations: seq<InvestigationSummary>): (s: DashboardStats)
    ensures s.total == |investigations|
    ensures s.inProgress + s.completed == s.total
    ensures s.completed == |Filter(investigations, IsCompleted())|
    ensures s.overdue == |Filter(investigations, IsOverdue())|
    ensures forall i :: 0 <= i < |investigations| ==>
              (IsOverdue()(investigations[i]) <==> investigations[i].daysSinceIncident.Some? && investigations[i].daysSinceIncident.value > 30)
  {
    CountSplits(investigations, IsOpen(), IsCompleted());
    CountIsFilterLength(investigations, IsCompleted());
    CountIsFilterLength(investigations, IsOverdue());
    DashboardStats(|investigations|, Count(investigations, IsOpen()), Count(investigations, IsCompleted()),
                   Count(investigations, IsOverdue()))
  }

  // ---------------------------------------------------------------- facts_by_category

  /** What the detail view reads of a fact: its category and title. */
  datatype Fact = Fact(category: string, title: string)

  /** InvestigationFact.CATEGORIES: the four P's with their labels, in display order. */
  const Categories: seq<(string, string)> := [
    ("people", "People"),
    ("position", "Position/Environment"),
    ("paper", "Paper/Procedures"),
    ("parts", "Parts/Equipment")
  ]

  datatype Group = Group(heading: string, facts: seq<Fact>)

  function InCategory(category: string): Fact -> bool { (f: Fact) => f.category == category }

  /** The names of the first n categories. */
  function CategoryKeys(n: nat): (keys: set<string>)
    requires n <= |Categories|
    ensures forall key :: key in keys ==> exists k :: 0 <= k < n && Categories[k].0 == key
    ensures forall k :: 0 <= k < n ==> Categories[k].0 in keys
  {
    if n == 0 then {} else CategoryKeys(n - 1) + {Categories[n - 1].0}
  }

  lemma CategoryNamesDistinct(j: nat, k: nat)
    requires j < k < |Categories|
    ensures Categories[j].0 != Categories[k].0
  {
    assert Categories[0].0[1] == 'e' && Categories[1].0[1] == 'o';
    assert Categories[2].0[1] == 'a' && Categories[3].0[1] == 'a';
    assert Categories[2].0[2] == 'p' && Categories[3].0[2] == 'r';
  }

  lemma AllCategoryKeys()
    ensures CategoryKeys(|Categories|) == {"people", "position", "paper", "parts"}
  {
    assert Categories[0].0 == "people" && Categories[1].0 == "position";
    assert Categories[2].0 == "paper" && Categories[3].0 == "parts";
  }

  /**
   * facts_by_category: one entry per category, keyed by its name, holding its
   * label (called heading here) and the investigation's facts of that
   * category in their original order. Every fact of one of the four
   * categories appears under its own key and under no other; facts of any
   * other category appear nowhere.
   */
  method FactsByCategory(facts: seq<Fact>) returns (groups: map<string, Group>)
    ensures groups.Keys == {"people", "position", "paper", "parts"}
    ensures forall k :: 0 <= k < |Categories| ==>
              groups[Categories[k].0] == Group(Categories[k].1, Filter(facts, InCategory(Categories[k].0)))
    ensures forall key, f :: key in groups ==> (f in groups[key].facts <==> f in facts && f.category == key)
  {
    groups := map[];
    for i := 0 to |Categories|
      invariant groups.Keys == CategoryKeys(i)
      invariant GroupedUpTo(facts, groups, i)
    {
      GroupStep(facts, groups, i);
      var category := Categories[i].0;
      groups := groups[category := Group(Categories[i].1, Filter(facts, InCategory(category)))];
    }
    AllCategoryKeys();
    GroupsPlaceFacts(facts, groups);
  }

  /** The first n categories each map to their heading and their facts. */
  predicate GroupedUpTo(facts: seq<Fact>, groups: map<string, Group>, n: nat)
    requires n <= |Categories|
  {
    forall k :: 0 <= k < n ==>
      Categories[k].0 in groups
      && groups[Categories[k].0] == Group(Categories[k].1, Filter(facts, InCategory(Categories[k].0)))
  }

  lemma GroupStep(facts: seq<Fact>, groups: map<string, Group>, i: nat)
    requires i < |Categories| && GroupedUpTo(facts, groups, i)
    ensures GroupedUpTo(facts, groups[Categories[i].0 := Group(Categories[i].1, Filter(facts, InCategory(Categories[i].0)))], i + 1)
  {
    forall k | 0 <= k < i ensures Categories[k].0 != Categories[i].0 {
      CategoryNamesDistinct(k, i);
    }
  }

  lemma GroupsPlaceFacts(facts: seq<Fact>, groups: map<string, Group>)
    requires groups.Keys == CategoryKeys(|Categories|)
    requires GroupedUpTo(facts, groups, |Categories|)
    ensures forall key, f :: key in groups ==> (f in groups[key].facts <==> f in facts && f.category == key)
  {
    forall key, f | key in groups ensures f in groups[key].facts <==> f in facts && f.category == key {
      var k :| 0 <= k < |Categories| && Categories[k].0 == key;
      assert groups[key].facts == Filter(facts, InCategory(key));
      FilterMembership(facts, InCategory(key), f);
    }
  }
}

/**
 * The models of the root-cause-analysis tool: the progress an investigation
 * shows for its stage, its reference number RCA-<year>-<count>, the level of
 * a why-tree node with its automatic root-cause flag, and the overdue rule
 * of an action item. The database queries behind them are replaced by the
 * values they return, and the clock by a parameter.
 */
module RcaModels {
  import opened Outcomes
  import opened Text
  import opened Folds

  // ---------------------------------------------------------------- Investigation.progress

  /** The progress percentage of each investigation stage. */
  const ProgressMap: map<string, nat> :=
    map["s0" := 20, "s1" := 40, "s2" := 60, "why_tree" := 80, "draft_report" := 90, "completed" := 100]

  /** The stages in the order an investigation goes through them. */
  const Stages: seq<string> := ["s0", "s1", "s2", "why_tree", "draft_report", "completed"]

  /** progress_map.get(status, 0) */
  function Progress(status: string): (p: nat)
    ensures p <= 100
    ensures p == 0 <==> status !in Stages
    ensures p == 100 <==> status == "completed"
  {
    if status in ProgressMap then ProgressMap[status] else 0
  }

  /** Each later stage shows strictly more progress than an earlier one. */
  lemma ProgressIncreasesAlongStages(i: nat, j: nat)
    requires i < j < |Stages|
    ensures 0 < Progress(Stages[i]) < Progress(Stages[j])
  {
    assert Stages[0] == "s0" && Stages[1] == "s1" && Stages[2] == "s2";
    assert Stages[3] == "why_tree" && Stages[4] == "draft_report" && Stages[5] == "completed";
  }

  // ---------------------------------------------------------------- generate_reference_number

  /** f"RCA-{year}-{count:03d}" with count the number of investigations created this year plus one. */
  function ReferenceNumber(year: nat, createdThisYear: nat): (r: string)
    ensures |r| >= 4 + 1 + 1 + 3 && r[..4] == "RCA-"
  {
    "RCA-" + Decimal(year) + "-" + ZeroPadded(createdThisYear + 1, 3)
  }

  /** Reading a reference number back: the year and the count between and after the dashes. */
  function ParseReferenceNumber(r: string): Option<(nat, nat)>
  {
    var parts := Split(r, "-");
    if |parts| == 3 && parts[0] == "RCA" && parts[1] != [] && AllDigits(parts[1])
       && parts[2] != [] && AllDigits(parts[2])
    then Some((DecimalValue(parts[1]), DecimalValue(parts[2])))
    else None
  }

  /** A reference number reads back as its year and as the count it was generated with. */
  lemma ReferenceNumberRoundTrip(year: nat, createdThisYear: nat)
    ensures ParseReferenceNumber(ReferenceNumber(year, createdThisYear)) == Some((year, createdThisYear + 1))
  {
    var y := Decimal(year);
    var c := ZeroPadded(createdThisYear + 1, 3);
    var rest := y + "-" + c;
    assert ReferenceNumber(year, createdThisYear) == "RCA" + "-" + rest;
    SplitAtChar("RCA", '-', rest);
    DigitsHaveNoDash(y);
    DigitsHaveNoDash(c);
    SplitAtChar(y, '-', c);
    SplitWithoutChar(c, '-');
    DecimalRoundTrip(year);
    ZeroPaddedValue(createdThisYear + 1, 3);
  }

  lemma DigitsHaveNoDash(s: string)
    requires AllDigits(s)
    ensures '-' !in s
  {
  }

  /** Different years or different counts give different reference numbers. */
  lemma ReferenceNumbersDistinct(year1: nat, created1: nat, year2: nat, created2: nat)
    requires year1 != year2 || created1 != created2
    ensures ReferenceNumber(year1, created1) != ReferenceNumber(year2, created2)
  {
    ReferenceNumberRoundTrip(year1, created1);
    ReferenceNumberRoundTrip(year2, created2);
  }

  function InYear(year: nat): nat -> bool { (y: nat) => y == year }

  /** The part of an Investigation that generate_reference_number and progress use. */
  class Investigation {
    var referenceNumber: Option<string>
    var status: string

    /** A new investigation starts at stage s0 without a reference number. */
    constructor ()
      ensures referenceNumber.None? && status == "s0"
    {
      referenceNumber := None;
      status := "s0";
    }

    /**
     * generate_reference_number, given the current year and the creation years
     * of the stored investigations: the number carries the year and one more
     * than the investigations created in that year.
     */
    method GenerateReferenceNumber(year: nat, createdYears: seq<nat>)
      modifies this
      ensures referenceNumber == Some(ReferenceNumber(year, Count(createdYears, InYear(year))))
      ensures status == old(status)
    {
      var count := Count(createdYears, InYear(year)) + 1;
      referenceNumber := Some("RCA-" + Decimal(year) + "-" + ZeroPadded(count, 3));
    }
  }

  // ---------------------------------------------------------------- WhyTreeNode.calculate_level

  /** The part of a WhyTreeNode that calculate_level uses: the parent_id column, the parent relationship, level and is_root_cause. */
  class WhyTreeNode {
    var parentId: Option<int>
    var parent: WhyTreeNode?
    var level: int
    var isRootCause: bool

    /** A node with the column defaults: level 1, not a root cause. */
    constructor (parentId: Option<int>, parent: WhyTreeNode?)
      ensures this.parentId == parentId && this.parent == parent
      ensures level == 1 && !isRootCause
    {
      this.parentId := parentId;
      this.parent := parent;
      level := 1;
      isRootCause := false;
    }

    /** `not self.parent_id`: no parent id, or the id 0. */
    predicate IsTop()
      reads this
    {
      parentId.None? || parentId.value == 0
    }

    /**
     * calculate_level: a top node is at level 1; any other node is one level
     * below its parent and becomes a root cause from level 3 on. The flag is
     * never cleared, and it is left alone at levels 1 and 2. A node with a
     * parent id whose parent is not loaded raises (None has no level), and
     * then nothing changes.
     */
    method CalculateLevel() returns (raised: bool)
      modifies this
      ensures raised <==> !IsTop() && old(parent) == null
      ensures parentId == old(parentId) && parent == old(parent)
      ensures raised ==> level == old(level) && isRootCause == old(isRootCause)
      ensures IsTop() ==> level == 1 && isRootCause == old(isRootCause)
      ensures !IsTop() && !raised ==> level == old(parent.level) + 1
      ensures !IsTop() && !raised ==> isRootCause == (old(isRootCause) || level >= 3)
    {
      if IsTop() {
        level := 1;
        raised := false;
      } else if parent == null {
        raised := true;
      } else {
        level := parent.level + 1;
        if level >= 3 {
          isRootCause := true;
        }
        raised := false;
      }
    }
  }

  /**
   * Building a chain of why-nodes, each the child of the one before and each
   * levelled when it is created, puts the node at index i at level i + 1 and
   * marks exactly the nodes from the third level on as root causes.
   */
  method BuildWhyChain(n: nat) returns (nodes: seq<WhyTreeNode>)
    ensures |nodes| == n
    ensures forall i :: 0 <= i < n ==> nodes[i].level == i + 1
    ensures forall i :: 0 <= i < n ==> nodes[i].isRootCause == (i >= 2)
  {
    nodes := [];
    var i := 0;
    while i < n
      invariant i <= n && |nodes| == i
      invariant forall k :: 0 <= k < i ==> fresh(nodes[k])
      invariant forall k :: 0 <= k < i ==> nodes[k].level == k + 1
      invariant forall k :: 0 <= k < i ==> nodes[k].isRootCause == (k >= 2)
    {
      var node: WhyTreeNode;
      if i == 0 {
        node := new WhyTreeNode(None, null);
      } else {
        node := new WhyTreeNode(Some(i), nodes[i - 1]);
      }
      var raised := node.CalculateLevel();
      nodes := nodes + [node];
      i := i + 1;
    }
  }

  // ---------------------------------------------------------------- ActionItem.is_overdue

  /** A calendar date; dates compare by year, then month, then day. */
  datatype Date = Date(year: int, month: int, day: int)

  predicate Before(a: Date, b: Date)
  {
    a.year < b.year || (a.year == b.year && (a.month < b.month || (a.month == b.month && a.day < b.day)))
  }

  /** is_overdue: an action item that is not completed and has a due date is overdue once today is past that date. */
  function IsOverdue(status: string, dueDate: Option<Date>, today: Date): (overdue: bool)
    ensures status == "completed" ==> !overdue
    ensures dueDate.None? ==> !overdue
    ensures status != "completed" && dueDate.Some? ==> (overdue <==> Before(dueDate.value, today))
  {
    if status != "completed" && dueDate.Some? then Before(dueDate.value, today) else false
  }

  /** An open item stays overdue as days go by, and is never overdue on its due date. */
  lemma OverdueStaysOverdue(status: string, dueDate: Option<Date>, today: Date, later: Date)
    requires IsOverdue(status, dueDate, today)
    requires !Before(later, today)
    ensures IsOverdue(status, dueDate, later)
    ensures dueDate.Some? && !IsOverdue(status, dueDate, dueDate.value)
  {
  }
}

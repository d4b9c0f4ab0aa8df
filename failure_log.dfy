/**
 * The failure-log exercise: lines of the form "[equipment] - date - issue"
 * become FailureEvent values, and the summaries of the critical ones are
 * reported. Reading the file and printing are replaced by a sequence of
 * lines in and a sequence of summaries out.
 */
module FailureLog {
  import opened Outcomes
  import opened Text
  import opened Folds

  datatype FailureEvent = FailureEvent(equipment: string, date: string, issue: string)

  /** The words that make a failure critical. */
  const CriticalKeywords: seq<string> := ["explosion", "fire", "overheat", "rupture"]

  /** any(word in text for word in keywords) */
  function ContainsAny(keywords: seq<string>, text: string): (b: bool)
    ensures b <==> exists k :: 0 <= k < |keywords| && IsSubstring(keywords[k], text)
  {
    if keywords == [] then false
    else IsSubstring(keywords[0], text) || ContainsAny(keywords[1..], text)
  }

  /** is_critical: the lower-cased issue contains one of the keywords anywhere, not only as a whole word. */
  function IsCritical(e: FailureEvent): (b: bool)
    ensures b <==> exists k :: 0 <= k < |CriticalKeywords| && IsSubstring(CriticalKeywords[k], ToLower(e.issue))
  {
    ContainsAny(CriticalKeywords, ToLower(e.issue))
  }

  /** Text added before or after an issue never makes a critical event non-critical. */
  lemma CriticalUnderExtension(e: FailureEvent, before: string, after: string)
    requires IsCritical(e)
    ensures IsCritical(e.(issue := before + e.issue + after))
  {
    var k :| 0 <= k < |CriticalKeywords| && IsSubstring(CriticalKeywords[k], ToLower(e.issue));
    ToLowerConcat(before, e.issue);
    ToLowerConcat(before + e.issue, after);
    SubstringInLonger(CriticalKeywords[k], ToLower(e.issue), ToLower(before), ToLower(after));
  }

  /** summary: "<equipment> failed on <date>: <issue>" */
  function Summary(e: FailureEvent): (s: string)
    ensures |s| == |e.equipment| + |e.date| + |e.issue| + 13
    ensures s[..|e.equipment|] == e.equipment && s[|s| - |e.issue|..] == e.issue
  {
    e.equipment + " failed on " + e.date + ": " + e.issue
  }

  // ---------------------------------------------------------------- parsing

  const Separator: string := " - "
  const Brackets: set<char> := {'[', ']'}

  /**
   * One line of the log: the stripped line split on " - " must give exactly
   * three parts; the first, without its enclosing brackets, is the equipment,
   * the other two are the date and the issue as they stand.
   */
  function ParseLine(line: string): (r: Option<FailureEvent>)
    ensures r.Some? <==> |Split(Strip(line), Separator)| == 3
    ensures r.Some? ==> r.value.date == Split(Strip(line), Separator)[1]
                        && r.value.issue == Split(Strip(line), Separator)[2]
                        && r.value.equipment == StripChars(Split(Strip(line), Separator)[0], Brackets)
  {
    var parts := Split(Strip(line), Separator);
    if |parts| == 3 then Some(FailureEvent(StripChars(parts[0], Brackets), parts[1], parts[2])) else None
  }

  /** A parsed event's date and issue never contain the separator, and its equipment name neither begins nor ends with a bracket. */
  lemma ParsedFieldsClean(line: string)
    requires ParseLine(line).Some?
    ensures !IsSubstring(Separator, ParseLine(line).value.date) && !IsSubstring(Separator, ParseLine(line).value.issue)
    ensures var eq := ParseLine(line).value.equipment; eq == [] || (eq[0] !in Brackets && eq[|eq| - 1] !in Brackets)
  {
    SplitPartsFree(Strip(line), Separator);
  }

  function ParseLineFn(): string -> Option<FailureEvent> { (line: string) => ParseLine(line) }

  /** The loop over the file's lines: each line that parses appends its event, so the events keep the order of their lines. */
  method ParseLog(lines: seq<string>) returns (events: seq<FailureEvent>)
    ensures events == Collect(lines, ParseLineFn())
  {
    events := [];
    for i := 0 to |lines|
      invariant events == Collect(lines[..i], ParseLineFn())
    {
      var parsed := ParseLine(lines[i]);
      CollectStep(lines, ParseLineFn(), i);
      assert ParseLineFn()(lines[i]) == parsed;
      if parsed.Some? {
        events := events + [parsed.value];
      }
    }
    assert lines[..|lines|] == lines;
  }

  function Critical(): FailureEvent -> bool { (e: FailureEvent) => IsCritical(e) }

  function Summaries(events: seq<FailureEvent>): (s: seq<string>)
    ensures |s| == |events| && forall i :: 0 <= i < |events| ==> s[i] == Summary(events[i])
  {
    seq(|events|, i requires 0 <= i < |events| => Summary(events[i]))
  }

  /** The report loop: the summaries of the critical events, in event order. */
  method CriticalSummaries(events: seq<FailureEvent>) returns (report: seq<string>)
    ensures report == Summaries(Filter(events, Critical()))
  {
    report := [];
    for i := 0 to |events|
      invariant report == Summaries(Filter(events[..i], Critical()))
    {
      assert events[..i + 1][..i] == events[..i];
      if IsCritical(events[i]) {
        report := report + [Summary(events[i])];
      }
    }
    assert events[..|events|] == events;
  }

  // ---------------------------------------------------------------- writing a line back

  /** The line the log format gives an event. */
  function FormatLine(e: FailureEvent): string
  {
    "[" + e.equipment + "]" + Separator + e.date + Separator + e.issue
  }

  /** s ends with " -", so a separator could start one character before its end. */
  predicate EndsWithSpaceDash(s: string)
  {
    |s| >= 2 && s[|s| - 2] == ' ' && s[|s| - 1] == '-'
  }

  /**
   * The events a line can carry: no field contains the separator, the date
   * does not end in " -", the equipment name neither begins nor ends with a
   * bracket, and the issue is not empty and does not end in whitespace.
   */
  predicate Writable(e: FailureEvent)
  {
    && !IsSubstring(Separator, e.equipment) && !IsSubstring(Separator, e.date) && !IsSubstring(Separator, e.issue)
    && !EndsWithSpaceDash(e.date)
    && (e.equipment == [] || (e.equipment[0] !in Brackets && e.equipment[|e.equipment| - 1] !in Brackets))
    && e.issue != [] && e.issue[|e.issue| - 1] !in Whitespace
  }

  /** A writable event survives being written as a line and parsed back. */
  lemma ParseFormatRoundTrip(e: FailureEvent)
    requires Writable(e)
    ensures ParseLine(FormatLine(e)) == Some(e)
  {
    var head := "[" + e.equipment + "]";
    assert head == ['['] + e.equipment + [']'];
    StripEnclosing('[', e.equipment, ']', Brackets);
    FormattedLineStripped(e);
    FormattedLineSplits(e);
    ParseSplitLine(FormatLine(e), head, e.date, e.issue);
  }

  /** A line that strip leaves unchanged and that splits into three parts parses into those parts. */
  lemma ParseSplitLine(line: string, head: string, date: string, issue: string)
    requires Strip(line) == line && Split(line, Separator) == [head, date, issue]
    ensures ParseLine(line) == Some(FailureEvent(StripChars(head, Brackets), date, issue))
  {
    assert Split(Strip(line), Separator) == [head, date, issue];
    ParseStrippedParts(line, head, date, issue);
  }

  lemma ParseStrippedParts(line: string, head: string, date: string, issue: string)
    requires Split(Strip(line), Separator) == [head, date, issue]
    ensures ParseLine(line) == Some(FailureEvent(StripChars(head, Brackets), date, issue))
  {
  }

  lemma FormattedLineStripped(e: FailureEvent)
    requires e.issue != [] && e.issue[|e.issue| - 1] !in Whitespace
    ensures Strip(FormatLine(e)) == FormatLine(e)
  {
    var line := FormatLine(e);
    assert line[0] == '[';
    assert line[|line| - 1] == e.issue[|e.issue| - 1];
    StripCharsUnchanged(line, Whitespace);
  }

  lemma FormattedLineSplits(e: FailureEvent)
    requires Writable(e)
    ensures Split(FormatLine(e), Separator) == ["[" + e.equipment + "]", e.date, e.issue]
  {
    var head := "[" + e.equipment + "]";
    var rest := e.date + Separator + e.issue;
    assert FormatLine(e) == head + Separator + rest;
    BracketedFree(e.equipment);
    SplitOffField(head, rest);
    SplitOffField(e.date, e.issue);
    SplitWithoutSeparator(e.issue, Separator);
  }

  /** A field without the separator, written before a separator, is the first piece of the split. */
  lemma SplitOffField(a: string, rest: string)
    requires !IsSubstring(Separator, a) && !EndsWithSpaceDash(a)
    ensures Split(a + Separator + rest, Separator) == [a] + Split(rest, Separator)
  {
    FirstSeparatorAt(a, rest);
    SplitAtFirst(a, Separator, rest);
  }

  /** Brackets around a text without the separator do not create one. */
  lemma BracketedFree(w: string)
    requires !IsSubstring(Separator, w)
    ensures !IsSubstring(Separator, "[" + w + "]")
    ensures !EndsWithSpaceDash("[" + w + "]")
  {
    var a := "[" + w + "]";
    forall i: nat | i <= |a| ensures !OccursAt(a, Separator, i) {
      if i + 3 <= |a| {
        if i == 0 {
          assert a[0] == '[';
        } else if i + 3 <= |w| + 1 {
          assert a[i..i + 3] == w[i - 1..i + 2];
          assert !OccursAt(w, Separator, i - 1);
        } else {
          assert a[i + 2] == ']';
        }
      }
    }
  }

  /** In a + " - " + b, the first separator is the one right after a, when a has none and does not end in " -". */
  lemma FirstSeparatorAt(a: string, b: string)
    requires !IsSubstring(Separator, a) && !EndsWithSpaceDash(a)
    ensures Find(a + Separator + b, Separator) == Some(|a|)
  {
    var s := a + Separator + b;
    assert s[|a|..|a| + 3] == Separator;
    forall j: nat | j < |a| ensures !OccursAt(s, Separator, j) {
      if j + 3 <= |a| {
        assert s[j..j + 3] == a[j..j + 3];
        assert !OccursAt(a, Separator, j);
      } else if j == |a| - 1 {
        assert s[j..j + 3] == [a[j], ' ', '-'];
      } else {
        assert s[j..j + 3] == [a[j], a[j + 1], ' '];
      }
    }
    FindFirstOccurrence(s, Separator, |a|);
  }
}

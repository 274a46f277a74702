/**
 * IndentStatistics: four frequency tables (space or tab indents, normal or continuation
 * lines) and the line counters behind the tabs-versus-spaces vote. countIndents looks at
 * the whitespace after the last newline of a prefix; getTabsAndIndentsStyle turns the
 * tables into a style.
 */
module IndentDetection {
  import opened AutodetectText
  import opened IndentFrequency

  /** The part of the statistics countIndents changes. */
  datatype IndentCounters = IndentCounters(
    spaceIndent: Frequencies,
    spaceContinuation: Frequencies,
    tabIndent: Frequencies,
    tabContinuation: Frequencies,
    linesWithSpaceIndents: nat,
    linesWithTabIndents: nat)

  /** The tables as they come out of `record`, each keyed by `(depth, 0)` or `(depth, continuationDepth)`. */
  function Tables(c: IndentCounters): seq<Frequencies> {
    [c.spaceIndent, c.spaceContinuation, c.tabIndent, c.tabContinuation]
  }

  /**
   * countIndents: nothing happens without a newline or at depth 0; otherwise the line
   * after the last newline is counted.
   */
  function CountedIndents(c: IndentCounters, space: string, isContinuation: bool, depth: int, continuationDepth: int): IndentCounters {
    var ni := LastNewline(space);
    if ni < 0 || depth <= 0 then c
    else CountedLine(c, space[ni..], isContinuation, depth, continuationDepth)
  }

  /**
   * The spaces and tabs of one line are counted; a line that has any of them records its
   * counts and votes for spaces when it has strictly more spaces than tabs, else for tabs.
   */
  function CountedLine(c: IndentCounters, line: string, isContinuation: bool, depth: int, continuationDepth: int): IndentCounters {
    var scan := ScanIndent(line);
    if scan.spaces == 0 && scan.tabs == 0 then c
    else
      var recorded := RecordLine(c, scan, isContinuation, depth, continuationDepth);
      if scan.spaces > scan.tabs then recorded.(linesWithSpaceIndents := recorded.linesWithSpaceIndents + 1)
      else recorded.(linesWithTabIndents := recorded.linesWithTabIndents + 1)
  }

  /** The recording step: a line that mixes both kinds records nothing; otherwise both counts are recorded at the line's depth. */
  function RecordLine(c: IndentCounters, scan: IndentChars, isContinuation: bool, depth: int, continuationDepth: int): IndentCounters {
    if scan.mixed then c
    else if isContinuation then
      var at := DepthCoordinate(depth, continuationDepth);
      c.(spaceContinuation := Recorded(c.spaceContinuation, at, scan.spaces),
         tabContinuation := Recorded(c.tabContinuation, at, scan.tabs))
    else
      var at := DepthCoordinate(depth, 0);
      c.(spaceIndent := Recorded(c.spaceIndent, at, scan.spaces),
         tabIndent := Recorded(c.tabIndent, at, scan.tabs))
  }

  /** Whitespace without a newline, or a visit at depth 0, changes nothing. */
  lemma CountedIndentsInert(c: IndentCounters, space: string, isContinuation: bool, depth: int, continuationDepth: int)
    requires '\n' !in space || depth <= 0
    ensures CountedIndents(c, space, isContinuation, depth, continuationDepth) == c
  {
  }

  lemma LastNewlineAfterPrefix(p: string, space: string)
    requires '\n' in space
    ensures LastNewline(p + space) == |p| + LastNewline(space)
  {
    var n := |p| + LastNewline(space);
    assert (p + space)[n] == '\n';
  }

  /** Only what follows the last newline counts: text in front of it makes no difference. */
  lemma CountedIndentsLastLineOnly(c: IndentCounters, p: string, space: string, isContinuation: bool, depth: int, continuationDepth: int)
    requires '\n' in space
    ensures CountedIndents(c, p + space, isContinuation, depth, continuationDepth) ==
            CountedIndents(c, space, isContinuation, depth, continuationDepth)
  {
    LastNewlineAfterPrefix(p, space);
    var ni := LastNewline(space);
    assert (p + space)[|p| + ni..] == space[ni..];
  }

  /** One counted line casts exactly one vote when it has spaces or tabs: for spaces exactly when it has strictly more spaces than tabs. */
  lemma LineVote(c: IndentCounters, line: string, isContinuation: bool, depth: int, continuationDepth: int)
    ensures var r := CountedLine(c, line, isContinuation, depth, continuationDepth);
      if multiset(line)[' '] == 0 && multiset(line)['\t'] == 0 then r == c
      else
        r.linesWithSpaceIndents + r.linesWithTabIndents == c.linesWithSpaceIndents + c.linesWithTabIndents + 1 &&
        (r.linesWithSpaceIndents == c.linesWithSpaceIndents + 1 <==> multiset(line)[' '] > multiset(line)['\t'])
  {
    ScanIndentCounts(line);
  }

  /** A line that has spaces or tabs after its last newline casts exactly one vote: for spaces exactly when it has strictly more spaces than tabs. */
  lemma CountedIndentsVote(c: IndentCounters, space: string, isContinuation: bool, depth: int, continuationDepth: int)
    requires '\n' in space && depth > 0
    ensures var line := space[LastNewline(space)..];
      var r := CountedIndents(c, space, isContinuation, depth, continuationDepth);
      if multiset(line)[' '] == 0 && multiset(line)['\t'] == 0 then r == c
      else
        r.linesWithSpaceIndents + r.linesWithTabIndents == c.linesWithSpaceIndents + c.linesWithTabIndents + 1 &&
        (r.linesWithSpaceIndents == c.linesWithSpaceIndents + 1 <==> multiset(line)[' '] > multiset(line)['\t'])
  {
    LineVote(c, space[LastNewline(space)..], isContinuation, depth, continuationDepth);
  }

  /** A counted line that mixes spaces and tabs records no frequency. */
  lemma MixedLineRecordsNothing(c: IndentCounters, line: string, isContinuation: bool, depth: int, continuationDepth: int)
    requires ' ' in line && '\t' in line
    ensures Tables(CountedLine(c, line, isContinuation, depth, continuationDepth)) == Tables(c)
  {
    ScanIndentCounts(line);
    assert multiset(line)[' '] > 0 && multiset(line)['\t'] > 0;
  }

  /** A line that mixes spaces and tabs after its last newline records no frequency. */
  lemma CountedIndentsMixedRecordsNothing(c: IndentCounters, space: string, isContinuation: bool, depth: int, continuationDepth: int)
    requires '\n' in space
    requires var line := space[LastNewline(space)..]; ' ' in line && '\t' in line
    ensures Tables(CountedIndents(c, space, isContinuation, depth, continuationDepth)) == Tables(c)
  {
    if depth > 0 {
      MixedLineRecordsNothing(c, space[LastNewline(space)..], isContinuation, depth, continuationDepth);
    }
  }

  /** A counted line of one kind of character bumps one count of one table. */
  lemma PureLineRecordsOne(c: IndentCounters, line: string, isContinuation: bool, depth: int, continuationDepth: int)
    requires (' ' in line) != ('\t' in line)
    ensures var r := CountedLine(c, line, isContinuation, depth, continuationDepth);
      var at := DepthCoordinate(depth, if isContinuation then continuationDepth else 0);
      var bySpaces := ' ' in line;
      var chars := if bySpaces then multiset(line)[' '] else multiset(line)['\t'];
      var t := (if bySpaces then 0 else 2) + (if isContinuation then 1 else 0);
      chars > 0 &&
      (forall i :: 0 <= i < 4 && i != t ==> Tables(r)[i] == Tables(c)[i]) &&
      Tables(r)[t] == Recorded(Tables(c)[t], at, chars)
  {
    var scan := ScanIndent(line);
    ScanIndentCounts(line);
    var r := CountedLine(c, line, isContinuation, depth, continuationDepth);
    var at := DepthCoordinate(depth, if isContinuation then continuationDepth else 0);
    if ' ' in line {
      assert scan.spaces > 0 && scan.tabs == 0 && !scan.mixed;
      if isContinuation {
        assert r.spaceContinuation == Recorded(c.spaceContinuation, at, scan.spaces);
        assert r.tabContinuation == c.tabContinuation;
      } else {
        assert r.spaceIndent == Recorded(c.spaceIndent, at, scan.spaces);
        assert r.tabIndent == c.tabIndent;
      }
    } else {
      assert scan.tabs > 0 && scan.spaces == 0 && !scan.mixed;
      if isContinuation {
        assert r.tabContinuation == Recorded(c.tabContinuation, at, scan.tabs);
        assert r.spaceContinuation == c.spaceContinuation;
      } else {
        assert r.tabIndent == Recorded(c.tabIndent, at, scan.tabs);
        assert r.spaceIndent == c.spaceIndent;
      }
    }
  }

  /**
   * A line indented with one kind of character only bumps exactly one count of exactly
   * one table: the space or tab table, for normal or continuation lines, at its depth
   * and its number of characters.
   */
  lemma CountedIndentsRecordsOne(c: IndentCounters, space: string, isContinuation: bool, depth: int, continuationDepth: int)
    requires '\n' in space && depth > 0
    requires var line := space[LastNewline(space)..]; (' ' in line) != ('\t' in line)
    ensures var line := space[LastNewline(space)..];
      var r := CountedIndents(c, space, isContinuation, depth, continuationDepth);
      var at := DepthCoordinate(depth, if isContinuation then continuationDepth else 0);
      var bySpaces := ' ' in line;
      var chars := if bySpaces then multiset(line)[' '] else multiset(line)['\t'];
      var t := (if bySpaces then 0 else 2) + (if isContinuation then 1 else 0);
      chars > 0 &&
      (forall i :: 0 <= i < 4 && i != t ==> Tables(r)[i] == Tables(c)[i]) &&
      Tables(r)[t] == Recorded(Tables(c)[t], at, chars)
  {
    PureLineRecordsOne(c, space[LastNewline(space)..], isContinuation, depth, continuationDepth);
  }

  /** Every depth of the table is positive and, for a continuation table, has a non-zero continuation depth. */
  predicate DepthsPositive(f: Frequencies, continuation: bool) {
    forall d :: d in f ==> d.indentDepth > 0 && (continuation ==> d.continuationDepth != 0)
  }

  /** Every table entry was recorded at a positive depth, continuation ones at a non-zero continuation depth. */
  predicate Recordable(c: IndentCounters) {
    DepthsPositive(c.spaceIndent, false) && DepthsPositive(c.tabIndent, false) &&
    DepthsPositive(c.spaceContinuation, true) && DepthsPositive(c.tabContinuation, true)
  }

  /** Recording at an admissible depth keeps every depth of the table admissible. */
  lemma RecordedDepthsPositive(f: Frequencies, at: DepthCoordinate, chars: int, continuation: bool)
    requires DepthsPositive(f, continuation)
    requires at.indentDepth > 0 && (continuation ==> at.continuationDepth != 0)
    ensures DepthsPositive(Recorded(f, at, chars), continuation)
  {
    RecordedKeys(f, at, chars);
  }

  /** Recording a line at a positive depth records only at that depth. */
  lemma RecordLineRecordable(c: IndentCounters, scan: IndentChars, isContinuation: bool, depth: int, continuationDepth: int)
    requires Recordable(c) && continuationDepth != 0 && depth > 0
    ensures Recordable(RecordLine(c, scan, isContinuation, depth, continuationDepth))
  {
    if !scan.mixed {
      if isContinuation {
        var at := DepthCoordinate(depth, continuationDepth);
        RecordedDepthsPositive(c.spaceContinuation, at, scan.spaces, true);
        RecordedDepthsPositive(c.tabContinuation, at, scan.tabs, true);
      } else {
        var at := DepthCoordinate(depth, 0);
        RecordedDepthsPositive(c.spaceIndent, at, scan.spaces, false);
        RecordedDepthsPositive(c.tabIndent, at, scan.tabs, false);
      }
    }
  }

  /** A line counted at a positive depth records only at that depth. */
  lemma LineRecordable(c: IndentCounters, line: string, isContinuation: bool, depth: int, continuationDepth: int)
    requires Recordable(c) && continuationDepth != 0 && depth > 0
    ensures Recordable(CountedLine(c, line, isContinuation, depth, continuationDepth))
  {
    RecordLineRecordable(c, ScanIndent(line), isContinuation, depth, continuationDepth);
  }

  /** countIndents only records at positive depths, so commonIndent and continuationIndent never divide by zero. */
  lemma CountedIndentsRecordable(c: IndentCounters, space: string, isContinuation: bool, depth: int, continuationDepth: int)
    requires Recordable(c) && continuationDepth != 0
    ensures Recordable(CountedIndents(c, space, isContinuation, depth, continuationDepth))
  {
    var ni := LastNewline(space);
    if ni >= 0 && depth > 0 {
      LineRecordable(c, space[ni..], isContinuation, depth, continuationDepth);
    }
  }

  /** TabsAndIndentsStyle as getTabsAndIndentsStyle fills it in. */
  datatype TabsAndIndentsStyle = TabsAndIndentsStyle(
    useTabs: bool,
    tabSize: int,
    indentSize: int,
    continuationIndent: int,
    indentsRelativeToExpressionStart: bool,
    alignMultilineParameters: bool)

  class IndentStatistics {
    const spaceIndentFrequencies: IndentStatistic
    const spaceContinuationIndentFrequencies: IndentStatistic
    const tabIndentFrequencies: IndentStatistic
    const tabContinuationIndentFrequencies: IndentStatistic
    var linesWithSpaceIndents: nat
    var linesWithTabIndents: nat
    var multilineAlignedToFirstArgument: int
    var multilineNotAlignedToFirstArgument: int
    var depth: int
    var continuationDepth: int

    /**
     * The four tables are four distinct objects, the continuation depth keeps its
     * initial 1 (nothing in Autodetect moves it), and every recorded depth can be
     * divided by.
     */
    predicate Valid()
      reads this, spaceIndentFrequencies, spaceContinuationIndentFrequencies, tabIndentFrequencies, tabContinuationIndentFrequencies
    {
      Distinct() && continuationDepth == 1 && Recordable(Counters())
    }

    predicate Distinct()
      reads this
    {
      spaceIndentFrequencies != spaceContinuationIndentFrequencies &&
      spaceIndentFrequencies != tabIndentFrequencies &&
      spaceIndentFrequencies != tabContinuationIndentFrequencies &&
      spaceContinuationIndentFrequencies != tabIndentFrequencies &&
      spaceContinuationIndentFrequencies != tabContinuationIndentFrequencies &&
      tabIndentFrequencies != tabContinuationIndentFrequencies
    }

    function Counters(): IndentCounters
      reads this, spaceIndentFrequencies, spaceContinuationIndentFrequencies, tabIndentFrequencies, tabContinuationIndentFrequencies
    {
      IndentCounters(
        spaceIndentFrequencies.depthToSpaceIndentFrequencies,
        spaceContinuationIndentFrequencies.depthToSpaceIndentFrequencies,
        tabIndentFrequencies.depthToSpaceIndentFrequencies,
        tabContinuationIndentFrequencies.depthToSpaceIndentFrequencies,
        linesWithSpaceIndents,
        linesWithTabIndents)
    }

    constructor ()
      ensures Valid()
      ensures Counters() == IndentCounters(map[], map[], map[], map[], 0, 0)
      ensures multilineAlignedToFirstArgument == 0 && multilineNotAlignedToFirstArgument == 0
      ensures depth == 0 && continuationDepth == 1
    {
      spaceIndentFrequencies := new IndentStatistic();
      spaceContinuationIndentFrequencies := new IndentStatistic();
      tabIndentFrequencies := new IndentStatistic();
      tabContinuationIndentFrequencies := new IndentStatistic();
      linesWithSpaceIndents := 0;
      linesWithTabIndents := 0;
      multilineAlignedToFirstArgument := 0;
      multilineNotAlignedToFirstArgument := 0;
      depth := 0;
      continuationDepth := 1;
    }

    /** The character loop of countIndents over the text from the last newline on. */
    static method ScanLine(line: string) returns (spaceIndent: nat, tabIndent: nat, mixed: bool)
      ensures IndentChars(spaceIndent, tabIndent, mixed) == ScanIndent(line)
    {
      spaceIndent, tabIndent, mixed := 0, 0, false;
      for i := 0 to |line|
        invariant IndentChars(spaceIndent, tabIndent, mixed) == ScanIndent(line[..i])
      {
        assert line[..i + 1][..i] == line[..i];
        var c := line[i];
        if c == ' ' {
          if tabIndent > 0 {
            mixed := true;
          }
          spaceIndent := spaceIndent + 1;
        } else if c == '\t' {
          if spaceIndent > 0 {
            mixed := true;
          }
          tabIndent := tabIndent + 1;
        }
      }
      assert line[..|line|] == line;
    }

    method CountIndents(space: string, isContinuation: bool)
      requires Valid()
      modifies this, spaceIndentFrequencies, spaceContinuationIndentFrequencies, tabIndentFrequencies, tabContinuationIndentFrequencies
      ensures Valid()
      ensures Counters() == CountedIndents(old(Counters()), space, isContinuation, depth, continuationDepth)
      ensures depth == old(depth) && continuationDepth == old(continuationDepth)
      ensures multilineAlignedToFirstArgument == old(multilineAlignedToFirstArgument)
      ensures multilineNotAlignedToFirstArgument == old(multilineNotAlignedToFirstArgument)
    {
      ghost var c0 := Counters();
      CountedIndentsRecordable(c0, space, isContinuation, depth, continuationDepth);
      CountLine(space, isContinuation);
    }

    /** countIndents on the tables alone. */
    method CountLine(space: string, isContinuation: bool)
      requires Distinct()
      modifies this, spaceIndentFrequencies, spaceContinuationIndentFrequencies, tabIndentFrequencies, tabContinuationIndentFrequencies
      ensures Distinct()
      ensures Counters() == CountedIndents(old(Counters()), space, isContinuation, depth, continuationDepth)
      ensures depth == old(depth) && continuationDepth == old(continuationDepth)
      ensures multilineAlignedToFirstArgument == old(multilineAlignedToFirstArgument)
      ensures multilineNotAlignedToFirstArgument == old(multilineNotAlignedToFirstArgument)
    {
      var ni := LastNewline(space);
      if ni >= 0 && depth > 0 {
        var spaceIndent, tabIndent, mixed := ScanLine(space[ni..]);
        if spaceIndent > 0 || tabIndent > 0 {
          if !mixed {
            if isContinuation {
              spaceContinuationIndentFrequencies.Record(DepthCoordinate(depth, continuationDepth), spaceIndent);
              tabContinuationIndentFrequencies.Record(DepthCoordinate(depth, continuationDepth), tabIndent);
            } else {
              spaceIndentFrequencies.Record(DepthCoordinate(depth, 0), spaceIndent);
              tabIndentFrequencies.Record(DepthCoordinate(depth, 0), tabIndent);
            }
          }
          if spaceIndent > tabIndent {
            linesWithSpaceIndents := linesWithSpaceIndents + 1;
          } else {
            linesWithTabIndents := linesWithTabIndents + 1;
          }
        }
      }
    }

    /** The tables getTabsAndIndentsStyle reads: tab tables exactly when tab-indented lines strictly outnumber space-indented ones. */
    function IndentTable(useTabs: bool): IndentStatistic {
      if useTabs then tabIndentFrequencies else spaceIndentFrequencies
    }

    function ContinuationTable(useTabs: bool): IndentStatistic {
      if useTabs then tabContinuationIndentFrequencies else spaceContinuationIndentFrequencies
    }

    /** isIndentedWithSpaces: a tie goes to spaces. */
    predicate IsIndentedWithSpaces()
      reads this
      ensures IsIndentedWithSpaces() <==> !(linesWithTabIndents > linesWithSpaceIndents)
      ensures linesWithSpaceIndents == linesWithTabIndents ==> IsIndentedWithSpaces()
    {
      linesWithSpaceIndents >= linesWithTabIndents
    }

    method GetTabsAndIndentsStyle() returns (style: TabsAndIndentsStyle)
      requires Valid()
      ensures style.useTabs <==> linesWithTabIndents > linesWithSpaceIndents
      ensures style.tabSize == style.indentSize
      ensures var f := IndentTable(style.useTabs).depthToSpaceIndentFrequencies;
        (CellSet(f) == {} ==> style.indentSize == 4) &&
        (CellSet(f) != {} ==> IsMostFrequent(Totals(f, x => GroupOf(ByIndent, x), CellSet(f)), style.indentSize))
      ensures var f := ContinuationTable(style.useTabs).depthToSpaceIndentFrequencies;
        var g := ByContinuation(style.indentSize);
        (CellSet(f) == {} ==> style.continuationIndent == style.indentSize * 2) &&
        (CellSet(f) != {} ==> IsMostFrequent(Totals(f, x => GroupOf(g, x), CellSet(f)), style.continuationIndent))
      ensures !style.indentsRelativeToExpressionStart
      ensures style.alignMultilineParameters <==> multilineAlignedToFirstArgument >= multilineNotAlignedToFirstArgument
    {
      var useTabs := !IsIndentedWithSpaces();
      var indentFrequencies := IndentTable(useTabs);
      var continuationFrequencies := ContinuationTable(useTabs);
      assert DepthsPositive(indentFrequencies.depthToSpaceIndentFrequencies, false);
      assert DepthsPositive(continuationFrequencies.depthToSpaceIndentFrequencies, true);
      var indent := indentFrequencies.CommonIndent();
      var continuationIndent := continuationFrequencies.ContinuationIndent(indent);
      style := TabsAndIndentsStyle(
        useTabs, indent, indent, continuationIndent, false,
        multilineAlignedToFirstArgument >= multilineNotAlignedToFirstArgument);
    }
  }
}

/** Compaction at several levels of one walk: new indexes are the number of records that are left. */
module RepeatedCompaction {
  import opened Options
  import opened RenderedLines
  import opened AccessibilityTree
  import opened TabCompaction

  /** A row that the walk renders next: its index is the number of records. */
  function Row(sources: seq<Source>, path: seq<nat>, info: Info, depth: nat): seq<Source> {
    sources + [Rendered(Record(|RecordsOf(sources)|, path, info), depth)]
  }

  /** A further row keeps indexes unique exactly when no record that was kept has the next index already. */
  lemma RowKeepsUniqueIff(sources: seq<Source>, path: seq<nat>, info: Info, depth: nat)
    requires UniqueIndexes(sources)
    ensures UniqueIndexes(Row(sources, path, info, depth))
       <==> forall r <- RecordsOf(sources) :: r.index != |RecordsOf(sources)|
  {
    var n, after := |RecordsOf(sources)|, Row(sources, path, info, depth);
    if UniqueIndexes(after) {
      forall r <- RecordsOf(sources) ensures r.index != n {
        var k := SourceOf(sources, r);
        assert after[k] == sources[k] && after[|sources|].record.index == n;
      }
    }
    if forall r <- RecordsOf(sources) :: r.index != n {
      forall k | 0 <= k < |sources| && sources[k].Rendered? ensures sources[k].record.index != n {
        RecordIsThere(sources, k);
      }
    }
  }

  lemma {:induction false} SourceOf(sources: seq<Source>, record: Record) returns (k: nat)
    requires record in RecordsOf(sources)
    ensures k < |sources| && sources[k].Rendered? && sources[k].record == record
    decreases |sources|
  {
    if sources[0].Rendered? && sources[0].record == record {
      k := 0;
    } else {
      k := SourceOf(sources[1..], record);
      k := k + 1;
    }
  }

  // What a walk does to its records and lines, and what then belongs to which line.

  /** What a walk has rendered so far. */
  datatype Rendering = Rendering(records: seq<Record>, lines: seq<string>)

  /** A walk renders a row, or compacts the lines from `start` on. */
  datatype Act = AddRow(path: seq<nat>, info: Info, depth: nat) | CompactFrom(start: nat, depth: nat)

  function Render(r: Rendering, path: seq<nat>, info: Info, depth: nat): Rendering {
    Rendering(r.records + [Record(|r.records|, path, info)], r.lines + [RenderLine(info, |r.records|, depth)])
  }

  function Compact(r: Rendering, start: nat, depth: nat): Rendering
    requires start <= |r.lines|
  {
    var drop := Inactive(r.records, r.lines, start, depth);
    Rendering(if drop == {} then r.records else Without(r.records, Omitted(r.lines, drop, depth)),
              CompactedLines(r.lines, start, depth, drop))
  }

  function Do(r: Rendering, act: Act): Rendering {
    match act
    case AddRow(path, info, depth) => Render(r, path, info, depth)
    case CompactFrom(start, depth) => if start <= |r.lines| then Compact(r, start, depth) else r
  }

  function Replay(r: Rendering, acts: seq<Act>): Rendering
    decreases |acts|
  {
    if acts == [] then r else Replay(Do(r, acts[0]), acts[1..])
  }

  function Of(sources: seq<Source>): Rendering {
    Rendering(RecordsOf(sources), Texts(sources))
  }

  /** The tab lines that a compaction drops. */
  function Dropped(sources: seq<Source>, start: nat, depth: nat): set<nat> {
    if start <= |sources| then Inactive(RecordsOf(sources), Texts(sources), start, depth) else {}
  }

  /** What the lines stand for after an act, if every line that stays keeps its record. */
  function Intended(sources: seq<Source>, act: Act): seq<Source> {
    match act
    case AddRow(path, info, depth) => Row(sources, path, info, depth)
    case CompactFrom(start, depth) =>
      var drop := Dropped(sources, start, depth);
      if drop == {} then sources
      else
        var tabs := TabLines(Texts(sources), start, depth);
        if tabs == [] then sources else Compacted(sources, tabs[0], depth, drop)
  }

  /** The act drops a tab line whose record shares its index with one of a line that stays. */
  ghost predicate Clashes(sources: seq<Source>, act: Act) {
    act.CompactFrom? && Clash(sources, Dropped(sources, act.start, act.depth))
  }

  /** After each act every record has its line, every other line is a marker, and they stand in one order. */
  ghost predicate StaysMatched(r: Rendering, sources: seq<Source>, acts: seq<Act>)
    decreases |acts|
  {
    r == Of(sources) && (acts == [] || StaysMatched(Do(r, acts[0]), Intended(sources, acts[0]), acts[1..]))
  }

  ghost predicate NeverClashes(sources: seq<Source>, acts: seq<Act>)
    decreases |acts|
  {
    acts == [] || (!Clashes(sources, acts[0]) && NeverClashes(Intended(sources, acts[0]), acts[1..]))
  }

  lemma CompactMatchedIff(sources: seq<Source>, start: nat, depth: nat)
    requires start <= |sources|
    ensures var act := CompactFrom(start, depth);
      Compact(Of(sources), start, depth) == Of(Intended(sources, act)) <==> !Clashes(sources, act)
  {
    hide *;
    var records, lines := RecordsOf(sources), Texts(sources);
    MatchedMeans(records, lines, sources);
    CompactionKeepsTogetherIff(records, lines, sources, start, depth);
    CompactCases(sources, start, depth);
  }

  lemma CompactCases(sources: seq<Source>, start: nat, depth: nat)
    requires start <= |sources|
    ensures var records, lines, act := RecordsOf(sources), Texts(sources), CompactFrom(start, depth);
      var drop := Inactive(records, lines, start, depth);
      && (Clashes(sources, act) <==> Clash(sources, drop))
      && (drop == {} ==> !Clash(sources, drop) && Compact(Of(sources), start, depth) == Of(Intended(sources, act)))
      && (drop != {} && TabLines(lines, start, depth) != [] && (forall k <- drop :: k < |lines|) ==>
            var after := Compacted(sources, TabLines(lines, start, depth)[0], depth, drop);
            && Intended(sources, act) == after && Of(after) == Rendering(RecordsOf(after), Texts(after))
            && Compact(Of(sources), start, depth)
               == Rendering(Without(records, Omitted(lines, drop, depth)), CompactedLines(lines, start, depth, drop)))
  {
    hide Inactive, Omitted, Without, Compacted, RecordsOf, Texts, TabLines;
  }

  lemma ActMatchedIff(sources: seq<Source>, act: Act)
    ensures Do(Of(sources), act) == Of(Intended(sources, act)) <==> !Clashes(sources, act)
  {
    hide RecordsOf, Texts, Compact, Compacted, Inactive, TabLines, RenderLine, Clash;
    match act
    case AddRow(path, info, depth) => RenderOne(sources, path, info, depth);
    case CompactFrom(start, depth) =>
      if start <= |sources| {
        CompactMatchedIff(sources, start, depth);
      } else {
        NothingClashes(sources);
      }
  }

  lemma NothingClashes(sources: seq<Source>)
    ensures !Clash(sources, {})
  {
  }

  /**
   Whatever rows a walk renders and wherever it compacts: records and lines stay together throughout if
   and only if no compaction drops a tab line that shares its index with a line that stays.
   */
  lemma {:induction false} RunStaysMatchedIff(sources: seq<Source>, acts: seq<Act>)
    ensures StaysMatched(Of(sources), sources, acts) <==> NeverClashes(sources, acts)
    decreases |acts|
  {
    hide Of, Do, Intended, Clashes;
    if acts != [] {
      ActMatchedIff(sources, acts[0]);
      RunStaysMatchedIff(Intended(sources, acts[0]), acts[1..]);
      MatchedNow(Do(Of(sources), acts[0]), Intended(sources, acts[0]), acts[1..]);
    }
  }

  lemma MatchedNow(r: Rendering, sources: seq<Source>, acts: seq<Act>)
    ensures StaysMatched(r, sources, acts) ==> r == Of(sources)
  {
  }

  lemma {:induction false} ReplayConcat(r: Rendering, a: seq<Act>, b: seq<Act>)
    ensures Replay(r, a + b) == Replay(Replay(r, a), b)
    decreases |a|
  {
    hide Do;
    if a == [] {
      assert a + b == b;
    } else {
      assert (a + b)[1..] == a[1..] + b;
      ReplayConcat(Do(r, a[0]), a[1..], b);
    }
  }

  // Two strips of ten tabs in one window.

  const WINDOW := Info("frame", "frame", "w", "", "", false, None, "", "")
  const BAR := Info("tool bar", "tool bar", "b", "", "", false, None, "", "")
  const QUIET := Info("page tab", "page tab", "t", "", "", false, None, "", "")
  const SELECTED := QUIET.(selected := true)

  /** The tabs of a strip from `k` on; the tenth and last is selected. */
  function RenderStrip(r: Rendering, strip: nat, k: nat): Rendering
    requires k <= 10
    decreases 10 - k
  {
    if k == 10 then r
    else RenderStrip(Render(r, [strip, k], if k == 9 then SELECTED else QUIET, 2), strip, k + 1)
  }

  /** The tabs of a strip as sources, numbered from `index`. */
  function Tabs10(index: nat, strip: nat, k: nat): (r: seq<Source>)
    requires k <= 10
    ensures |r| == 10 - k
  {
    seq(10 - k, (j: nat) => Rendered(Record(index + j, [strip, k + j], if k + j == 9 then SELECTED else QUIET), 2))
  }

  lemma RenderOne(sources: seq<Source>, path: seq<nat>, info: Info, depth: nat)
    ensures Render(Of(sources), path, info, depth) == Of(Row(sources, path, info, depth))
    ensures |RecordsOf(Row(sources, path, info, depth))| == |RecordsOf(sources)| + 1
  {
    var one := Rendered(Record(|RecordsOf(sources)|, path, info), depth);
    RecordsOfConcat(sources, [one]);
    assert [one][1..] == [];
    hide RenderLine;
  }

  lemma {:induction false} StripSources(sources: seq<Source>, strip: nat, k: nat)
    requires k <= 10
    ensures RenderStrip(Of(sources), strip, k) == Of(sources + Tabs10(|RecordsOf(sources)|, strip, k))
    decreases 10 - k
  {
    hide RecordsOf, Texts, Render;
    var n := |RecordsOf(sources)|;
    if k == 10 {
      assert sources + Tabs10(n, strip, k) == sources;
    } else {
      var info := if k == 9 then SELECTED else QUIET;
      RenderOne(sources, [strip, k], info, 2);
      var next := Row(sources, [strip, k], info, 2);
      StripSources(next, strip, k + 1);
      assert next + Tabs10(n + 1, strip, k + 1) == sources + Tabs10(n, strip, k);
    }
  }

  function TabText(index: nat): string {
    Decimal(index) + " page tab t"
  }

  lemma TabRenders(selected: bool, index: nat, depth: nat)
    ensures RenderLine(QUIET.(selected := selected), index, depth) == Tabs(depth) + TabText(index)
  {
    var info := QUIET.(selected := selected);
    hide Decimal;
    var text := TabText(index);
    assert Decimal(index) + " " + info.roleLabel + " " + Title(info) == text;
    assert text[|text| - 1] == 't';
    assert Rstrip(text) == text;
    assert FormattedValue(info) == "" && SummaryText(info) == "" && ActionsText(info) == "";
    assert text + "" + "" + "" == text;
  }

  lemma TabHasShape(index: nat, depth: nat)
    ensures IsDirectTabLine(Tabs(depth) + TabText(index), depth)
  {
    hide Decimal, LeadingDigits;
    var digits, word, line := Decimal(index), " page tab t", Tabs(depth) + TabText(index);
    assert line[depth..] == TabText(index);
    DigitRun(digits, word);
    assert TabText(index)[|digits| + 1..] == "page tab t";
    assert TAB_WORDS[0] in TAB_WORDS && StartsWithWord("page tab t", TAB_WORDS[0]);
  }

  lemma NeedsParenthesis(line: string, i: nat)
    requires forall k :: 0 <= k < |line| ==> line[k] != '('
    ensures !OccursAt(line, "(selected", i)
  {
    var part := "(selected";
    assert part[0] == '(';
    if i + |part| <= |line| { assert line[i..i + |part|][0] == line[i]; }
  }

  lemma TabIsSilent(index: nat, depth: nat)
    ensures !Contains(Tabs(depth) + TabText(index), "(selected")
  {
    hide Decimal;
    var line, digits, word := Tabs(depth) + TabText(index), Decimal(index), " page tab t";
    forall i | 0 <= i < |line| ensures line[i] != '(' {
      if i >= depth + |digits| { assert line[i] == word[i - depth - |digits|]; }
    }
    forall i | 0 <= i <= |line| ensures !OccursAt(line, "(selected", i) {
      NeedsParenthesis(line, i);
    }
  }

  /** The line of a tab is a tab line, and does not say that it is selected. */
  lemma TabIsTab(selected: bool, index: nat, depth: nat)
    ensures var line := RenderLine(QUIET.(selected := selected), index, depth);
      && IsDirectTabLine(line, depth) && !Contains(line, "(selected")
  {
    hide *;
    TabRenders(selected, index, depth);
    TabHasShape(index, depth);
    TabIsSilent(index, depth);
  }

  /** The strip's lines stand from `start` to the end: ten tab lines, of which only the last is active. */
  ghost predicate EndsInStrip(sources: seq<Source>, start: nat, index: nat, strip: nat) {
    |sources| == start + 10 && sources[start..] == Tabs10(index, strip, 0)
  }

  lemma StripSource(sources: seq<Source>, start: nat, index: nat, strip: nat, k: nat)
    requires EndsInStrip(sources, start, index, strip) && k < 10
    ensures |sources| == start + 10
    ensures sources[start + k] == Rendered(Record(index + k, [strip, k], if k == 9 then SELECTED else QUIET), 2)
    ensures Texts(sources)[start + k] == RenderLine(if k == 9 then SELECTED else QUIET, index + k, 2)
    ensures (if k == 9 then SELECTED else QUIET) == QUIET.(selected := k == 9)
  {
    hide RenderLine;
    assert sources[start + k] == sources[start..][k];
  }

  lemma StripLine(sources: seq<Source>, start: nat, index: nat, strip: nat, k: nat)
    requires EndsInStrip(sources, start, index, strip) && k < 10
    ensures |sources| == start + 10
    ensures sources[start + k] == Rendered(Record(index + k, [strip, k], if k == 9 then SELECTED else QUIET), 2)
    ensures var line := Texts(sources)[start + k];
      && line == RenderLine(if k == 9 then SELECTED else QUIET, index + k, 2)
      && IsDirectTabLine(line, 2) && !Contains(line, "(selected") && ElementIndex(line, 2) == Some(index + k)
  {
    hide *;
    StripSource(sources, start, index, strip, k);
    TabIsTab(k == 9, index + k, 2);
    LineCarriesIndex(if k == 9 then SELECTED else QUIET, index + k, 2);
  }

  lemma {:induction false} AllTabLines(lines: seq<string>, i: nat, depth: nat)
    requires i <= |lines| && forall k :: i <= k < |lines| ==> IsDirectTabLine(lines[k], depth)
    ensures |TabLines(lines, i, depth)| == |lines| - i
    ensures i < |lines| ==> TabLines(lines, i, depth)[0] == i
    decreases |lines| - i
  {
    hide IsDirectTabLine;
    if i < |lines| { AllTabLines(lines, i + 1, depth); }
  }

  /** The record that counts for an index is the last one that has it. */
  lemma {:induction false} LastCounts(records: seq<Record>, index: nat, k: nat)
    requires k < |records| && records[k].index == index
    requires forall j :: k < j < |records| ==> records[j].index != index
    ensures RecordByIndex(records, index) == Some(records[k])
    decreases |records|
  {
    if k < |records| - 1 { LastCounts(records[..|records| - 1], index, k); }
  }

  lemma StripRecords(front: seq<Source>, index: nat, strip: nat)
    ensures var records, n := RecordsOf(front + Tabs10(index, strip, 0)), |RecordsOf(front)|;
      && |records| == n + 10
      && forall j :: n <= j < |records| ==>
           records[j] == Record(index + j - n, [strip, j - n], if j - n == 9 then SELECTED else QUIET)
  {
    var tabs := Tabs10(index, strip, 0);
    RecordsOfConcat(front, tabs);
    AllRendered(tabs);
    hide RecordsOf;
  }

  lemma ActiveByRecord(line: string, depth: nat, records: seq<Record>, index: nat, record: Record)
    requires !Contains(line, "(selected") && ElementIndex(line, depth) == Some(index)
    requires RecordByIndex(records, index) == Some(record)
    ensures IsActiveTabLine(line, depth, records) <==> record.info.selected || record.info.value == "1"
  {
    hide Contains, ElementIndex;
  }

  lemma StripLength(front: seq<Source>, index: nat, strip: nat)
    ensures var sources := front + Tabs10(index, strip, 0);
      && |Texts(sources)| == |front| + MINIMUM_TABS == |front| + 10
      && EndsInStrip(sources, |front|, index, strip)
  {
    var sources := front + Tabs10(index, strip, 0);
    assert sources[|front|..] == Tabs10(index, strip, 0);
  }

  lemma StripActivity(front: seq<Source>, index: nat, strip: nat, i: nat)
    requires |front| <= i < |front| + 10
    ensures var sources := front + Tabs10(index, strip, 0);
      && |Texts(sources)| == |front| + 10
      && IsDirectTabLine(Texts(sources)[i], 2)
      && (IsActiveTabLine(Texts(sources)[i], 2, RecordsOf(sources)) <==> i == |front| + 9)
  {
    hide *;
    var sources, start, k := front + Tabs10(index, strip, 0), |front|, i - |front|;
    StripLength(front, index, strip);
    StripLine(sources, start, index, strip, k);
    StripRecords(front, index, strip);
    var records, n := RecordsOf(sources), |RecordsOf(front)|;
    LastCounts(records, index + k, n + k);
    ActiveByRecord(Texts(sources)[i], 2, records, index + k, records[n + k]);
    TabInfos();
  }

  lemma TabInfos()
    ensures SELECTED.selected && !QUIET.selected && QUIET.value != "1"
  {
  }

  /** When all lines from `start` on are tab lines and only the last is active, exactly the others are inactive. */
  lemma LastIsActive(records: seq<Record>, lines: seq<string>, start: nat, depth: nat)
    requires start + MINIMUM_TABS == |lines|
    requires forall i :: start <= i < |lines| ==> IsDirectTabLine(lines[i], depth)
    requires forall i :: start <= i < |lines| ==> (IsActiveTabLine(lines[i], depth, records) <==> i == |lines| - 1)
    ensures TabLines(lines, start, depth) != [] && TabLines(lines, start, depth)[0] == start
    ensures forall i :: i in Inactive(records, lines, start, depth) <==> start <= i < |lines| - 1
  {
    hide IsDirectTabLine, IsActiveTabLine, TabLines;
    AllTabLines(lines, start, depth);
    forall i: nat ensures i in TabLines(lines, start, depth) <==> start <= i < |lines| {
      TabLinesExact(lines, start, depth, i);
    }
    assert |lines| - 1 in TabLines(lines, start, depth);
  }

  /** Compacting a strip at the end drops its nine quiet tabs, whatever stands in front of it. */
  lemma StripDrops(front: seq<Source>, index: nat, strip: nat)
    ensures var sources := front + Tabs10(index, strip, 0); var start := |front|;
      && TabLines(Texts(sources), start, 2) != [] && TabLines(Texts(sources), start, 2)[0] == start
      && forall i :: i in Inactive(RecordsOf(sources), Texts(sources), start, 2) <==> start <= i < start + 9
  {
    hide *;
    var sources, start := front + Tabs10(index, strip, 0), |front|;
    var records, lines := RecordsOf(sources), Texts(sources);
    StripLength(front, index, strip);
    forall i | start <= i < |lines|
      ensures IsDirectTabLine(lines[i], 2) && (IsActiveTabLine(lines[i], 2, records) <==> i == start + 9)
    {
      StripActivity(front, index, strip, i);
    }
    LastIsActive(records, lines, start, 2);
  }

  lemma {:induction false} KeepLast(sources: seq<Source>, i: nat, drop: set<nat>)
    requires i < |sources| && |sources| - 1 !in drop && forall k :: i <= k < |sources| - 1 ==> k in drop
    ensures KeepSources(sources, i, drop) == [sources[|sources| - 1]]
    decreases |sources| - i
  {
    if i < |sources| - 1 { KeepLast(sources, i + 1, drop); }
  }

  /** The window and the first tool bar, before their strip. */
  function Head(): seq<Source> {
    [Rendered(Record(0, [], WINDOW), 0), Rendered(Record(1, [0], BAR), 1)]
  }

  /** What the first compaction leaves. */
  function AfterFirst(count: nat): seq<Source> {
    Head() + [Omission(count, 2), Rendered(Record(11, [0, 9], SELECTED), 2)]
  }

  lemma FirstKept(sources: seq<Source>, drop: set<nat>)
    requires sources == Head() + Tabs10(2, 0, 0) && forall i :: i in drop <==> 2 <= i < 11
    ensures Compacted(sources, 2, 2, drop) == AfterFirst(|drop|)
  {
    hide KeepSources;
    KeepLast(sources, 2, drop);
    assert sources[..2] == Head() && sources[11] == Rendered(Record(11, [0, 9], SELECTED), 2);
  }

  lemma CompactUnfolded(sources: seq<Source>, start: nat, depth: nat)
    requires start <= |sources|
    ensures var drop := Inactive(RecordsOf(sources), Texts(sources), start, depth);
      drop != {} ==>
        && (forall i <- drop :: i < |sources|)
        && Compact(Of(sources), start, depth)
           == Rendering(Without(RecordsOf(sources), Omitted(Texts(sources), drop, depth)),
                        CompactedLines(Texts(sources), start, depth, drop))
  {
    hide Inactive, Omitted, Without, CompactedLines, RecordsOf;
    InactiveAreTabs(RecordsOf(sources), Texts(sources), start, depth);
  }

  lemma FirstCompaction() returns (count: nat)
    ensures Compact(Of(Head() + Tabs10(2, 0, 0)), 2, 2) == Of(AfterFirst(count))
  {
    hide *;
    var sources := Head() + Tabs10(2, 0, 0);
    var records, lines := RecordsOf(sources), Texts(sources);
    HeadLength();
    StripDrops(Head(), 2, 0);
    var drop := Inactive(records, lines, 2, 2);
    count := |drop|;
    assert 2 in drop;
    FirstIsAligned();
    CompactionKeepsAlignment(records, lines, sources, 2, 2);
    FirstKept(sources, drop);
    CompactUnfolded(sources, 2, 2);
    AlignedIsOf(Without(records, Omitted(lines, drop, 2)), CompactedLines(lines, 2, 2, drop), AfterFirst(count));
  }

  lemma HeadLength()
    ensures |Head()| == 2
  {
  }

  lemma AlignedIsOf(records: seq<Record>, lines: seq<string>, sources: seq<Source>)
    requires Aligned(records, lines, sources)
    ensures Rendering(records, lines) == Of(sources)
  {
    hide RecordsOf, Texts;
  }

  lemma FirstIsAligned()
    ensures var sources := Head() + Tabs10(2, 0, 0); Aligned(RecordsOf(sources), Texts(sources), sources)
  {
    FirstIsUnique();
    hide RecordsOf, Texts, UniqueIndexes;
  }

  lemma FirstIsUnique()
    ensures UniqueIndexes(Head() + Tabs10(2, 0, 0))
  {
    var sources := Head() + Tabs10(2, 0, 0);
    assert forall k :: 0 <= k < 12 ==> sources[k].Rendered? && sources[k].record.index == k;
  }

  /**
   The run on which indexes collide: the second strip of a window reuses the index of the first strip's
   active tab, whose record the second compaction then removes while its line stays.
   */
  lemma SecondStripLosesTab()
    ensures var window := Render(Render(Rendering([], []), [], WINDOW, 0), [0], BAR, 1);
            var first := RenderStrip(window, 0, 0);
            && |first.lines| == 12
            && var one := Compact(first, 2, 2);
            var two := RenderStrip(Render(one, [1], BAR, 1), 1, 0);
            && |two.lines| == 15
            && var end := Compact(two, 5, 2);
            && Record(11, [0, 9], SELECTED) in two.records && Record(11, [1, 7], QUIET) in two.records
            && Record(11, [0, 9], SELECTED) !in end.records
            && |end.lines| > 3 && end.lines[3] == RenderLine(SELECTED, 11, 2)
  {
    WindowSources();
    StripSources(Head(), 0, 0);
    var count := FirstCompaction();
    SecondSources(count);
    SecondCompaction(count);
    assert |Head()| == 2 && |RecordsOf(Head())| == 2;
  }

  lemma WindowSources()
    ensures Render(Render(Rendering([], []), [], WINDOW, 0), [0], BAR, 1) == Of(Head())
    ensures RecordsOf(Head()) == [Record(0, [], WINDOW), Record(1, [0], BAR)]
  {
    hide RenderLine;
    assert Head()[1..] == [Rendered(Record(1, [0], BAR), 1)];
    assert Texts(Head()) == [RenderLine(WINDOW, 0, 0), RenderLine(BAR, 1, 1)];
  }

  lemma AfterFirstRecords(count: nat)
    ensures RecordsOf(AfterFirst(count)) == [Record(0, [], WINDOW), Record(1, [0], BAR), Record(11, [0, 9], SELECTED)]
  {
    WindowSources();
    var tail := [Omission(count, 2), Rendered(Record(11, [0, 9], SELECTED), 2)];
    RecordsOfConcat(Head(), tail);
    assert tail[1..] == [Rendered(Record(11, [0, 9], SELECTED), 2)];
    assert tail[1..][1..] == [];
  }

  /** The first strip's remains and the second tool bar, before its strip. */
  function SecondHead(count: nat): seq<Source> {
    AfterFirst(count) + [Rendered(Record(3, [1], BAR), 1)]
  }

  lemma SecondSources(count: nat)
    ensures RenderStrip(Render(Of(AfterFirst(count)), [1], BAR, 1), 1, 0) == Of(SecondHead(count) + Tabs10(4, 1, 0))
  {
    AfterFirstRecords(count);
    RenderOne(AfterFirst(count), [1], BAR, 1);
    StripSources(SecondHead(count), 1, 0);
  }

  lemma SecondCompaction(count: nat)
    ensures var two := Of(SecondHead(count) + Tabs10(4, 1, 0));
            && |two.lines| == 15
            && var end := Compact(two, 5, 2);
            && Record(11, [0, 9], SELECTED) in two.records && Record(11, [1, 7], QUIET) in two.records
            && Record(11, [0, 9], SELECTED) !in end.records
            && |end.lines| > 3 && end.lines[3] == RenderLine(SELECTED, 11, 2)
  {
    hide *;
    var sources := SecondHead(count) + Tabs10(4, 1, 0);
    var records, lines := RecordsOf(sources), Texts(sources);
    SecondLayout(count);
    StripDrops(SecondHead(count), 4, 1);
    var drop := Inactive(records, lines, 5, 2);
    assert 12 in drop;
    StripLine(sources, 5, 4, 1, 7);
    RecordIsThere(sources, 3);
    RecordIsThere(sources, 12);
    CompactUnfolded(sources, 5, 2);
    OmittedExact(lines, drop, 2, 11);
    WithoutExact(records, Omitted(lines, drop, 2), Record(11, [0, 9], SELECTED));
    CompactedShape(lines, 5, 2, drop);
    FrontStays(lines, 5, Marker(|drop|, 2), Keep(lines, 5, drop), 3);
    OfUnfolded(sources);
  }

  lemma SecondLayout(count: nat)
    ensures var sources := SecondHead(count) + Tabs10(4, 1, 0);
      && |SecondHead(count)| == 5 && |sources| == 15 && EndsInStrip(sources, 5, 4, 1)
      && sources[3] == Rendered(Record(11, [0, 9], SELECTED), 2)
      && Texts(sources)[3] == RenderLine(SELECTED, 11, 2)
  {
    var sources := SecondHead(count) + Tabs10(4, 1, 0);
    assert sources[5..] == Tabs10(4, 1, 0);
    hide RenderLine;
  }

  lemma FrontStays(lines: seq<string>, first: nat, marker: string, rest: seq<string>, k: nat)
    requires k < first <= |lines|
    ensures var after := lines[..first] + [marker] + rest; |after| > k && after[k] == lines[k]
  {
  }

  lemma OfUnfolded(sources: seq<Source>)
    ensures Of(sources).records == RecordsOf(sources) && Of(sources).lines == Texts(sources)
  {
  }
}

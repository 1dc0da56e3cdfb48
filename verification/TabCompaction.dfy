/** Compaction of rendered browser tabs: what is deleted, what stays, and where the marker goes. */
module TabCompaction {
  import opened Options
  import opened RenderedLines
  import opened AccessibilityTree

  const MINIMUM_TABS := 10
  const TAB_WORDS := ["page tab", "tab item", "tab"]

  function Lower(c: char): char {
    if 'A' <= c <= 'Z' then 'a' + (c - 'A') else c
  }

  /** The word stands at the start, in either case, and a boundary of the pattern follows it. */
  predicate StartsWithWord(s: string, word: string) {
    && |word| <= |s|
    && (forall i :: 0 <= i < |word| ==> Lower(s[i]) == word[i])
    && (s[|word|..] == "" || s[|word|..] == "\n" || s[|word|] in " (,")
  }

  /** `is_direct_rendered_browser_tab_line`. */
  predicate IsDirectTabLine(line: string, depth: nat) {
    Tabs(depth) <= line &&
    var text := line[depth..];
    var n := LeadingDigits(text);
    && 0 < n < |text| && text[n] == ' '
    && exists word <- TAB_WORDS :: StartsWithWord(text[n + 1..], word)
  }

  predicate OccursAt(line: string, part: string, i: nat) {
    i + |part| <= |line| && line[i..i + |part|] == part
  }

  predicate Contains(line: string, part: string) {
    exists i :: 0 <= i <= |line| && OccursAt(line, part, i)
  }

  /** The record that a dictionary by index ends up with. */
  function RecordByIndex(records: seq<Record>, index: nat): Option<Record> {
    if records == [] then None
    else
      var last := records[|records| - 1];
      if last.index == index then Some(last) else RecordByIndex(records[..|records| - 1], index)
  }

  /** `is_active_rendered_browser_tab_line`. */
  predicate IsActiveTabLine(line: string, depth: nat, records: seq<Record>) {
    Contains(line, "(selected") ||
    var index := ElementIndex(line, depth);
    index.Some? &&
    var record := RecordByIndex(records, index.value);
    record.Some? && (record.value.info.selected || record.value.info.value == "1")
  }

  predicate Ascending(r: seq<nat>) {
    forall a, b :: 0 <= a < b < |r| ==> r[a] < r[b]
  }

  function TabLines(lines: seq<string>, i: nat, depth: nat): (r: seq<nat>)
    requires i <= |lines|
    ensures forall a :: 0 <= a < |r| ==> i <= r[a] < |lines|
    ensures Ascending(r)
    decreases |lines| - i
  {
    if i == |lines| then []
    else
      var rest := TabLines(lines, i + 1, depth);
      if IsDirectTabLine(lines[i], depth) then [i] + rest else rest
  }

  lemma {:induction false} TabLinesExact(lines: seq<string>, i: nat, depth: nat, k: nat)
    requires i <= |lines|
    ensures k in TabLines(lines, i, depth) <==> i <= k < |lines| && IsDirectTabLine(lines[k], depth)
    decreases |lines| - i
  {
    hide IsDirectTabLine;
    if i < |lines| { TabLinesExact(lines, i + 1, depth, k); }
  }

  /** The lines from `i` on whose numbers are not dropped, in order. */
  function Keep(lines: seq<string>, i: nat, drop: set<nat>): seq<string>
    requires i <= |lines|
    decreases |lines| - i
  {
    if i == |lines| then []
    else (if i in drop then [] else [lines[i]]) + Keep(lines, i + 1, drop)
  }

  function Without(records: seq<Record>, indexes: set<nat>): seq<Record> {
    if records == [] then []
    else (if records[0].index in indexes then [] else [records[0]]) + Without(records[1..], indexes)
  }

  function Marker(count: nat, depth: nat): string {
    Tabs(depth) + "... " + Decimal(count) + " inactive browser tabs omitted"
  }

  /** The inactive tab lines, when compaction applies; otherwise none. */
  function Inactive(records: seq<Record>, lines: seq<string>, start: nat, depth: nat): set<nat>
    requires start <= |lines|
  {
    var tabs := TabLines(lines, start, depth);
    if |tabs| < MINIMUM_TABS || forall i <- tabs :: i < |lines| ==> !IsActiveTabLine(lines[i], depth, records) then {}
    else set i | i in tabs && !IsActiveTabLine(lines[i], depth, records)
  }

  /** The element indexes read from the dropped lines. */
  function Omitted(lines: seq<string>, drop: set<nat>, depth: nat): set<nat>
    requires forall i <- drop :: i < |lines|
  {
    set i | i in drop && ElementIndex(lines[i], depth).Some? :: ElementIndex(lines[i], depth).value
  }

  function CompactedLines(lines: seq<string>, start: nat, depth: nat, drop: set<nat>): seq<string>
    requires start <= |lines|
  {
    var tabs := TabLines(lines, start, depth);
    if drop == {} || tabs == [] then lines
    else lines[..tabs[0]] + [Marker(|drop|, depth)] + Keep(lines, tabs[0], drop)
  }

  class RenderedElements {
    var records: seq<Record>
    var lines: seq<string>

    constructor (records: seq<Record>, lines: seq<string>)
      ensures this.records == records && this.lines == lines
    {
      this.records, this.lines := records, lines;
    }

    /** Deletes the inactive tab lines from the last to the first. */
    method DeleteInactive(tabs: seq<nat>, active: set<nat>, depth: nat, ghost drop: set<nat>)
      returns (omittedIndexes: set<nat>, omittedCount: nat)
      requires tabs != [] && Ascending(tabs) && forall a :: 0 <= a < |tabs| ==> tabs[a] < |lines|
      requires drop == set i | i in tabs && i !in active
      modifies `lines
      ensures lines == old(lines)[..tabs[0]] + Keep(old(lines), tabs[0], drop)
      ensures omittedIndexes == Omitted(old(lines), drop, depth) && omittedCount == |drop|
    {
      hide Omitted, ElementIndex, Keep;
      ghost var all := lines;
      ghost var bound := |lines|;
      assert Below(tabs, |lines|, drop);
      NothingDropped(all, drop, depth);
      hide DropFrom, Ascending, Below;
      omittedIndexes, omittedCount := {}, 0;
      for n := |tabs| downto 0
        invariant bound == Bound(tabs, n, all) <= |all|
        invariant lines == all[..bound] + Keep(all, bound, drop)
        invariant omittedIndexes == Omitted(all, DropFrom(drop, bound), depth)
        invariant omittedCount == |DropFrom(drop, bound)|
      {
        var i := tabs[n];
        KeepStep(tabs, n, all, drop);
        DropStep(tabs, n, all, drop);
        OmittedInsert(all, DropFrom(drop, bound), i, depth);
        assert lines == all[..i] + [all[i]] + all[i + 1..bound] + Keep(all, bound, drop);
        DeleteAt(all[..i], all[i], all[i + 1..bound], Keep(all, bound, drop));
        if i !in active {
          var recordIndex := ElementIndex(lines[i], depth);
          if recordIndex.Some? {
            omittedIndexes := omittedIndexes + {recordIndex.value};
          }
          lines := lines[..i] + lines[i + 1..];
          omittedCount := omittedCount + 1;
        }
        bound := i;
      }
      EverythingDropped(tabs, all, drop);
    }

    method CompactTabs(start: nat, depth: nat)
      requires start <= |lines|
      modifies this
      ensures var drop := Inactive(old(records), old(lines), start, depth);
              && lines == CompactedLines(old(lines), start, depth, drop)
              && records == if drop == {} then old(records) else Without(old(records), Omitted(old(lines), drop, depth))
    {
      hide Inactive, IsActiveTabLine, IsDirectTabLine, Omitted, ElementIndex, Keep, TabLines, Without;
      var tabs := TabLines(lines, start, depth);
      var active := set i | i in tabs && IsActiveTabLine(lines[i], depth, records);
      InactiveTabs(records, lines, start, depth, active);
      if |tabs| < MINIMUM_TABS || active == {} {
        return;
      }
      ghost var all := lines;
      ghost var drop := Inactive(records, lines, start, depth);
      var omittedIndexes, omittedCount := DeleteInactive(tabs, active, depth, drop);
      if omittedCount <= 0 {
        KeepAll(all, tabs[0], drop);
        assert lines == all;
        return;
      }
      records := Without(records, omittedIndexes);
      lines := lines[..tabs[0]] + [Marker(omittedCount, depth)] + lines[tabs[0]..];
      assert lines == CompactedLines(all, start, depth, drop);
    }
  }

  ghost function Bound(tabs: seq<nat>, n: nat, lines: seq<string>): nat
    requires n <= |tabs|
  {
    if n == |tabs| then |lines| else tabs[n]
  }

  ghost function DropFrom(drop: set<nat>, bound: nat): set<nat> {
    set i | i in drop && i >= bound
  }

  lemma {:induction false} KeepAll(lines: seq<string>, i: nat, drop: set<nat>)
    requires i <= |lines| && forall k <- drop :: k < i
    ensures Keep(lines, i, drop) == lines[i..]
    decreases |lines| - i
  {
    if i < |lines| { KeepAll(lines, i + 1, drop); }
  }

  lemma {:induction false} KeepRange(lines: seq<string>, i: nat, bound: nat, drop: set<nat>)
    requires i <= bound <= |lines| && forall k <- drop :: k < i || bound <= k
    ensures Keep(lines, i, drop) == lines[i..bound] + Keep(lines, bound, drop)
    decreases bound - i
  {
    if i < bound { KeepRange(lines, i + 1, bound, drop); }
  }

  ghost predicate Below(tabs: seq<nat>, bound: nat, drop: set<nat>) {
    && Ascending(tabs)
    && (forall a :: 0 <= a < |tabs| ==> tabs[a] < bound)
    && (forall k <- drop :: k in tabs)
  }

  lemma NothingDropped(lines: seq<string>, drop: set<nat>, depth: nat)
    requires forall k <- drop :: k < |lines|
    ensures DropFrom(drop, |lines|) == {} && Omitted(lines, {}, depth) == {}
    ensures lines == lines[..|lines|] + Keep(lines, |lines|, drop)
  {
  }

  lemma EverythingDropped(tabs: seq<nat>, lines: seq<string>, drop: set<nat>)
    requires tabs != [] && Below(tabs, |lines|, drop)
    ensures DropFrom(drop, tabs[0]) == drop
  {
  }

  /** Between one tab line and the next nothing is dropped. */
  lemma DropGap(tabs: seq<nat>, n: nat, lines: seq<string>, drop: set<nat>)
    requires n < |tabs| && Below(tabs, |lines|, drop)
    ensures tabs[n] < Bound(tabs, n + 1, lines) <= |lines|
    ensures forall k <- drop :: k <= tabs[n] || Bound(tabs, n + 1, lines) <= k
  {
    forall k <- drop ensures k <= tabs[n] || Bound(tabs, n + 1, lines) <= k {
      var a :| 0 <= a < |tabs| && tabs[a] == k;
    }
  }

  lemma OmittedInsert(lines: seq<string>, later: set<nat>, i: nat, depth: nat)
    requires i < |lines| && forall k <- later :: k < |lines|
    ensures Omitted(lines, {i} + later, depth)
         == Omitted(lines, later, depth) +
            (if ElementIndex(lines[i], depth).Some? then {ElementIndex(lines[i], depth).value} else {})
  {
    hide ElementIndex;
  }

  /** What one round of the deletion drops. */
  lemma DropStep(tabs: seq<nat>, n: nat, lines: seq<string>, drop: set<nat>)
    requires n < |tabs| && Below(tabs, |lines|, drop)
    ensures var i, bound := tabs[n], Bound(tabs, n + 1, lines);
            && Bound(tabs, n, lines) == i < bound <= |lines|
            && DropFrom(drop, i) == (if i in drop then {i} + DropFrom(drop, bound) else DropFrom(drop, bound))
            && i !in DropFrom(drop, bound)
  {
    DropGap(tabs, n, lines, drop);
    hide Below;
  }

  lemma KeepHead(lines: seq<string>, i: nat, drop: set<nat>)
    requires i < |lines|
    ensures Keep(lines, i, drop) == (if i in drop then [] else [lines[i]]) + Keep(lines, i + 1, drop)
  {
  }

  /** One round of the deletion, seen from the original lines. */
  lemma KeepStep(tabs: seq<nat>, n: nat, lines: seq<string>, drop: set<nat>)
    requires n < |tabs| && Below(tabs, |lines|, drop)
    ensures var i, bound := tabs[n], Bound(tabs, n + 1, lines);
            && Bound(tabs, n, lines) == i < bound <= |lines|
            && lines[..i] + (if i in drop then [] else [lines[i]]) + lines[i + 1..bound] + Keep(lines, bound, drop)
            == lines[..i] + Keep(lines, i, drop)
            && lines[..bound] == lines[..i] + [lines[i]] + lines[i + 1..bound]
  {
    hide Below, Keep;
    var i, bound := tabs[n], Bound(tabs, n + 1, lines);
    DropGap(tabs, n, lines, drop);
    var here := if i in drop then [] else [lines[i]];
    KeepHead(lines, i, drop);
    KeepRange(lines, i + 1, bound, drop);
    Regroup(lines[..i], here, lines[i + 1..bound], Keep(lines, bound, drop));
    SplitAt(lines, i, bound);
  }

  lemma SplitAt(lines: seq<string>, i: nat, bound: nat)
    requires i < bound <= |lines|
    ensures lines[..bound] == lines[..i] + [lines[i]] + lines[i + 1..bound]
  {
  }

  lemma Regroup(a: seq<string>, b: seq<string>, c: seq<string>, d: seq<string>)
    ensures a + b + c + d == a + (b + (c + d))
  {
  }

  /** Deleting the element at `|a|`. */
  lemma DeleteAt(a: seq<string>, x: string, c: seq<string>, d: seq<string>)
    ensures var s := a + [x] + c + d;
            |a| < |s| && s[|a|] == x && s[..|a|] + s[|a| + 1..] == a + [] + c + d
  {
    var s := a + [x] + c + d;
    assert s[..|a|] == a && s[|a| + 1..] == c + d;
  }

  /** When compaction applies, the inactive lines are the tab lines that are not active. */
  lemma InactiveTabs(records: seq<Record>, lines: seq<string>, start: nat, depth: nat, active: set<nat>)
    requires start <= |lines|
    requires active == set i | i in TabLines(lines, start, depth) && IsActiveTabLine(lines[i], depth, records)
    ensures var tabs := TabLines(lines, start, depth);
            Inactive(records, lines, start, depth)
            == if |tabs| < MINIMUM_TABS || active == {} then {} else set i | i in tabs && i !in active
  {
    hide IsActiveTabLine, TabLines;
    if active == {} {
      assert forall i <- TabLines(lines, start, depth) :: i !in active;
    } else {
      var i :| i in active;
    }
  }

  /** The numbers of the lines from `i` on that are not dropped. */
  function KeptNumbers(n: nat, i: nat, drop: set<nat>): (r: seq<nat>)
    requires i <= n
    ensures forall a :: 0 <= a < |r| ==> i <= r[a] < n && r[a] !in drop
    ensures Ascending(r)
    decreases n - i
  {
    if i == n then []
    else
      var rest := KeptNumbers(n, i + 1, drop);
      if i in drop then rest else [i] + rest
  }

  lemma {:induction false} EveryOtherNumberIsKept(n: nat, i: nat, drop: set<nat>, k: nat)
    requires i <= k < n && k !in drop
    ensures k in KeptNumbers(n, i, drop)
    decreases n - i
  {
    if i < k { EveryOtherNumberIsKept(n, i + 1, drop, k); }
  }

  /** The elements with the given numbers, in that order. */
  function Pick<T>(s: seq<T>, numbers: seq<nat>): seq<T>
    requires forall a :: 0 <= a < |numbers| ==> numbers[a] < |s|
  {
    seq(|numbers|, a requires 0 <= a < |numbers| => s[numbers[a]])
  }

  /** The kept lines are the original ones, in order, under exactly the numbers not dropped. */
  lemma {:induction false} KeepIsOrderedSelection(lines: seq<string>, i: nat, drop: set<nat>)
    requires i <= |lines|
    ensures Keep(lines, i, drop) == Pick(lines, KeptNumbers(|lines|, i, drop))
    decreases |lines| - i
  {
    if i < |lines| {
      KeepIsOrderedSelection(lines, i + 1, drop);
      var rest := KeptNumbers(|lines|, i + 1, drop);
      assert Pick(lines, [i] + rest) == [lines[i]] + Pick(lines, rest);
    }
  }

  /** As many lines disappear as the marker says. */
  lemma {:induction false} KeepCount(lines: seq<string>, i: nat, drop: set<nat>)
    requires i <= |lines| && forall k <- drop :: i <= k < |lines|
    ensures |Keep(lines, i, drop)| == |lines| - i - |drop|
    decreases |lines| - i
  {
    if i < |lines| {
      KeepCount(lines, i + 1, drop - {i});
      KeepIgnores(lines, i + 1, drop, {i});
    } else {
      assert drop == {};
    }
  }

  lemma {:induction false} KeepIgnores(lines: seq<string>, i: nat, drop: set<nat>, earlier: set<nat>)
    requires i <= |lines| && forall k <- earlier :: k < i
    ensures Keep(lines, i, drop) == Keep(lines, i, drop - earlier)
    decreases |lines| - i
  {
    if i < |lines| { KeepIgnores(lines, i + 1, drop, earlier); }
  }

  /** What a line was written for: a record, or the tabs that an earlier compaction omitted. */
  datatype Source = Rendered(record: Record, depth: nat) | Omission(count: nat, depth: nat)

  function Text(source: Source): string {
    match source
    case Rendered(record, depth) => RenderLine(record.info, record.index, depth)
    case Omission(count, depth) => Marker(count, depth)
  }

  function Texts(sources: seq<Source>): (r: seq<string>)
    ensures |r| == |sources|
  {
    seq(|sources|, k requires 0 <= k < |sources| => Text(sources[k]))
  }

  function RecordsOf(sources: seq<Source>): seq<Record> {
    if sources == [] then []
    else (if sources[0].Rendered? then [sources[0].record] else []) + RecordsOf(sources[1..])
  }

  /** No two records share an index. */
  ghost predicate UniqueIndexes(sources: seq<Source>) {
    forall j, k :: 0 <= j < k < |sources| && sources[j].Rendered? && sources[k].Rendered? ==>
      sources[j].record.index != sources[k].record.index
  }

  /** Every record has its line and every other line is a marker, in one order. */
  ghost predicate Matched(records: seq<Record>, lines: seq<string>, sources: seq<Source>) {
    lines == Texts(sources) && records == RecordsOf(sources)
  }

  ghost predicate Aligned(records: seq<Record>, lines: seq<string>, sources: seq<Source>) {
    Matched(records, lines, sources) && UniqueIndexes(sources)
  }

  /** A record whose line stays has the index of one whose line is dropped. */
  ghost predicate Clash(sources: seq<Source>, drop: set<nat>) {
    exists j <- drop, k | 0 <= k < |sources| ::
      j < |sources| && k !in drop && sources[j].Rendered? && sources[k].Rendered?
      && sources[j].record.index == sources[k].record.index
  }

  /** The sources from `i` on that are not dropped, in order. */
  function KeepSources(sources: seq<Source>, i: nat, drop: set<nat>): seq<Source>
    requires i <= |sources|
    decreases |sources| - i
  {
    if i == |sources| then []
    else (if i in drop then [] else [sources[i]]) + KeepSources(sources, i + 1, drop)
  }

  /** The sources after compaction: one omission stands where the first tab stood. */
  function Compacted(sources: seq<Source>, first: nat, depth: nat, drop: set<nat>): seq<Source>
    requires first <= |sources|
  {
    sources[..first] + [Omission(|drop|, depth)] + KeepSources(sources, first, drop)
  }

  /** A tab line found at a depth was rendered at that depth, so the index read from it is its number. */
  lemma TabLineDepth(info: Info, index: nat, rendered: nat, depth: nat)
    ensures var line := RenderLine(info, index, rendered);
            IsDirectTabLine(line, depth) ==> rendered == depth && ElementIndex(line, depth) == Some(index)
  {
    hide RenderLine, ElementIndex, StartsWithWord, LeadingDigits;
    var line := RenderLine(info, index, rendered);
    LineCarriesIndex(info, index, rendered);
    RenderedStart(info, index, rendered);
    if IsDirectTabLine(line, depth) {
      assert IsDigit(line[depth]) by { assert line[depth..][0] == line[depth]; }
      assert forall k :: 0 <= k < depth ==> line[k] == Tabs(depth)[k] == '\t';
    }
  }

  lemma RenderedStart(info: Info, index: nat, depth: nat)
    ensures var line := RenderLine(info, index, depth);
            && depth < |line| && IsDigit(line[depth]) && forall k :: 0 <= k < depth ==> line[k] == '\t'
  {
    var digits := Decimal(index);
    var rest := " " + info.roleLabel + " " + Title(info);
    assert digits + " " + info.roleLabel + " " + Title(info) == digits + rest;
    hide Decimal, Title, FormattedValue, SummaryText, ActionsText;
    RstripKeepsHead(digits, rest);
  }

  /** No marker passes for a tab line, at any depth. */
  lemma MarkerIsNoTab(count: nat, rendered: nat, depth: nat)
    ensures !IsDirectTabLine(Marker(count, rendered), depth)
  {
    hide Decimal, StartsWithWord;
    var line := Marker(count, rendered);
    assert line[rendered] == '.';
    forall k | 0 <= k < depth && Tabs(depth) <= line ensures line[k] == '\t' {
      assert Tabs(depth)[k] == line[k];
    }
    assert depth < |line| ==> line[depth..][0] == line[depth];
    assert forall k :: 0 <= k < rendered ==> line[k] == '\t';
  }

  /** A line that passes for a tab renders a record, whose index is the one read from it. */
  lemma TabLineSource(sources: seq<Source>, k: nat, depth: nat)
    requires k < |sources| && IsDirectTabLine(Texts(sources)[k], depth)
    ensures sources[k].Rendered? && ElementIndex(Texts(sources)[k], depth) == Some(sources[k].record.index)
  {
    hide IsDirectTabLine, ElementIndex, RenderLine;
    match sources[k]
    case Rendered(record, rendered) => TabLineDepth(record.info, record.index, rendered, depth);
    case Omission(count, rendered) => MarkerIsNoTab(count, rendered, depth);
  }

  /** Tab lines of one depth, to be dropped. */
  ghost predicate Droppable(sources: seq<Source>, depth: nat, drop: set<nat>) {
    forall k <- drop :: k < |sources| && IsDirectTabLine(Texts(sources)[k], depth)
  }

  lemma OmittedExact(lines: seq<string>, drop: set<nat>, depth: nat, index: nat)
    requires forall i <- drop :: i < |lines|
    ensures index in Omitted(lines, drop, depth) <==> exists i <- drop :: ElementIndex(lines[i], depth) == Some(index)
  {
    hide ElementIndex;
  }

  /** The omitted indexes are exactly those of the dropped lines' records. */
  lemma OmittedIndexes(sources: seq<Source>, depth: nat, drop: set<nat>, index: nat)
    requires Droppable(sources, depth, drop)
    ensures index in Omitted(Texts(sources), drop, depth)
       <==> exists j <- drop :: sources[j].Rendered? && sources[j].record.index == index
  {
    hide ElementIndex, IsDirectTabLine, Omitted;
    var lines := Texts(sources);
    hide Texts;
    OmittedExact(lines, drop, depth, index);
    forall j <- drop ensures sources[j].Rendered? && ElementIndex(lines[j], depth) == Some(sources[j].record.index) {
      TabLineSource(sources, j, depth);
    }
  }

  /** With unique indexes, no other record has an omitted one. */
  lemma OmittedAreDropped(sources: seq<Source>, depth: nat, drop: set<nat>, k: nat)
    requires UniqueIndexes(sources) && Droppable(sources, depth, drop)
    requires k < |sources| && sources[k].Rendered?
    ensures sources[k].record.index in Omitted(Texts(sources), drop, depth) <==> k in drop
  {
    hide *;
    OmittedIndexes(sources, depth, drop, sources[k].record.index);
    DroppableMeans(sources, depth, drop);
    if j :| j in drop && sources[j].Rendered? && sources[j].record.index == sources[k].record.index {
      OneIndexEach(sources, j, k);
    }
  }

  lemma OneIndexEach(sources: seq<Source>, j: nat, k: nat)
    requires UniqueIndexes(sources) && j < |sources| && k < |sources| && sources[j].Rendered? && sources[k].Rendered?
    ensures sources[j].record.index == sources[k].record.index ==> j == k
  {
  }

  lemma WithoutOne(head: seq<Record>, rest: seq<Record>, indexes: set<nat>)
    requires |head| <= 1
    ensures Without(head + rest, indexes)
         == (if head == [] || head[0].index in indexes then [] else head) + Without(rest, indexes)
  {
    if head == [] {
      assert head + rest == rest;
    } else {
      assert (head + rest)[1..] == rest && [head[0]] == head;
    }
  }

  /**
   Removing by the omitted indexes never keeps a record of a dropped line; it keeps those of all other
   lines unless one of them has an omitted index, and then it keeps fewer.
   */
  lemma {:induction false} WithoutAgainstKept(sources: seq<Source>, i: nat, depth: nat, drop: set<nat>)
    requires Droppable(sources, depth, drop) && i <= |sources|
    ensures var omitted := Omitted(Texts(sources), drop, depth);
      var left, kept := Without(RecordsOf(sources[i..]), omitted), RecordsOf(KeepSources(sources, i, drop));
      if exists k :: i <= k < |sources| && k !in drop && sources[k].Rendered? && sources[k].record.index in omitted
      then |left| < |kept| else left == kept
    decreases |sources| - i
  {
    hide Omitted, Texts, IsDirectTabLine, KeepSources, Without;
    var omitted := Omitted(Texts(sources), drop, depth);
    if i == |sources| {
      KeepNone(sources, drop, omitted);
    } else {
      WithoutAgainstKept(sources, i + 1, depth, drop);
      assert sources[i..][1..] == sources[i + 1..];
      DroppedIsRendered(sources, i, depth, drop);
      if i in drop { OmittedIndexes(sources, depth, drop, sources[i].record.index); }
      KeepOne(sources, i, drop);
      WithoutOne(if sources[i].Rendered? then [sources[i].record] else [], RecordsOf(sources[i + 1..]), omitted);
    }
  }

  /** Exactly the dropped lines' records are removed if and only if no kept record shares an index with one of them. */
  lemma WithoutOmittedIff(sources: seq<Source>, depth: nat, drop: set<nat>)
    requires Droppable(sources, depth, drop)
    ensures Without(RecordsOf(sources), Omitted(Texts(sources), drop, depth)) == RecordsOf(KeepSources(sources, 0, drop))
       <==> !Clash(sources, drop)
  {
    WithoutAgainstKept(sources, 0, depth, drop);
    assert sources[0..] == sources;
    forall k: nat | k < |sources| && sources[k].Rendered?
      ensures sources[k].record.index in Omitted(Texts(sources), drop, depth)
         <==> exists j <- drop :: sources[j].Rendered? && sources[j].record.index == sources[k].record.index
    {
      OmittedIndexes(sources, depth, drop, sources[k].record.index);
    }
    hide Omitted, Texts, IsDirectTabLine, KeepSources, Without, RecordsOf;
  }

  lemma DroppedIsRendered(sources: seq<Source>, i: nat, depth: nat, drop: set<nat>)
    requires Droppable(sources, depth, drop) && i < |sources|
    ensures i in drop ==> sources[i].Rendered?
  {
    if i in drop { TabLineSource(sources, i, depth); }
  }

  lemma KeepNone(sources: seq<Source>, drop: set<nat>, indexes: set<nat>)
    ensures Without(RecordsOf(sources[|sources|..]), indexes) == RecordsOf(KeepSources(sources, |sources|, drop))
  {
  }

  lemma KeepOne(sources: seq<Source>, i: nat, drop: set<nat>)
    requires i < |sources|
    ensures var rest := KeepSources(sources, i + 1, drop);
      RecordsOf(KeepSources(sources, i, drop))
      == (if i !in drop && sources[i].Rendered? then [sources[i].record] else []) + RecordsOf(rest)
  {
    var rest := KeepSources(sources, i + 1, drop);
    if i in drop {
      assert [] + rest == rest;
    } else {
      assert ([sources[i]] + rest)[1..] == rest;
    }
  }

  lemma {:induction false} KeepTexts(sources: seq<Source>, i: nat, drop: set<nat>)
    requires i <= |sources|
    ensures Texts(KeepSources(sources, i, drop)) == Keep(Texts(sources), i, drop)
    decreases |sources| - i
  {
    hide Text;
    if i < |sources| {
      KeepTexts(sources, i + 1, drop);
    }
  }

  lemma {:induction false} KeptAreDistinct(sources: seq<Source>, i: nat, drop: set<nat>)
    requires UniqueIndexes(sources) && i <= |sources|
    ensures UniqueIndexes(KeepSources(sources, i, drop))
    ensures forall x <- KeepSources(sources, i, drop) :: exists k :: i <= k < |sources| && k !in drop && sources[k] == x
    decreases |sources| - i
  {
    if i < |sources| {
      KeptAreDistinct(sources, i + 1, drop);
      var rest := KeepSources(sources, i + 1, drop);
      if i !in drop {
        forall k | 0 <= k < |rest| && sources[i].Rendered? && rest[k].Rendered?
          ensures rest[k].record.index != sources[i].record.index
        {
          assert rest[k] in rest;
        }
        assert UniqueIndexes([sources[i]] + rest);
      } else {
        assert [] + rest == rest;
      }
    }
  }

  lemma {:induction false} KeepFront(sources: seq<Source>, i: nat, first: nat, drop: set<nat>)
    requires i <= first <= |sources| && forall k <- drop :: first <= k
    ensures KeepSources(sources, i, drop) == sources[i..first] + KeepSources(sources, first, drop)
    decreases first - i
  {
    if i < first { KeepFront(sources, i + 1, first, drop); }
  }

  lemma OmissionIsNoRecord(front: seq<Source>, count: nat, depth: nat, back: seq<Source>)
    requires UniqueIndexes(front + back)
    ensures UniqueIndexes(front + [Omission(count, depth)] + back)
  {
    var s, without := front + [Omission(count, depth)] + back, front + back;
    forall j, k | 0 <= j < k < |s| && s[j].Rendered? && s[k].Rendered? ensures s[j].record.index != s[k].record.index {
      assert without[if j < |front| then j else j - 1] == s[j];
      assert without[if k < |front| then k else k - 1] == s[k];
    }
  }

  lemma {:induction false} RecordsOfConcat(a: seq<Source>, b: seq<Source>)
    ensures RecordsOf(a + b) == RecordsOf(a) + RecordsOf(b)
    decreases |a|
  {
    if a == [] {
      assert a + b == b;
    } else {
      var head := if a[0].Rendered? then [a[0].record] else [];
      assert (a + b)[1..] == a[1..] + b;
      RecordsOfConcat(a[1..], b);
      assert RecordsOf(a) == head + RecordsOf(a[1..]);
      assert RecordsOf(a + b) == head + RecordsOf((a + b)[1..]);
    }
  }

  lemma OmissionAddsNothing(front: seq<Source>, count: nat, depth: nat, back: seq<Source>)
    ensures RecordsOf(front + [Omission(count, depth)] + back) == RecordsOf(front + back)
  {
    RecordsOfConcat(front + [Omission(count, depth)], back);
    RecordsOfConcat(front, [Omission(count, depth)]);
    RecordsOfConcat(front, back);
    assert [Omission(count, depth)][1..] == [];
  }

  lemma InactiveAreTabs(records: seq<Record>, lines: seq<string>, start: nat, depth: nat)
    requires start <= |lines|
    ensures forall i <- Inactive(records, lines, start, depth) ::
      i in TabLines(lines, start, depth) && i < |lines| && IsDirectTabLine(lines[i], depth) && !IsActiveTabLine(lines[i], depth, records)
  {
    forall i <- Inactive(records, lines, start, depth)
      ensures i in TabLines(lines, start, depth) && i < |lines| && IsDirectTabLine(lines[i], depth)
    {
      TabLinesExact(lines, start, depth, i);
    }
  }

  /**
   Compacting lists in which every record has its line, markers of earlier compactions included: the
   marker with the true count stands where the first tab line stood and all other lines stay, in their
   order; and exactly their records stay, in that order, if and only if no record of a line that stays
   shares its index with one that is dropped.
   */
  lemma CompactionKeepsTogetherIff(records: seq<Record>, lines: seq<string>, sources: seq<Source>, start: nat, depth: nat)
    requires Matched(records, lines, sources) && start <= |lines|
    ensures Inactive(records, lines, start, depth) != {} ==>
            && TabLines(lines, start, depth) != []
            && var drop := Inactive(records, lines, start, depth);
            var first := TabLines(lines, start, depth)[0];
            && (forall k <- drop :: first <= k < |lines| && IsDirectTabLine(lines[k], depth))
            && CompactedLines(lines, start, depth, drop) == Texts(Compacted(sources, first, depth, drop))
            && (Without(records, Omitted(lines, drop, depth)) == RecordsOf(Compacted(sources, first, depth, drop))
                <==> !Clash(sources, drop))
  {
    var drop := Inactive(records, lines, start, depth);
    var tabs := TabLines(lines, start, depth);
    hide *;
    if drop != {} {
      InactiveAreTabs(records, lines, start, depth);
      InactiveFromFirst(records, lines, start, depth);
      CompactedShape(lines, start, depth, drop);
      MatchedMeans(records, lines, sources);
      CompactedTexts(sources, tabs[0], depth, drop);
      DroppableMeans(sources, depth, drop);
      CompactedRecordsIff(sources, tabs[0], depth, drop);
    }
  }

  lemma MatchedMeans(records: seq<Record>, lines: seq<string>, sources: seq<Source>)
    ensures Matched(records, lines, sources) <==> lines == Texts(sources) && records == RecordsOf(sources)
  {
  }

  lemma DroppableMeans(sources: seq<Source>, depth: nat, drop: set<nat>)
    ensures Droppable(sources, depth, drop)
       <==> forall k <- drop :: k < |sources| && IsDirectTabLine(Texts(sources)[k], depth)
  {
  }

  lemma TextsConcat(a: seq<Source>, b: seq<Source>)
    ensures Texts(a + b) == Texts(a) + Texts(b)
  {
    hide Text;
  }

  lemma TextsPrefix(sources: seq<Source>, n: nat)
    requires n <= |sources|
    ensures Texts(sources[..n]) == Texts(sources)[..n]
  {
    hide Text;
  }

  lemma OmissionText(count: nat, depth: nat)
    ensures Texts([Omission(count, depth)]) == [Marker(count, depth)]
  {
    hide Marker;
  }

  lemma CompactedUnfolded(sources: seq<Source>, first: nat, depth: nat, drop: set<nat>)
    requires first <= |sources|
    ensures Compacted(sources, first, depth, drop)
         == sources[..first] + [Omission(|drop|, depth)] + KeepSources(sources, first, drop)
  {
  }

  lemma CompactedTexts(sources: seq<Source>, first: nat, depth: nat, drop: set<nat>)
    requires first <= |sources|
    ensures Texts(Compacted(sources, first, depth, drop))
         == Texts(sources)[..first] + [Marker(|drop|, depth)] + Keep(Texts(sources), first, drop)
  {
    hide *;
    CompactedUnfolded(sources, first, depth, drop);
    TextsConcat(sources[..first] + [Omission(|drop|, depth)], KeepSources(sources, first, drop));
    TextsConcat(sources[..first], [Omission(|drop|, depth)]);
    TextsPrefix(sources, first);
    OmissionText(|drop|, depth);
    KeepTexts(sources, first, drop);
  }

  lemma CompactedIsKept(sources: seq<Source>, first: nat, depth: nat, drop: set<nat>)
    requires first <= |sources| && forall k <- drop :: first <= k
    ensures RecordsOf(Compacted(sources, first, depth, drop)) == RecordsOf(KeepSources(sources, 0, drop))
    ensures UniqueIndexes(KeepSources(sources, 0, drop)) ==> UniqueIndexes(Compacted(sources, first, depth, drop))
  {
    hide UniqueIndexes, RecordsOf, KeepSources;
    assert sources[0..first] == sources[..first];
    KeepFront(sources, 0, first, drop);
    if UniqueIndexes(KeepSources(sources, 0, drop)) {
      OmissionIsNoRecord(sources[..first], |drop|, depth, KeepSources(sources, first, drop));
    }
    OmissionAddsNothing(sources[..first], |drop|, depth, KeepSources(sources, first, drop));
  }

  lemma CompactedRecordsIff(sources: seq<Source>, first: nat, depth: nat, drop: set<nat>)
    requires Droppable(sources, depth, drop)
    requires first <= |sources| && forall k <- drop :: first <= k
    ensures Without(RecordsOf(sources), Omitted(Texts(sources), drop, depth))
         == RecordsOf(Compacted(sources, first, depth, drop))
       <==> !Clash(sources, drop)
  {
    hide Droppable, RecordsOf, Compacted, KeepSources, Without, Omitted, Texts, Clash;
    WithoutOmittedIff(sources, depth, drop);
    CompactedIsKept(sources, first, depth, drop);
  }

  lemma UniqueNeverClashes(sources: seq<Source>, drop: set<nat>)
    requires UniqueIndexes(sources)
    ensures !Clash(sources, drop)
  {
  }

  /**
   With unique indexes records and lines therefore stay together, and indexes stay unique, so that the
   next compaction may follow.
   */
  lemma CompactionKeepsAlignment(records: seq<Record>, lines: seq<string>, sources: seq<Source>, start: nat, depth: nat)
    requires Aligned(records, lines, sources) && start <= |lines|
    ensures Inactive(records, lines, start, depth) != {} ==>
            && TabLines(lines, start, depth) != []
            && var drop := Inactive(records, lines, start, depth);
            var first := TabLines(lines, start, depth)[0];
            && (forall k <- drop :: first <= k < |lines| && IsDirectTabLine(lines[k], depth))
            && Aligned(Without(records, Omitted(lines, drop, depth)), CompactedLines(lines, start, depth, drop),
                       Compacted(sources, first, depth, drop))
  {
    var drop := Inactive(records, lines, start, depth);
    hide *;
    AlignedMeans(records, lines, sources);
    CompactionKeepsTogetherIff(records, lines, sources, start, depth);
    if drop != {} {
      var first := TabLines(lines, start, depth)[0];
      UniqueNeverClashes(sources, drop);
      KeptAreDistinct(sources, 0, drop);
      MatchedMeans(records, lines, sources);
      CompactedIsKept(sources, first, depth, drop);
      var after := Compacted(sources, first, depth, drop);
      MatchedMeans(Without(records, Omitted(lines, drop, depth)), CompactedLines(lines, start, depth, drop), after);
      AlignedMeans(Without(records, Omitted(lines, drop, depth)), CompactedLines(lines, start, depth, drop), after);
    }
  }

  lemma AlignedMeans(records: seq<Record>, lines: seq<string>, sources: seq<Source>)
    ensures Aligned(records, lines, sources) <==> Matched(records, lines, sources) && UniqueIndexes(sources)
  {
  }

  /** Which records stay: exactly those of the lines that stay. */
  lemma RecordStaysIff(sources: seq<Source>, depth: nat, drop: set<nat>, k: nat)
    requires UniqueIndexes(sources) && Droppable(sources, depth, drop)
    requires k < |sources| && sources[k].Rendered?
    ensures sources[k].record in Without(RecordsOf(sources), Omitted(Texts(sources), drop, depth)) <==> k !in drop
  {
    hide UniqueIndexes, Omitted, Texts, IsDirectTabLine;
    OmittedAreDropped(sources, depth, drop, k);
    RecordIsThere(sources, k);
    WithoutExact(RecordsOf(sources), Omitted(Texts(sources), drop, depth), sources[k].record);
  }

  lemma {:induction false} RecordIsThere(sources: seq<Source>, k: nat)
    requires k < |sources| && sources[k].Rendered?
    ensures sources[k].record in RecordsOf(sources)
    decreases |sources|
  {
    if k > 0 {
      assert sources[1..][k - 1] == sources[k];
      RecordIsThere(sources[1..], k - 1);
    }
  }

  lemma {:induction false} WithoutExact(records: seq<Record>, indexes: set<nat>, record: Record)
    ensures record in Without(records, indexes) <==> record in records && record.index !in indexes
    decreases |records|
  {
    if records != [] {
      WithoutExact(records[1..], indexes, record);
      assert records == [records[0]] + records[1..];
    }
  }

  /** The sources of the records and lines that a walk leaves. */
  function WalkSources(shown: seq<Entry>): (r: seq<Source>)
    ensures |r| == |shown|
  {
    seq(|shown|, k requires 0 <= k < |shown| => Rendered(Records(shown, 0)[k], shown[k].depth))
  }

  lemma {:induction false} AllRendered(sources: seq<Source>)
    requires forall k :: 0 <= k < |sources| ==> sources[k].Rendered?
    ensures |RecordsOf(sources)| == |sources|
    ensures forall k :: 0 <= k < |sources| ==> RecordsOf(sources)[k] == sources[k].record
    decreases |sources|
  {
    if sources != [] { AllRendered(sources[1..]); }
  }

  /** A walk without compaction leaves index = position, so its records and lines may be compacted. */
  lemma WalkIsAligned(shown: seq<Entry>)
    ensures Aligned(Records(shown, 0), Lines(shown, 0), WalkSources(shown))
  {
    hide RenderLine;
    AllRendered(WalkSources(shown));
    assert RecordsOf(WalkSources(shown)) == Records(shown, 0);
  }

  lemma CompactedShape(lines: seq<string>, start: nat, depth: nat, drop: set<nat>)
    requires start <= |lines| && drop != {} && TabLines(lines, start, depth) != []
    ensures var first := TabLines(lines, start, depth)[0];
            CompactedLines(lines, start, depth, drop)
            == lines[..first] + [Marker(|drop|, depth)] + Keep(lines, first, drop)
  {
  }

  lemma InactiveFromFirst(records: seq<Record>, lines: seq<string>, start: nat, depth: nat)
    requires start <= |lines| && TabLines(lines, start, depth) != []
    ensures forall k <- Inactive(records, lines, start, depth) ::
      TabLines(lines, start, depth)[0] <= k < |lines| && IsDirectTabLine(lines[k], depth)
  {
    InactiveAreTabs(records, lines, start, depth);
    var tabs := TabLines(lines, start, depth);
    hide Inactive, TabLines, IsDirectTabLine, IsActiveTabLine;
    forall k <- Inactive(records, lines, start, depth) ensures tabs[0] <= k {
      var a :| 0 <= a < |tabs| && tabs[a] == k;
    }
  }

  /** The first compaction after a walk: index = position, so it always keeps records and lines together. */
  lemma CompactionAfterWalk(shown: seq<Entry>, start: nat, depth: nat)
    requires start <= |shown|
    ensures var records, lines := Records(shown, 0), Lines(shown, 0);
            Inactive(records, lines, start, depth) != {} ==>
              && TabLines(lines, start, depth) != []
              && var drop := Inactive(records, lines, start, depth);
              && (forall k <- drop :: k < |lines|)
              && Aligned(Without(records, Omitted(lines, drop, depth)), CompactedLines(lines, start, depth, drop),
                         Compacted(WalkSources(shown), TabLines(lines, start, depth)[0], depth, drop))
  {
    hide *;
    WalkIsAligned(shown);
    CompactionKeepsAlignment(Records(shown, 0), Lines(shown, 0), WalkSources(shown), start, depth);
  }

  /** The number that a reader finds behind the dots of a marker line. */
  function ReadCount(line: string, depth: nat): Option<nat> {
    var text := FromColumn(line, depth);
    if "... " <= text && LeadingDigits(text[4..]) > 0 then Some(Number(text[4..][..LeadingDigits(text[4..])])) else None
  }

  lemma MarkerText(count: nat, depth: nat)
    ensures FromColumn(Marker(count, depth), depth) == "... " + (Decimal(count) + " inactive browser tabs omitted")
  {
    hide Decimal;
    var digits, rest := Decimal(count), " inactive browser tabs omitted";
    assert Marker(count, depth) == Tabs(depth) + ("... " + (digits + rest));
  }

  lemma CountRead(text: string, digits: string, rest: string)
    requires text == "... " + (digits + rest) && LeadingDigits(digits + rest) == |digits| > 0
    ensures "... " <= text && text[4..] == digits + rest && (digits + rest)[..|digits|] == digits
  {
    hide LeadingDigits;
  }

  lemma MarkerTellsCount(count: nat, depth: nat)
    ensures ReadCount(Marker(count, depth), depth) == Some(count)
  {
    hide Number, LeadingDigits, Decimal, Marker, FromColumn;
    var digits, rest := Decimal(count), " inactive browser tabs omitted";
    MarkerText(count, depth);
    DigitRun(digits, rest);
    CountRead("... " + (digits + rest), digits, rest);
    DecimalRoundTrip(count);
  }

  /** The marker says how many lines have gone. */
  lemma MarkerIsTrue(records: seq<Record>, lines: seq<string>, start: nat, depth: nat)
    requires start <= |lines| && Inactive(records, lines, start, depth) != {}
    ensures TabLines(lines, start, depth) != []
    ensures var first := TabLines(lines, start, depth)[0];
      var after := CompactedLines(lines, start, depth, Inactive(records, lines, start, depth));
      && first < |after| && |after| <= |lines|
      && ReadCount(after[first], depth) == Some(|lines| + 1 - |after|)
  {
    hide *;
    var drop := Inactive(records, lines, start, depth);
    InactiveAreTabs(records, lines, start, depth);
    InactiveFromFirst(records, lines, start, depth);
    CompactedShape(lines, start, depth, drop);
    MarkerAt(lines, TabLines(lines, start, depth)[0], drop, depth, CompactedLines(lines, start, depth, drop));
  }

  lemma MarkerAt(lines: seq<string>, first: nat, drop: set<nat>, depth: nat, after: seq<string>)
    requires drop != {} && first <= |lines| && forall k <- drop :: first <= k < |lines|
    requires after == lines[..first] + [Marker(|drop|, depth)] + Keep(lines, first, drop)
    ensures first < |after| && |after| <= |lines|
    ensures ReadCount(after[first], depth) == Some(|lines| + 1 - |after|)
  {
    hide *;
    KeepCount(lines, first, drop);
    MarkerTellsCount(|drop|, depth);
    SomethingGone(drop);
    OneForMany(lines, first, Marker(|drop|, depth), Keep(lines, first, drop), |drop|);
  }

  lemma SomethingGone(drop: set<nat>)
    requires drop != {}
    ensures |drop| >= 1
  {
  }

  lemma OneForMany(lines: seq<string>, first: nat, marker: string, kept: seq<string>, gone: nat)
    requires first <= |lines| && gone >= 1 && |kept| == |lines| - first - gone
    ensures var after := lines[..first] + [marker] + kept;
      first < |after| && |after| <= |lines| && after[first] == marker && |lines| + 1 - |after| == gone
  {
  }

  /** Compaction applies exactly when ten tab lines, an active one and an inactive one are there. */
  lemma CompactionAppliesIff(records: seq<Record>, lines: seq<string>, start: nat, depth: nat)
    requires start <= |lines|
    ensures var tabs := TabLines(lines, start, depth);
            Inactive(records, lines, start, depth) != {} <==>
            && |tabs| >= 10
            && (exists i <- tabs :: i < |lines| && IsActiveTabLine(lines[i], depth, records))
            && (exists i <- tabs :: i < |lines| && !IsActiveTabLine(lines[i], depth, records))
  {
    hide IsActiveTabLine, TabLines;
    var tabs := TabLines(lines, start, depth);
    if i :| i in tabs && i < |lines| && !IsActiveTabLine(lines[i], depth, records) && Inactive(records, lines, start, depth) == {} {
      assert i !in Inactive(records, lines, start, depth);
    }
  }
}

/** What a reader of the rendered tree may rely on, told by records, paths and nodes alone. */
module TreeReading {
  import opened Options
  import opened RenderedLines
  import opened AccessibilityTree

  /** What rendering a whole tree without compaction shows. */
  function Rendered(root: Node, rootPath: seq<nat>): seq<Entry> {
    Capped(Visible(root, 0, rootPath, MAX_DEPTH), MAX_NODES)
  }

  // Where nodes branch.

  /** Two children that are there. */
  predicate Branches(node: Node, x: nat, y: nat) {
    x < y < |node.slots| && node.slots[x].Some? && node.slots[y].Some?
  }

  lemma {:induction false} CountsOne(slots: seq<Option<Node>>, i: nat, x: nat)
    requires i <= x < |slots| && slots[x].Some?
    ensures ChildCountFrom(slots, i) >= 1
    decreases |slots| - i
  {
    if i < x { CountsOne(slots, i + 1, x); }
  }

  lemma {:induction false} CountsTwo(slots: seq<Option<Node>>, i: nat, x: nat, y: nat)
    requires i <= x < y < |slots| && slots[x].Some? && slots[y].Some?
    ensures ChildCountFrom(slots, i) >= 2
    decreases |slots| - i
  {
    if i < x { CountsTwo(slots, i + 1, x, y); } else { CountsOne(slots, i + 1, y); }
  }

  lemma {:induction false} CountedTwice(slots: seq<Option<Node>>, i: nat) returns (x: nat, y: nat)
    requires i <= |slots| && ChildCountFrom(slots, i) >= 2
    ensures i <= x < y < |slots| && slots[x].Some? && slots[y].Some?
    decreases |slots| - i
  {
    if slots[i].Some? {
      x := i;
      y := CountedOnce(slots, i + 1);
    } else {
      x, y := CountedTwice(slots, i + 1);
    }
  }

  lemma {:induction false} CountedOnce(slots: seq<Option<Node>>, i: nat) returns (x: nat)
    requires i <= |slots| && ChildCountFrom(slots, i) >= 1
    ensures i <= x < |slots| && slots[x].Some?
    decreases |slots| - i
  {
    x := i;
    if slots[i].None? { x := CountedOnce(slots, i + 1); }
  }

  lemma BranchingIsKept(node: Node, x: nat, y: nat)
    requires Branches(node, x, y)
    ensures !Elided(node)
  {
    CountsTwo(node.slots, 0, x, y);
  }

  /** The node that a shown path passes through; it is shown as well unless it is elided. */
  lemma {:induction false} ShownPassesThrough(node: Node, above: seq<nat>, x: nat, rest: seq<nat>, depth: nat, maxDepth: nat)
    requires Shown(node, above + [x] + rest, depth, maxDepth)
    ensures Resolve(node, above).Some?
    ensures var at := Resolve(node, above).value;
      && x < |at.slots| && at.slots[x].Some?
      && (Elided(at) || !ChildrenHidden(at.info))
      && (!Elided(at) ==> Shown(node, above, depth, maxDepth))
    decreases |above|
  {
    hide Elided, ChildrenHidden;
    var path := above + [x] + rest;
    if above == [] {
      assert path[0] == x;
    } else {
      assert path[0] == above[0] && path[1..] == above[1..] + [x] + rest;
      ShownPassesThrough(node.slots[above[0]].value, above[1..], x, rest, if Elided(node) then depth else depth + 1, maxDepth);
    }
  }

  lemma {:induction false} BeforeIsAsymmetric(p: seq<nat>, q: seq<nat>)
    requires Before(p, q)
    ensures !Before(q, p)
    decreases |q|
  {
    if p != [] && p[0] == q[0] { BeforeIsAsymmetric(p[1..], q[1..]); }
  }

  /** A shown path has its entry, and one above another has it earlier, so within the cap as well. */
  lemma AncestorIsRendered(root: Node, rootPath: seq<nat>, above: seq<nat>, k: nat)
    requires Shown(root, above, 0, MAX_DEPTH)
    requires k < |Rendered(root, rootPath)| && rootPath + above < Rendered(root, rootPath)[k].path
    ensures exists m :: 0 <= m < k && Rendered(root, rootPath)[m].path == rootPath + above
  {
    hide Visible, Before, Shown;
    var all := Visible(root, 0, rootPath, MAX_DEPTH);
    ShownIsVisible(root, 0, rootPath, above, MAX_DEPTH);
    var e :| e in all && e.path == rootPath + above;
    var m :| 0 <= m < |all| && all[m] == e;
    VisibleInOrder(root, 0, rootPath, MAX_DEPTH);
    BeforeDescendant(e.path, all[k].path);
    if k < m { BeforeIsAsymmetric(e.path, all[k].path); }
    assert Rendered(root, rootPath)[k] == all[k];
    assert m < k;
    assert Rendered(root, rootPath)[m] == e;
  }

  /** Below the root, a rendered path is one that is shown. */
  lemma RenderedIsShown(root: Node, rootPath: seq<nat>, k: nat)
    requires k < |Rendered(root, rootPath)|
    ensures var path := Rendered(root, rootPath)[k].path;
      rootPath <= path && Shown(root, path[|rootPath|..], 0, MAX_DEPTH)
  {
    hide Visible, Shown;
    VisibleIsShown(root, 0, rootPath, MAX_DEPTH);
    assert Rendered(root, rootPath)[k] in Visible(root, 0, rootPath, MAX_DEPTH);
  }

  /** The rendered path `k` goes on from `above` into the slot `x`. */
  predicate GoesThrough(root: Node, rootPath: seq<nat>, k: nat, above: seq<nat>, x: nat) {
    k < |Rendered(root, rootPath)| && rootPath + above + [x] <= Rendered(root, rootPath)[k].path
  }

  lemma ThroughIsShown(root: Node, rootPath: seq<nat>, k: nat, above: seq<nat>, x: nat)
    requires GoesThrough(root, rootPath, k, above, x)
    ensures Resolve(root, above).Some?
    ensures var at := Resolve(root, above).value;
      && x < |at.slots| && at.slots[x].Some?
      && (Elided(at) || !ChildrenHidden(at.info))
      && (!Elided(at) ==> Shown(root, above, 0, MAX_DEPTH))
  {
    hide Shown, Elided, ChildrenHidden, Rendered;
    RenderedIsShown(root, rootPath, k);
    var path := Rendered(root, rootPath)[k].path;
    var rest := path[|rootPath + above + [x]|..];
    assert path[|rootPath|..] == above + [x] + rest;
    ShownPassesThrough(root, above, x, rest, 0, MAX_DEPTH);
  }

  /** Where the paths of two records part, the node has a record too, in front of both. */
  lemma BranchingNodeHasRecord(root: Node, rootPath: seq<nat>, j: nat, k: nat, above: seq<nat>, x: nat, y: nat)
    requires x < y && GoesThrough(root, rootPath, j, above, x) && GoesThrough(root, rootPath, k, above, y)
    ensures exists m :: 0 <= m < |Rendered(root, rootPath)| && m < j && m < k && Rendered(root, rootPath)[m].path == rootPath + above
  {
    hide Shown, Elided, ChildrenHidden, Rendered, Before;
    ThroughIsShown(root, rootPath, j, above, x);
    ThroughIsShown(root, rootPath, k, above, y);
    BranchingIsKept(Resolve(root, above).value, x, y);
    assert rootPath + above + [x] <= Rendered(root, rootPath)[j].path;
    assert (rootPath + above + [x])[..|rootPath + above|] == rootPath + above;
    assert (rootPath + above + [y])[..|rootPath + above|] == rootPath + above;
    AncestorIsRendered(root, rootPath, above, j);
    AncestorIsRendered(root, rootPath, above, k);
    var m :| 0 <= m < j && Rendered(root, rootPath)[m].path == rootPath + above;
    var n :| 0 <= n < k && Rendered(root, rootPath)[n].path == rootPath + above;
    if m >= k || n >= j { OnePlace(root, rootPath, m, n); }
  }

  lemma OnePlace(root: Node, rootPath: seq<nat>, m: nat, n: nat)
    requires m < |Rendered(root, rootPath)| && n < |Rendered(root, rootPath)|
    requires Rendered(root, rootPath)[m].path == Rendered(root, rootPath)[n].path
    ensures m == n
  {
    hide Visible, Before;
    VisibleInOrder(root, 0, rootPath, MAX_DEPTH);
    BeforeIsStrict(Rendered(root, rootPath)[m].path);
  }

  // What has a record, and what has none.

  /** A node that is something by itself: of a telling role, or with a name, an id, a value or an action. */
  predicate Telling(info: Info) {
    || info.role !in {"panel", "filler", "unknown", "section"}
    || info.name != "" || info.automationId != "" || info.value != "" || info.secondaryActions != ""
  }

  /** A node that stands for what is below it: a labelled control, or a generic node with a text summary. */
  predicate StandsForChildren(info: Info) {
    || ((info.name != "" || info.automationId != "" || info.value != "") && info.role in LABELLED_ROLES)
    || (info.role in {"panel", "filler", "unknown", "section"} && info.name == "" && info.value == ""
        && info.snippetSummary.Some? && info.snippetSummary.value != "")
  }

  lemma TellingIsKept(node: Node)
    requires Telling(node.info)
    ensures !Elided(node)
  {
  }

  lemma StandsIffHidden(info: Info)
    ensures StandsForChildren(info) <==> ChildrenHidden(info)
  {
  }

  /** A record's node is telling, has a text summary, or branches. */
  lemma RecordedNodeMatters(root: Node, rootPath: seq<nat>, k: nat) returns (x: nat, y: nat)
    requires k < |Rendered(root, rootPath)|
    ensures var path := Rendered(root, rootPath)[k].path;
      && rootPath <= path && Resolve(root, path[|rootPath|..]) == Some(Rendered(root, rootPath)[k].node)
      && var node := Rendered(root, rootPath)[k].node;
      Telling(node.info) || node.info.snippetSummary.Some? || Branches(node, x, y)
  {
    x, y := 0, 0;
    RenderedIsFound(root, rootPath, k);
    var node := Rendered(root, rootPath)[k].node;
    if !Telling(node.info) && node.info.snippetSummary.None? {
      x, y := CountedTwice(node.slots, 0);
    }
  }

  lemma RenderedIsFound(root: Node, rootPath: seq<nat>, k: nat)
    requires k < |Rendered(root, rootPath)|
    ensures var e := Rendered(root, rootPath)[k];
      rootPath <= e.path && Resolve(root, e.path[|rootPath|..]) == Some(e.node) && !Elided(e.node)
  {
    hide Visible, Elided, ChildrenHidden;
    var e := Rendered(root, rootPath)[k];
    assert e in Visible(root, 0, rootPath, MAX_DEPTH);
    EntriesResolve(root, 0, rootPath, MAX_DEPTH);
  }

  lemma {:induction false} EntriesResolve(node: Node, depth: nat, path: seq<nat>, maxDepth: nat)
    ensures forall e <- Visible(node, depth, path, maxDepth) ::
      path <= e.path && Resolve(node, e.path[|path|..]) == Some(e.node) && !Elided(e.node)
    decreases node, 1, 0
  {
    hide Elided, ChildrenHidden;
    ChildEntriesResolve(node, 0, depth, path, maxDepth);
    ChildEntriesResolve(node, 0, depth + 1, path, maxDepth);
  }

  lemma {:induction false} ChildEntriesResolve(node: Node, i: nat, depth: nat, path: seq<nat>, maxDepth: nat)
    requires i <= |node.slots|
    ensures forall e <- VisibleChildren(node, i, depth, path, maxDepth) ::
      path <= e.path && Resolve(node, e.path[|path|..]) == Some(e.node) && !Elided(e.node)
    decreases node, 0, |node.slots| - i
  {
    hide Elided;
    if i < |node.slots| {
      ChildEntriesResolve(node, i + 1, depth, path, maxDepth);
      if node.slots[i].Some? {
        var child := node.slots[i].value;
        EntriesResolve(child, depth, path + [i], maxDepth);
        forall e <- Visible(child, depth, path + [i], maxDepth)
          ensures path <= e.path && Resolve(node, e.path[|path|..]) == Some(e.node)
        {
          var below := e.path[|path|..];
          assert below[0] == i && below[1..] == e.path[|path + [i]|..];
        }
      }
    }
  }

  /** No record lies below a node that stands for its children. */
  lemma NoRecordBelow(root: Node, rootPath: seq<nat>, k: nat, above: seq<nat>, x: nat)
    requires GoesThrough(root, rootPath, k, above, x)
    ensures Resolve(root, above).Some? && !StandsForChildren(Resolve(root, above).value.info)
  {
    ThroughIsShown(root, rootPath, k, above, x);
    var at := Resolve(root, above).value;
    hide Shown, Rendered, Resolve;
    StandsIffHidden(at.info);
  }

  /** Every node above the end of the path is there and does not stand for its children. */
  predicate Open(node: Node, path: seq<nat>)
    decreases |path|
  {
    path == [] ||
    (&& path[0] < |node.slots| && node.slots[path[0]].Some? && !StandsForChildren(node.info)
     && Open(node.slots[path[0]].value, path[1..]))
  }

  lemma {:induction false} OpenIsShown(node: Node, path: seq<nat>, depth: nat, maxDepth: nat)
    requires Open(node, path) && Resolve(node, path).Some? && Telling(Resolve(node, path).value.info)
    requires depth + |path| <= maxDepth
    ensures Shown(node, path, depth, maxDepth)
    decreases |path|
  {
    hide Elided, ChildrenHidden, StandsForChildren, Telling;
    if path == [] {
      TellingIsKept(node);
    } else {
      StandsIffHidden(node.info);
      OpenIsShown(node.slots[path[0]].value, path[1..], if Elided(node) then depth else depth + 1, maxDepth);
    }
  }

  /** When the walk was not truncated, every telling node that no node above stands for has a record. */
  lemma TellingNodeHasRecord(root: Node, rootPath: seq<nat>, below: seq<nat>)
    requires !Cut(root, 0, MAX_NODES, false)
    requires Open(root, below) && Resolve(root, below).Some? && Telling(Resolve(root, below).value.info)
    ensures exists k :: 0 <= k < |Rendered(root, rootPath)| && Rendered(root, rootPath)[k].path == rootPath + below
  {
    hide Visible, Cut, Shown, Open, Telling, Resolve;
    var deep := MAX_DEPTH + |below|;
    OpenIsShown(root, below, 0, deep);
    ShownIsVisible(root, 0, rootPath, below, deep);
    UncutIsComplete(root, 0, rootPath, MAX_NODES, deep);
    var e :| e in Visible(root, 0, rootPath, deep) && e.path == rootPath + below;
    assert Rendered(root, rootPath) == Visible(root, 0, rootPath, deep);
    var k :| 0 <= k < |Rendered(root, rootPath)| && Rendered(root, rootPath)[k] == e;
  }

  /**
   Truncated or not: a telling node at most 64 levels down that no node above stands for has a record, unless
   1200 nodes that come before it have theirs.
   */
  lemma TellingNodeWithinLimits(root: Node, rootPath: seq<nat>, below: seq<nat>)
    requires |below| <= 64 && Open(root, below) && Resolve(root, below).Some? && Telling(Resolve(root, below).value.info)
    ensures var shown := Rendered(root, rootPath);
      || (exists k :: 0 <= k < |shown| && shown[k].path == rootPath + below)
      || (|shown| == 1200 && forall k :: 0 <= k < |shown| ==> Before(shown[k].path, rootPath + below))
  {
    hide Visible, Shown, Open, Telling, Resolve, Before;
    var all, shown := Visible(root, 0, rootPath, MAX_DEPTH), Rendered(root, rootPath);
    OpenIsShown(root, below, 0, MAX_DEPTH);
    ShownIsVisible(root, 0, rootPath, below, MAX_DEPTH);
    VisibleInOrder(root, 0, rootPath, MAX_DEPTH);
    var e :| e in all && e.path == rootPath + below;
    var m :| 0 <= m < |all| && all[m] == e;
    if m < |shown| {
      assert shown[m] == e;
    } else {
      forall k | 0 <= k < |shown| ensures Before(shown[k].path, rootPath + below) {
        assert shown[k] == all[k];
      }
    }
  }

  // What a line says.

  predicate Says(line: string, part: string) {
    exists i, j :: 0 <= i <= j <= |line| && line[i..j] == part
  }

  lemma SaysPart(a: string, part: string, b: string)
    ensures Says(a + part + b, part)
  {
    var line := a + part + b;
    assert line[|a|..|a| + |part|] == part;
  }

  /** A text that the source has collapsed does not end in a blank. */
  predicate Trimmed(s: string) {
    s == "" || s[|s| - 1] != ' '
  }

  lemma RstripStops(s: string)
    requires s != "" && s[|s| - 1] != ' '
    ensures Rstrip(s) == s
  {
  }

  /** The head of a line: tabs by depth, the index, the role and the title. */
  function Head(info: Info, index: nat): string {
    Decimal(index) + " " + info.roleLabel + " " + Title(info)
  }

  /**
   A line tells the node: behind its tabs and index stand role and title; its value is said, and so are
   its actions, behind their own heading.
   */
  lemma LineTells(info: Info, index: nat, depth: nat)
    requires Trimmed(info.name) && Trimmed(info.automationId) && (info.name != "" || info.automationId != "")
    ensures var line, title := RenderLine(info, index, depth), if info.name != "" then info.name else info.automationId;
      && Tabs(depth) + (Decimal(index) + " " + info.roleLabel + " " + title) <= line
      && Says(line, info.value)
      && (info.secondaryActions != "" ==> Says(line, ", Secondary Actions: " + info.secondaryActions))
      && (info.role in ROW_ROLES && info.rowSummary != "" && info.rowSummary != title ==> Says(line, ", Text: " + info.rowSummary))
  {
    hide *;
    var line, front := RenderLine(info, index, depth), Tabs(depth) + Head(info, index);
    LineParts(info, index, depth);
    var value, summary, actions := FormattedValue(info), SummaryText(info), ActionsText(info);
    ValueIsSaid(info, index, depth, front, summary + actions);
    Regrouped(front, value, summary, actions);
    if info.secondaryActions != "" {
      SaysPart(front + value + summary, actions, "");
      assert front + value + summary + actions + "" == line;
    }
    SaysPart(front + value, summary, actions);
  }

  lemma LineParts(info: Info, index: nat, depth: nat)
    requires Trimmed(info.name) && Trimmed(info.automationId) && (info.name != "" || info.automationId != "")
    ensures var title := if info.name != "" then info.name else info.automationId;
      && Title(info) == title
      && Tabs(depth) + Head(info, index) == Tabs(depth) + (Decimal(index) + " " + info.roleLabel + " " + title)
      && (info.secondaryActions != "" ==> ActionsText(info) == ", Secondary Actions: " + info.secondaryActions)
      && (info.role in ROW_ROLES && info.rowSummary != "" && info.rowSummary != title ==>
            SummaryText(info) == ", Text: " + info.rowSummary)
    ensures RenderLine(info, index, depth)
         == Tabs(depth) + Head(info, index) + FormattedValue(info) + SummaryText(info) + ActionsText(info)
  {
    hide Decimal, FormattedValue;
    var title, head := Title(info), Head(info, index);
    assert head[|head| - 1] == title[|title| - 1];
    RstripStops(head);
    hide Rstrip;
  }

  /** How the value stands behind the title: not at all, or behind a mark. */
  lemma ValueMark(info: Info) returns (mark: string)
    ensures if info.value == "" || info.value == Title(info) then FormattedValue(info) == ""
            else FormattedValue(info) == mark + info.value
    ensures mark == " " || mark == ", Value: "
  {
    mark := if info.role in INLINE_ROLES then " " else ", Value: ";
  }

  lemma HeadEnds(info: Info, index: nat, depth: nat)
    ensures Tabs(depth) + Head(info, index) == (Tabs(depth) + (Decimal(index) + " " + info.roleLabel + " ")) + Title(info)
  {
    hide Decimal, Title;
  }

  lemma Regrouped(a: string, b: string, c: string, d: string)
    ensures a + b + c + d == a + b + (c + d) && a + (b + c) + d == (a + b) + c + d
  {
  }

  lemma ValueIsSaid(info: Info, index: nat, depth: nat, front: string, rest: string)
    requires front == Tabs(depth) + Head(info, index)
    ensures Says(front + FormattedValue(info) + rest, info.value)
  {
    hide *;
    var line := front + FormattedValue(info) + rest;
    var mark := ValueMark(info);
    if info.value == "" {
      SaysPart("", "", line);
      assert "" + "" + line == line;
    } else if info.value == Title(info) {
      HeadEnds(info, index, depth);
      SaysPart(Tabs(depth) + (Decimal(index) + " " + info.roleLabel + " "), info.value, rest);
      assert front + "" == front;
    } else {
      SaysPart(front + mark, info.value, rest);
      Regrouped(front, mark, info.value, rest);
    }
  }
}

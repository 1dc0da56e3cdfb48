/** The walk that renders a tree, with compaction of browser tabs on or off. */
module TreeRendering {
  import opened Options
  import opened RenderedLines
  import opened AccessibilityTree
  import opened TabCompaction
  import opened RepeatedCompaction

  /** What a walk does to its records and lines, and whether it turned back. */
  datatype Walked = Walked(acts: seq<Act>, truncated: bool, deep: bool)

  const NOTHING := Walked([], false, false)

  /** The walk from a node, when `r` has been rendered. */
  function WalkNode(r: Rendering, node: Node, depth: nat, path: seq<nat>, compact: bool): Walked
    decreases node, 1, 0
  {
    if |r.records| >= MAX_NODES || depth > MAX_DEPTH then Walked([], true, depth > MAX_DEPTH)
    else if Elided(node) then WalkSlots(r, node, 0, depth, path, compact)
    else
      var row := AddRow(path, node.info, depth);
      if ChildrenHidden(node.info) then Walked([row], false, false)
      else
        var below := WalkSlots(Do(r, row), node, 0, depth + 1, path, compact);
        var last := if compact then [CompactFrom(|r.lines| + 1, depth + 1)] else [];
        Walked([row] + below.acts + last, below.truncated, below.deep)
  }

  function WalkSlots(r: Rendering, node: Node, i: nat, depth: nat, path: seq<nat>, compact: bool): Walked
    requires i <= |node.slots|
    decreases node, 0, |node.slots| - i + 1
  {
    if i == |node.slots| then NOTHING
    else
      var here := WalkSlot(r, node, i, depth, path, compact);
      var rest := WalkSlots(Replay(r, here.acts), node, i + 1, depth, path, compact);
      Walked(here.acts + rest.acts, here.truncated || rest.truncated, here.deep || rest.deep)
  }

  function WalkSlot(r: Rendering, node: Node, i: nat, depth: nat, path: seq<nat>, compact: bool): Walked
    requires i < |node.slots|
    decreases node, 0, 0
  {
    match node.slots[i]
    case None => NOTHING
    case Some(child) => WalkNode(r, child, depth, path + [i], compact)
  }

  class Renderer {
    const compactTabs: bool
    const elements: RenderedElements
    var truncated: bool
    var maxDepthReached: bool

    function Now(): Rendering
      reads this, elements
    {
      Rendering(elements.records, elements.lines)
    }

    constructor (compactTabs: bool)
      ensures this.compactTabs == compactTabs && fresh(elements)
      ensures Now() == Rendering([], []) && !truncated && !maxDepthReached
    {
      this.compactTabs := compactTabs;
      elements := new RenderedElements([], []);
      truncated, maxDepthReached := false, false;
    }

    method Walk(node: Node, depth: nat, path: seq<nat>)
      modifies this, elements
      ensures var walked := WalkNode(old(Now()), node, depth, path, compactTabs);
        && Now() == Replay(old(Now()), walked.acts)
        && (truncated <==> old(truncated) || walked.truncated)
        && (maxDepthReached <==> old(maxDepthReached) || walked.deep)
      ensures |Now().lines| >= |old(Now()).lines|
      decreases node, 1
    {
      hide WalkNode, WalkSlots, RenderLine, Elided, ChildrenHidden, Replay, Compact,
           Inactive, CompactedLines, Omitted, Without, TabLines;
      ghost var r := Now();
      WalkCases(r, node, depth, path, compactTabs);
      if |elements.records| >= MAX_NODES || depth > MAX_DEPTH {
        truncated := true;
        if depth > MAX_DEPTH {
          maxDepthReached := true;
        }
        return;
      }
      if Elided(node) {
        WalkChildren(node, depth, path);
        return;
      }
      elements.lines := elements.lines + [RenderLine(node.info, |elements.records|, depth)];
      elements.records := elements.records + [Record(|elements.records|, path, node.info)];
      if ChildrenHidden(node.info) {
        return;
      }
      var childLineStart := |elements.lines|;
      WalkChildren(node, depth + 1, path);
      if compactTabs {
        CompactDone(Now(), childLineStart, depth + 1);
        elements.CompactTabs(childLineStart, depth + 1);
      }
    }

    method WalkChildren(node: Node, depth: nat, path: seq<nat>)
      modifies this, elements
      ensures var walked := WalkSlots(old(Now()), node, 0, depth, path, compactTabs);
        && Now() == Replay(old(Now()), walked.acts)
        && (truncated <==> old(truncated) || walked.truncated)
        && (maxDepthReached <==> old(maxDepthReached) || walked.deep)
      ensures |Now().lines| >= |old(Now()).lines|
      decreases node, 0
    {
      hide WalkNode, WalkSlots, Replay, Do;
      ghost var r := Now();
      ghost var all := WalkSlots(r, node, 0, depth, path, compactTabs);
      for i := 0 to |node.slots|
        invariant Replay(r, all.acts) == Replay(Now(), WalkSlots(Now(), node, i, depth, path, compactTabs).acts)
        invariant old(truncated) || all.truncated
             <==> truncated || WalkSlots(Now(), node, i, depth, path, compactTabs).truncated
        invariant old(maxDepthReached) || all.deep
             <==> maxDepthReached || WalkSlots(Now(), node, i, depth, path, compactTabs).deep
        invariant |Now().lines| >= |r.lines|
      {
        SlotDone(Now(), node, i, depth, path, compactTabs);
        if node.slots[i].Some? {
          Walk(node.slots[i].value, depth, path + [i]);
        }
      }
      SlotsEnd(Now(), node, depth, path, compactTabs);
    }
  }

  lemma ReplayNone(r: Rendering)
    ensures Replay(r, []) == r
  {
  }

  lemma RowDone(r: Rendering, path: seq<nat>, info: Info, depth: nat)
    ensures var row := AddRow(path, info, depth);
      && Replay(r, [row]) == Do(r, row)
      && Do(r, row).records == r.records + [Record(|r.records|, path, info)]
      && Do(r, row).lines == r.lines + [RenderLine(info, |r.records|, depth)]
  {
    hide RenderLine;
    assert [AddRow(path, info, depth)][1..] == [];
  }

  lemma RowsThen(r: Rendering, row: Act, below: seq<Act>, last: seq<Act>)
    ensures Replay(r, [row] + below + last) == Replay(Replay(Do(r, row), below), last)
  {
    hide Do;
    ReplayConcat(r, [row] + below, last);
    ReplayConcat(r, [row], below);
    assert [row][1..] == [];
  }

  /** One call of the walk, unfolded. */
  lemma WalkCases(r: Rendering, node: Node, depth: nat, path: seq<nat>, compact: bool)
    ensures var walked := WalkNode(r, node, depth, path, compact);
      if |r.records| >= MAX_NODES || depth > MAX_DEPTH then
        Replay(r, walked.acts) == r && walked.truncated && (walked.deep <==> depth > MAX_DEPTH)
      else if Elided(node) then walked == WalkSlots(r, node, 0, depth, path, compact)
      else
        var after := Render(r, path, node.info, depth);
        if ChildrenHidden(node.info) then Replay(r, walked.acts) == after && !walked.truncated && !walked.deep
        else
          var below := WalkSlots(after, node, 0, depth + 1, path, compact);
          && walked.truncated == below.truncated && walked.deep == below.deep
          && Replay(r, walked.acts)
             == if compact then Replay(Replay(after, below.acts), [CompactFrom(|r.lines| + 1, depth + 1)])
                else Replay(after, below.acts)
  {
    hide WalkSlots, RenderLine, Elided, ChildrenHidden, Replay, Compact;
    var row := AddRow(path, node.info, depth);
    ReplayNone(r);
    RowDone(r, path, node.info, depth);
    var after := Render(r, path, node.info, depth);
    var below := WalkSlots(after, node, 0, depth + 1, path, compact);
    RowsThen(r, row, below.acts, if compact then [CompactFrom(|r.lines| + 1, depth + 1)] else []);
    ReplayNone(Replay(after, below.acts));
  }

  lemma CompactDone(r: Rendering, start: nat, depth: nat)
    requires start <= |r.lines|
    ensures Replay(r, [CompactFrom(start, depth)]) == Compact(r, start, depth)
    ensures |Compact(r, start, depth).lines| >= start
    ensures var drop := Inactive(r.records, r.lines, start, depth);
      && Compact(r, start, depth).lines == CompactedLines(r.lines, start, depth, drop)
      && (drop != {} ==> forall i <- drop :: i < |r.lines|)
      && Compact(r, start, depth).records
         == if drop == {} then r.records else Without(r.records, Omitted(r.lines, drop, depth))
  {
    InactiveAreTabs(r.records, r.lines, start, depth);
    hide Inactive, IsDirectTabLine, Omitted, Without, Keep;
    assert [CompactFrom(start, depth)][1..] == [];
  }

  lemma SlotDone(r: Rendering, node: Node, i: nat, depth: nat, path: seq<nat>, compact: bool)
    requires i < |node.slots|
    ensures var now := WalkSlots(r, node, i, depth, path, compact);
      if node.slots[i].None? then now == WalkSlots(r, node, i + 1, depth, path, compact)
      else
        var here := WalkNode(r, node.slots[i].value, depth, path + [i], compact);
        var rest := WalkSlots(Replay(r, here.acts), node, i + 1, depth, path, compact);
        && Replay(r, now.acts) == Replay(Replay(r, here.acts), rest.acts)
        && now.truncated == (here.truncated || rest.truncated) && now.deep == (here.deep || rest.deep)
  {
    hide WalkNode, Do;
    var here := WalkSlot(r, node, i, depth, path, compact);
    var rest := WalkSlots(Replay(r, here.acts), node, i + 1, depth, path, compact);
    ReplayConcat(r, here.acts, rest.acts);
    if node.slots[i].None? {
      ReplayNone(r);
      assert [] + rest.acts == rest.acts;
    }
  }

  lemma SlotsEnd(r: Rendering, node: Node, depth: nat, path: seq<nat>, compact: bool)
    ensures WalkSlots(r, node, |node.slots|, depth, path, compact) == NOTHING && Replay(r, NOTHING.acts) == r
  {
  }

  // Without compaction.

  /** `r`, and behind it the rows of the entries. */
  function With(r: Rendering, entries: seq<Entry>): Rendering {
    Rendering(r.records + Records(entries, |r.records|), r.lines + Lines(entries, |r.records|))
  }

  /** The walk adds the visible elements that fit, and its flags are those of a walk that turned back. */
  ghost predicate IsPlain(r: Rendering, walked: Walked, visible: seq<Entry>, cut: bool, deep: bool) {
    && Replay(r, walked.acts) == With(r, Capped(visible, Room(|r.records|)))
    && walked.truncated == cut && walked.deep == deep
  }

  /** With compaction off a walk adds exactly the first visible elements that fit, one record and line each. */
  lemma {:induction false} PlainWalk(r: Rendering, node: Node, depth: nat, path: seq<nat>)
    requires |r.records| <= MAX_NODES
    ensures IsPlain(r, WalkNode(r, node, depth, path, false), Visible(node, depth, path, MAX_DEPTH),
                    Cut(node, depth, Room(|r.records|), false), Cut(node, depth, Room(|r.records|), true))
    decreases node, 1, 0
  {
    hide Records, Lines, Capped, RenderLine, Visible, VisibleChildren, Cut, CutChildren, Elided, ChildrenHidden,
         Replay, Do, WalkSlots;
    var room := Room(|r.records|);
    NodeShown(node, depth, path, room, |r.records|, false);
    NodeShown(node, depth, path, room, |r.records|, true);
    ReplayNone(r);
    if |r.records| >= MAX_NODES || depth > MAX_DEPTH {
    } else if Elided(node) {
      PlainSlots(r, node, 0, depth, path);
    } else {
      var row := AddRow(path, node.info, depth);
      RowDone(r, path, node.info, depth);
      if !ChildrenHidden(node.info) {
        PlainSlots(Do(r, row), node, 0, depth + 1, path);
        RowsThen(r, row, WalkSlots(Do(r, row), node, 0, depth + 1, path, false).acts, []);
        ReplayNone(Replay(Do(r, row), WalkSlots(Do(r, row), node, 0, depth + 1, path, false).acts));
      }
    }
  }

  lemma {:induction false} PlainSlots(r: Rendering, node: Node, i: nat, depth: nat, path: seq<nat>)
    requires |r.records| <= MAX_NODES && i <= |node.slots|
    ensures IsPlain(r, WalkSlots(r, node, i, depth, path, false), VisibleChildren(node, i, depth, path, MAX_DEPTH),
                    CutChildren(node, i, depth, Room(|r.records|), false),
                    CutChildren(node, i, depth, Room(|r.records|), true))
    decreases node, 0, |node.slots| - i
  {
    hide Records, Lines, Capped, RenderLine, Visible, VisibleChildren, Cut, CutChildren, Replay, Do, WalkNode, WalkSlots;
    if i == |node.slots| {
      SlotsEnd(r, node, depth, path, false);
      ChildrenEnd(node, depth, path, Room(|r.records|));
      NothingShown(|r.records|, Room(|r.records|));
    } else {
      SlotDone(r, node, i, depth, path, false);
      ChildShown(node, i, depth, path, Room(|r.records|), false);
      ChildShown(node, i, depth, path, Room(|r.records|), true);
      if node.slots[i].None? {
        PlainSlots(r, node, i + 1, depth, path);
      } else {
        var child := node.slots[i].value;
        var more := Visible(child, depth, path + [i], MAX_DEPTH);
        PlainWalk(r, child, depth, path + [i]);
        var after := With(r, Capped(more, Room(|r.records|)));
        CappedAppend(more, VisibleChildren(node, i + 1, depth, path, MAX_DEPTH), |r.records|);
        PlainSlots(after, node, i + 1, depth, path);
      }
    }
  }

  /** Rendering a whole tree without compaction. */
  lemma PlainTree(root: Node, rootPath: seq<nat>)
    ensures var shown := Capped(Visible(root, 0, rootPath, 64), 1200);
      Replay(Rendering([], []), WalkNode(Rendering([], []), root, 0, rootPath, false).acts)
      == Rendering(Records(shown, 0), Lines(shown, 0))
  {
    hide Visible, WalkNode, Records, Lines, Replay;
    PlainWalk(Rendering([], []), root, 0, rootPath);
  }

  /**
   Rendering a whole tree with compaction: from the first row to the last compaction every record has its
   line if and only if no compaction drops a tab whose index another line that stays has as well.
   */
  lemma CompactingTreeIff(root: Node, rootPath: seq<nat>, compact: bool)
    ensures var acts := WalkNode(Rendering([], []), root, 0, rootPath, compact).acts;
      StaysMatched(Rendering([], []), [], acts) <==> NeverClashes([], acts)
  {
    hide WalkNode, StaysMatched, NeverClashes;
    EmptyIsOf();
    RunStaysMatchedIff([], WalkNode(Rendering([], []), root, 0, rootPath, compact).acts);
  }

  lemma EmptyIsOf()
    ensures Of([]) == Rendering([], [])
  {
  }
}

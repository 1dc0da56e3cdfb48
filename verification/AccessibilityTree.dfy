/** The capped walk over an accessibility tree, and the paths by which its records are found again. */
module AccessibilityTree {
  import opened Options
  import opened RenderedLines

  const MAX_NODES := 1200
  const MAX_DEPTH := 64

  /**
   What the walk reads from a node. `role` is in lower case, texts have their whitespace
   collapsed, and the summaries are the text snippets found below the node.
   */
  datatype Info = Info(
    role: string,
    roleLabel: string,
    name: string,
    automationId: string,
    value: string,
    selected: bool,
    snippetSummary: Option<string>,
    rowSummary: string,
    secondaryActions: string)

  /** A node and its child slots; the accessibility service may fail to produce a child. */
  datatype Node = Node(info: Info, slots: seq<Option<Node>>)

  datatype Record = Record(index: nat, runtimeId: seq<nat>, info: Info)

  const GENERIC_ROLES := {"panel", "filler", "unknown", "section"}
  const LABELLED_ROLES := {
    "button", "check box", "checkbox", "combo box", "heading", "link", "menu item", "page tab",
    "push button", "radio button"}
  const INLINE_ROLES := {"label", "static", "static text", "text", "entry", "text entry"}
  const ROW_ROLES := {"row", "table row", "list item"}

  function Summary(info: Info): Option<string> {
    if info.role in GENERIC_ROLES && info.name == "" && info.value == "" then info.snippetSummary else None
  }

  function Title(info: Info): string {
    if info.name != "" then info.name else info.automationId
  }

  function ChildCount(node: Node): nat {
    ChildCountFrom(node.slots, 0)
  }

  function ChildCountFrom(slots: seq<Option<Node>>, i: nat): nat
    requires i <= |slots|
    decreases |slots| - i
  {
    if i == |slots| then 0 else (if slots[i].Some? then 1 else 0) + ChildCountFrom(slots, i + 1)
  }

  /** `should_elide`. */
  predicate Elided(node: Node) {
    && node.info.role in GENERIC_ROLES
    && node.info.name == "" && node.info.automationId == "" && node.info.value == ""
    && node.info.secondaryActions == ""
    && Summary(node.info).None?
    && ChildCount(node) <= 1
  }

  /** A node that stands for its children: summarised, or labelled and of a compact role. */
  predicate ChildrenHidden(info: Info) {
    || (Summary(info).Some? && Summary(info).value != "")
    || ((Title(info) != "" || info.value != "") && info.role in LABELLED_ROLES)
  }

  function FormattedValue(info: Info): string {
    if info.value == "" || info.value == Title(info) then ""
    else if info.role in INLINE_ROLES then " " + info.value
    else ", Value: " + info.value
  }

  function SummaryText(info: Info): string {
    var summary := Summary(info);
    if summary.Some? && summary.value != "" && summary.value != Title(info) then ", Text: " + summary.value
    else if info.role in ROW_ROLES && info.rowSummary != "" && info.rowSummary != Title(info) then ", Text: " + info.rowSummary
    else ""
  }

  function ActionsText(info: Info): string {
    if info.secondaryActions == "" then "" else ", Secondary Actions: " + info.secondaryActions
  }

  function Rstrip(s: string): (r: string)
    ensures r <= s
  {
    if s != [] && s[|s| - 1] == ' ' then Rstrip(s[..|s| - 1]) else s
  }

  function RenderLine(info: Info, index: nat, depth: nat): string {
    Tabs(depth) + (Rstrip(Decimal(index) + " " + info.roleLabel + " " + Title(info)) +
                   FormattedValue(info) + SummaryText(info) + ActionsText(info))
  }

  /** An element that the walk shows, before it gets its index. */
  datatype Entry = Entry(node: Node, path: seq<nat>, depth: nat)

  /** The elements that a walk without a cap on their number shows, in pre-order. */
  function Visible(node: Node, depth: nat, path: seq<nat>, maxDepth: nat): seq<Entry>
    decreases node, 1, 0
  {
    if depth > maxDepth then []
    else if Elided(node) then VisibleChildren(node, 0, depth, path, maxDepth)
    else
      [Entry(node, path, depth)] +
      (if ChildrenHidden(node.info) then [] else VisibleChildren(node, 0, depth + 1, path, maxDepth))
  }

  function VisibleChild(node: Node, i: nat, depth: nat, path: seq<nat>, maxDepth: nat): seq<Entry>
    requires i < |node.slots|
    decreases node, 0, 0
  {
    match node.slots[i]
    case None => []
    case Some(child) => Visible(child, depth, path + [i], maxDepth)
  }

  function VisibleChildren(node: Node, i: nat, depth: nat, path: seq<nat>, maxDepth: nat): seq<Entry>
    requires i <= |node.slots|
    decreases node, 0, |node.slots| - i + 1
  {
    if i == |node.slots| then []
    else VisibleChild(node, i, depth, path, maxDepth) + VisibleChildren(node, i + 1, depth, path, maxDepth)
  }

  function Capped(entries: seq<Entry>, room: nat): seq<Entry> {
    if |entries| <= room then entries else entries[..room]
  }

  function Records(entries: seq<Entry>, start: nat): (r: seq<Record>)
    ensures |r| == |entries|
  {
    seq(|entries|, k requires 0 <= k < |entries| => Record(start + k, entries[k].path, entries[k].node.info))
  }

  function Lines(entries: seq<Entry>, start: nat): (r: seq<string>)
    ensures |r| == |entries|
  {
    seq(|entries|, k requires 0 <= k < |entries| => RenderLine(entries[k].node.info, start + k, entries[k].depth))
  }

  function Room(count: nat): nat {
    if count < MAX_NODES then MAX_NODES - count else 0
  }

  /**
   The walk turns back at a node: too deep, or with no room left. With `deep` only the former counts.
   The walk goes on to the next sibling, so a depth may be exceeded after the room is used up.
   */
  predicate Cut(node: Node, depth: nat, room: nat, deep: bool)
    decreases node, 1, 0
  {
    if depth > MAX_DEPTH then true
    else if room == 0 then !deep
    else if Elided(node) then CutChildren(node, 0, depth, room, deep)
    else !ChildrenHidden(node.info) && CutChildren(node, 0, depth + 1, room - 1, deep)
  }

  predicate CutChildren(node: Node, i: nat, depth: nat, room: nat, deep: bool)
    requires i <= |node.slots|
    decreases node, 0, |node.slots| - i
  {
    if i == |node.slots| then false
    else match node.slots[i]
      case None => CutChildren(node, i + 1, depth, room, deep)
      case Some(child) =>
        var shown := |Visible(child, depth, [], MAX_DEPTH)|;
        Cut(child, depth, room, deep) || CutChildren(node, i + 1, depth, if shown <= room then room - shown else 0, deep)
  }

  lemma NothingShown(start: nat, room: nat)
    ensures Capped([], room) == [] && Records([], start) == [] && Lines([], start) == []
  {
  }

  /** One call of the walk, unfolded. */
  lemma NodeShown(node: Node, depth: nat, path: seq<nat>, room: nat, start: nat, deep: bool)
    ensures var shown := Capped(Visible(node, depth, path, MAX_DEPTH), room);
            if room == 0 || depth > MAX_DEPTH then
              && Cut(node, depth, room, deep) == (!deep || depth > MAX_DEPTH)
              && Records(shown, start) == [] && Lines(shown, start) == []
            else if Elided(node) then
              && Cut(node, depth, room, deep) == CutChildren(node, 0, depth, room, deep)
              && Visible(node, depth, path, MAX_DEPTH) == VisibleChildren(node, 0, depth, path, MAX_DEPTH)
            else
              var rest := if ChildrenHidden(node.info) then [] else Capped(VisibleChildren(node, 0, depth + 1, path, MAX_DEPTH), room - 1);
              && Cut(node, depth, room, deep) == (!ChildrenHidden(node.info) && CutChildren(node, 0, depth + 1, room - 1, deep))
              && Records(shown, start) == [Record(start, path, node.info)] + Records(rest, start + 1)
              && Lines(shown, start) == [RenderLine(node.info, start, depth)] + Lines(rest, start + 1)
              && Records([], start + 1) == [] && Lines([], start + 1) == []
  {
    NothingShown(start, room);
    NothingShown(start + 1, room);
    if room == 0 || depth > MAX_DEPTH {
      assert Capped(Visible(node, depth, path, MAX_DEPTH), room) == [];
    } else if !Elided(node) {
      var rest := if ChildrenHidden(node.info) then [] else VisibleChildren(node, 0, depth + 1, path, MAX_DEPTH);
      assert Visible(node, depth, path, MAX_DEPTH) == [Entry(node, path, depth)] + rest;
      hide Visible, VisibleChildren, CutChildren, Elided, ChildrenHidden, Records, Lines, RenderLine;
      CappedCons(Entry(node, path, depth), rest, room, start);
    }
  }

  lemma ChildShown(node: Node, i: nat, depth: nat, path: seq<nat>, room: nat, deep: bool)
    requires i < |node.slots|
    ensures node.slots[i].None? ==>
      && VisibleChildren(node, i, depth, path, MAX_DEPTH) == VisibleChildren(node, i + 1, depth, path, MAX_DEPTH)
      && CutChildren(node, i, depth, room, deep) == CutChildren(node, i + 1, depth, room, deep)
    ensures node.slots[i].Some? ==>
      var shown := Visible(node.slots[i].value, depth, path + [i], MAX_DEPTH);
      && VisibleChildren(node, i, depth, path, MAX_DEPTH) == shown + VisibleChildren(node, i + 1, depth, path, MAX_DEPTH)
      && (CutChildren(node, i, depth, room, deep) <==>
            || Cut(node.slots[i].value, depth, room, deep)
            || CutChildren(node, i + 1, depth, room - |Capped(shown, room)|, deep))
  {
    if node.slots[i].Some? {
      PathIndependent(node.slots[i].value, depth, path + [i], []);
    } else {
      assert [] + VisibleChildren(node, i + 1, depth, path, MAX_DEPTH) == VisibleChildren(node, i + 1, depth, path, MAX_DEPTH);
    }
  }

  lemma ChildrenEnd(node: Node, depth: nat, path: seq<nat>, room: nat)
    ensures VisibleChildren(node, |node.slots|, depth, path, MAX_DEPTH) == []
    ensures forall deep :: !CutChildren(node, |node.slots|, depth, room, deep)
  {
  }

  lemma RecordsConcat(a: seq<Entry>, b: seq<Entry>, start: nat)
    ensures Records(a + b, start) == Records(a, start) + Records(b, start + |a|)
    ensures Lines(a + b, start) == Lines(a, start) + Lines(b, start + |a|)
  {
    hide RenderLine;
  }

  lemma CappedCons(head: Entry, rest: seq<Entry>, room: nat, start: nat)
    requires room > 0
    ensures var shown := Capped([head] + rest, room);
            && |shown| == 1 + |Capped(rest, room - 1)|
            && Records(shown, start)
            == [Record(start, head.path, head.node.info)] + Records(Capped(rest, room - 1), start + 1)
            && Lines(shown, start)
            == [RenderLine(head.node.info, start, head.depth)] + Lines(Capped(rest, room - 1), start + 1)
  {
    assert Capped([head] + rest, room) == [head] + Capped(rest, room - 1);
    RecordsConcat([head], Capped(rest, room - 1), start);
    hide RenderLine;
    assert Records([head], start) == [Record(start, head.path, head.node.info)];
    assert Lines([head], start) == [RenderLine(head.node.info, start, head.depth)];
  }

  lemma CappedAppend(done: seq<Entry>, more: seq<Entry>, start: nat)
    requires start <= MAX_NODES
    ensures var shown := Capped(done, Room(start));
            var count := start + |shown|;
            && count <= MAX_NODES
            && |Capped(done + more, Room(start))| == |shown| + |Capped(more, Room(count))|
            && Records(Capped(done + more, Room(start)), start)
            == Records(shown, start) + Records(Capped(more, Room(count)), count)
            && Lines(Capped(done + more, Room(start)), start)
            == Lines(shown, start) + Lines(Capped(more, Room(count)), count)
  {
    hide Records, Lines;
    var count := start + |Capped(done, Room(start))|;
    assert Capped(done + more, Room(start)) == Capped(done, Room(start)) + Capped(more, Room(count));
    RecordsConcat(Capped(done, Room(start)), Capped(more, Room(count)), start);
  }

  /** How many elements a node shows does not depend on where it hangs. */
  lemma {:induction false} PathIndependent(node: Node, depth: nat, path: seq<nat>, path': seq<nat>)
    ensures |Visible(node, depth, path, MAX_DEPTH)| == |Visible(node, depth, path', MAX_DEPTH)|
    decreases node, 1, 0
  {
    if depth <= MAX_DEPTH {
      PathIndependentChildren(node, 0, if Elided(node) then depth else depth + 1, path, path');
    }
  }

  lemma {:induction false} PathIndependentChildren(node: Node, i: nat, depth: nat, path: seq<nat>, path': seq<nat>)
    requires i <= |node.slots|
    ensures |VisibleChildren(node, i, depth, path, MAX_DEPTH)| == |VisibleChildren(node, i, depth, path', MAX_DEPTH)|
    decreases node, 0, |node.slots| - i
  {
    if i < |node.slots| {
      if node.slots[i].Some? {
        PathIndependent(node.slots[i].value, depth, path + [i], path' + [i]);
      }
      PathIndependentChildren(node, i + 1, depth, path, path');
    }
  }

  // Finding a record's node again.

  /** `find_by_path`: child by child, or nothing. */
  function Resolve(node: Node, path: seq<nat>): Option<Node>
    decreases |path|
  {
    if path == [] then Some(node)
    else if path[0] < |node.slots| && node.slots[path[0]].Some? then Resolve(node.slots[path[0]].value, path[1..])
    else None
  }

  method FindByPath(app: Node, path: seq<nat>) returns (found: Option<Node>)
    ensures found == Resolve(app, path)
  {
    var node := app;
    for i := 0 to |path|
      invariant Resolve(app, path) == Resolve(node, path[i..])
    {
      assert path[i..][1..] == path[i + 1..];
      if path[i] >= |node.slots| || node.slots[path[i]].None? {
        return None;
      }
      node := node.slots[path[i]].value;
    }
    found := Some(node);
  }

  lemma {:induction false} ResolveStep(app: Node, path: seq<nat>, i: nat)
    requires Resolve(app, path).Some? && i < |Resolve(app, path).value.slots|
    ensures Resolve(app, path + [i]) == Resolve(app, path).value.slots[i]
    decreases |path|
  {
    if path == [] {
      assert path + [i] == [i];
      assert [i][1..] == [];
    } else {
      assert (path + [i])[1..] == path[1..] + [i];
      ResolveStep(app.slots[path[0]].value, path[1..], i);
    }
  }

  /** The entry's path leads from the app to the entry's node, which is not elided. */
  ghost predicate Found(app: Node, e: Entry) {
    Resolve(app, e.path) == Some(e.node) && !Elided(e.node)
  }

  lemma {:induction false} VisibleIsFound(app: Node, node: Node, depth: nat, path: seq<nat>, maxDepth: nat)
    requires Resolve(app, path) == Some(node)
    ensures forall e <- Visible(node, depth, path, maxDepth) :: Found(app, e) && path <= e.path
    decreases node, 1, 0
  {
    hide Elided, ChildrenHidden;
    VisibleChildrenAreFound(app, node, 0, depth, path, maxDepth);
    VisibleChildrenAreFound(app, node, 0, depth + 1, path, maxDepth);
  }

  lemma {:induction false} VisibleChildrenAreFound(
    app: Node, node: Node, i: nat, depth: nat, path: seq<nat>, maxDepth: nat)
    requires i <= |node.slots| && Resolve(app, path) == Some(node)
    ensures forall e <- VisibleChildren(node, i, depth, path, maxDepth) :: Found(app, e) && path <= e.path
    decreases node, 0, |node.slots| - i
  {
    hide Found;
    if i < |node.slots| {
      ResolveStep(app, path, i);
      if node.slots[i].Some? { VisibleIsFound(app, node.slots[i].value, depth, path + [i], maxDepth); }
      assert path <= path + [i];
      VisibleChildrenAreFound(app, node, i + 1, depth, path, maxDepth);
    }
  }

  /** Pre-order: an ancestor before its descendants, and siblings by index. */
  predicate Before(p: seq<nat>, q: seq<nat>)
    decreases |q|
  {
    q != [] && (p == [] || p[0] < q[0] || (p[0] == q[0] && Before(p[1..], q[1..])))
  }

  lemma {:induction false} BeforeUnder(path: seq<nat>, p: seq<nat>, q: seq<nat>)
    requires Before(p, q)
    ensures Before(path + p, path + q)
    decreases |path|
  {
    if path == [] {
      assert path + p == p && path + q == q;
    } else {
      assert (path + p)[1..] == path[1..] + p && (path + q)[1..] == path[1..] + q;
      BeforeUnder(path[1..], p, q);
    }
  }

  /** Paths that start like `path` and take slot `i` or a later one next. */
  predicate From(path: seq<nat>, i: nat, p: seq<nat>) {
    path < p && p[|path|] >= i
  }

  lemma BeforeSibling(path: seq<nat>, i: nat, p: seq<nat>, q: seq<nat>)
    requires path + [i] <= p && From(path, i + 1, q)
    ensures Before(p, q)
  {
    var p', q' := p[|path|..], q[|path|..];
    assert p == path + p' && q == path + q';
    BeforeUnder(path, p', q');
  }

  lemma BeforeDescendant(path: seq<nat>, q: seq<nat>)
    requires path < q
    ensures Before(path, q)
  {
    assert path + [] == path && path + q[|path|..] == q;
    BeforeUnder(path, [], q[|path|..]);
  }

  ghost predicate InOrder(entries: seq<Entry>) {
    forall i, j :: 0 <= i < j < |entries| ==> Before(entries[i].path, entries[j].path)
  }

  lemma ShortInOrder(e: Entry)
    ensures InOrder([]) && InOrder([e])
  {
  }

  lemma InOrderConcat(a: seq<Entry>, b: seq<Entry>)
    requires InOrder(a) && InOrder(b)
    requires forall e <- a, f <- b :: Before(e.path, f.path)
    ensures InOrder(a + b)
  {
    forall i, j | 0 <= i < j < |a + b| ensures Before((a + b)[i].path, (a + b)[j].path) {
      if i < |a| { assert (a + b)[i] in a; }
      if j >= |a| { assert (a + b)[j] in b; }
    }
  }

  lemma {:induction false} VisibleInOrder(node: Node, depth: nat, path: seq<nat>, maxDepth: nat)
    ensures InOrder(Visible(node, depth, path, maxDepth))
    ensures forall e <- Visible(node, depth, path, maxDepth) :: path <= e.path
    decreases node, 1, 0
  {
    hide Elided, ChildrenHidden, InOrder, Before;
    VisibleChildrenInOrder(node, 0, depth, path, maxDepth);
    VisibleChildrenInOrder(node, 0, depth + 1, path, maxDepth);
    var head := Entry(node, path, depth);
    var rest := if ChildrenHidden(node.info) then [] else VisibleChildren(node, 0, depth + 1, path, maxDepth);
    ShortInOrder(head);
    if depth > maxDepth || Elided(node) {
      return;
    }
    forall f <- rest ensures Before(path, f.path) { BeforeDescendant(path, f.path); }
    InOrderConcat([head], rest);
  }

  lemma {:induction false} VisibleChildrenInOrder(node: Node, i: nat, depth: nat, path: seq<nat>, maxDepth: nat)
    requires i <= |node.slots|
    ensures InOrder(VisibleChildren(node, i, depth, path, maxDepth))
    ensures forall e <- VisibleChildren(node, i, depth, path, maxDepth) :: From(path, i, e.path)
    decreases node, 0, |node.slots| - i
  {
    if i < |node.slots| {
      var here := VisibleChild(node, i, depth, path, maxDepth);
      var rest := VisibleChildren(node, i + 1, depth, path, maxDepth);
      if node.slots[i].Some? { VisibleInOrder(node.slots[i].value, depth, path + [i], maxDepth); }
      VisibleChildrenInOrder(node, i + 1, depth, path, maxDepth);
      forall e <- here, f <- rest ensures Before(e.path, f.path) { BeforeSibling(path, i, e.path, f.path); }
      hide Before;
      InOrderConcat(here, rest);
    }
  }

  lemma {:induction false} BeforeIsStrict(p: seq<nat>)
    ensures !Before(p, p)
    decreases |p|
  {
    if p != [] { BeforeIsStrict(p[1..]); }
  }

  /**
   Which node a walk shows, told by its path alone: every node above it that is not elided
   takes one level and must not hide its children.
   */
  predicate Shown(node: Node, path: seq<nat>, depth: nat, maxDepth: nat)
    decreases |path|
  {
    depth <= maxDepth &&
    if path == [] then !Elided(node)
    else
      && path[0] < |node.slots| && node.slots[path[0]].Some?
      && (Elided(node) || !ChildrenHidden(node.info))
      && Shown(node.slots[path[0]].value, path[1..], if Elided(node) then depth else depth + 1, maxDepth)
  }

  lemma {:induction false} VisibleIsShown(node: Node, depth: nat, path: seq<nat>, maxDepth: nat)
    ensures forall e <- Visible(node, depth, path, maxDepth) :: path <= e.path && Shown(node, e.path[|path|..], depth, maxDepth)
    decreases node, 1, 0
  {
    hide Elided, ChildrenHidden;
    if depth <= maxDepth && (Elided(node) || !ChildrenHidden(node.info)) {
      var below := if Elided(node) then depth else depth + 1;
      VisibleChildrenAreShown(node, 0, below, path, maxDepth);
      forall e <- VisibleChildren(node, 0, below, path, maxDepth)
        ensures Shown(node, e.path[|path|..], depth, maxDepth)
      {
      }
    }
  }

  lemma {:induction false} VisibleChildrenAreShown(node: Node, i: nat, depth: nat, path: seq<nat>, maxDepth: nat)
    requires i <= |node.slots|
    ensures forall e <- VisibleChildren(node, i, depth, path, maxDepth) ::
      && path < e.path && e.path[|path|] < |node.slots| && node.slots[e.path[|path|]].Some?
      && Shown(node.slots[e.path[|path|]].value, e.path[|path|..][1..], depth, maxDepth)
    decreases node, 0, |node.slots| - i
  {
    hide Shown;
    if i < |node.slots| {
      VisibleChildrenAreShown(node, i + 1, depth, path, maxDepth);
      if node.slots[i].Some? {
        VisibleIsShown(node.slots[i].value, depth, path + [i], maxDepth);
        forall e <- Visible(node.slots[i].value, depth, path + [i], maxDepth)
          ensures path < e.path && e.path[|path|] == i && Shown(node.slots[i].value, e.path[|path|..][1..], depth, maxDepth)
        {
          assert e.path[|path + [i]|..] == e.path[|path|..][1..];
        }
      }
    }
  }

  lemma {:induction false} ShownIsVisible(node: Node, depth: nat, path: seq<nat>, below: seq<nat>, maxDepth: nat)
    requires Shown(node, below, depth, maxDepth)
    ensures exists e <- Visible(node, depth, path, maxDepth) :: e.path == path + below
    decreases node, 1, 0
  {
    if below == [] {
      assert Entry(node, path, depth) in Visible(node, depth, path, maxDepth);
      assert path + below == path;
    } else {
      var i := below[0];
      var d := if Elided(node) then depth else depth + 1;
      hide Elided, ChildrenHidden, Shown;
      ShownIsVisible(node.slots[i].value, d, path + [i], below[1..], maxDepth);
      var e :| e in Visible(node.slots[i].value, d, path + [i], maxDepth) && e.path == path + [i] + below[1..];
      assert path + [i] + below[1..] == path + below;
      ChildIsVisible(node, 0, i, d, path, maxDepth, e);
    }
  }

  lemma {:induction false} ChildIsVisible(
    node: Node, j: nat, i: nat, depth: nat, path: seq<nat>, maxDepth: nat, e: Entry)
    requires j <= i < |node.slots| && e in VisibleChild(node, i, depth, path, maxDepth)
    ensures e in VisibleChildren(node, j, depth, path, maxDepth)
    decreases i - j
  {
    if j < i { ChildIsVisible(node, j + 1, i, depth, path, maxDepth, e); }
  }

  /** The depth flag is never set without the other one. */
  lemma {:induction false} DeepIsCut(node: Node, depth: nat, room: nat)
    requires Cut(node, depth, room, true)
    ensures Cut(node, depth, room, false)
    decreases node, 1, 0
  {
    hide Elided, ChildrenHidden;
    if depth <= MAX_DEPTH && room > 0 {
      if Elided(node) {
        DeepChildrenAreCut(node, 0, depth, room);
      } else {
        DeepChildrenAreCut(node, 0, depth + 1, room - 1);
      }
    }
  }

  lemma {:induction false} DeepChildrenAreCut(node: Node, i: nat, depth: nat, room: nat)
    requires i <= |node.slots| && CutChildren(node, i, depth, room, true)
    ensures CutChildren(node, i, depth, room, false)
    decreases node, 0, |node.slots| - i
  {
    var next := i + 1;
    match node.slots[i]
    case None => DeepChildrenAreCut(node, next, depth, room);
    case Some(child) =>
      if Cut(child, depth, room, true) {
        DeepIsCut(child, depth, room);
      } else {
        var shown := |Visible(child, depth, [], MAX_DEPTH)|;
        DeepChildrenAreCut(node, next, depth, if shown <= room then room - shown else 0);
      }
  }

  /** A walk that was not cut shows every element, however deep. */
  lemma {:induction false} UncutIsComplete(node: Node, depth: nat, path: seq<nat>, room: nat, maxDepth: nat)
    requires !Cut(node, depth, room, false) && maxDepth >= MAX_DEPTH
    ensures |Visible(node, depth, path, MAX_DEPTH)| <= room
    ensures Visible(node, depth, path, MAX_DEPTH) == Visible(node, depth, path, maxDepth)
    decreases node, 1, 0
  {
    hide Elided, ChildrenHidden;
    if Elided(node) {
      UncutChildrenAreComplete(node, 0, depth, path, room, maxDepth);
    } else if !ChildrenHidden(node.info) {
      UncutChildrenAreComplete(node, 0, depth + 1, path, room - 1, maxDepth);
    }
  }

  lemma {:induction false} UncutChildrenAreComplete(
    node: Node, i: nat, depth: nat, path: seq<nat>, room: nat, maxDepth: nat)
    requires i <= |node.slots| && !CutChildren(node, i, depth, room, false) && maxDepth >= MAX_DEPTH
    ensures |VisibleChildren(node, i, depth, path, MAX_DEPTH)| <= room
    ensures VisibleChildren(node, i, depth, path, MAX_DEPTH) == VisibleChildren(node, i, depth, path, maxDepth)
    decreases node, 0, |node.slots| - i
  {
    if i < |node.slots| {
      if node.slots[i].None? {
        UncutChildrenAreComplete(node, i + 1, depth, path, room, maxDepth);
      } else {
        var child := node.slots[i].value;
        PathIndependent(child, depth, path + [i], []);
        UncutIsComplete(child, depth, path + [i], room, maxDepth);
        UncutChildrenAreComplete(node, i + 1, depth, path, room - |Visible(child, depth, [], MAX_DEPTH)|, maxDepth);
      }
    }
  }

  lemma {:induction false} RstripKeepsHead(head: string, tail: string)
    requires head != [] && head[|head| - 1] != ' '
    ensures head <= Rstrip(head + tail)
    decreases |tail|
  {
    var s := head + tail;
    if tail != [] && tail[|tail| - 1] == ' ' {
      assert s[..|s| - 1] == head + tail[..|tail| - 1];
      RstripKeepsHead(head, tail[..|tail| - 1]);
    }
  }

  /** What follows the index in a line: nothing, a blank, or a comma. */
  lemma SuffixStart(info: Info)
    ensures var suffix := FormattedValue(info) + SummaryText(info) + ActionsText(info);
            suffix != [] ==> suffix[0] == ' ' || suffix[0] == ','
  {
    var f, s, a := FormattedValue(info), SummaryText(info), ActionsText(info);
    assert f != [] ==> f[0] == ' ' || f[0] == ',';
    assert s != [] ==> s[0] == ',';
    assert a != [] ==> a[0] == ',';
  }

  /** Compaction reads from a line the index that the walk rendered it with. */
  lemma LineCarriesIndex(info: Info, index: nat, depth: nat)
    ensures ElementIndex(RenderLine(info, index, depth), depth) == Some(index)
  {
    SuffixStart(info);
    hide FormattedValue, SummaryText, ActionsText, ElementIndex, Decimal, Title, Rstrip, Tabs;
    var digits := Decimal(index);
    var rest := " " + info.roleLabel + " " + Title(info);
    assert digits + " " + info.roleLabel + " " + Title(info) == digits + rest;
    RstripKeepsHead(digits, rest);
    var stripped := Rstrip(digits + rest);
    var suffix := FormattedValue(info) + SummaryText(info) + ActionsText(info);
    assert stripped + FormattedValue(info) + SummaryText(info) + ActionsText(info) == stripped + suffix;
    var after := stripped[|digits|..] + suffix;
    assert |digits| < |stripped| ==> stripped[|digits|] == (digits + rest)[|digits|] == ' ';
    assert stripped + suffix == digits + after;
    ElementIndexRoundTrip(depth, index, after);
  }

  /**
   Rendering without compaction: at most 1200 records, numbered from 0 and one per line; each
   record's runtime id leads from the app to the node it was made from.
   */
  lemma RecordsResolve(app: Node, root: Node, rootPath: seq<nat>, k: nat)
    requires Resolve(app, rootPath) == Some(root)
    requires k < |Capped(Visible(root, 0, rootPath, MAX_DEPTH), MAX_NODES)|
    ensures var shown := Capped(Visible(root, 0, rootPath, MAX_DEPTH), MAX_NODES);
            var records, lines := Records(shown, 0), Lines(shown, 0);
            && |records| == |lines| <= MAX_NODES
            && records[k].index == k && ElementIndex(lines[k], shown[k].depth) == Some(k)
            && records[k].info == shown[k].node.info
            && Resolve(app, records[k].runtimeId) == Some(shown[k].node) && !Elided(shown[k].node)
  {
    hide Visible, RenderLine, Elided;
    var all := Visible(root, 0, rootPath, MAX_DEPTH);
    var shown := Capped(all, MAX_NODES);
    VisibleIsFound(app, root, 0, rootPath, MAX_DEPTH);
    assert shown[k] == all[k] && all[k] in all;
    LineCarriesIndex(shown[k].node.info, k, shown[k].depth);
  }

  /** The records stand in pre-order, so no two share a runtime id. */
  lemma RecordsInPreOrder(root: Node, rootPath: seq<nat>, j: nat, k: nat)
    requires j < k < |Capped(Visible(root, 0, rootPath, MAX_DEPTH), MAX_NODES)|
    ensures var records := Records(Capped(Visible(root, 0, rootPath, MAX_DEPTH), MAX_NODES), 0);
            Before(records[j].runtimeId, records[k].runtimeId) && records[j].runtimeId != records[k].runtimeId
  {
    hide Visible, Before;
    VisibleInOrder(root, 0, rootPath, MAX_DEPTH);
    BeforeIsStrict(Capped(Visible(root, 0, rootPath, MAX_DEPTH), MAX_NODES)[k].path);
  }
}

/** Typo recovery for commands: which paths are candidates, and the three that are suggested. */
module CommandSuggestion {
  import opened Options
  import opened EditDistance

  type Path = seq<string>
  datatype Spec = Spec(path: Path, aliases: Option<seq<Path>>, destructive: bool)
  datatype Scored = Scored(name: string, distance: nat)

  /** `localeCompare` on two labels is at most zero. */
  type Collation = (string, string) -> bool

  const SUGGESTION_THRESHOLD: nat := 3
  const MAX_SUGGESTIONS: nat := 3
  const DESTRUCTIVE_INTENT_THRESHOLD: nat := 1

  function SpecPaths(spec: Spec): seq<Path> {
    if spec.aliases.Some? then [spec.path] + spec.aliases.value else [spec.path]
  }

  function FinalToken(path: Path): string {
    if path == [] then "" else path[|path| - 1]
  }

  function Join(path: Path): string {
    if path == [] then "" else if |path| == 1 then path[0] else Join(path[..|path| - 1]) + " " + path[|path| - 1]
  }

  /** `path.slice(0, 1)` for a one-word input. */
  function Cut(path: Path, words: nat): Path {
    if words == 1 && |path| > 1 then path[..1] else path
  }

  // ---------------------------------------------------------------------------------------------
  // What the suggestions have to be
  // ---------------------------------------------------------------------------------------------

  /** The input's last word is a near miss of the last word of a destructive path. */
  ghost predicate IntendsDestruction(specs: seq<Spec>, input: Path) {
    exists spec, path :: spec in specs && spec.destructive && path in SpecPaths(spec)
                         && Distance(FinalToken(input), FinalToken(path)) <= DESTRUCTIVE_INTENT_THRESHOLD
  }

  ghost predicate Permitted(spec: Spec, specs: seq<Spec>, input: Path) {
    spec.destructive ==> IntendsDestruction(specs, input)
  }

  ghost predicate Offers(spec: Spec, input: Path, name: string) {
    exists path :: path in SpecPaths(spec) && |Cut(path, |input|)| == |input| && Join(Cut(path, |input|)) == name
  }

  /** A label of the input's depth that some permitted spec answers to. */
  ghost predicate IsCandidate(specs: seq<Spec>, input: Path, name: string) {
    exists spec :: spec in specs && Permitted(spec, specs, input) && Offers(spec, input, name)
  }

  ghost predicate IsNear(specs: seq<Spec>, input: Path, name: string) {
    IsCandidate(specs, input, name) && 0 < Distance(Join(input), name) <= SUGGESTION_THRESHOLD
  }

  ghost predicate IsCollation(leq: Collation) {
    && (forall a, b :: leq(a, b) || leq(b, a))
    && (forall a, b, c :: leq(a, b) && leq(b, c) ==> leq(a, c))
  }

  ghost predicate Antisymmetric(leq: Collation) {
    forall a, b :: leq(a, b) && leq(b, a) ==> a == b
  }

  predicate Before(x: Scored, y: Scored, leq: Collation) {
    x.distance < y.distance || (x.distance == y.distance && leq(x.name, y.name))
  }

  function Score(input: Path, name: string): Scored {
    Scored(name, Distance(Join(input), name))
  }

  ghost predicate Ascending(entries: seq<Scored>, leq: Collation) {
    forall i, j :: 0 <= i < j < |entries| ==> Before(entries[i], entries[j], leq)
  }

  ghost predicate Distinct(labels: seq<string>) {
    forall i, j :: 0 <= i < j < |labels| ==> labels[i] != labels[j]
  }

  /** The best three near candidates, in order, each once. */
  ghost predicate AreBest(labels: seq<string>, specs: seq<Spec>, input: Path, leq: Collation) {
    && |labels| <= MAX_SUGGESTIONS
    && Distinct(labels)
    && (forall name <- labels :: IsNear(specs, input, name))
    && (forall i, j :: 0 <= i < j < |labels| ==> Before(Score(input, labels[i]), Score(input, labels[j]), leq))
    && (forall other :: IsNear(specs, input, other) && other !in labels ==>
          && |labels| == MAX_SUGGESTIONS
          && forall name <- labels :: Before(Score(input, name), Score(input, other), leq))
  }

  // ---------------------------------------------------------------------------------------------
  // Ranking
  // ---------------------------------------------------------------------------------------------

  predicate InRange(x: Scored) {
    0 < x.distance <= SUGGESTION_THRESHOLD
  }

  function Filter(entries: seq<Scored>): seq<Scored> {
    if entries == [] then []
    else if InRange(entries[0]) then [entries[0]] + Filter(entries[1..])
    else Filter(entries[1..])
  }

  /** Stable insertion: a new entry goes in front of the first one that it does not come after. */
  function Insert(x: Scored, sorted: seq<Scored>, leq: Collation): seq<Scored> {
    if sorted == [] || Before(x, sorted[0], leq) then [x] + sorted
    else [sorted[0]] + Insert(x, sorted[1..], leq)
  }

  function Sort(entries: seq<Scored>, leq: Collation): seq<Scored> {
    if entries == [] then [] else Insert(entries[0], Sort(entries[1..], leq), leq)
  }

  function Labels(entries: seq<Scored>): (r: seq<string>)
    ensures |r| == |entries| && forall k :: 0 <= k < |r| ==> r[k] == entries[k].name
  {
    seq(|entries|, k requires 0 <= k < |entries| => entries[k].name)
  }

  function RankByDistance(scored: seq<Scored>, leq: Collation): seq<string> {
    var ranked := Sort(Filter(scored), leq);
    Labels(ranked[..if |ranked| < MAX_SUGGESTIONS then |ranked| else MAX_SUGGESTIONS])
  }

  lemma {:induction false} FilterKeeps(entries: seq<Scored>)
    ensures multiset(Filter(entries)) <= multiset(entries)
    ensures forall x :: x in Filter(entries) <==> x in entries && InRange(x)
  {
    if entries != [] {
      FilterKeeps(entries[1..]);
      assert entries == [entries[0]] + entries[1..];
    }
  }

  lemma BeforeIsOrder(x: Scored, y: Scored, z: Scored, leq: Collation)
    requires IsCollation(leq)
    ensures Before(x, y, leq) || Before(y, x, leq)
    ensures Before(x, y, leq) && Before(y, z, leq) ==> Before(x, z, leq)
  {
  }

  lemma {:induction false} InsertAdds(x: Scored, sorted: seq<Scored>, leq: Collation)
    ensures multiset(Insert(x, sorted, leq)) == multiset(sorted) + multiset{x}
    ensures forall y <- Insert(x, sorted, leq) :: y == x || y in sorted
    decreases |sorted|
  {
    hide Before;
    if sorted != [] && !Before(x, sorted[0], leq) {
      InsertAdds(x, sorted[1..], leq);
      assert sorted == [sorted[0]] + sorted[1..];
    }
  }

  lemma AscendingCons(head: Scored, rest: seq<Scored>, leq: Collation)
    requires Ascending(rest, leq) && forall y <- rest :: Before(head, y, leq)
    ensures Ascending([head] + rest, leq)
  {
    hide Before;
  }

  lemma {:induction false} InsertSorted(x: Scored, sorted: seq<Scored>, leq: Collation)
    requires IsCollation(leq) && Ascending(sorted, leq)
    ensures Ascending(Insert(x, sorted, leq), leq)
    decreases |sorted|
  {
    hide Before, IsCollation;
    if sorted == [] {
    } else if Before(x, sorted[0], leq) {
      forall y <- sorted ensures Before(x, y, leq) {
        BeforeIsOrder(x, sorted[0], y, leq);
      }
      AscendingCons(x, sorted, leq);
    } else {
      InsertSorted(x, sorted[1..], leq);
      InsertAdds(x, sorted[1..], leq);
      BeforeIsOrder(x, sorted[0], x, leq);
      AscendingCons(sorted[0], Insert(x, sorted[1..], leq), leq);
    }
  }

  lemma {:induction false} SortSorts(entries: seq<Scored>, leq: Collation)
    requires IsCollation(leq)
    ensures multiset(Sort(entries, leq)) == multiset(entries)
    ensures Ascending(Sort(entries, leq), leq)
  {
    if entries != [] {
      assert entries == [entries[0]] + entries[1..];
      SortSorts(entries[1..], leq);
      InsertAdds(entries[0], Sort(entries[1..], leq), leq);
      InsertSorted(entries[0], Sort(entries[1..], leq), leq);
    }
  }

  /** Every label is scored once, and with its own distance. */
  ghost predicate ScoredOnce(scored: seq<Scored>, input: Path) {
    && (forall k :: 0 <= k < |scored| ==> scored[k] == Score(input, scored[k].name))
    && (forall i, j :: 0 <= i < j < |scored| ==> scored[i].name != scored[j].name)
  }

  lemma OnceByCount(scored: seq<Scored>, x: Scored)
    requires forall i, j :: 0 <= i < j < |scored| ==> scored[i] != scored[j]
    ensures multiset(scored)[x] <= 1
    decreases |scored|
  {
    if scored != [] {
      assert scored == [scored[0]] + scored[1..];
      OnceByCount(scored[1..], x);
    }
  }

  lemma TwiceByCount(s: seq<Scored>, i: nat, j: nat)
    requires i < j < |s| && s[i] == s[j]
    ensures multiset(s)[s[i]] >= 2
  {
    assert s == s[..i] + [s[i]] + s[i + 1..j] + [s[j]] + s[j + 1..];
  }

  lemma SubDistinct(s: seq<Scored>, of: seq<Scored>, input: Path)
    requires ScoredOnce(of, input) && multiset(s) <= multiset(of)
    ensures ScoredOnce(s, input)
  {
    forall k | 0 <= k < |s| ensures s[k] in of {
      assert s[k] in multiset(s);
    }
    forall i, j | 0 <= i < j < |s| ensures s[i].name != s[j].name {
      if s[i].name == s[j].name {
        TwiceByCount(s, i, j);
        OnceByCount(of, s[i]);
        assert false;
      }
    }
  }

  /** Ranking scored candidates yields the best three. */
  lemma RankIsBest(scored: seq<Scored>, specs: seq<Spec>, input: Path, leq: Collation)
    requires IsCollation(leq) && ScoredOnce(scored, input)
    requires forall name :: IsCandidate(specs, input, name) <==> Score(input, name) in scored
    ensures AreBest(RankByDistance(scored, leq), specs, input, leq)
  {
    hide IsCandidate, Distance, Join, Sort, Filter, Before;
    var kept := Filter(scored);
    var ranked := Sort(kept, leq);
    FilterKeeps(scored);
    SortSorts(kept, leq);
    SubDistinct(ranked, scored, input);
    var n := if |ranked| < MAX_SUGGESTIONS then |ranked| else MAX_SUGGESTIONS;
    var labels := RankByDistance(scored, leq);
    assert labels == Labels(ranked[..n]);
    forall k | 0 <= k < |ranked| ensures IsNear(specs, input, ranked[k].name) {
      assert ranked[k] in multiset(ranked);
      assert ranked[k] in kept;
    }
    forall k | 0 <= k < n ensures ranked[k].name in labels {
      assert labels[k] == ranked[k].name;
    }
    forall other | IsNear(specs, input, other) && other !in labels
      ensures n == MAX_SUGGESTIONS && forall k :: 0 <= k < n ==> Before(ranked[k], Score(input, other), leq)
    {
      assert Score(input, other) in kept;
      assert Score(input, other) in multiset(ranked);
      var at :| 0 <= at < |ranked| && ranked[at] == Score(input, other);
      assert n <= at;
    }
  }

  // ---------------------------------------------------------------------------------------------
  // Uniqueness, and what the suggestions never do
  // ---------------------------------------------------------------------------------------------

  /** With a total order on labels the requirement pins the suggestions down: there is one such list. */
  lemma BestIsUnique(xs: seq<string>, ys: seq<string>, specs: seq<Spec>, input: Path, leq: Collation)
    requires IsCollation(leq) && Antisymmetric(leq)
    requires AreBest(xs, specs, input, leq) && AreBest(ys, specs, input, leq)
    ensures xs == ys
  {
    hide AreBest, IsCollation, Antisymmetric;
    if |xs| <= |ys| {
      SamePrefix(xs, ys, specs, input, leq, |xs|);
      if |xs| < |ys| { PrefixIsNotBest(xs, ys, specs, input, leq); }
    } else {
      SamePrefix(ys, xs, specs, input, leq, |ys|);
      PrefixIsNotBest(ys, xs, specs, input, leq);
    }
  }

  /** A best list without its last labels is not one. */
  lemma PrefixIsNotBest(xs: seq<string>, ys: seq<string>, specs: seq<Spec>, input: Path, leq: Collation)
    requires AreBest(ys, specs, input, leq)
    requires |xs| < |ys| && xs == ys[..|xs|]
    ensures !AreBest(xs, specs, input, leq)
  {
    hide IsNear, Before;
    assert IsNear(specs, input, ys[|xs|]) && ys[|xs|] !in xs;
  }

  lemma {:induction false} SamePrefix(xs: seq<string>, ys: seq<string>, specs: seq<Spec>, input: Path,
                                      leq: Collation, n: nat)
    requires IsCollation(leq) && Antisymmetric(leq) && n <= |xs| && n <= |ys|
    requires AreBest(xs, specs, input, leq) && AreBest(ys, specs, input, leq)
    ensures xs[..n] == ys[..n]
  {
    hide IsNear, Distance, Join;
    if n > 0 {
      SamePrefix(xs, ys, specs, input, leq, n - 1);
      NotEarlier(xs, ys, specs, input, leq, n - 1);
      NotEarlier(ys, xs, specs, input, leq, n - 1);
      assert xs[n - 1] == ys[n - 1];
      assert xs[..n] == xs[..n - 1] + [xs[n - 1]] && ys[..n] == ys[..n - 1] + [ys[n - 1]];
    }
  }

  /** With equal labels in front of it, the label at a position of one best list is not after the other's. */
  lemma NotEarlier(xs: seq<string>, ys: seq<string>, specs: seq<Spec>, input: Path, leq: Collation, k: nat)
    requires k < |xs| && k < |ys| && xs[..k] == ys[..k]
    requires IsCollation(leq)
    requires AreBest(xs, specs, input, leq) && AreBest(ys, specs, input, leq)
    ensures Before(Score(input, xs[k]), Score(input, ys[k]), leq)
  {
    hide IsNear, Distance, Join;
    forall m | 0 <= m < k ensures xs[m] != ys[k] {
      assert xs[..k][m] == ys[..k][m];
    }
  }

  /** A label that only destructive specs answer to is suggested only to an input that reaches for one. */
  lemma DestructiveNeedsIntent(labels: seq<string>, specs: seq<Spec>, input: Path, leq: Collation, name: string)
    requires AreBest(labels, specs, input, leq) && name in labels
    requires forall spec <- specs :: Offers(spec, input, name) ==> spec.destructive
    ensures IntendsDestruction(specs, input)
  {
    hide IntendsDestruction, Offers;
  }

  // ---------------------------------------------------------------------------------------------
  // The same, told by the registry alone
  // ---------------------------------------------------------------------------------------------

  /** The path is the command's own or one of its aliases. */
  predicate Registered(spec: Spec, path: Path) {
    path == spec.path || (spec.aliases.Some? && path in spec.aliases.value)
  }

  /** The words with a blank between them. */
  function Spoken(path: Path): string {
    if path == [] then "" else if |path| == 1 then path[0] else path[0] + " " + Spoken(path[1..])
  }

  lemma {:induction false} JoinIsSpoken(path: Path)
    ensures Join(path) == Spoken(path)
    decreases |path|
  {
    if |path| == 2 {
      assert path[..1] == [path[0]] && path[1..] == [path[1]];
    } else if |path| > 2 {
      var front, back := path[..|path| - 1], path[1..];
      JoinIsSpoken(front);
      JoinIsSpoken(back);
      assert front[1..] == back[..|back| - 1];
      JoinIsSpoken(front[1..]);
      var last := path[|path| - 1];
      assert Spoken(front) == path[0] + " " + Spoken(front[1..]);
      assert Join(back) == Join(front[1..]) + " " + last;
      assert path[0] + " " + Spoken(front[1..]) + " " + last == path[0] + " " + (Spoken(front[1..]) + " " + last);
    }
  }

  /** The last word typed is at most one edit from the last word of a destructive command. */
  ghost predicate ReachesForDestruction(specs: seq<Spec>, input: Path) {
    exists spec, path :: spec in specs && spec.destructive && Registered(spec, path)
      && Distance(if input == [] then "" else input[|input| - 1], if path == [] then "" else path[|path| - 1]) <= 1
  }

  /** What a command can be suggested as: its first word for a one-word input, else all its words if it has as many. */
  predicate SuggestedAs(path: Path, input: Path, name: string) {
    if |input| == 1 then path != [] && name == path[0] else |path| == |input| && name == Spoken(path)
  }

  lemma PathsAreRegistered(spec: Spec, path: Path)
    ensures path in SpecPaths(spec) <==> Registered(spec, path)
  {
  }

  lemma IntentMeans(specs: seq<Spec>, input: Path)
    ensures IntendsDestruction(specs, input) <==> ReachesForDestruction(specs, input)
  {
    hide Distance, SpecPaths, Registered;
    forall spec, path ensures path in SpecPaths(spec) <==> Registered(spec, path) { PathsAreRegistered(spec, path); }
    if IntendsDestruction(specs, input) {
      var spec, path :| spec in specs && spec.destructive && path in SpecPaths(spec)
                        && Distance(FinalToken(input), FinalToken(path)) <= DESTRUCTIVE_INTENT_THRESHOLD;
      assert Registered(spec, path);
    }
    if ReachesForDestruction(specs, input) {
      var spec, path :| spec in specs && spec.destructive && Registered(spec, path)
        && Distance(if input == [] then "" else input[|input| - 1], if path == [] then "" else path[|path| - 1]) <= 1;
      assert path in SpecPaths(spec) && Distance(FinalToken(input), FinalToken(path)) <= DESTRUCTIVE_INTENT_THRESHOLD;
    }
  }

  lemma CutMeans(path: Path, input: Path, name: string)
    ensures |Cut(path, |input|)| == |input| && Join(Cut(path, |input|)) == name <==> SuggestedAs(path, input, name)
  {
    JoinIsSpoken(path);
    hide Join, Spoken;
    if |input| == 1 && path != [] {
      OneWord(path[0]);
      assert |path| > 1 ==> path[..1] == [path[0]];
      assert |path| == 1 ==> path == [path[0]];
    }
  }

  lemma OneWord(word: string)
    ensures Join([word]) == word
  {
  }

  lemma OffersMeans(spec: Spec, input: Path, name: string)
    ensures Offers(spec, input, name) <==> exists path :: Registered(spec, path) && SuggestedAs(path, input, name)
  {
    hide Cut, Join, SpecPaths, Registered, SuggestedAs;
    forall path
      ensures path in SpecPaths(spec) <==> Registered(spec, path)
      ensures |Cut(path, |input|)| == |input| && Join(Cut(path, |input|)) == name <==> SuggestedAs(path, input, name)
    {
      PathsAreRegistered(spec, path);
      CutMeans(path, input, name);
    }
    if path :| Registered(spec, path) && SuggestedAs(path, input, name) {
      assert path in SpecPaths(spec);
    }
  }

  /** A registered path or alias goes under this label, of a command that is not destructive or was reached for. */
  ghost predicate AnswersTo(specs: seq<Spec>, input: Path, name: string) {
    exists spec, path :: spec in specs && Registered(spec, path) && SuggestedAs(path, input, name)
      && (spec.destructive ==> ReachesForDestruction(specs, input))
  }

  /**
   Which labels may be suggested: those at one to three edits from the input under which a registered path
   or alias of its depth goes, of a command that is not destructive or was reached for.
   */
  lemma NearMeans(specs: seq<Spec>, input: Path, name: string)
    ensures IsNear(specs, input, name) <==> 1 <= Distance(Spoken(input), name) <= 3 && AnswersTo(specs, input, name)
  {
    hide Distance, Registered, SuggestedAs, Offers, IntendsDestruction, ReachesForDestruction, Join;
    JoinIsSpoken(input);
    IntentMeans(specs, input);
    forall spec ensures Offers(spec, input, name) <==> exists path :: Registered(spec, path) && SuggestedAs(path, input, name) {
      OffersMeans(spec, input, name);
    }
    if AnswersTo(specs, input, name) {
      var spec, path :| spec in specs && Registered(spec, path) && SuggestedAs(path, input, name)
        && (spec.destructive ==> ReachesForDestruction(specs, input));
      assert Offers(spec, input, name) && Permitted(spec, specs, input);
    }
  }

  /** The rank of a label: by edits, then by collation. */
  predicate RanksBefore(input: Path, a: string, b: string, leq: Collation) {
    var x, y := Distance(Spoken(input), a), Distance(Spoken(input), b);
    x < y || (x == y && leq(a, b))
  }

  /** The suggestions: at most three near labels, each once, in rank; any other near label only ranks behind three. */
  lemma BestMeans(labels: seq<string>, specs: seq<Spec>, input: Path, leq: Collation)
    requires AreBest(labels, specs, input, leq)
    ensures |labels| <= 3
    ensures forall i, j :: 0 <= i < j < |labels| ==> labels[i] != labels[j] && RanksBefore(input, labels[i], labels[j], leq)
    ensures forall name <- labels :: IsNear(specs, input, name)
    ensures forall other :: IsNear(specs, input, other) && other !in labels ==>
      |labels| == 3 && forall name <- labels :: RanksBefore(input, name, other, leq)
  {
    JoinIsSpoken(input);
    hide IsNear, Distance, Join, Spoken;
  }

  /** For an input of several words every suggestion is a whole path or alias of as many words. */
  lemma SuggestionsAreWholePaths(labels: seq<string>, specs: seq<Spec>, input: Path, leq: Collation, name: string)
    returns (spec: Spec, path: Path)
    requires AreBest(labels, specs, input, leq) && name in labels && |input| >= 2
    ensures spec in specs && Registered(spec, path) && |path| == |input| && name == Spoken(path)
    ensures spec.destructive ==> ReachesForDestruction(specs, input)
  {
    hide Distance, Spoken, ReachesForDestruction, Registered;
    NearMeans(specs, input, name);
    spec, path :| spec in specs && Registered(spec, path) && SuggestedAs(path, input, name)
           && (spec.destructive ==> ReachesForDestruction(specs, input));
  }

  // ---------------------------------------------------------------------------------------------
  // The loops
  // ---------------------------------------------------------------------------------------------

  method DestructiveVerbs(specs: seq<Spec>) returns (verbs: set<string>)
    ensures forall verb :: verb in verbs <==>
      exists spec, path :: spec in specs && spec.destructive && path in SpecPaths(spec) && FinalToken(path) == verb
  {
    verbs := {};
    for i := 0 to |specs|
      invariant forall verb :: verb in verbs <==>
        exists spec, path :: spec in specs[..i] && spec.destructive && path in SpecPaths(spec) && FinalToken(path) == verb
    {
      if specs[i].destructive {
        var paths := SpecPaths(specs[i]);
        verbs := verbs + set path | path in paths :: FinalToken(path);
      }
      assert specs[..i + 1] == specs[..i] + [specs[i]];
    }
    assert specs[..|specs|] == specs;
  }

  method IntendsDestructionOf(inputToken: string, verbs: set<string>) returns (intended: bool)
    ensures intended <==> exists verb :: verb in verbs && Distance(inputToken, verb) <= DESTRUCTIVE_INTENT_THRESHOLD
  {
    hide Distance;
    var left := verbs;
    while left != {}
      invariant left <= verbs
      invariant forall verb :: verb in verbs - left ==> Distance(inputToken, verb) > DESTRUCTIVE_INTENT_THRESHOLD
      decreases |left|
    {
      var verb :| verb in left;
      var distance := Levenshtein(inputToken, verb);
      if distance <= DESTRUCTIVE_INTENT_THRESHOLD {
        return true;
      }
      left := left - {verb};
    }
    return false;
  }

  /** What the loops have scored: the labels of the first specs, and of the first paths of the next one. */
  ghost predicate Covered(specs: seq<Spec>, input: Path, allow: bool, i: nat, j: nat, name: string)
    requires i <= |specs|
  {
    || (exists k :: 0 <= k < i && (specs[k].destructive ==> allow) && Offers(specs[k], input, name))
    || (i < |specs|
        && exists m :: (0 <= m < j && m < |SpecPaths(specs[i])| && |Cut(SpecPaths(specs[i])[m], |input|)| == |input|
                        && Join(Cut(SpecPaths(specs[i])[m], |input|)) == name))
  }

  ghost predicate Progress(scored: seq<Scored>, seen: set<string>, specs: seq<Spec>, input: Path, allow: bool, i: nat, j: nat)
    requires i <= |specs|
  {
    && ScoredOnce(scored, input)
    && (forall name :: name in seen <==> Score(input, name) in scored)
    && (forall name :: name in seen <==> Covered(specs, input, allow, i, j, name))
  }

  lemma NextPath(specs: seq<Spec>, input: Path, allow: bool, i: nat, j: nat, name: string)
    requires i < |specs| && j < |SpecPaths(specs[i])|
    ensures var cut := Cut(SpecPaths(specs[i])[j], |input|);
      Covered(specs, input, allow, i, j + 1, name)
      <==> Covered(specs, input, allow, i, j, name) || (|cut| == |input| && Join(cut) == name)
  {
    hide Offers, SpecPaths, Cut, Join;
  }

  lemma NextSpec(specs: seq<Spec>, input: Path, allow: bool, i: nat, name: string)
    requires i < |specs|
    ensures (specs[i].destructive ==> allow) ==>
      (Covered(specs, input, allow, i + 1, 0, name)
       <==> Covered(specs, input, allow, i, |SpecPaths(specs[i])|, name))
    ensures !(specs[i].destructive ==> allow) ==>
      (Covered(specs, input, allow, i + 1, 0, name) <==> Covered(specs, input, allow, i, 0, name))
  {
    hide SpecPaths, Cut, Join;
    var paths := SpecPaths(specs[i]);
    assert Offers(specs[i], input, name) <==>
      exists m :: 0 <= m < |paths| && |Cut(paths[m], |input|)| == |input| && Join(Cut(paths[m], |input|)) == name;
  }

  lemma AllCovered(specs: seq<Spec>, input: Path, allow: bool, name: string)
    requires allow <==> IntendsDestruction(specs, input)
    ensures Covered(specs, input, allow, |specs|, 0, name) <==> IsCandidate(specs, input, name)
  {
    hide Offers, IntendsDestruction;
  }

  lemma ScoreMore(scored: seq<Scored>, seen: set<string>, specs: seq<Spec>, input: Path, allow: bool, i: nat, j: nat,
                  joined: string)
    requires i < |specs| && j < |SpecPaths(specs[i])| && joined !in seen
    requires Progress(scored, seen, specs, input, allow, i, j)
    requires var cut := Cut(SpecPaths(specs[i])[j], |input|); |cut| == |input| && Join(cut) == joined
    ensures Progress(scored + [Score(input, joined)], seen + {joined}, specs, input, allow, i, j + 1)
  {
    hide Covered, Distance, Join, Cut, SpecPaths;
    forall name ensures name in seen + {joined} <==> Covered(specs, input, allow, i, j + 1, name) {
      NextPath(specs, input, allow, i, j, name);
    }
    var more := scored + [Score(input, joined)];
    forall k | 0 <= k < |scored| ensures scored[k].name != joined {
      assert Score(input, scored[k].name) in scored;
    }
  }

  method SuggestCommands(specs: seq<Spec>, commandPath: Path, leq: Collation) returns (labels: seq<string>)
    requires IsCollation(leq)
    ensures AreBest(labels, specs, commandPath, leq)
  {
    hide *;
    var input := Join(commandPath);
    var verbs := DestructiveVerbs(specs);
    var allowDestructive := IntendsDestructionOf(FinalToken(commandPath), verbs);
    IntentByVerbs(specs, commandPath, verbs, allowDestructive);
    var seen: set<string> := {};
    var scored: seq<Scored> := [];
    NothingYet(specs, commandPath, allowDestructive);
    for i := 0 to |specs|
      invariant Progress(scored, seen, specs, commandPath, allowDestructive, i, 0)
    {
      var spec := specs[i];
      if spec.destructive && !allowDestructive {
        SpecDone(scored, seen, specs, commandPath, allowDestructive, i);
        continue;
      }
      var paths := SpecPaths(spec);
      for j := 0 to |paths|
        invariant Progress(scored, seen, specs, commandPath, allowDestructive, i, j)
      {
        var candidate := Cut(paths[j], |commandPath|);
        if |candidate| != |commandPath| {
          PathDone(scored, seen, specs, commandPath, allowDestructive, i, j);
          continue;
        }
        var joined := Join(candidate);
        if joined in seen {
          PathDone(scored, seen, specs, commandPath, allowDestructive, i, j);
          continue;
        }
        var distance := Levenshtein(input, joined);
        ScoreMore(scored, seen, specs, commandPath, allowDestructive, i, j, joined);
        ScoreUnfolded(commandPath, joined);
        seen := seen + {joined};
        scored := scored + [Scored(joined, distance)];
      }
      SpecDone(scored, seen, specs, commandPath, allowDestructive, i);
    }
    ScoredAll(scored, seen, specs, commandPath, allowDestructive);
    RankIsBest(scored, specs, commandPath, leq);
    labels := RankByDistance(scored, leq);
  }

  lemma IntentByVerbs(specs: seq<Spec>, input: Path, verbs: set<string>, allow: bool)
    requires forall verb :: verb in verbs <==>
      exists spec, path :: spec in specs && spec.destructive && path in SpecPaths(spec) && FinalToken(path) == verb
    requires allow <==> exists verb :: verb in verbs && Distance(FinalToken(input), verb) <= DESTRUCTIVE_INTENT_THRESHOLD
    ensures allow <==> IntendsDestruction(specs, input)
  {
    hide Distance, SpecPaths, FinalToken;
    if allow {
      var verb :| verb in verbs && Distance(FinalToken(input), verb) <= DESTRUCTIVE_INTENT_THRESHOLD;
      var spec, path :| spec in specs && spec.destructive && path in SpecPaths(spec) && FinalToken(path) == verb;
      assert Distance(FinalToken(input), FinalToken(path)) <= DESTRUCTIVE_INTENT_THRESHOLD;
    }
    if IntendsDestruction(specs, input) {
      var spec, path :| spec in specs && spec.destructive && path in SpecPaths(spec)
                        && Distance(FinalToken(input), FinalToken(path)) <= DESTRUCTIVE_INTENT_THRESHOLD;
      assert FinalToken(path) in verbs;
    }
  }

  lemma NothingYet(specs: seq<Spec>, input: Path, allow: bool)
    ensures Progress([], {}, specs, input, allow, 0, 0)
  {
  }

  lemma PathDone(scored: seq<Scored>, seen: set<string>, specs: seq<Spec>, input: Path, allow: bool, i: nat, j: nat)
    requires i < |specs| && j < |SpecPaths(specs[i])|
    requires Progress(scored, seen, specs, input, allow, i, j)
    requires var cut := Cut(SpecPaths(specs[i])[j], |input|); |cut| == |input| ==> Join(cut) in seen
    ensures Progress(scored, seen, specs, input, allow, i, j + 1)
  {
    hide Covered, Distance, Join, Cut, SpecPaths, ScoredOnce;
    forall name ensures name in seen <==> Covered(specs, input, allow, i, j + 1, name) {
      NextPath(specs, input, allow, i, j, name);
    }
  }

  lemma SpecDone(scored: seq<Scored>, seen: set<string>, specs: seq<Spec>, input: Path, allow: bool, i: nat)
    requires i < |specs|
    requires Progress(scored, seen, specs, input, allow, i,
                      if specs[i].destructive && !allow then 0 else |SpecPaths(specs[i])|)
    ensures Progress(scored, seen, specs, input, allow, i + 1, 0)
  {
    hide Covered, Distance, Join, Cut, SpecPaths, ScoredOnce;
    forall name ensures name in seen <==> Covered(specs, input, allow, i + 1, 0, name) {
      NextSpec(specs, input, allow, i, name);
    }
  }

  lemma ScoreUnfolded(input: Path, name: string)
    ensures Score(input, name) == Scored(name, Distance(Join(input), name))
  {
  }

  lemma ScoredAll(scored: seq<Scored>, seen: set<string>, specs: seq<Spec>, input: Path, allow: bool)
    requires allow <==> IntendsDestruction(specs, input)
    requires Progress(scored, seen, specs, input, allow, |specs|, 0)
    ensures ScoredOnce(scored, input)
    ensures forall name :: IsCandidate(specs, input, name) <==> Score(input, name) in scored
  {
    hide Covered, Distance, Join, IsCandidate, IntendsDestruction, ScoredOnce;
    forall name ensures IsCandidate(specs, input, name) <==> name in seen {
      AllCovered(specs, input, allow, name);
    }
  }
}

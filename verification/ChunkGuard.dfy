/** The build guard: the chunks an entry reaches, and whether one of them requires electron. */
module ChunkGuard {
  import opened Options

  datatype Chunk = Chunk(fileName: string, imports: seq<string>, dynamicImports: seq<string>, code: string)

  /** The bundle by file name. */
  type Bundle = m: map<string, Chunk> | forall name <- m :: m[name].fileName == name witness map[]

  function Imported(bundle: Bundle, name: string): seq<string> {
    if name in bundle then bundle[name].imports + bundle[name].dynamicImports else []
  }

  /** A static or dynamic import by a chunk that is present. */
  ghost predicate Edge(bundle: Bundle, from: string, to: string) {
    from in bundle && (to in bundle[from].imports || to in bundle[from].dynamicImports)
  }

  /** A path of import edges. */
  ghost predicate IsPath(bundle: Bundle, path: seq<string>) {
    path != [] && forall i, j :: 0 <= i && j == i + 1 && j < |path| ==> Edge(bundle, path[i], path[j])
  }

  ghost predicate Reaches(bundle: Bundle, start: string, name: string) {
    exists path :: IsPath(bundle, path) && path[0] == start && path[|path| - 1] == name
  }

  lemma ReachesStart(bundle: Bundle, start: string)
    ensures Reaches(bundle, start, start)
  {
    assert IsPath(bundle, [start]);
    assert [start][0] == start && [start][|[start]| - 1] == start;
  }

  lemma ReachesFurther(bundle: Bundle, start: string, name: string, next: string)
    requires Reaches(bundle, start, name) && next in Imported(bundle, name)
    ensures Reaches(bundle, start, next)
  {
    var path :| IsPath(bundle, path) && path[0] == start && path[|path| - 1] == name;
    var longer := path + [next];
    assert IsPath(bundle, longer);
    assert longer[0] == start && longer[|longer| - 1] == next;
  }

  lemma {:induction false} ClosedContainsReachable(bundle: Bundle, closed: set<string>, path: seq<string>)
    requires IsPath(bundle, path) && path[0] in closed
    requires forall name <- closed, next <- Imported(bundle, name) :: next in closed
    ensures path[|path| - 1] in closed
    decreases |path|
  {
    if |path| > 1 {
      assert Edge(bundle, path[0], path[1]);
      ClosedContainsReachable(bundle, closed, path[1..]);
    }
  }

  /** Every name the walk can meet. */
  ghost function Names(bundle: Bundle, start: string): set<string> {
    {start} + set name, next | name in bundle && next in Imported(bundle, name) :: next
  }

  ghost predicate NoDuplicates(chunks: seq<Chunk>) {
    forall i, j :: 0 <= i < j < |chunks| ==> chunks[i].fileName != chunks[j].fileName
  }

  /** Exactly the present chunks among the named files, each once. */
  ghost predicate AreChunksOf(chunks: seq<Chunk>, names: iset<string>, bundle: Bundle) {
    && NoDuplicates(chunks)
    && (forall i :: 0 <= i < |chunks| ==>
          var name := chunks[i].fileName; name in names && name in bundle && bundle[name] == chunks[i])
    && (forall name <- names :: name in bundle ==> bundle[name] in chunks)
  }

  ghost function Reachable(bundle: Bundle, start: string): iset<string> {
    iset name | Reaches(bundle, start, name)
  }

  /** The names seen or still to be seen include every import of a name already seen. */
  ghost predicate Frontier(bundle: Bundle, entry: string, seen: set<string>, stack: seq<string>) {
    && (forall name <- stack :: Reaches(bundle, entry, name) && name in Names(bundle, entry))
    && (forall name <- seen :: Reaches(bundle, entry, name) && name in Names(bundle, entry))
    && (entry in seen || entry in stack)
    && (forall name <- seen, next <- Imported(bundle, name) :: next in seen || next in stack)
  }

  lemma ImportsReached(bundle: Bundle, entry: string, name: string)
    requires Reaches(bundle, entry, name)
    ensures forall next <- Imported(bundle, name) :: Reaches(bundle, entry, next) && next in Names(bundle, entry)
  {
    forall next <- Imported(bundle, name) ensures Reaches(bundle, entry, next) && next in Names(bundle, entry) {
      ReachesFurther(bundle, entry, name, next);
    }
  }

  lemma FrontierStep(bundle: Bundle, entry: string, seen: set<string>, stack: seq<string>, name: string)
    requires Frontier(bundle, entry, seen, stack + [name])
    ensures if name in seen then Frontier(bundle, entry, seen, stack)
            else Frontier(bundle, entry, seen + {name}, stack + Imported(bundle, name))
    ensures name in Names(bundle, entry) && seen <= Names(bundle, entry)
  {
    hide Reaches, Names, Imported;
    var before := stack + [name];
    assert name in before && forall n <- stack :: n in before;
    assert forall n <- before :: n in stack || n == name;
    ImportsReached(bundle, entry, name);
  }

  lemma ClosedContainsReached(bundle: Bundle, closed: set<string>, entry: string, name: string)
    requires Reaches(bundle, entry, name) && entry in closed
    requires forall name <- closed, next <- Imported(bundle, name) :: next in closed
    ensures name in closed
  {
    hide Imported;
    var path :| IsPath(bundle, path) && path[0] == entry && path[|path| - 1] == name;
    ClosedContainsReachable(bundle, closed, path);
  }

  lemma FrontierEnd(bundle: Bundle, entry: string, seen: set<string>)
    requires Frontier(bundle, entry, seen, [])
    ensures forall name :: name in seen <==> Reaches(bundle, entry, name)
  {
    hide Reaches, Names, Imported;
    forall name | Reaches(bundle, entry, name) ensures name in seen {
      ClosedContainsReached(bundle, seen, entry, name);
    }
  }

  method CollectReachableChunks(entry: string, bundle: Bundle) returns (reachable: seq<Chunk>)
    ensures AreChunksOf(reachable, Reachable(bundle, entry), bundle)
  {
    hide Reaches, Names;
    var seen: set<string> := {};
    var stack := [entry];
    reachable := [];
    ReachesStart(bundle, entry);
    assert entry in Names(bundle, entry) by { EntryIsNamed(bundle, entry); }
    while stack != []
      invariant Frontier(bundle, entry, seen, stack)
      invariant AreChunksOf(reachable, (iset name | name in seen), bundle)
      decreases Names(bundle, entry) - seen, |stack|
    {
      hide Frontier;
      var fileName := stack[|stack| - 1];
      assert stack == stack[..|stack| - 1] + [fileName];
      stack := stack[..|stack| - 1];
      FrontierStep(bundle, entry, seen, stack, fileName);
      if fileName in seen {
        continue;
      }
      seen := seen + {fileName};
      if fileName !in bundle {
        assert stack + Imported(bundle, fileName) == stack;
        continue;
      }
      var chunk := bundle[fileName];
      reachable := reachable + [chunk];
      stack := stack + (chunk.imports + chunk.dynamicImports);
    }
    FrontierEnd(bundle, entry, seen);
    assert (iset name | name in seen) == Reachable(bundle, entry);
  }

  lemma EntryIsNamed(bundle: Bundle, entry: string)
    ensures entry in Names(bundle, entry)
  {
  }

  /** The offending chunk that the guard names in its error, or nothing when the entry is clean. */
  method AssertNoElectronRequire(entry: string, bundle: Bundle, requiresElectron: string -> bool)
    returns (offender: Option<Chunk>)
    ensures offender.Some? <==>
              exists name :: name in bundle && Reaches(bundle, entry, name) && requiresElectron(bundle[name].code)
    ensures offender.Some? ==>
              && offender.value.fileName in bundle && bundle[offender.value.fileName] == offender.value
              && Reaches(bundle, entry, offender.value.fileName) && requiresElectron(offender.value.code)
  {
    hide Reaches;
    var chunks := CollectReachableChunks(entry, bundle);
    for i := 0 to |chunks|
      invariant forall k :: 0 <= k < i ==> !requiresElectron(chunks[k].code)
    {
      if requiresElectron(chunks[i].code) {
        assert chunks[i] in chunks;
        return Some(chunks[i]);
      }
    }
    forall name | name in bundle && Reaches(bundle, entry, name) ensures !requiresElectron(bundle[name].code) {
      assert bundle[name] in chunks;
    }
    offender := None;
  }
}

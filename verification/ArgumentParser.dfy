/** The argument parser, the printer that inverts it, and repeated flags. */
module ArgumentParser {
  import opened Options

  datatype Value = Text(text: string) | True

  /** A flag map in insertion order. */
  datatype Entry = Entry(name: string, value: Value)

  datatype Parsed = Parsed(path: seq<string>, flags: seq<Entry>)

  const SEPARATOR: char := '\0'
  const REPEATABLE := {"label", "skill"}
  const BOOLEAN_FLAGS := {
    "all", "attachments", "children", "comments", "connect", "current", "dry-run", "enter", "focus", "force",
    "full", "help", "inject", "include-archived", "include-visual-layouts", "interrupt", "json", "local",
    "messages", "me", "mobile", "mobile-pairing", "no-pairing", "screen", "parent-current", "provision", "ready",
    "recipe-json", "relations", "reinstall", "restore-window", "return-preamble", "run-hooks", "show-profile",
    "staged", "tab", "tasks", "text-stdin", "unread", "value-stdin", "wait"}

  predicate IsFlag(token: string) {
    "--" <= token
  }

  /** The position of the first `=`, or the length. */
  function EqualsIndex(s: string): (n: nat)
    ensures n <= |s| && (forall k :: 0 <= k < n ==> s[k] != '=') && (n < |s| ==> s[n] == '=')
  {
    if s == [] || s[0] == '=' then 0 else 1 + EqualsIndex(s[1..])
  }

  function Lookup(flags: seq<Entry>, name: string): Option<Value> {
    if flags == [] then None
    else if flags[0].name == name then Some(flags[0].value)
    else Lookup(flags[1..], name)
  }

  /** Replaces the value where the name stands, or appends a new entry. */
  function SetFlag(flags: seq<Entry>, name: string, value: Value): seq<Entry> {
    if flags == [] then [Entry(name, value)]
    else if flags[0].name == name then [Entry(name, value)] + flags[1..]
    else [flags[0]] + SetFlag(flags[1..], name, value)
  }

  function SetFlagValue(flags: seq<Entry>, name: string, value: string): seq<Entry> {
    var existing := Lookup(flags, name);
    if existing.Some? && existing.value.Text? && name in REPEATABLE
    then SetFlag(flags, name, Text(existing.value.text + [SEPARATOR] + value))
    else SetFlag(flags, name, Text(value))
  }

  function SkipFlags(argv: seq<string>, cursor: nat): (r: nat)
    ensures cursor <= r && (r < |argv| ==> !IsFlag(argv[r]))
    decreases |argv| - cursor
  {
    if cursor >= |argv| || !IsFlag(argv[cursor]) then cursor
    else
      var assignment := argv[cursor][2..];
      var n := EqualsIndex(assignment);
      SkipFlags(argv, cursor + if n < |assignment| || assignment[..n] in BOOLEAN_FLAGS then 1 else 2)
  }

  predicate PathStartsAt(argv: seq<string>, cursor: nat, path: seq<string>)
    decreases |path|
  {
    path == [] ||
    var c := SkipFlags(argv, cursor);
    c < |argv| && argv[c] == path[0] && PathStartsAt(argv, c + 1, path[1..])
  }

  predicate StartsCommandAt(argv: seq<string>, commandPaths: seq<seq<string>>, i: nat) {
    exists path <- commandPaths :: PathStartsAt(argv, i, path)
  }

  /** The parse of one token: what it adds, and where the next token stands. */
  function Step(argv: seq<string>, commandPaths: seq<seq<string>>, i: nat, parsed: Parsed): (r: (Parsed, nat))
    requires i < |argv|
    ensures i < r.1
  {
    var token := argv[i];
    if !IsFlag(token) then (parsed.(path := parsed.path + [token]), i + 1)
    else
      var flag := token[2..];
      var n := EqualsIndex(flag);
      if n < |flag| then
        (parsed.(flags := SetFlagValue(parsed.flags, flag[..n], flag[n + 1..])), i + 1)
      else if
        || flag in BOOLEAN_FLAGS
        || (parsed.path == [] && StartsCommandAt(argv, commandPaths, i + 1) && !StartsCommandAt(argv, commandPaths, i + 2))
        || i + 1 == |argv| || IsFlag(argv[i + 1])
      then (parsed.(flags := SetFlag(parsed.flags, flag, True)), i + 1)
      else (parsed.(flags := SetFlagValue(parsed.flags, flag, argv[i + 1])), i + 2)
  }

  /** The parse from token `i` on, given what stands before it. */
  function ParseFrom(argv: seq<string>, commandPaths: seq<seq<string>>, i: nat, parsed: Parsed): Parsed
    decreases |argv| - i
  {
    if i >= |argv| then parsed
    else
      var (parsed', next) := Step(argv, commandPaths, i, parsed);
      ParseFrom(argv, commandPaths, next, parsed')
  }

  lemma ParseUnfolded(argv: seq<string>, commandPaths: seq<seq<string>>, i: nat, parsed: Parsed)
    ensures ParseFrom(argv, commandPaths, i, parsed) ==
            if i >= |argv| then parsed
            else
              var r := Step(argv, commandPaths, i, parsed);
              ParseFrom(argv, commandPaths, r.1, r.0)
  {
  }

  function Parse(argv: seq<string>, commandPaths: seq<seq<string>>): Parsed {
    ParseFrom(argv, commandPaths, 0, Parsed([], []))
  }

  method CommandPathStartsAt(argv: seq<string>, tokenIndex: nat, path: seq<string>) returns (starts: bool)
    ensures starts == PathStartsAt(argv, tokenIndex, path)
  {
    var cursor: nat := tokenIndex;
    for k := 0 to |path|
      invariant PathStartsAt(argv, tokenIndex, path) == PathStartsAt(argv, cursor, path[k..])
    {
      ghost var start: nat := cursor;
      while cursor < |argv| && IsFlag(argv[cursor])
        invariant SkipFlags(argv, start) == SkipFlags(argv, cursor)
        decreases |argv| - cursor
      {
        var assignment := argv[cursor][2..];
        var n := EqualsIndex(assignment);
        cursor := cursor + if n < |assignment| || assignment[..n] in BOOLEAN_FLAGS then 1 else 2;
      }
      if cursor >= |argv| || argv[cursor] != path[k] {
        return false;
      }
      assert path[k..][1..] == path[k + 1..];
      cursor := cursor + 1;
    }
    starts := true;
  }

  method ParseArgs(argv: seq<string>, commandPaths: seq<seq<string>>) returns (parsed: Parsed)
    ensures parsed == Parse(argv, commandPaths)
  {
    hide SetFlag, SetFlagValue, StartsCommandAt, ParseFrom, EqualsIndex, IsFlag;
    var commandPath: seq<string> := [];
    var flags: seq<Entry> := [];
    var i: nat := 0;
    while i < |argv|
      invariant Parse(argv, commandPaths) == ParseFrom(argv, commandPaths, i, Parsed(commandPath, flags))
      decreases |argv| - i
    {
      ParseUnfolded(argv, commandPaths, i, Parsed(commandPath, flags));
      var token := argv[i];
      i := i + 1;
      if !IsFlag(token) {
        commandPath := commandPath + [token];
        continue;
      }
      FlagTokenLength(token);
      var flag := token[2..];
      var equalsIndex := EqualsIndex(flag);
      if equalsIndex < |flag| {
        flags := SetFlagValue(flags, flag[..equalsIndex], flag[equalsIndex + 1..]);
        continue;
      }
      if flag in BOOLEAN_FLAGS {
        flags := SetFlag(flags, flag, True);
        continue;
      }
      if commandPath == [] && StartsCommandAt(argv, commandPaths, i) && !StartsCommandAt(argv, commandPaths, i + 1) {
        flags := SetFlag(flags, flag, True);
        continue;
      }
      if i == |argv| || IsFlag(argv[i]) {
        flags := SetFlag(flags, flag, True);
        continue;
      }
      flags := SetFlagValue(flags, flag, argv[i]);
      i := i + 1;
    }
    ParseUnfolded(argv, commandPaths, i, Parsed(commandPath, flags));
    parsed := Parsed(commandPath, flags);
  }

  lemma FlagTokenLength(token: string)
    requires IsFlag(token)
    ensures |token| >= 2
  {
  }

  // The printer.

  function PrintFlag(e: Entry): string {
    match e.value
    case Text(text) => "--" + e.name + "=" + text
    case True => "--" + e.name
  }

  function PrintFlags(flags: seq<Entry>): (r: seq<string>)
    ensures |r| == |flags|
  {
    seq(|flags|, i requires 0 <= i < |flags| => PrintFlag(flags[i]))
  }

  function Print(p: Parsed): seq<string> {
    p.path + PrintFlags(p.flags)
  }

  predicate Named(flags: seq<Entry>) {
    && (forall i :: 0 <= i < |flags| ==> '=' !in flags[i].name)
    && (forall i, j :: 0 <= i < j < |flags| ==> flags[i].name != flags[j].name)
  }

  predicate WellFormed(p: Parsed) {
    (forall i :: 0 <= i < |p.path| ==> !IsFlag(p.path[i])) && Named(p.flags)
  }

  lemma {:induction false} LookupNone(flags: seq<Entry>, name: string)
    ensures Lookup(flags, name).None? <==> forall i :: 0 <= i < |flags| ==> flags[i].name != name
    decreases |flags|
  {
    if flags != [] {
      LookupNone(flags[1..], name);
      assert forall i :: 0 < i < |flags| ==> flags[i] == flags[1..][i - 1];
    }
  }

  lemma {:induction false} SetNew(flags: seq<Entry>, name: string, value: Value)
    requires forall i :: 0 <= i < |flags| ==> flags[i].name != name
    ensures SetFlag(flags, name, value) == flags + [Entry(name, value)]
    decreases |flags|
  {
    if flags != [] { SetNew(flags[1..], name, value); }
  }

  lemma FirstEquals(name: string, text: string)
    requires '=' !in name
    ensures EqualsIndex(name + "=" + text) == |name| && EqualsIndex(name) == |name|
  {
    var s := name + "=" + text;
    assert s[|name|] == '=';
    assert forall k :: 0 <= k < |name| ==> s[k] == name[k] && name[k] in name;
  }

  lemma {:induction false} ParsePath(p: Parsed, commandPaths: seq<seq<string>>, i: nat)
    requires WellFormed(p) && i <= |p.path|
    ensures ParseFrom(Print(p), commandPaths, i, Parsed(p.path[..i], []))
         == ParseFrom(Print(p), commandPaths, |p.path|, Parsed(p.path, []))
    decreases |p.path| - i
  {
    hide ParseFrom, SetFlag, SetFlagValue, StartsCommandAt, EqualsIndex;
    if i < |p.path| {
      ParseUnfolded(Print(p), commandPaths, i, Parsed(p.path[..i], []));
      assert p.path[..i + 1] == p.path[..i] + [p.path[i]];
      ParsePath(p, commandPaths, i + 1);
    } else {
      assert p.path[..i] == p.path;
    }
  }

  /** The two readings of a printed flag. */
  lemma StepText(argv: seq<string>, commandPaths: seq<seq<string>>, i: nat, parsed: Parsed, name: string, text: string)
    requires i < |argv| && argv[i] == "--" + name + "=" + text && '=' !in name
    ensures Step(argv, commandPaths, i, parsed) == (parsed.(flags := SetFlagValue(parsed.flags, name, text)), i + 1)
  {
    hide SetFlagValue, SetFlag, StartsCommandAt, EqualsIndex;
    FirstEquals(name, text);
    assert argv[i][2..] == name + "=" + text;
    assert (name + "=" + text)[..|name|] == name && (name + "=" + text)[|name| + 1..] == text;
  }

  lemma StepTrue(argv: seq<string>, commandPaths: seq<seq<string>>, i: nat, parsed: Parsed, name: string)
    requires i < |argv| && argv[i] == "--" + name && '=' !in name
    requires i + 1 == |argv| || IsFlag(argv[i + 1])
    ensures Step(argv, commandPaths, i, parsed) == (parsed.(flags := SetFlag(parsed.flags, name, True)), i + 1)
  {
    hide SetFlagValue, SetFlag, StartsCommandAt, EqualsIndex;
    FirstEquals(name, "");
    assert argv[i][2..] == name;
  }

  /** Setting a flag that is not there yet. */
  lemma SetUnseen(flags: seq<Entry>, j: nat)
    requires Named(flags) && j < |flags|
    ensures flags[..j] + [flags[j]] == flags[..j + 1]
    ensures SetFlag(flags[..j], flags[j].name, flags[j].value) == flags[..j + 1]
    ensures flags[j].value.Text? ==> SetFlagValue(flags[..j], flags[j].name, flags[j].value.text) == flags[..j + 1]
  {
    LookupNone(flags[..j], flags[j].name);
    SetNew(flags[..j], flags[j].name, flags[j].value);
  }

  /** Reading one printed flag back. */
  lemma ParsePrintedFlag(p: Parsed, commandPaths: seq<seq<string>>, j: nat)
    requires WellFormed(p) && j < |p.flags|
    ensures ParseFrom(Print(p), commandPaths, |p.path| + j, Parsed(p.path, p.flags[..j]))
         == ParseFrom(Print(p), commandPaths, |p.path| + j + 1, Parsed(p.path, p.flags[..j + 1]))
  {
    hide ParseFrom, Step, SetFlag, SetFlagValue;
    var argv, e, i := Print(p), p.flags[j], |p.path| + j;
    var before := Parsed(p.path, p.flags[..j]);
    assert argv[i] == PrintFlag(e);
    assert j + 1 < |p.flags| ==> argv[i + 1] == PrintFlag(p.flags[j + 1]);
    SetUnseen(p.flags, j);
    ParseUnfolded(argv, commandPaths, i, before);
    match e.value
    case Text(text) => StepText(argv, commandPaths, i, before, e.name, text);
    case True => StepTrue(argv, commandPaths, i, before, e.name);
  }

  lemma {:induction false} ParseFlags(p: Parsed, commandPaths: seq<seq<string>>, j: nat)
    requires WellFormed(p) && j <= |p.flags|
    ensures ParseFrom(Print(p), commandPaths, |p.path| + j, Parsed(p.path, p.flags[..j])) == p
    decreases |p.flags| - j
  {
    hide Step, PrintFlags;
    if j < |p.flags| {
      ParsePrintedFlag(p, commandPaths, j);
      ParseFlags(p, commandPaths, j + 1);
    } else {
      assert p.flags[..j] == p.flags;
    }
  }

  /** Printing a result and parsing it gives the result back, whatever commands are registered. */
  lemma PrintedParsesBack(p: Parsed, commandPaths: seq<seq<string>>)
    requires WellFormed(p)
    ensures Parse(Print(p), commandPaths) == p
  {
    ParsePath(p, commandPaths, 0);
    ParseFlags(p, commandPaths, 0);
  }

  lemma {:induction false} SetKeepsNamed(flags: seq<Entry>, name: string, value: Value)
    requires Named(flags) && '=' !in name
    ensures Named(SetFlag(flags, name, value))
    ensures forall i :: 0 <= i < |SetFlag(flags, name, value)| ==>
      SetFlag(flags, name, value)[i].name == name || exists k :: 0 <= k < |flags| && flags[k].name == SetFlag(flags, name, value)[i].name
    decreases |flags|
  {
    if flags != [] && flags[0].name != name {
      SetKeepsNamed(flags[1..], name, value);
      var rest := SetFlag(flags[1..], name, value);
      assert forall k :: 0 <= k < |flags[1..]| ==> flags[1..][k] == flags[k + 1];
      forall i | 0 <= i < |rest|
        ensures rest[i].name != flags[0].name
        ensures rest[i].name == name || exists k :: 0 <= k < |flags| && flags[k].name == rest[i].name
      {
        if rest[i].name != name {
          var k :| 0 <= k < |flags[1..]| && flags[1..][k].name == rest[i].name;
          assert flags[k + 1].name == rest[i].name;
        }
      }
    }
  }

  lemma StepKeepsWellFormed(argv: seq<string>, commandPaths: seq<seq<string>>, i: nat, parsed: Parsed)
    requires WellFormed(parsed) && i < |argv|
    ensures WellFormed(Step(argv, commandPaths, i, parsed).0)
  {
    hide SetFlag, StartsCommandAt, EqualsIndex;
    if IsFlag(argv[i]) {
      var flag := argv[i][2..];
      var n := EqualsIndex(flag);
      assert n == |flag| ==> flag[..n] == flag;
      assert '=' !in flag[..n];
      hide Named;
      forall value ensures Named(SetFlag(parsed.flags, flag[..n], value)) {
        SetKeepsNamed(parsed.flags, flag[..n], value);
      }
    }
  }

  lemma {:induction false} ParseKeepsWellFormed(argv: seq<string>, commandPaths: seq<seq<string>>, i: nat, parsed: Parsed)
    requires WellFormed(parsed)
    ensures WellFormed(ParseFrom(argv, commandPaths, i, parsed))
    decreases |argv| - i
  {
    hide Step, WellFormed;
    if i < |argv| {
      StepKeepsWellFormed(argv, commandPaths, i, parsed);
      var r := Step(argv, commandPaths, i, parsed);
      ParseKeepsWellFormed(argv, commandPaths, r.1, r.0);
    }
  }

  /** Every result of the parser is of the printable form, so printing and parsing it again changes nothing. */
  lemma ParseIsStable(argv: seq<string>, commandPaths: seq<seq<string>>)
    ensures WellFormed(Parse(argv, commandPaths))
    ensures Parse(Print(Parse(argv, commandPaths)), commandPaths) == Parse(argv, commandPaths)
  {
    ParseKeepsWellFormed(argv, commandPaths, 0, Parsed([], []));
    PrintedParsesBack(Parse(argv, commandPaths), commandPaths);
  }

  // The two forms of a flag, and flags in front of a command.

  /** Once there is a command path, reading a token does not depend on what stands before it. */
  lemma StepAlike(front: seq<string>, rest: seq<string>, commandPaths: seq<seq<string>>, j: nat, parsed: Parsed)
    requires j < |rest| && parsed.path != []
    ensures var (parsed', next) := Step(rest, commandPaths, j, parsed);
      Step(front + rest, commandPaths, |front| + j, parsed) == (parsed', |front| + next) && parsed'.path != []
  {
    hide SetFlag, SetFlagValue, StartsCommandAt, EqualsIndex;
    assert (front + rest)[|front| + j] == rest[j];
    assert j + 1 < |rest| ==> (front + rest)[|front| + j + 1] == rest[j + 1];
  }

  lemma {:induction false} ParseAlike(
    front: seq<string>, rest: seq<string>, commandPaths: seq<seq<string>>, j: nat, parsed: Parsed)
    requires parsed.path != []
    ensures ParseFrom(front + rest, commandPaths, |front| + j, parsed) == ParseFrom(rest, commandPaths, j, parsed)
    decreases |rest| - j
  {
    hide Step;
    if j < |rest| {
      StepAlike(front, rest, commandPaths, j, parsed);
      var r := Step(rest, commandPaths, j, parsed);
      ParseAlike(front, rest, commandPaths, r.1, r.0);
    }
  }

  lemma StepSpaced(argv: seq<string>, commandPaths: seq<seq<string>>, i: nat, parsed: Parsed, name: string)
    requires i + 1 < |argv| && argv[i] == "--" + name && '=' !in name && name !in BOOLEAN_FLAGS
    requires parsed.path != [] && !IsFlag(argv[i + 1])
    ensures Step(argv, commandPaths, i, parsed)
         == (parsed.(flags := SetFlagValue(parsed.flags, name, argv[i + 1])), i + 2)
  {
    hide SetFlagValue, SetFlag, StartsCommandAt, EqualsIndex;
    FirstEquals(name, "");
    assert argv[i][2..] == name;
  }

  /** Behind a command, `--name text` means what `--name=text` means, unless the text looks like a flag. */
  lemma SpacedReadsAsJoined(
    front: seq<string>, name: string, text: string, rest: seq<string>, commandPaths: seq<seq<string>>, parsed: Parsed)
    requires parsed.path != [] && '=' !in name && name !in BOOLEAN_FLAGS && !IsFlag(text)
    ensures ParseFrom(front + (["--" + name, text] + rest), commandPaths, |front|, parsed)
         == ParseFrom(front + (["--" + name + "=" + text] + rest), commandPaths, |front|, parsed)
  {
    hide Step, ParseFrom;
    var spaced, joined := ["--" + name, text] + rest, ["--" + name + "=" + text] + rest;
    ParseAlike(front, spaced, commandPaths, 0, parsed);
    ParseAlike(front, joined, commandPaths, 0, parsed);
    StepSpaced(spaced, commandPaths, 0, parsed, name);
    StepText(joined, commandPaths, 0, parsed, name, text);
    ParseUnfolded(spaced, commandPaths, 0, parsed);
    ParseUnfolded(joined, commandPaths, 0, parsed);
    var set' := parsed.(flags := SetFlagValue(parsed.flags, name, text));
    ParseAlike(["--" + name, text], rest, commandPaths, 0, set');
    ParseAlike(["--" + name + "=" + text], rest, commandPaths, 0, set');
  }

  // A spaced flag in front of the command.

  lemma {:induction false} SkipAlike(front: seq<string>, rest: seq<string>, cursor: nat)
    ensures SkipFlags(front + rest, |front| + cursor) == |front| + SkipFlags(rest, cursor)
    decreases |rest| - cursor
  {
    hide EqualsIndex, BOOLEAN_FLAGS;
    if cursor < |rest| {
      assert (front + rest)[|front| + cursor] == rest[cursor];
      if IsFlag(rest[cursor]) {
        SkipAlike(front, rest, cursor + 1);
        SkipAlike(front, rest, cursor + 2);
      }
    }
  }

  lemma {:induction false} PathStartsAlike(front: seq<string>, rest: seq<string>, cursor: nat, path: seq<string>)
    ensures PathStartsAt(front + rest, |front| + cursor, path) == PathStartsAt(rest, cursor, path)
    decreases |path|
  {
    hide SkipFlags;
    if path != [] {
      SkipAlike(front, rest, cursor);
      var c := SkipFlags(rest, cursor);
      if c < |rest| {
        assert (front + rest)[|front| + c] == rest[c];
        PathStartsAlike(front, rest, c + 1, path[1..]);
      }
    }
  }

  lemma StartsAlike(front: seq<string>, rest: seq<string>, commandPaths: seq<seq<string>>, cursor: nat)
    ensures StartsCommandAt(front + rest, commandPaths, |front| + cursor) == StartsCommandAt(rest, commandPaths, cursor)
  {
    hide PathStartsAt;
    forall path <- commandPaths
      ensures PathStartsAt(front + rest, |front| + cursor, path) == PathStartsAt(rest, cursor, path)
    {
      PathStartsAlike(front, rest, cursor, path);
    }
  }

  lemma StepAlikeAnywhere(front: seq<string>, rest: seq<string>, commandPaths: seq<seq<string>>, j: nat, parsed: Parsed)
    requires j < |rest|
    ensures var (parsed', next) := Step(rest, commandPaths, j, parsed);
      Step(front + rest, commandPaths, |front| + j, parsed) == (parsed', |front| + next)
  {
    hide SetFlag, SetFlagValue, StartsCommandAt, EqualsIndex;
    StartsAlike(front, rest, commandPaths, j + 1);
    StartsAlike(front, rest, commandPaths, j + 2);
    assert (front + rest)[|front| + j] == rest[j];
    assert j + 1 < |rest| ==> (front + rest)[|front| + j + 1] == rest[j + 1];
  }

  /** What stands before a token never matters but for what was parsed from it. */
  lemma {:induction false} ParseAlikeAnywhere(
    front: seq<string>, rest: seq<string>, commandPaths: seq<seq<string>>, j: nat, parsed: Parsed)
    ensures ParseFrom(front + rest, commandPaths, |front| + j, parsed) == ParseFrom(rest, commandPaths, j, parsed)
    decreases |rest| - j
  {
    hide Step;
    if j < |rest| {
      StepAlikeAnywhere(front, rest, commandPaths, j, parsed);
      var r := Step(rest, commandPaths, j, parsed);
      ParseAlikeAnywhere(front, rest, commandPaths, r.1, r.0);
    }
  }

  /** A registered command starts at the text of the flag, and none behind it. */
  predicate TextStartsCommand(text: string, rest: seq<string>, commandPaths: seq<seq<string>>) {
    StartsCommandAt([text] + rest, commandPaths, 0) && !StartsCommandAt(rest, commandPaths, 0)
  }

  lemma StepBeforeCommand(name: string, text: string, rest: seq<string>, commandPaths: seq<seq<string>>, flags: seq<Entry>)
    requires '=' !in name && name !in BOOLEAN_FLAGS && !IsFlag(text)
    ensures Step(["--" + name, text] + rest, commandPaths, 0, Parsed([], flags))
         == if TextStartsCommand(text, rest, commandPaths) then (Parsed([], SetFlag(flags, name, True)), 1)
            else (Parsed([], SetFlagValue(flags, name, text)), 2)
  {
    hide SetFlagValue, SetFlag, StartsCommandAt, EqualsIndex, BOOLEAN_FLAGS;
    var argv := ["--" + name, text] + rest;
    FirstEquals(name, "");
    assert argv[0] == "--" + name && argv[0][2..] == name && argv[1] == text;
    assert argv == ["--" + name] + ([text] + rest) && argv == ["--" + name, text] + rest;
    StartsAlike(["--" + name], [text] + rest, commandPaths, 0);
    StartsAlike(["--" + name, text], rest, commandPaths, 0);
  }

  /** In front of the command, `--name text` sets the text, unless a command starts at the text and none behind it. */
  lemma SpacedBeforeCommand(name: string, text: string, rest: seq<string>, commandPaths: seq<seq<string>>, flags: seq<Entry>)
    requires '=' !in name && name !in BOOLEAN_FLAGS && !IsFlag(text)
    ensures ParseFrom(["--" + name, text] + rest, commandPaths, 0, Parsed([], flags))
         == if TextStartsCommand(text, rest, commandPaths)
            then ParseFrom([text] + rest, commandPaths, 0, Parsed([], SetFlag(flags, name, True)))
            else ParseFrom(["--" + name + "=" + text] + rest, commandPaths, 0, Parsed([], flags))
  {
    hide Step, ParseFrom, SetFlag, SetFlagValue, TextStartsCommand, BOOLEAN_FLAGS;
    var spaced, joined := ["--" + name, text] + rest, ["--" + name + "=" + text] + rest;
    ParseUnfolded(spaced, commandPaths, 0, Parsed([], flags));
    ParseUnfolded(joined, commandPaths, 0, Parsed([], flags));
    StepBeforeCommand(name, text, rest, commandPaths, flags);
    StepText(joined, commandPaths, 0, Parsed([], flags), name, text);
    var set' := Parsed([], SetFlagValue(flags, name, text));
    ParseAlikeAnywhere(["--" + name, text], rest, commandPaths, 0, set');
    ParseAlikeAnywhere(["--" + name + "=" + text], rest, commandPaths, 0, set');
    assert spaced == ["--" + name] + ([text] + rest);
    ParseAlikeAnywhere(["--" + name], [text] + rest, commandPaths, 0, Parsed([], SetFlag(flags, name, True)));
  }

  /** No token gives the flag again. */
  predicate Mentions(token: string, name: string) {
    token == "--" + name || "--" + name + "=" <= token
  }

  lemma StepKeepsOther(argv: seq<string>, commandPaths: seq<seq<string>>, i: nat, parsed: Parsed, name: string)
    requires i < |argv| && '=' !in name && !Mentions(argv[i], name)
    ensures Lookup(Step(argv, commandPaths, i, parsed).0.flags, name) == Lookup(parsed.flags, name)
  {
    hide SetFlag, StartsCommandAt, BOOLEAN_FLAGS, Lookup, EqualsIndex;
    if IsFlag(argv[i]) {
      var flag := argv[i][2..];
      assert argv[i] == "--" + flag;
      var n := EqualsIndex(flag);
      assert flag[..n] != name by {
        if n < |flag| { assert argv[i] == "--" + flag[..n] + "=" + flag[n + 1..]; } else { assert flag[..n] == flag; }
      }
      forall v { LookupSet(parsed.flags, flag[..n], v, name); }
      assert n == |flag| ==> flag[..n] == flag;
    }
  }

  lemma {:induction false} ParseKeepsOther(argv: seq<string>, commandPaths: seq<seq<string>>, i: nat, parsed: Parsed, name: string)
    requires '=' !in name && forall k :: i <= k < |argv| ==> !Mentions(argv[k], name)
    ensures Lookup(ParseFrom(argv, commandPaths, i, parsed).flags, name) == Lookup(parsed.flags, name)
    decreases |argv| - i
  {
    hide Step, Mentions, Lookup;
    if i < |argv| {
      StepKeepsOther(argv, commandPaths, i, parsed, name);
      var r := Step(argv, commandPaths, i, parsed);
      ParseKeepsOther(argv, commandPaths, r.1, r.0, name);
    }
  }

  /**
   So the spaced form in front of the command means the joined one exactly when not (a registered command
   starts at the text and none behind it), unless the flag is given again and what it said here is lost.
   */
  lemma SpacedBeforeCommandIff(name: string, text: string, rest: seq<string>, commandPaths: seq<seq<string>>)
    requires '=' !in name && name !in BOOLEAN_FLAGS && !IsFlag(text)
    requires forall token <- rest :: !Mentions(token, name)
    ensures Parse(["--" + name, text] + rest, commandPaths) == Parse(["--" + name + "=" + text] + rest, commandPaths)
       <==> !(StartsCommandAt([text] + rest, commandPaths, 0) && !StartsCommandAt(rest, commandPaths, 0))
  {
    hide Step, ParseFrom, StartsCommandAt, Mentions, BOOLEAN_FLAGS;
    SpacedBeforeCommand(name, text, rest, commandPaths, []);
    if TextStartsCommand(text, rest, commandPaths) {
      NoFlagMentions(text, name);
      forall k | 0 <= k < |[text] + rest| ensures !Mentions(([text] + rest)[k], name) {
        if k > 0 { assert ([text] + rest)[k] == rest[k - 1]; }
      }
      ParseKeepsOther([text] + rest, commandPaths, 0, Parsed([], SetFlag([], name, True)), name);
      var joined := ["--" + name + "=" + text] + rest;
      ParseUnfolded(joined, commandPaths, 0, Parsed([], []));
      StepText(joined, commandPaths, 0, Parsed([], []), name, text);
      ParseKeepsOther(joined, commandPaths, 1, Parsed([], SetFlagValue([], name, text)), name);
    }
  }

  lemma NoFlagMentions(text: string, name: string)
    requires !IsFlag(text)
    ensures !Mentions(text, name)
  {
  }

  /** In particular a flag in front of a registered command takes its value, whatever the value looks like. */
  lemma SpacedBeforeRegisteredCommand(name: string, text: string, path: seq<string>, rest: seq<string>, commandPaths: seq<seq<string>>)
    requires '=' !in name && name !in BOOLEAN_FLAGS && !IsFlag(text)
    requires path in commandPaths && forall k :: 0 <= k < |path| ==> !IsFlag(path[k])
    ensures Parse(["--" + name, text] + (path + rest), commandPaths)
         == Parse(["--" + name + "=" + text] + (path + rest), commandPaths)
  {
    hide Step, ParseFrom, PathStartsAt, BOOLEAN_FLAGS;
    PlainPathStarts([], path, rest);
    assert [] + path + rest == path + rest;
    SpacedBeforeCommand(name, text, path + rest, commandPaths, []);
  }

  const EXAMPLE_PATHS: seq<seq<string>> := [["a"]]
  const EXAMPLE_REST: seq<string> := ["--x", "a", "--n=z", "--x=w"]

  lemma ExampleSkips()
    ensures SkipFlags(EXAMPLE_REST, 0) >= |EXAMPLE_REST|
  {
    var tail := ["--n=z", "--x=w"];
    NoneStarts(tail);
    assert EXAMPLE_REST == ["--x", "a"] + tail;
    FirstEquals("x", "");
    assert EXAMPLE_REST[0][2..] == "x";
    SkipAlike(["--x", "a"], tail, 0);
  }

  lemma ExampleStarts()
    ensures StartsCommandAt(["a"] + EXAMPLE_REST, EXAMPLE_PATHS, 0) && !StartsCommandAt(EXAMPLE_REST, EXAMPLE_PATHS, 0)
    ensures StartsCommandAt(["a", "--n=z", "--x=w"], EXAMPLE_PATHS, 0)
    ensures !StartsCommandAt(["--n=z", "--x=w"], EXAMPLE_PATHS, 0)
  {
    NoneStarts(["--n=z", "--x=w"]);
    AStarts(EXAMPLE_REST);
    AStarts(["--n=z", "--x=w"]);
    assert ["a"] + ["--n=z", "--x=w"] == ["a", "--n=z", "--x=w"];
    ExampleSkips();
    hide SkipFlags;
  }

  lemma AStarts(rest: seq<string>)
    ensures StartsCommandAt(["a"] + rest, EXAMPLE_PATHS, 0)
  {
    assert EXAMPLE_PATHS[0] == ["a"] && ["a"] in EXAMPLE_PATHS;
    assert ["a"][1..] == [];
    assert PathStartsAt(["a"] + rest, 0, ["a"]);
  }

  /** Lists of joined flags hold no command. */
  lemma {:induction false} NoneStarts(tokens: seq<string>)
    requires forall k :: 0 <= k < |tokens| ==> tokens[k] == "--n=z" || tokens[k] == "--x=w"
    ensures SkipFlags(tokens, 0) >= |tokens|
    ensures !StartsCommandAt(tokens, EXAMPLE_PATHS, 0)
    decreases |tokens|
  {
    if tokens != [] {
      NoneStarts(tokens[1..]);
      FirstEquals("n", "z");
      FirstEquals("x", "w");
      assert "n" + "=" + "z" == "n=z" && "x" + "=" + "w" == "x=w";
      assert "--n=z"[2..] == "n=z" && "--x=w"[2..] == "x=w";
      assert tokens == [tokens[0]] + tokens[1..];
      SkipAlike([tokens[0]], tokens[1..], 0);
    }
  }

  lemma ExampleSpaced(flags: seq<Entry>)
    ensures ParseFrom(["a"] + EXAMPLE_REST, EXAMPLE_PATHS, 0, Parsed([], flags))
         == Parsed(["a"], SetFlagValue(SetFlagValue(SetFlagValue(flags, "x", "a"), "n", "z"), "x", "w"))
  {
    hide Step, ParseFrom, SetFlagValue, StartsCommandAt;
    var argv := ["a", "--x", "a", "--n=z", "--x=w"];
    assert ["a"] + EXAMPLE_REST == argv;
    var p1 := Parsed(["a"], flags);
    var p2 := Parsed(["a"], SetFlagValue(flags, "x", "a"));
    var p3 := Parsed(["a"], SetFlagValue(p2.flags, "n", "z"));
    var p4 := Parsed(["a"], SetFlagValue(p3.flags, "x", "w"));
    ParseUnfolded(argv, EXAMPLE_PATHS, 0, Parsed([], flags));
    StepWord(argv, EXAMPLE_PATHS, 0, Parsed([], flags));
    assert [] + ["a"] == ["a"];
    ParseUnfolded(argv, EXAMPLE_PATHS, 1, p1);
    assert "--" + "x" == "--x" && "--" + "n" + "=" + "z" == "--n=z" && "--" + "x" + "=" + "w" == "--x=w";
    NoBoolean();
    StepSpaced(argv, EXAMPLE_PATHS, 1, p1, "x");
    ParseUnfolded(argv, EXAMPLE_PATHS, 3, p2);
    StepText(argv, EXAMPLE_PATHS, 3, p2, "n", "z");
    ParseUnfolded(argv, EXAMPLE_PATHS, 4, p3);
    StepText(argv, EXAMPLE_PATHS, 4, p3, "x", "w");
    ParseUnfolded(argv, EXAMPLE_PATHS, 5, p4);
  }

  lemma NoBoolean()
    ensures "x" !in BOOLEAN_FLAGS && "n" !in BOOLEAN_FLAGS
  {
  }

  lemma ExampleJoined()
    ensures Parse(["--n=a"] + EXAMPLE_REST, EXAMPLE_PATHS)
         == Parsed(["a"], SetFlagValue(SetFlagValue(SetFlag(SetFlagValue([], "n", "a"), "x", True), "n", "z"), "x", "w"))
  {
    hide Step, ParseFrom, SetFlagValue, SetFlag, StartsCommandAt;
    var argv := ["--n=a", "--x", "a", "--n=z", "--x=w"];
    assert ["--n=a"] + EXAMPLE_REST == argv;
    var tail := ["a", "--n=z", "--x=w"];
    var p1 := Parsed([], SetFlagValue([], "n", "a"));
    var p2 := Parsed([], SetFlag(p1.flags, "x", True));
    var p3 := Parsed(["a"], p2.flags);
    var p4 := Parsed(["a"], SetFlagValue(p3.flags, "n", "z"));
    var p5 := Parsed(["a"], SetFlagValue(p4.flags, "x", "w"));
    assert "--" + "n" + "=" + "a" == "--n=a" && "--" + "x" == "--x";
    assert "--" + "n" + "=" + "z" == "--n=z" && "--" + "x" + "=" + "w" == "--x=w";
    ParseUnfolded(argv, EXAMPLE_PATHS, 0, Parsed([], []));
    StepText(argv, EXAMPLE_PATHS, 0, Parsed([], []), "n", "a");
    ParseAlikeAnywhere(["--n=a"], EXAMPLE_REST, EXAMPLE_PATHS, 0, p1);
    NoBoolean();
    ExampleStarts();
    assert EXAMPLE_REST == ["--x", "a"] + ["--n=z", "--x=w"] && ["a"] + ["--n=z", "--x=w"] == tail;
    SpacedBeforeCommand("x", "a", ["--n=z", "--x=w"], EXAMPLE_PATHS, p1.flags);
    ParseUnfolded(tail, EXAMPLE_PATHS, 0, p2);
    StepWord(tail, EXAMPLE_PATHS, 0, p2);
    assert [] + ["a"] == ["a"];
    ParseUnfolded(tail, EXAMPLE_PATHS, 1, p3);
    StepText(tail, EXAMPLE_PATHS, 1, p3, "n", "z");
    ParseUnfolded(tail, EXAMPLE_PATHS, 2, p4);
    StepText(tail, EXAMPLE_PATHS, 2, p4, "x", "w");
    ParseUnfolded(tail, EXAMPLE_PATHS, 3, p5);
  }

  /** Given again, the flags hide the difference: here both forms agree although a command starts at the text only. */
  lemma GivenAgainHidesIt()
    ensures StartsCommandAt(["a"] + EXAMPLE_REST, EXAMPLE_PATHS, 0) && !StartsCommandAt(EXAMPLE_REST, EXAMPLE_PATHS, 0)
    ensures Parse(["--n", "a"] + EXAMPLE_REST, EXAMPLE_PATHS) == Parse(["--n=a"] + EXAMPLE_REST, EXAMPLE_PATHS)
  {
    ExampleStarts();
    ExampleSpaced(SetFlag([], "n", True));
    ExampleJoined();
    NoBoolean();
    FlagsAgree();
    hide Step, ParseFrom, SetFlagValue, StartsCommandAt;
    assert "--" + "n" == "--n" && "--" + "n" + "=" + "a" == "--n=a";
    SpacedBeforeCommand("n", "a", EXAMPLE_REST, EXAMPLE_PATHS, []);
  }

  lemma FlagsAgree()
    ensures SetFlagValue(SetFlagValue(SetFlagValue(SetFlag([], "n", True), "x", "a"), "n", "z"), "x", "w")
         == SetFlagValue(SetFlagValue(SetFlag(SetFlagValue([], "n", "a"), "x", True), "n", "z"), "x", "w")
  {
    assert SetFlagValue(SetFlag([], "n", True), "x", "a") == [Entry("n", True), Entry("x", Text("a"))];
    assert SetFlag(SetFlagValue([], "n", "a"), "x", True) == [Entry("n", Text("a")), Entry("x", True)];
    assert SetFlagValue([Entry("n", True), Entry("x", Text("a"))], "n", "z") == [Entry("n", Text("z")), Entry("x", Text("a"))];
    assert SetFlagValue([Entry("n", Text("a")), Entry("x", True)], "n", "z") == [Entry("n", Text("z")), Entry("x", True)];
  }

  lemma {:induction false} PlainPathStarts(front: seq<string>, path: seq<string>, rest: seq<string>)
    requires forall k :: 0 <= k < |path| ==> !IsFlag(path[k])
    ensures PathStartsAt(front + path + rest, |front|, path)
    decreases |path|
  {
    if path != [] {
      var argv := front + path + rest;
      assert argv[|front|] == path[0] && !IsFlag(path[0]);
      PlainPathStarts(front + [path[0]], path[1..], rest);
      assert front + [path[0]] + path[1..] + rest == argv;
    }
  }

  /** A flag between the words of a command: with its value joined or as the next token, or boolean. */
  datatype Between = WithText(name: string, text: string) | WithNext(name: string, next: string) | Bare(name: string)

  predicate IsBetween(flag: Between) {
    '=' !in flag.name && (flag.WithNext? ==> flag.name !in BOOLEAN_FLAGS) && (flag.Bare? ==> flag.name in BOOLEAN_FLAGS)
  }

  function OwnTokens(flag: Between): seq<string> {
    match flag
    case WithText(name, text) => ["--" + name + "=" + text]
    case WithNext(name, next) => ["--" + name, next]
    case Bare(name) => ["--" + name]
  }

  function BetweenTokens(flags: seq<Between>): seq<string> {
    if flags == [] then [] else OwnTokens(flags[0]) + BetweenTokens(flags[1..])
  }

  lemma SkipsOne(flag: Between, rest: seq<string>)
    requires IsBetween(flag)
    ensures var own := OwnTokens(flag); SkipFlags(own + rest, 0) == |own| + SkipFlags(rest, 0)
  {
    hide EqualsIndex, BOOLEAN_FLAGS;
    var own := OwnTokens(flag);
    var argv := own + rest;
    FirstEquals(flag.name, if flag.WithText? then flag.text else "");
    assert argv[0] == own[0];
    assert argv[0][2..] == if flag.WithText? then flag.name + "=" + flag.text else flag.name;
    assert (flag.name + "=")[..|flag.name|] == flag.name;
    assert flag.name[..|flag.name|] == flag.name;
    SkipAlike(own, rest, 0);
  }

  lemma {:induction false} FlagsAreSkipped(flags: seq<Between>, rest: seq<string>)
    requires forall k :: 0 <= k < |flags| ==> IsBetween(flags[k])
    ensures SkipFlags(BetweenTokens(flags) + rest, 0) == |BetweenTokens(flags)| + SkipFlags(rest, 0)
    decreases |flags|
  {
    hide SkipFlags, IsBetween;
    if flags == [] {
      assert BetweenTokens(flags) + rest == rest;
    } else {
      var own, tail := OwnTokens(flags[0]), BetweenTokens(flags[1..]);
      assert BetweenTokens(flags) + rest == own + (tail + rest);
      FlagsAreSkipped(flags[1..], rest);
      SkipsOne(flags[0], tail + rest);
    }
  }

  /** A command whose words have flags in front of them. */
  function Interleaved(flags: seq<seq<Between>>, path: seq<string>): seq<string>
    requires |flags| == |path|
  {
    if path == [] then [] else BetweenTokens(flags[0]) + [path[0]] + Interleaved(flags[1..], path[1..])
  }

  /** A command starts where its words stand in order, with any flags in front of each of them. */
  lemma {:induction false} InterleavedCommandStarts(flags: seq<seq<Between>>, path: seq<string>, rest: seq<string>)
    requires |flags| == |path| && forall k :: 0 <= k < |path| ==> !IsFlag(path[k])
    requires forall i, j :: 0 <= i < |flags| && 0 <= j < |flags[i]| ==> IsBetween(flags[i][j])
    ensures PathStartsAt(Interleaved(flags, path) + rest, 0, path)
    decreases |path|
  {
    hide SkipFlags, IsBetween, BetweenTokens;
    if path != [] {
      var own, tail := BetweenTokens(flags[0]), Interleaved(flags[1..], path[1..]) + rest;
      var argv := Interleaved(flags, path) + rest;
      assert argv == own + ([path[0]] + tail) && argv == (own + [path[0]]) + tail;
      FlagsAreSkipped(flags[0], [path[0]] + tail);
      WordStops(path[0], tail);
      assert argv[|own|] == path[0];
      InterleavedCommandStarts(flags[1..], path[1..], rest);
      PathStartsAlike(own + [path[0]], tail, 0, path[1..]);
    }
  }

  lemma WordStops(word: string, rest: seq<string>)
    requires !IsFlag(word)
    ensures SkipFlags([word] + rest, 0) == 0
  {
  }

  /** A flag in front of a registered command does not swallow the command's first word. */
  lemma FlagBeforeCommand(name: string, path: seq<string>, rest: seq<string>, commandPaths: seq<seq<string>>)
    requires path in commandPaths && path != [] && forall k :: 0 <= k < |path| ==> !IsFlag(path[k])
    requires '=' !in name
    requires !StartsCommandAt(["--" + name] + path + rest, commandPaths, 2)
    ensures Parse(["--" + name] + path + rest, commandPaths)
         == ParseFrom(rest, commandPaths, 0, Parsed(path, [Entry(name, True)]))
  {
    hide SetFlagValue, PathStartsAt, EqualsIndex, ParseFrom;
    var argv := ["--" + name] + path + rest;
    FirstEquals(name, "");
    assert argv[0][2..] == name;
    PlainPathStarts(["--" + name], path, rest);
    assert StartsCommandAt(argv, commandPaths, 1);
    ParseUnfolded(argv, commandPaths, 0, Parsed([], []));
    PlainTokens(["--" + name], path, rest, commandPaths, Parsed([], [Entry(name, True)]));
    assert [] + path == path;
    ParseAlike(["--" + name] + path, rest, commandPaths, 0, Parsed(path, [Entry(name, True)]));
  }

  /** Tokens that are no flags extend the command path. */
  lemma {:induction false} PlainTokens(
    front: seq<string>, tokens: seq<string>, rest: seq<string>, commandPaths: seq<seq<string>>, parsed: Parsed)
    requires forall k :: 0 <= k < |tokens| ==> !IsFlag(tokens[k])
    ensures ParseFrom(front + tokens + rest, commandPaths, |front|, parsed)
         == ParseFrom(front + tokens + rest, commandPaths, |front + tokens|, parsed.(path := parsed.path + tokens))
    decreases |tokens|
  {
    hide ParseFrom, SetFlag, SetFlagValue, StartsCommandAt, EqualsIndex;
    if tokens == [] {
      assert parsed.path + tokens == parsed.path && |front + tokens| == |front|;
    } else {
      var argv := front + tokens + rest;
      assert argv[|front|] == tokens[0];
      ParseUnfolded(argv, commandPaths, |front|, parsed);
      PlainTokens(front + [tokens[0]], tokens[1..], rest, commandPaths, parsed.(path := parsed.path + [tokens[0]]));
      assert front + [tokens[0]] + tokens[1..] == front + tokens;
      assert parsed.path + [tokens[0]] + tokens[1..] == parsed.path + tokens;
    }
  }

  // Repeated flags.

  function Split(s: string): (r: seq<string>)
    ensures r != [] && forall part <- r :: SEPARATOR !in part
  {
    if s == [] then [[]]
    else
      var rest := Split(s[1..]);
      if s[0] == SEPARATOR then [[]] + rest
      else [[s[0]] + rest[0]] + rest[1..]
  }

  function NonEmpty(parts: seq<string>): (r: seq<string>)
    ensures forall part <- r :: part in parts && part != []
  {
    if parts == [] then []
    else (if parts[0] == [] then [] else [parts[0]]) + NonEmpty(parts[1..])
  }

  function OptionalString(flags: seq<Entry>, name: string): Option<string> {
    var value := Lookup(flags, name);
    if value.Some? && value.value.Text? && value.value.text != [] then Some(value.value.text) else None
  }

  function RepeatedStrings(flags: seq<Entry>, name: string): seq<string> {
    var value := OptionalString(flags, name);
    if value.None? then [] else NonEmpty(Split(value.value))
  }

  /** An argument as a caller means it: a word of the command path, `--name=text`, or a boolean flag. */
  datatype Item = Word(text: string) | Given(name: string, text: string) | Switch(name: string)

  predicate Plain(item: Item) {
    match item
    case Word(text) => !IsFlag(text)
    case Given(name, _) => '=' !in name
    case Switch(name) => name in BOOLEAN_FLAGS && '=' !in name
  }

  function Token(item: Item): string {
    match item
    case Word(text) => text
    case Given(name, text) => "--" + name + "=" + text
    case Switch(name) => "--" + name
  }

  function Tokens(items: seq<Item>): (r: seq<string>)
    ensures |r| == |items|
  {
    seq(|items|, i requires 0 <= i < |items| => Token(items[i]))
  }

  /** The values given for a name, in order. */
  function ValuesOf(items: seq<Item>, name: string): seq<string> {
    if items == [] then []
    else
      var last := items[|items| - 1];
      ValuesOf(items[..|items| - 1], name) + if last.Given? && last.name == name then [last.text] else []
  }

  function Join(values: seq<string>): string
    requires values != []
  {
    if |values| == 1 then values[0] else Join(values[..|values| - 1]) + [SEPARATOR] + values[|values| - 1]
  }

  predicate Listable(value: string) {
    value != [] && SEPARATOR !in value
  }

  lemma {:induction false} SplitConcat(a: string, b: string)
    ensures Split(a + [SEPARATOR] + b) == Split(a) + Split(b)
    decreases |a|
  {
    var s := a + [SEPARATOR] + b;
    if a == [] {
      assert s[1..] == b;
    } else {
      assert s[1..] == a[1..] + [SEPARATOR] + b;
      SplitConcat(a[1..], b);
    }
  }

  lemma {:induction false} SplitWhole(s: string)
    requires SEPARATOR !in s
    ensures Split(s) == [s]
    decreases |s|
  {
    if s != [] {
      SplitWhole(s[1..]);
      assert [s[0]] + s[1..] == s;
    }
  }

  lemma {:induction false} NonEmptyConcat(a: seq<string>, b: seq<string>)
    ensures NonEmpty(a + b) == NonEmpty(a) + NonEmpty(b)
    decreases |a|
  {
    if a == [] {
      assert a + b == b;
    } else {
      assert (a + b)[1..] == a[1..] + b;
      NonEmptyConcat(a[1..], b);
    }
  }

  lemma {:induction false} JoinedSplitsBack(values: seq<string>)
    requires values != [] && forall v <- values :: Listable(v)
    ensures Join(values) != [] && NonEmpty(Split(Join(values))) == values
    decreases |values|
  {
    var last := values[|values| - 1];
    assert last in values;
    SplitWhole(last);
    assert NonEmpty([last]) == [last];
    if |values| == 1 {
      assert values == [last];
    } else {
      var front := values[..|values| - 1];
      JoinedSplitsBack(front);
      SplitConcat(Join(front), last);
      NonEmptyConcat(Split(Join(front)), [last]);
      assert front + [last] == values;
    }
  }

  lemma {:induction false} LookupSet(flags: seq<Entry>, name: string, value: Value, other: string)
    ensures Lookup(SetFlag(flags, name, value), other) == if other == name then Some(value) else Lookup(flags, other)
    decreases |flags|
  {
    if flags != [] && flags[0].name != name { LookupSet(flags[1..], name, value, other); }
  }

  /** What stands in the flag map for a repeatable flag that was given these values. */
  function Stored(values: seq<string>): Option<Value> {
    if values == [] then None else Some(Text(Join(values)))
  }

  lemma StoredOneMore(flags: seq<Entry>, name: string, values: seq<string>, value: string)
    requires name in REPEATABLE && Lookup(flags, name) == Stored(values)
    ensures Lookup(SetFlagValue(flags, name, value), name) == Stored(values + [value])
  {
    hide REPEATABLE;
    assert (values + [value])[..|values|] == values;
    LookupSet(flags, name, Text(value), name);
    if values != [] { LookupSet(flags, name, Text(Join(values) + [SEPARATOR] + value), name); }
  }

  lemma OthersStay(flags: seq<Entry>, name: string, value: string, other: string)
    requires name != other
    ensures Lookup(SetFlagValue(flags, name, value), other) == Lookup(flags, other)
  {
    forall v { LookupSet(flags, name, v, other); }
  }

  lemma StepSwitch(argv: seq<string>, commandPaths: seq<seq<string>>, i: nat, parsed: Parsed, name: string)
    requires i < |argv| && argv[i] == "--" + name && '=' !in name && name in BOOLEAN_FLAGS
    ensures Step(argv, commandPaths, i, parsed) == (parsed.(flags := SetFlag(parsed.flags, name, True)), i + 1)
  {
    hide SetFlagValue, SetFlag, StartsCommandAt, EqualsIndex;
    FirstEquals(name, "");
    assert argv[i][2..] == name;
  }

  /** One item: the next token is the next item's, and the values of the flag grow by what the item gives it. */
  lemma StepItem(items: seq<Item>, commandPaths: seq<seq<string>>, i: nat, parsed: Parsed, name: string)
    requires i < |items| && Plain(items[i]) && name in REPEATABLE
    requires Lookup(parsed.flags, name) == Stored(ValuesOf(items[..i], name))
    ensures var r := Step(Tokens(items), commandPaths, i, parsed);
      r.1 == i + 1 && Lookup(r.0.flags, name) == Stored(ValuesOf(items[..i + 1], name))
  {
    hide *;
    var argv, values := Tokens(items), ValuesOf(items[..i], name);
    ItemUnfolded(items, i, name);
    match items[i]
    case Word(_) =>
      StepWord(argv, commandPaths, i, parsed);
    case Given(given, text) =>
      StepText(argv, commandPaths, i, parsed, given, text);
      if given == name {
        StoredOneMore(parsed.flags, name, values, text);
      } else {
        OthersStay(parsed.flags, given, text, name);
      }
    case Switch(switch) =>
      StepSwitch(argv, commandPaths, i, parsed, switch);
      LookupSet(parsed.flags, switch, True, name);
      SwitchesRepeatNothing(switch, name);
  }

  lemma SwitchesRepeatNothing(switch: string, name: string)
    requires switch in BOOLEAN_FLAGS && name in REPEATABLE
    ensures switch != name
  {
  }

  lemma StepWord(argv: seq<string>, commandPaths: seq<seq<string>>, i: nat, parsed: Parsed)
    requires i < |argv| && !IsFlag(argv[i])
    ensures Step(argv, commandPaths, i, parsed) == (parsed.(path := parsed.path + [argv[i]]), i + 1)
  {
  }

  lemma ItemUnfolded(items: seq<Item>, i: nat, name: string)
    requires i < |items|
    ensures Plain(items[i]) ==> match items[i]
      case Word(text) => Tokens(items)[i] == text && !IsFlag(text)
      case Given(given, text) => Tokens(items)[i] == "--" + given + "=" + text && '=' !in given
      case Switch(switch) => Tokens(items)[i] == "--" + switch && switch in BOOLEAN_FLAGS && '=' !in switch
    ensures var item, values := items[i], ValuesOf(items[..i], name);
      ValuesOf(items[..i + 1], name) == if item.Given? && item.name == name then values + [item.text] else values
  {
    hide BOOLEAN_FLAGS, IsFlag;
    assert items[..i + 1][..i] == items[..i];
    assert ValuesOf(items[..i], name) + [] == ValuesOf(items[..i], name);
  }

  lemma {:induction false} ParseItems(items: seq<Item>, commandPaths: seq<seq<string>>, i: nat, parsed: Parsed, name: string)
    requires i <= |items| && name in REPEATABLE && forall item <- items :: Plain(item)
    requires Lookup(parsed.flags, name) == Stored(ValuesOf(items[..i], name))
    ensures Lookup(ParseFrom(Tokens(items), commandPaths, i, parsed).flags, name) == Stored(ValuesOf(items, name))
    decreases |items| - i
  {
    hide ParseFrom, Step, Stored, ValuesOf, Lookup, Plain, REPEATABLE;
    ParseUnfolded(Tokens(items), commandPaths, i, parsed);
    if i < |items| {
      StepItem(items, commandPaths, i, parsed, name);
      ParseItems(items, commandPaths, i + 1, Step(Tokens(items), commandPaths, i, parsed).0, name);
    } else {
      assert items[..i] == items;
    }
  }

  /** Reading back joined values: exactly when each is non-empty and free of NUL. */
  lemma JoinedSplitsBackIff(values: seq<string>)
    requires values != []
    ensures (if Join(values) == [] then [] else NonEmpty(Split(Join(values)))) == values
       <==> forall v <- values :: Listable(v)
  {
    if forall v <- values :: Listable(v) {
      JoinedSplitsBack(values);
    } else {
      assert forall v <- NonEmpty(Split(Join(values))) :: Listable(v);
    }
  }

  /**
   A repeatable flag yields its values in order, wherever they stand among command words, other flags and
   switches, if and only if each is non-empty and free of NUL.
   */
  lemma RepeatedFlagRoundTripIff(name: string, items: seq<Item>, commandPaths: seq<seq<string>>)
    requires name in REPEATABLE && forall item <- items :: Plain(item)
    ensures RepeatedStrings(Parse(Tokens(items), commandPaths).flags, name) == ValuesOf(items, name)
       <==> forall v <- ValuesOf(items, name) :: Listable(v)
  {
    hide ParseFrom, Split, NonEmpty, Plain, REPEATABLE;
    assert items[..0] == [];
    ParseItems(items, commandPaths, 0, Parsed([], []), name);
    if ValuesOf(items, name) != [] { JoinedSplitsBackIff(ValuesOf(items, name)); }
  }

  function Repeat(name: string, values: seq<string>): (r: seq<Item>)
    ensures |r| == |values|
  {
    seq(|values|, i requires 0 <= i < |values| => Given(name, values[i]))
  }

  lemma {:induction false} RepeatGivesValues(name: string, values: seq<string>)
    ensures ValuesOf(Repeat(name, values), name) == values
    decreases |values|
  {
    if values != [] {
      var front := values[..|values| - 1];
      assert Repeat(name, values)[..|values| - 1] == Repeat(name, front);
      RepeatGivesValues(name, front);
      assert front + [values[|values| - 1]] == values;
    }
  }

  /** In particular when the flag, once per value, is all there is. */
  lemma RepeatedAloneRoundTripIff(name: string, values: seq<string>, commandPaths: seq<seq<string>>)
    requires name in REPEATABLE
    ensures RepeatedStrings(Parse(Tokens(Repeat(name, values)), commandPaths).flags, name) == values
       <==> forall v <- values :: Listable(v)
  {
    hide ParseFrom, Split, NonEmpty, ValuesOf;
    assert '=' !in name;
    RepeatGivesValues(name, values);
    RepeatedFlagRoundTripIff(name, Repeat(name, values), commandPaths);
  }
}

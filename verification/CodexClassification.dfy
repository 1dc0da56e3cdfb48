/** Which launch commands open an interactive agent session: the two classifiers behind the word splitter. */
module CodexClassification {
  import opened Options
  import opened ShellWords

  const WORD_LIMIT: nat := 32

  const NON_INTERACTIVE := {
    "exec", "e", "review", "logout", "mcp", "plugin", "mcp-server", "app-server", "remote-control", "app",
    "completion", "update", "doctor", "sandbox", "debug", "execpolicy", "apply", "a", "cloud", "cloud-tasks",
    "responses-api-proxy", "stdio-to-uds", "exec-server", "features", "help", "version"}
  const NON_INTERACTIVE_CLOUD := {"exec", "status", "list", "apply", "diff", "help"}
  const NON_INTERACTIVE_LOGIN := {"status", "help"}
  const GLOBAL_FLAGS_WITH_VALUES := {
    "--config", "-c", "--enable", "--disable", "--remote", "--remote-auth-token-env", "--image", "-i", "--model",
    "-m", "--local-provider", "--profile", "-p", "--sandbox", "-s", "--cd", "-C", "--add-dir",
    "--ask-for-approval", "-a"}
  const GLOBAL_BOOLEAN_FLAGS := {
    "--oss", "--dangerously-bypass-approvals-and-sandbox", "--search", "--no-alt-screen", "--help", "-h",
    "--version", "-V"}
  const LOGIN_FLAGS_WITH_VALUES := {"-c", "--config", "--enable", "--disable"}
  const LOGIN_BOOLEAN_FLAGS := {"--with-api-key", "--with-access-token", "--device-auth", "--help", "-h"}
  const CLOUD_FLAGS_WITH_VALUES := {"-c", "--config", "--enable", "--disable"}
  const CLOUD_BOOLEAN_FLAGS := {"--help", "-h", "--version", "-V"}

  datatype Subcommand = Subcommand(value: string, index: nat)

  function Lower(s: string): string {
    seq(|s|, k requires 0 <= k < |s| => if 'A' <= s[k] <= 'Z' then 'a' + (s[k] - 'A') else s[k])
  }

  function AfterLastSlash(s: string): string {
    if s == [] then []
    else if s[|s| - 1] == '/' || s[|s| - 1] == '\\' then []
    else AfterLastSlash(s[..|s| - 1]) + [s[|s| - 1]]
  }

  function Basename(command: string): string {
    Lower(AfterLastSlash(command))
  }

  predicate IsCodex(executable: string) {
    executable in {"codex", "codex.exe", "codex.cmd"}
  }

  predicate IsClaude(executable: string) {
    executable in {"claude", "claude.exe", "claude.cmd"}
  }

  predicate IsNameStart(c: char) {
    'A' <= c <= 'Z' || 'a' <= c <= 'z' || c == '_'
  }

  predicate IsName(c: char) {
    IsNameStart(c) || '0' <= c <= '9'
  }

  /** A name, then `=`. */
  predicate IsAssignment(token: string) {
    exists n :: 0 < n < |token| && token[n] == '=' && IsNameStart(token[0]) && forall k :: 0 < k < n ==> IsName(token[k])
  }

  // The launch prefix.

  function SkipAssignments(tokens: seq<string>): seq<string> {
    if tokens != [] && IsAssignment(tokens[0]) then SkipAssignments(tokens[1..]) else tokens
  }

  /** What `env` itself takes: assignments, options, and the name behind `-u`. */
  function SkipEnvArguments(tokens: seq<string>): seq<string>
    decreases |tokens|
  {
    if tokens == [] || tokens[0] == "" then tokens
    else if IsAssignment(tokens[0]) then SkipEnvArguments(tokens[1..])
    else if tokens[0] == "-u" || tokens[0] == "--unset" then
      SkipEnvArguments(if |tokens| >= 2 then tokens[2..] else [])
    else if tokens[0][0] == '-' then SkipEnvArguments(tokens[1..])
    else tokens
  }

  function Stripped(tokens: seq<string>): seq<string> {
    var rest := SkipAssignments(tokens);
    if rest != [] && rest[0] != "" && Basename(rest[0]) == "env" then SkipEnvArguments(rest[1..]) else rest
  }

  method StripShellLaunchPrefix(tokens: seq<string>) returns (remaining: seq<string>)
    ensures remaining == Stripped(tokens)
  {
    hide IsAssignment, Basename;
    remaining := tokens;
    while remaining != [] && remaining[0] != "" && IsAssignment(remaining[0])
      invariant SkipAssignments(remaining) == SkipAssignments(tokens)
      decreases |remaining|
    {
      remaining := remaining[1..];
    }
    if remaining != [] && remaining[0] == "" { EmptyIsNoAssignment(); }
    if remaining == [] || remaining[0] == "" || Basename(remaining[0]) != "env" {
      return;
    }
    remaining := remaining[1..];
    ghost var behind := remaining;
    while remaining != [] && remaining[0] != ""
      invariant SkipEnvArguments(remaining) == SkipEnvArguments(behind)
      decreases |remaining|
    {
      var token := remaining[0];
      if IsAssignment(token) {
        remaining := remaining[1..];
        continue;
      }
      if token == "-u" || token == "--unset" {
        remaining := if |remaining| >= 2 then remaining[2..] else [];
        continue;
      }
      if "-" <= token {
        remaining := remaining[1..];
        continue;
      }
      break;
    }
  }

  lemma EmptyIsNoAssignment()
    ensures !IsAssignment("")
  {
  }

  // The subcommand.

  function OptionName(token: string): string {
    if token == [] || token[0] == '=' then [] else [token[0]] + OptionName(token[1..])
  }

  predicate IsHelp(token: string) {
    token == "--help" || token == "-h"
  }

  predicate IsVersion(token: string) {
    token == "--version" || token == "-V"
  }

  predicate IsPrint(token: string) {
    OptionName(token) == "-p" || OptionName(token) == "--print"
  }

  function Find(tokens: seq<string>, i: nat, withValues: set<string>, boolean: set<string>): Option<Subcommand>
    decreases |tokens| - i
  {
    if i >= |tokens| then None
    else
      var token := tokens[i];
      var name := OptionName(token);
      if token == "--" then
        if i + 1 < |tokens| && tokens[i + 1] != "" then Some(Subcommand("<prompt>", i + 1)) else None
      else if IsHelp(name) || IsVersion(name) then Some(Subcommand(if IsVersion(name) then "version" else "help", i))
      else if name in withValues then Find(tokens, if name == token then i + 2 else i + 1, withValues, boolean)
      else if name in boolean then Find(tokens, i + 1, withValues, boolean)
      else Some(Subcommand(token, i))
  }

  method FindCodexSubcommand(tokens: seq<string>, startIndex: nat, withValues: set<string>, boolean: set<string>)
    returns (found: Option<Subcommand>)
    ensures found == Find(tokens, startIndex, withValues, boolean)
    ensures found.Some? ==> startIndex <= found.value.index < |tokens|
  {
    hide OptionName;
    var i: nat := startIndex;
    while i < |tokens|
      invariant startIndex <= i && Find(tokens, startIndex, withValues, boolean) == Find(tokens, i, withValues, boolean)
      decreases |tokens| - i
    {
      var token := tokens[i];
      if token == "--" {
        return if i + 1 < |tokens| && tokens[i + 1] != "" then Some(Subcommand("<prompt>", i + 1)) else None;
      }
      var name := OptionName(token);
      if IsHelp(name) || IsVersion(name) {
        return Some(Subcommand(if IsVersion(name) then "version" else "help", i));
      }
      if name in withValues {
        if name == token {
          i := i + 1;
        }
        i := i + 1;
        continue;
      }
      if name in boolean {
        i := i + 1;
        continue;
      }
      return Some(Subcommand(token, i));
    }
    found := None;
  }

  function From(tokens: seq<string>, i: nat): seq<string> {
    if i <= |tokens| then tokens[i..] else []
  }

  /** `isNonInteractiveCodexSubcommand`. */
  predicate IsOneShot(tokens: seq<string>) {
    var subcommand := Find(tokens, 1, GLOBAL_FLAGS_WITH_VALUES, GLOBAL_BOOLEAN_FLAGS);
    subcommand.Some? &&
    var name, behind := Lower(subcommand.value.value), subcommand.value.index + 1;
    if name == "login" then
      var login := Find(tokens, behind, LOGIN_FLAGS_WITH_VALUES, LOGIN_BOOLEAN_FLAGS);
      || (exists token <- From(tokens, behind) :: token == "--with-api-key" || token == "--with-access-token")
      || (exists token <- From(tokens, behind) :: IsHelp(token))
      || (login.Some? && Lower(login.value.value) in NON_INTERACTIVE_LOGIN)
    else if name == "cloud" then
      var cloud := Find(tokens, behind, CLOUD_FLAGS_WITH_VALUES, CLOUD_BOOLEAN_FLAGS);
      || (exists token <- From(tokens, behind) :: IsHelp(token) || IsVersion(token))
      || (cloud.Some? && Lower(cloud.value.value) in NON_INTERACTIVE_CLOUD)
    else name in NON_INTERACTIVE
  }

  /** A flag as it is written: alone, with its value as the next word, or with `=`. */
  datatype Flag = Alone(token: string) | Spaced(token: string, value: string) | Joined(token: string)

  /** Neither ends the search by itself. */
  predicate PassesBy(name: string) {
    !IsHelp(name) && !IsVersion(name)
  }

  predicate IsFlagOf(flag: Flag, withValues: set<string>, boolean: set<string>) {
    && flag.token != "--" && PassesBy(OptionName(flag.token))
    && match flag
       case Alone(token) => OptionName(token) in boolean && OptionName(token) !in withValues
       case Spaced(token, _) => OptionName(token) == token && token in withValues
       case Joined(token) => OptionName(token) != token && OptionName(token) in withValues
  }

  function FlagTokens(flags: seq<Flag>): seq<string> {
    if flags == [] then []
    else (match flags[0]
          case Spaced(token, value) => [token, value]
          case _ => [flags[0].token]) + FlagTokens(flags[1..])
  }

  predicate AreFlagsOf(flags: seq<Flag>, withValues: set<string>, boolean: set<string>) {
    forall k :: 0 <= k < |flags| ==> IsFlagOf(flags[k], withValues, boolean)
  }

  /** A word that no flag table knows. */
  predicate IsWord(word: string, withValues: set<string>, boolean: set<string>) {
    word != "--" && PassesBy(OptionName(word)) && OptionName(word) !in withValues && OptionName(word) !in boolean
  }

  lemma FindStep(tokens: seq<string>, i: nat, withValues: set<string>, boolean: set<string>, flag: Flag)
    requires i < |tokens| && tokens[i] == flag.token && IsFlagOf(flag, withValues, boolean)
    ensures Find(tokens, i, withValues, boolean) == Find(tokens, if flag.Spaced? then i + 2 else i + 1, withValues, boolean)
  {
    hide OptionName;
  }

  /** The search passes over any list of flags, with the words that are their values. */
  lemma {:induction false} FlagsArePassed(
    front: seq<string>, flags: seq<Flag>, rest: seq<string>, withValues: set<string>, boolean: set<string>)
    requires AreFlagsOf(flags, withValues, boolean)
    ensures var tokens := front + FlagTokens(flags) + rest;
      Find(tokens, |front|, withValues, boolean) == Find(tokens, |front + FlagTokens(flags)|, withValues, boolean)
    decreases |flags|
  {
    hide Find, IsFlagOf;
    var tokens := front + FlagTokens(flags) + rest;
    if flags == [] {
      assert front + FlagTokens(flags) == front;
    } else {
      var here := if flags[0].Spaced? then [flags[0].token, flags[0].value] else [flags[0].token];
      assert FlagTokens(flags) == here + FlagTokens(flags[1..]);
      assert tokens[|front|] == here[0];
      FindStep(tokens, |front|, withValues, boolean, flags[0]);
      FlagsArePassed(front + here, flags[1..], rest, withValues, boolean);
      assert front + here + FlagTokens(flags[1..]) == front + FlagTokens(flags);
    }
  }

  /** Behind flags the search finds the next word, where it stands. */
  lemma FindsFirstWord(
    front: seq<string>, flags: seq<Flag>, word: string, rest: seq<string>, withValues: set<string>, boolean: set<string>)
    requires AreFlagsOf(flags, withValues, boolean) && IsWord(word, withValues, boolean)
    ensures Find(front + FlagTokens(flags) + ([word] + rest), |front|, withValues, boolean)
         == Some(Subcommand(word, |front + FlagTokens(flags)|))
  {
    hide OptionName;
    FlagsArePassed(front, flags, [word] + rest, withValues, boolean);
    assert (front + FlagTokens(flags) + ([word] + rest))[|front + FlagTokens(flags)|] == word;
  }

  /** Behind flags and nothing else it finds nothing. */
  lemma FindsNoWord(front: seq<string>, flags: seq<Flag>, withValues: set<string>, boolean: set<string>)
    requires AreFlagsOf(flags, withValues, boolean)
    ensures Find(front + FlagTokens(flags), |front|, withValues, boolean) == None
  {
    FlagsArePassed(front, flags, [], withValues, boolean);
    assert front + FlagTokens(flags) + [] == front + FlagTokens(flags);
  }

  /** Conversely, what it finds as a word stands behind flags only. */
  lemma {:induction false} FoundBehindFlags(tokens: seq<string>, i: nat, withValues: set<string>, boolean: set<string>)
    returns (flags: seq<Flag>)
    requires i <= |tokens|
    requires var found := Find(tokens, i, withValues, boolean);
      found.Some? && i <= found.value.index < |tokens| && found.value.value == tokens[found.value.index]
      && IsWord(found.value.value, withValues, boolean)
      && forall k :: i <= k < |tokens| ==> tokens[k] != "--"
    ensures var found := Find(tokens, i, withValues, boolean).value;
      AreFlagsOf(flags, withValues, boolean) && tokens[i..found.index] == FlagTokens(flags)
    decreases |tokens| - i
  {
    hide OptionName;
    var found := Find(tokens, i, withValues, boolean).value;
    var token, name := tokens[i], OptionName(tokens[i]);
    if name in withValues && name == token {
      FindNeverGoesBack(tokens, i + 2, withValues, boolean);
      var rest := FoundBehindFlags(tokens, i + 2, withValues, boolean);
      flags := [Spaced(token, tokens[i + 1])] + rest;
      assert tokens[i..found.index] == [token, tokens[i + 1]] + tokens[i + 2..found.index];
    } else if name in withValues || name in boolean {
      FindNeverGoesBack(tokens, i + 1, withValues, boolean);
      var rest := FoundBehindFlags(tokens, i + 1, withValues, boolean);
      flags := [if name in withValues then Joined(token) else Alone(token)] + rest;
      assert tokens[i..found.index] == [token] + tokens[i + 1..found.index];
    } else {
      flags := [];
      assert tokens[i..found.index] == [];
    }
  }

  lemma {:induction false} FindNeverGoesBack(tokens: seq<string>, i: nat, withValues: set<string>, boolean: set<string>)
    ensures var found := Find(tokens, i, withValues, boolean); found.Some? ==> i <= found.value.index < |tokens|
    decreases |tokens| - i
  {
    hide OptionName;
    if i < |tokens| {
      FindNeverGoesBack(tokens, i + 1, withValues, boolean);
      FindNeverGoesBack(tokens, i + 2, withValues, boolean);
    }
  }

  // The classifiers.

  function Trim(s: string): string
    decreases |s|
  {
    if s != [] && IsSpace(s[0]) then Trim(s[1..])
    else if s != [] && IsSpace(s[|s| - 1]) then Trim(s[..|s| - 1])
    else s
  }

  /** The leading words of the command without its launch prefix. */
  function LaunchTokens(command: string): seq<string> {
    Stripped(First(Split(Trim(command)), WORD_LIMIT))
  }

  function Executable(tokens: seq<string>): string {
    if tokens != [] && tokens[0] != "" then Basename(tokens[0]) else ""
  }

  predicate IsCodexSession(tokens: seq<string>) {
    IsCodex(Executable(tokens)) && !IsOneShot(tokens)
  }

  predicate IsInteractiveSession(tokens: seq<string>) {
    if IsCodex(Executable(tokens)) then !IsOneShot(tokens)
    else IsClaude(Executable(tokens)) && forall token <- From(tokens, 1) :: !IsHelp(token) && !IsVersion(token) && !IsPrint(token)
  }

  method ShouldUseRendererBackedCodexTerminal(command: Option<string>) returns (r: bool)
    ensures r <==> command.Some? && IsCodexSession(LaunchTokens(command.value))
  {
    EmptyLaunchesNothing();
    if command.None? || command.value == "" {
      return false;
    }
    var words := TokenizeLeadingShellWords(Trim(command.value), WORD_LIMIT);
    var tokens := StripShellLaunchPrefix(words);
    if !IsCodex(Executable(tokens)) {
      return false;
    }
    r := !IsOneShot(tokens);
  }

  method ShouldUseRendererBackedInteractiveTerminal(command: Option<string>) returns (r: bool)
    ensures r <==> command.Some? && IsInteractiveSession(LaunchTokens(command.value))
  {
    EmptyLaunchesNothing();
    if command.None? || command.value == "" {
      return false;
    }
    var words := TokenizeLeadingShellWords(Trim(command.value), WORD_LIMIT);
    var tokens := StripShellLaunchPrefix(words);
    var executable := Executable(tokens);
    if IsCodex(executable) {
      return !IsOneShot(tokens);
    }
    if IsClaude(executable) {
      var behind := From(tokens, 1);
      return forall token <- behind :: !IsHelp(token) && !IsVersion(token) && !IsPrint(token);
    }
    r := false;
  }

  lemma EmptyLaunchesNothing()
    ensures !IsCodexSession(LaunchTokens("")) && !IsInteractiveSession(LaunchTokens(""))
  {
    assert Split("") == [];
  }

  /** Every command that the Codex classifier accepts the other one accepts, and for Codex that is all it accepts. */
  lemma CodexSessionsAreInteractive(command: string)
    ensures var tokens := LaunchTokens(command);
            IsCodexSession(tokens) <==> IsInteractiveSession(tokens) && IsCodex(Executable(tokens))
  {
  }

  // What the classifiers mean for a command line.

  predicate AreGlobal(flags: seq<Flag>) {
    AreFlagsOf(flags, GLOBAL_FLAGS_WITH_VALUES, GLOBAL_BOOLEAN_FLAGS)
  }

  predicate IsGlobalWord(word: string) {
    IsWord(word, GLOBAL_FLAGS_WITH_VALUES, GLOBAL_BOOLEAN_FLAGS)
  }

  /** `codex FLAGS` alone is a session. */
  lemma BareLaunchIsSession(executable: string, flags: seq<Flag>)
    requires IsCodex(Basename(executable)) && AreGlobal(flags)
    ensures IsCodexSession([executable] + FlagTokens(flags))
  {
    hide Find, FlagTokens, AreFlagsOf, GLOBAL_FLAGS_WITH_VALUES, GLOBAL_BOOLEAN_FLAGS;
    FindsNoWord([executable], flags, GLOBAL_FLAGS_WITH_VALUES, GLOBAL_BOOLEAN_FLAGS);
    EmptyIsNoCodex();
  }

  lemma EmptyIsNoCodex()
    ensures !IsCodex(Basename(""))
  {
  }

  /** `codex FLAGS WORD ...` is a session exactly when the word is no one-shot subcommand; it may be a prompt. */
  lemma WordDecides(executable: string, flags: seq<Flag>, word: string, rest: seq<string>)
    requires IsCodex(Basename(executable)) && AreGlobal(flags) && IsGlobalWord(word)
    requires Lower(word) != "login" && Lower(word) != "cloud"
    ensures IsCodexSession([executable] + FlagTokens(flags) + ([word] + rest)) <==> Lower(word) !in NON_INTERACTIVE
  {
    hide Find, FlagTokens, AreFlagsOf, IsWord, Lower, GLOBAL_FLAGS_WITH_VALUES, GLOBAL_BOOLEAN_FLAGS, NON_INTERACTIVE;
    FindsFirstWord([executable], flags, word, rest, GLOBAL_FLAGS_WITH_VALUES, GLOBAL_BOOLEAN_FLAGS);
    EmptyIsNoCodex();
  }

  /** A help or version flag behind other flags makes any launch one-shot. */
  lemma HelpIsOneShot(executable: string, flags: seq<Flag>, help: string, rest: seq<string>)
    requires AreGlobal(flags) && help != "--" && (IsHelp(OptionName(help)) || IsVersion(OptionName(help)))
    ensures !IsCodexSession([executable] + FlagTokens(flags) + ([help] + rest))
  {
    hide FlagTokens, AreFlagsOf, OptionName, GLOBAL_FLAGS_WITH_VALUES, GLOBAL_BOOLEAN_FLAGS;
    var tokens := [executable] + FlagTokens(flags) + ([help] + rest);
    FlagsArePassed([executable], flags, [help] + rest, GLOBAL_FLAGS_WITH_VALUES, GLOBAL_BOOLEAN_FLAGS);
    assert tokens[|[executable] + FlagTokens(flags)|] == help;
    HelpNames();
  }

  lemma HelpNames()
    ensures Lower("help") == "help" && Lower("version") == "version"
    ensures "help" in NON_INTERACTIVE && "version" in NON_INTERACTIVE
  {
  }

  /** A word behind `--` is a prompt, even one that names a subcommand. */
  lemma PromptIsSession(executable: string, flags: seq<Flag>, prompt: string, rest: seq<string>)
    requires IsCodex(Basename(executable)) && AreGlobal(flags) && prompt != ""
    ensures IsCodexSession([executable] + FlagTokens(flags) + (["--", prompt] + rest))
  {
    hide FlagTokens, AreFlagsOf, OptionName, GLOBAL_FLAGS_WITH_VALUES, GLOBAL_BOOLEAN_FLAGS;
    var tokens := [executable] + FlagTokens(flags) + (["--", prompt] + rest);
    FlagsArePassed([executable], flags, ["--", prompt] + rest, GLOBAL_FLAGS_WITH_VALUES, GLOBAL_BOOLEAN_FLAGS);
    var at := |[executable] + FlagTokens(flags)|;
    assert tokens[at] == "--" && tokens[at + 1] == prompt;
    PromptName();
    EmptyIsNoCodex();
  }

  lemma PromptName()
    ensures Lower("<prompt>") == "<prompt>" && "<prompt>" !in NON_INTERACTIVE
  {
  }

  /** The words behind a subcommand. */
  lemma Behind(front: seq<string>, word: string, rest: seq<string>)
    ensures From(front + ([word] + rest), |front| + 1) == rest
  {
  }

  lemma GlobalMeans(flags: seq<Flag>, word: string)
    ensures AreGlobal(flags) <==> AreFlagsOf(flags, GLOBAL_FLAGS_WITH_VALUES, GLOBAL_BOOLEAN_FLAGS)
    ensures IsGlobalWord(word) <==> IsWord(word, GLOBAL_FLAGS_WITH_VALUES, GLOBAL_BOOLEAN_FLAGS)
  {
  }

  lemma SessionIff(executable: string, tokens: seq<string>)
    requires tokens != [] && tokens[0] == executable && IsCodex(Basename(executable))
    ensures IsCodexSession(tokens) <==> !IsOneShot(tokens)
  {
    hide IsOneShot, Basename;
    EmptyIsNoCodex();
  }

  lemma CloudCase(tokens: seq<string>, name: string, at: nat)
    requires Find(tokens, 1, GLOBAL_FLAGS_WITH_VALUES, GLOBAL_BOOLEAN_FLAGS) == Some(Subcommand(name, at))
    requires Lower(name) == "cloud"
    ensures var behind := From(tokens, at + 1);
      var own := Find(tokens, at + 1, CLOUD_FLAGS_WITH_VALUES, CLOUD_BOOLEAN_FLAGS);
      IsOneShot(tokens)
      <==> (|| "--help" in behind || "-h" in behind || "--version" in behind || "-V" in behind
            || (own.Some? && Lower(own.value.value) in NON_INTERACTIVE_CLOUD))
  {
    hide Find, Lower, From, GLOBAL_FLAGS_WITH_VALUES, GLOBAL_BOOLEAN_FLAGS,
         CLOUD_FLAGS_WITH_VALUES, CLOUD_BOOLEAN_FLAGS, NON_INTERACTIVE_CLOUD;
  }

  /** `codex FLAGS cloud`: the browser is a session unless help, the version or a one-shot command is asked for. */
  lemma CloudWordDecides(executable: string, flags: seq<Flag>, cloud: string, own: seq<Flag>, word: Option<string>, rest: seq<string>)
    requires IsCodex(Basename(executable)) && AreGlobal(flags) && IsGlobalWord(cloud) && Lower(cloud) == "cloud"
    requires AreFlagsOf(own, CLOUD_FLAGS_WITH_VALUES, CLOUD_BOOLEAN_FLAGS)
    requires if word.Some? then IsWord(word.value, CLOUD_FLAGS_WITH_VALUES, CLOUD_BOOLEAN_FLAGS) else rest == []
    ensures var behind := FlagTokens(own) + (if word.Some? then [word.value] else []) + rest;
      IsCodexSession([executable] + FlagTokens(flags) + ([cloud] + behind))
      <==> !(|| "--help" in behind || "-h" in behind || "--version" in behind || "-V" in behind
             || (word.Some? && Lower(word.value) in NON_INTERACTIVE_CLOUD))
  {
    hide *;
    GlobalMeans(flags, cloud);
    var behind := FlagTokens(own) + (if word.Some? then [word.value] else []) + rest;
    var front := [executable] + FlagTokens(flags);
    FindsFirstWord([executable], flags, cloud, behind, GLOBAL_FLAGS_WITH_VALUES, GLOBAL_BOOLEAN_FLAGS);
    Behind(front, cloud, behind);
    OwnWord(front + [cloud], own, word, rest, CLOUD_FLAGS_WITH_VALUES, CLOUD_BOOLEAN_FLAGS);
    assert front + [cloud] + behind == front + ([cloud] + behind);
    CloudCase(front + ([cloud] + behind), cloud, |front|);
    SessionIff(executable, front + ([cloud] + behind));
  }

  lemma OwnWord(front: seq<string>, own: seq<Flag>, word: Option<string>, rest: seq<string>,
                withValues: set<string>, boolean: set<string>)
    requires AreFlagsOf(own, withValues, boolean)
    requires if word.Some? then IsWord(word.value, withValues, boolean) else rest == []
    ensures var found := Find(front + (FlagTokens(own) + (if word.Some? then [word.value] else []) + rest), |front|, withValues, boolean);
      found.Some? == word.Some? && (word.Some? ==> found.value.value == word.value)
  {
    hide Find;
    if word.Some? {
      FindsFirstWord(front, own, word.value, rest, withValues, boolean);
      assert front + (FlagTokens(own) + [word.value] + rest) == front + FlagTokens(own) + ([word.value] + rest);
    } else {
      FindsNoWord(front, own, withValues, boolean);
      assert front + (FlagTokens(own) + [] + []) == front + FlagTokens(own);
    }
  }

  lemma LoginCase(tokens: seq<string>, name: string, at: nat)
    requires Find(tokens, 1, GLOBAL_FLAGS_WITH_VALUES, GLOBAL_BOOLEAN_FLAGS) == Some(Subcommand(name, at))
    requires Lower(name) == "login"
    ensures var behind := From(tokens, at + 1);
      var own := Find(tokens, at + 1, LOGIN_FLAGS_WITH_VALUES, LOGIN_BOOLEAN_FLAGS);
      IsOneShot(tokens)
      <==> (|| "--with-api-key" in behind || "--with-access-token" in behind || "--help" in behind || "-h" in behind
            || (own.Some? && Lower(own.value.value) in NON_INTERACTIVE_LOGIN))
  {
    hide Find, Lower, From, GLOBAL_FLAGS_WITH_VALUES, GLOBAL_BOOLEAN_FLAGS,
         LOGIN_FLAGS_WITH_VALUES, LOGIN_BOOLEAN_FLAGS, NON_INTERACTIVE_LOGIN;
  }

  /** `codex FLAGS login`: an authentication flow is a session unless its words or flags make it one-shot. */
  lemma LoginWordDecides(executable: string, flags: seq<Flag>, login: string, own: seq<Flag>, word: Option<string>, rest: seq<string>)
    requires IsCodex(Basename(executable)) && AreGlobal(flags) && IsGlobalWord(login) && Lower(login) == "login"
    requires AreFlagsOf(own, LOGIN_FLAGS_WITH_VALUES, LOGIN_BOOLEAN_FLAGS)
    requires if word.Some? then IsWord(word.value, LOGIN_FLAGS_WITH_VALUES, LOGIN_BOOLEAN_FLAGS) else rest == []
    ensures var behind := FlagTokens(own) + (if word.Some? then [word.value] else []) + rest;
      IsCodexSession([executable] + FlagTokens(flags) + ([login] + behind))
      <==> !(|| "--with-api-key" in behind || "--with-access-token" in behind || "--help" in behind || "-h" in behind
             || (word.Some? && Lower(word.value) in NON_INTERACTIVE_LOGIN))
  {
    hide *;
    GlobalMeans(flags, login);
    var behind := FlagTokens(own) + (if word.Some? then [word.value] else []) + rest;
    var front := [executable] + FlagTokens(flags);
    FindsFirstWord([executable], flags, login, behind, GLOBAL_FLAGS_WITH_VALUES, GLOBAL_BOOLEAN_FLAGS);
    Behind(front, login, behind);
    OwnWord(front + [login], own, word, rest, LOGIN_FLAGS_WITH_VALUES, LOGIN_BOOLEAN_FLAGS);
    assert front + [login] + behind == front + ([login] + behind);
    LoginCase(front + ([login] + behind), login, |front|);
    SessionIff(executable, front + ([login] + behind));
  }

  // What stands in front of a launch does not matter.

  lemma {:induction false} AssignmentsAreSkipped(assignments: seq<string>, tokens: seq<string>)
    requires forall k :: 0 <= k < |assignments| ==> IsAssignment(assignments[k])
    ensures SkipAssignments(assignments + tokens) == SkipAssignments(tokens)
    decreases |assignments|
  {
    hide IsAssignment;
    if assignments == [] {
      assert assignments + tokens == tokens;
    } else {
      assert (assignments + tokens)[1..] == assignments[1..] + tokens;
      AssignmentsAreSkipped(assignments[1..], tokens);
    }
  }

  /** What may stand behind `env`: an assignment or an option, or the option that takes a name. */
  datatype EnvArgument = Single(token: string) | Unset(option: string, name: string)

  predicate IsEnvArgument(argument: EnvArgument) {
    match argument
    case Single(token) => IsAssignment(token) || ("-" <= token && token != "-u" && token != "--unset")
    case Unset(option, _) => option == "-u" || option == "--unset"
  }

  function EnvTokens(arguments: seq<EnvArgument>): seq<string> {
    if arguments == [] then [] else OwnTokens(arguments[0]) + EnvTokens(arguments[1..])
  }

  lemma OptionIsNoAssignment(option: string)
    requires option != "" && option[0] == '-'
    ensures !IsAssignment(option)
  {
  }

  function OwnTokens(argument: EnvArgument): seq<string> {
    match argument
    case Single(token) => [token]
    case Unset(option, name) => [option, name]
  }

  lemma SingleIsSkipped(token: string, tokens: seq<string>)
    requires IsEnvArgument(Single(token))
    ensures SkipEnvArguments([token] + tokens) == SkipEnvArguments(tokens)
  {
    EmptyIsNoAssignment();
    hide IsAssignment;
    assert ([token] + tokens)[1..] == tokens;
  }

  lemma UnsetIsSkipped(option: string, name: string, tokens: seq<string>)
    requires IsEnvArgument(Unset(option, name))
    ensures SkipEnvArguments([option, name] + tokens) == SkipEnvArguments(tokens)
  {
    OptionIsNoAssignment(option);
    hide IsAssignment;
    assert ([option, name] + tokens)[2..] == tokens;
  }

  lemma {:induction false} EnvArgumentsAreSkipped(arguments: seq<EnvArgument>, tokens: seq<string>)
    requires forall k :: 0 <= k < |arguments| ==> IsEnvArgument(arguments[k])
    ensures SkipEnvArguments(EnvTokens(arguments) + tokens) == SkipEnvArguments(tokens)
    decreases |arguments|
  {
    hide SkipEnvArguments, IsEnvArgument;
    if arguments == [] {
      assert EnvTokens(arguments) + tokens == tokens;
    } else {
      var own, rest := OwnTokens(arguments[0]), EnvTokens(arguments[1..]);
      EnvArgumentsAreSkipped(arguments[1..], tokens);
      assert EnvTokens(arguments) + tokens == own + (rest + tokens);
      match arguments[0]
      case Single(token) => SingleIsSkipped(token, rest + tokens);
      case Unset(option, name) => UnsetIsSkipped(option, name, rest + tokens);
    }
  }

  /** An identifier of the shell. */
  predicate IsIdentifier(name: string) {
    && name != ""
    && ('A' <= name[0] <= 'Z' || 'a' <= name[0] <= 'z' || name[0] == '_')
    && forall c <- name :: 'A' <= c <= 'Z' || 'a' <= c <= 'z' || '0' <= c <= '9' || c == '_'
  }

  /** What stands before the first `=` decides. */
  lemma NamedIsAssignment(name: string, value: string)
    requires '=' !in name
    ensures IsAssignment(name + "=" + value) <==> IsIdentifier(name)
  {
    var token := name + "=" + value;
    assert forall k :: 0 <= k < |name| ==> token[k] == name[k] && token[k] in name;
    if IsAssignment(token) {
      var n :| 0 < n < |token| && token[n] == '=' && IsNameStart(token[0]) && forall k :: 0 < k < n ==> IsName(token[k]);
      assert token[|name|] == '=' && !IsName('=');
      assert n == |name|;
      assert forall k :: 0 <= k < |name| ==> IsName(name[k]);
    }
    if IsIdentifier(name) {
      assert token[|name|] == '=';
      assert forall k :: 0 < k < |name| ==> IsName(token[k]);
    }
  }

  /** A word that starts a launch: no assignment, no option, not `env`. */
  predicate StartsLaunch(word: string) {
    word != "" && !IsAssignment(word) && word[0] != '-' && Basename(word) != "env"
  }

  lemma StartsItself(launch: seq<string>)
    requires launch != [] && StartsLaunch(launch[0])
    ensures SkipAssignments(launch) == launch && SkipEnvArguments(launch) == launch && Stripped(launch) == launch
  {
    hide IsAssignment, Basename;
  }

  lemma StrippedBehindEnv(tokens: seq<string>, behind: seq<string>)
    requires SkipAssignments(tokens) == ["env"] + behind
    ensures Stripped(tokens) == SkipEnvArguments(behind)
  {
    hide IsAssignment, Basename, SkipAssignments, SkipEnvArguments;
    EnvIsEnv();
    assert (["env"] + behind)[1..] == behind;
  }

  lemma EnvIsKept(behind: seq<string>)
    ensures SkipAssignments(["env"] + behind) == ["env"] + behind
  {
    hide IsAssignment, Basename;
    EnvIsEnv();
  }

  lemma SameStart(tokens: seq<string>, launch: seq<string>)
    requires SkipAssignments(tokens) == SkipAssignments(launch)
    ensures Stripped(tokens) == Stripped(launch)
  {
    hide SkipAssignments, SkipEnvArguments, Basename;
  }

  lemma StripsPrefix(assignments: seq<string>, arguments: seq<EnvArgument>, launch: seq<string>)
    requires launch != [] && StartsLaunch(launch[0])
    requires forall k :: 0 <= k < |assignments| ==> IsAssignment(assignments[k])
    requires forall k :: 0 <= k < |arguments| ==> IsEnvArgument(arguments[k])
    ensures Stripped(assignments + ["env"] + EnvTokens(arguments) + launch) == launch
    ensures Stripped(assignments + launch) == launch && Stripped(launch) == launch
  {
    hide *;
    var behind := EnvTokens(arguments) + launch;
    assert assignments + ["env"] + EnvTokens(arguments) + launch == assignments + (["env"] + behind);
    AssignmentsAreSkipped(assignments, ["env"] + behind);
    AssignmentsAreSkipped(assignments, launch);
    StartsItself(launch);
    SameStart(assignments + launch, launch);
    EnvIsKept(behind);
    StrippedBehindEnv(assignments + (["env"] + behind), behind);
    EnvArgumentsAreSkipped(arguments, launch);
  }

  /**
   A launch behind assignments, and behind `env` with its own arguments, has the words of the launch
   itself, as long as all of them are within the limit; so both classifiers decide as for the launch alone.
   */
  lemma LaunchPrefixIsTransparent(assignments: seq<string>, arguments: seq<EnvArgument>, launch: seq<string>)
    requires launch != [] && StartsLaunch(launch[0])
    requires forall k :: 0 <= k < |assignments| ==> IsAssignment(assignments[k])
    requires forall k :: 0 <= k < |arguments| ==> IsEnvArgument(arguments[k])
    requires var words := assignments + ["env"] + EnvTokens(arguments) + launch;
      |words| <= 32 && forall k :: 0 <= k < |words| ==> Printable(words[k])
    ensures LaunchTokens(Print(assignments + ["env"] + EnvTokens(arguments) + launch)) == launch
    ensures LaunchTokens(Print(assignments + launch)) == launch
    ensures LaunchTokens(Print(launch)) == launch
  {
    hide StartsLaunch, IsAssignment, IsEnvArgument, Stripped, Printable, Trim, Split, First, EnvTokens;
    PrefixWords(assignments, EnvTokens(arguments), launch);
    PrintedWords(assignments + ["env"] + EnvTokens(arguments) + launch);
    PrintedWords(assignments + launch);
    PrintedWords(launch);
    StripsPrefix(assignments, arguments, launch);
  }

  /** So a whole printed command line is decided by the first word behind the flags of `codex`. */
  lemma PrintedCommandDecides(
    assignments: seq<string>, arguments: seq<EnvArgument>, executable: string, flags: seq<Flag>, word: string, rest: seq<string>)
    requires IsCodex(Basename(executable)) && StartsLaunch(executable) && AreGlobal(flags) && IsGlobalWord(word)
    requires Lower(word) != "login" && Lower(word) != "cloud"
    requires forall k :: 0 <= k < |assignments| ==> IsAssignment(assignments[k])
    requires forall k :: 0 <= k < |arguments| ==> IsEnvArgument(arguments[k])
    requires var words := assignments + ["env"] + EnvTokens(arguments) + ([executable] + FlagTokens(flags) + ([word] + rest));
      |words| <= 32 && forall k :: 0 <= k < |words| ==> Printable(words[k])
    ensures var launch := [executable] + FlagTokens(flags) + ([word] + rest);
      var command := Print(assignments + ["env"] + EnvTokens(arguments) + launch);
      && (IsCodexSession(LaunchTokens(command)) <==> Lower(word) !in NON_INTERACTIVE)
      && (IsInteractiveSession(LaunchTokens(command)) <==> Lower(word) !in NON_INTERACTIVE)
  {
    hide *;
    var launch := [executable] + FlagTokens(flags) + ([word] + rest);
    assert launch[0] == executable;
    LaunchPrefixIsTransparent(assignments, arguments, launch);
    WordDecides(executable, flags, word, rest);
    CodexSessionsAreInteractive(Print(assignments + ["env"] + EnvTokens(arguments) + launch));
    LaunchExecutable(launch);
  }

  lemma LaunchExecutable(launch: seq<string>)
    requires launch != [] && IsCodex(Basename(launch[0]))
    ensures IsCodex(Executable(launch))
  {
    EmptyIsNoCodex();
  }

  lemma {:induction false} NoSlash(s: string)
    requires forall k :: 0 <= k < |s| ==> s[k] != '/' && s[k] != '\\'
    ensures AfterLastSlash(s) == s
    decreases |s|
  {
    if s != [] {
      NoSlash(s[..|s| - 1]);
      assert s == s[..|s| - 1] + [s[|s| - 1]];
    }
  }

  lemma EnvHasNoEquals()
    ensures !IsAssignment("env")
  {
    var env := "env";
    assert env[1] == 'n' && env[2] == 'v';
  }

  lemma EnvIsEnv()
    ensures !IsAssignment("env") && Basename("env") == "env"
  {
    hide IsAssignment, AfterLastSlash;
    EnvHasNoEquals();
    NoSlash("env");
    assert Lower("env") == "env";
  }

  lemma PrefixWords(assignments: seq<string>, arguments: seq<string>, launch: seq<string>)
    requires var words := assignments + ["env"] + arguments + launch;
      |words| <= 32 && forall k :: 0 <= k < |words| ==> Printable(words[k])
    ensures |assignments + launch| <= WORD_LIMIT && forall k :: 0 <= k < |assignments + launch| ==> Printable((assignments + launch)[k])
    ensures forall k :: 0 <= k < |launch| ==> Printable(launch[k])
  {
    hide Printable;
    var words, short := assignments + ["env"] + arguments + launch, assignments + launch;
    forall k | 0 <= k < |launch| ensures Printable(launch[k]) {
      assert words[|words| - |launch| + k] == launch[k];
    }
    forall k | 0 <= k < |assignments| ensures Printable(assignments[k]) {
      assert words[k] == assignments[k];
    }
  }

  /** A printed list within the limit is read back whole. */
  lemma PrintedWords(words: seq<string>)
    requires |words| <= WORD_LIMIT && forall k :: 0 <= k < |words| ==> Printable(words[k])
    ensures First(Split(Trim(Print(words))), WORD_LIMIT) == words
  {
    PrintIsTrimmed(words);
    PrintSplitsBack(words);
  }

  lemma {:induction false} PrintEnds(words: seq<string>)
    requires words != []
    ensures Print(words) != [] && Print(words)[0] == '\'' && Print(words)[|Print(words)| - 1] == '\''
    decreases |words|
  {
    if |words| > 1 { PrintEnds(words[1..]); }
  }

  lemma PrintIsTrimmed(words: seq<string>)
    ensures Trim(Print(words)) == Print(words)
  {
    if words != [] { PrintEnds(words); }
  }

  // The executable.

  lemma {:induction false} NameBehindSlash(dir: string, slash: char, name: string)
    requires slash == '/' || slash == '\\'
    requires forall k :: 0 <= k < |name| ==> name[k] != '/' && name[k] != '\\'
    ensures AfterLastSlash(dir + [slash] + name) == name
    decreases |name|
  {
    var s := dir + [slash] + name;
    if name != [] {
      assert s[..|s| - 1] == dir + [slash] + name[..|name| - 1];
      NameBehindSlash(dir, slash, name[..|name| - 1]);
      assert name == name[..|name| - 1] + [name[|name| - 1]];
    }
  }

  /** An agent is recognised by its file name in any case, in any directory, with slashes of either kind. */
  lemma AgentInAnyDirectory(dir: string, slash: char, name: string)
    requires slash == '/' || slash == '\\'
    requires forall k :: 0 <= k < |name| ==> name[k] != '/' && name[k] != '\\'
    ensures Basename(dir + [slash] + name) == Lower(name) && Basename(name) == Lower(name)
  {
    hide AfterLastSlash;
    NameBehindSlash(dir, slash, name);
    NoSlash(name);
  }

  /** Case does not matter. */
  lemma LowerFolds(s: string, t: string)
    requires |s| == |t| && forall k :: 0 <= k < |s| ==> t[k] == s[k] || ('A' <= s[k] <= 'Z' && t[k] == s[k] - 'A' + 'a')
    ensures Lower(s) == Lower(t)
  {
  }

  /** The argument asks for help, for the version, or for printing and leaving. */
  predicate EndsClaude(argument: string) {
    || argument in {"--help", "-h", "--version", "-V", "-p", "--print"}
    || "-p=" <= argument || "--print=" <= argument
  }

  lemma {:induction false} NameOfOption(name: string, rest: string)
    requires '=' !in name && (rest == [] || rest[0] == '=')
    ensures OptionName(name + rest) == name
    decreases |name|
  {
    if name == [] {
      assert name + rest == rest;
    } else {
      assert (name + rest)[1..] == name[1..] + rest;
      NameOfOption(name[1..], rest);
    }
  }

  lemma {:induction false} OptionIsPrefix(token: string)
    ensures OptionName(token) <= token
    ensures OptionName(token) != token ==> OptionName(token) + "=" <= token
    decreases |token|
  {
    if token != [] && token[0] != '=' {
      OptionIsPrefix(token[1..]);
      var name := OptionName(token[1..]);
      assert token == [token[0]] + token[1..];
      if name != token[1..] {
        assert name + "=" <= token[1..];
        assert OptionName(token) + "=" == [token[0]] + (name + "=");
      }
    }
  }

  lemma PrintMeans(token: string)
    ensures IsPrint(token) <==> token == "-p" || token == "--print" || "-p=" <= token || "--print=" <= token
  {
    hide OptionName;
    OptionIsPrefix(token);
    assert "-p" + "" == "-p" && "--print" + "" == "--print";
    NameOfOption("-p", "");
    NameOfOption("--print", "");
    if "-p=" <= token {
      assert token == "-p" + token[2..];
      NameOfOption("-p", token[2..]);
    }
    if "--print=" <= token {
      assert token == "--print" + token[7..];
      NameOfOption("--print", token[7..]);
    }
  }

  /** A Claude launch is a session exactly when none of its arguments asks for help, the version or a print. */
  lemma ClaudeArgumentsDecide(executable: string, arguments: seq<string>)
    requires IsClaude(Basename(executable))
    ensures IsInteractiveSession([executable] + arguments) <==> forall argument <- arguments :: !EndsClaude(argument)
  {
    hide OptionName, IsPrint, Basename;
    var tokens := [executable] + arguments;
    assert From(tokens, 1) == arguments;
    EmptyIsNoClaude();
    AgentsDiffer(Executable(tokens));
    forall argument <- arguments
      ensures EndsClaude(argument) <==> IsHelp(argument) || IsVersion(argument) || IsPrint(argument)
    {
      PrintMeans(argument);
    }
  }

  lemma EmptyIsNoClaude()
    ensures !IsClaude(Basename(""))
  {
  }

  lemma AgentsDiffer(executable: string)
    ensures !(IsCodex(executable) && IsClaude(executable))
  {
  }
}

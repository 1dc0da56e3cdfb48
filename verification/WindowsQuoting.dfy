/**
 Quoting of a Windows command line, and the argument rules of the Microsoft C runtime that
 take it apart again ("Parsing C command-line arguments").
 */
module WindowsQuoting {

  const QUOTE: char := '"'
  const BACKSLASH: char := '\\'
  const NUL: char := '\0'

  /** Char.IsWhiteSpace of .NET. */
  predicate IsWhiteSpace(c: char) {
    || '\U{9}' <= c <= '\U{D}' || c == ' ' || c == '\U{85}' || c == '\U{A0}' || c == '\U{1680}'
    || '\U{2000}' <= c <= '\U{200A}' || c == '\U{2028}' || c == '\U{2029}' || c == '\U{202F}'
    || c == '\U{205F}' || c == '\U{3000}'
  }

  function Backslashes(n: nat): (s: string)
    ensures |s| == n
  {
    seq(n, _ => BACKSLASH)
  }

  predicate RequiresQuotes(value: string) {
    value == [] || exists c <- value :: c == QUOTE || IsWhiteSpace(c)
  }

  /** The rest of a quoted argument when `pending` backslashes have not been written yet. */
  function Escaped(value: string, pending: nat): string {
    if value == [] then Backslashes(2 * pending) + [QUOTE]
    else if value[0] == BACKSLASH then Escaped(value[1..], pending + 1)
    else if value[0] == QUOTE then Backslashes(2 * pending + 1) + [QUOTE] + Escaped(value[1..], 0)
    else Backslashes(pending) + [value[0]] + Escaped(value[1..], 0)
  }

  function Quoted(value: string): string {
    if RequiresQuotes(value) then [QUOTE] + Escaped(value, 0) else value
  }

  function CommandLine(arguments: seq<string>): string
    requires arguments != []
    decreases |arguments|
  {
    if |arguments| == 1 then Quoted(arguments[0])
    else Quoted(arguments[0]) + [' '] + CommandLine(arguments[1..])
  }

  /** One more character, with `written` in front of it. */
  lemma EscapedStep(written: string, rest: string, pending: nat)
    requires rest != []
    ensures var c := rest[0];
      written + Escaped(rest, pending) ==
        if c == BACKSLASH then written + Escaped(rest[1..], pending + 1)
        else (written + Backslashes(if c == QUOTE then pending * 2 + 1 else pending) + [c]) + Escaped(rest[1..], 0)
  {
    var n := if rest[0] == QUOTE then pending * 2 + 1 else pending;
    var left, middle, right := written, Backslashes(n) + [rest[0]], Escaped(rest[1..], 0);
    assert left + (middle + right) == (left + middle) + right;
    assert left + middle == written + Backslashes(n) + [rest[0]];
  }

  lemma EscapedEnd(written: string, pending: nat)
    ensures written + Escaped([], pending) == written + Backslashes(pending * 2) + [QUOTE]
  {
  }

  method QuoteArgument(value: string) returns (r: string)
    ensures r == Quoted(value)
  {
    hide Escaped, Backslashes, IsWhiteSpace;
    var requiresQuotes := |value| == 0;
    var index := 0;
    while index < |value| && !requiresQuotes
      invariant index <= |value|
      invariant !requiresQuotes ==> value != [] && forall k :: 0 <= k < index ==> value[k] != QUOTE && !IsWhiteSpace(value[k])
      invariant requiresQuotes ==> RequiresQuotes(value)
    {
      requiresQuotes := value[index] == QUOTE || IsWhiteSpace(value[index]);
      assert value[index] in value;
      index := index + 1;
    }
    if !requiresQuotes {
      return value;
    }
    var quoted := [QUOTE];
    var backslashCount := 0;
    assert value[0..] == value;
    for i := 0 to |value|
      invariant [QUOTE] + Escaped(value, 0) == quoted + Escaped(value[i..], backslashCount)
    {
      var character := value[i];
      assert value[i..][1..] == value[i + 1..];
      EscapedStep(quoted, value[i..], backslashCount);
      if character == BACKSLASH {
        backslashCount := backslashCount + 1;
      } else {
        if character == QUOTE {
          quoted := quoted + Backslashes(backslashCount * 2 + 1) + [QUOTE];
        } else {
          quoted := quoted + Backslashes(backslashCount) + [character];
        }
        backslashCount := 0;
      }
    }
    assert value[|value|..] == [];
    EscapedEnd(quoted, backslashCount);
    r := quoted + Backslashes(backslashCount * 2) + [QUOTE];
  }

  method BuildArguments(cliPath: string, args: seq<string>) returns (commandLine: string)
    ensures commandLine == CommandLine([cliPath] + args)
  {
    commandLine := QuoteArgument(cliPath);
    for i := 0 to |args|
      invariant commandLine == CommandLine([cliPath] + args[..i])
    {
      var quoted := QuoteArgument(args[i]);
      CommandLineAppend([cliPath] + args[..i], args[i]);
      assert [cliPath] + args[..i] + [args[i]] == [cliPath] + args[..i + 1];
      commandLine := commandLine + [' '] + quoted;
    }
    assert args[..|args|] == args;
  }

  lemma {:induction false} CommandLineAppend(arguments: seq<string>, last: string)
    requires arguments != []
    ensures CommandLine(arguments + [last]) == CommandLine(arguments) + [' '] + Quoted(last)
    decreases |arguments|
  {
    assert (arguments + [last])[1..] == arguments[1..] + [last];
    if |arguments| == 1 {
      assert arguments[1..] + [last] == [last];
    } else {
      CommandLineAppend(arguments[1..], last);
    }
  }

  // The argument rules of the C runtime.

  predicate IsDelimiter(c: char) {
    c == ' ' || c == '\t'
  }

  function LeadingBackslashes(s: string): (n: nat)
    ensures n <= |s|
    ensures forall k :: 0 <= k < n ==> s[k] == BACKSLASH
    ensures n < |s| ==> s[n] != BACKSLASH
  {
    if s != [] && s[0] == BACKSLASH then 1 + LeadingBackslashes(s[1..]) else 0
  }

  /**
   The next piece of an argument: the text it stands for, how many characters it takes, and
   whether quoting is on after it. Backslashes are literal unless a quotation mark follows
   them: an even number halves and the mark delimits, an odd number halves and the mark is
   literal. A quotation mark toggles quoting, except that a doubled one inside quotes is literal.
   */
  function Piece(s: string, inQuotes: bool): (r: (string, nat, bool))
    requires s != []
    ensures 0 < r.1 <= |s|
  {
    var n := LeadingBackslashes(s);
    if n > 0 then
      if n == |s| || s[n] != QUOTE then (s[..n], n, inQuotes)
      else if n % 2 == 0 then (s[..n / 2], n, inQuotes)
      else (s[..n / 2] + [QUOTE], n + 1, inQuotes)
    else if s[0] == QUOTE then
      if inQuotes && 1 < |s| && s[1] == QUOTE then ([QUOTE], 2, true)
      else ([], 1, !inQuotes)
    else ([s[0]], 1, inQuotes)
  }

  predicate AtEnd(s: string, inQuotes: bool) {
    s == [] || (!inQuotes && IsDelimiter(s[0]))
  }

  /** One argument and what follows it. */
  function ParseArgument(s: string, inQuotes: bool): (r: (string, string))
    ensures |r.1| <= |s|
    decreases |s|
  {
    if AtEnd(s, inQuotes) then ([], s)
    else
      var (text, taken, quoting) := Piece(s, inQuotes);
      var (rest, after) := ParseArgument(s[taken..], quoting);
      (text + rest, after)
  }

  function SkipDelimiters(s: string): (r: string)
    ensures |r| <= |s|
    ensures r != [] ==> !IsDelimiter(r[0])
    ensures NUL !in s ==> NUL !in r
  {
    if s != [] && IsDelimiter(s[0]) then SkipDelimiters(s[1..]) else s
  }

  lemma ParseArgumentProgress(s: string)
    requires s != [] && !IsDelimiter(s[0])
    ensures |ParseArgument(s, false).1| < |s|
  {
  }

  function ParseArguments(s: string): seq<string>
    decreases |s|
  {
    var t := SkipDelimiters(s);
    if t == [] then []
    else
      ParseArgumentProgress(t);
      var (first, rest) := ParseArgument(t, false);
      [first] + ParseArguments(rest)
  }

  /** A command line ends at its first NUL. */
  function UntilNul(s: string): (r: string)
    ensures NUL !in r
    ensures NUL !in s ==> r == s
  {
    if s == [] || s[0] == NUL then [] else [s[0]] + UntilNul(s[1..])
  }

  function Arguments(commandLine: string): seq<string> {
    ParseArguments(UntilNul(commandLine))
  }

  lemma {:induction false} BackslashRun(n: nat, rest: string)
    requires rest == [] || rest[0] != BACKSLASH
    ensures LeadingBackslashes(Backslashes(n) + rest) == n
    decreases n
  {
    var s := Backslashes(n) + rest;
    if n > 0 {
      assert s[1..] == Backslashes(n - 1) + rest;
      BackslashRun(n - 1, rest);
    } else {
      assert s == rest;
    }
  }

  /** Text after an argument: nothing, or the space that ends it. */
  predicate Boundary(rest: string) {
    rest == [] || rest[0] == ' '
  }

  lemma ParsePiece(s: string, inQuotes: bool, text: string, tail: string, quoting: bool)
    requires !AtEnd(s, inQuotes)
    requires Piece(s, inQuotes) == (text, |s| - |tail|, quoting) && |tail| <= |s| && s[|s| - |tail|..] == tail
    ensures ParseArgument(s, inQuotes) == (text + ParseArgument(tail, quoting).0, ParseArgument(tail, quoting).1)
  {
  }

  lemma ParseRun(n: nat, c: char, tail: string)
    requires c != BACKSLASH && c != QUOTE
    ensures ParseArgument(Backslashes(n) + [c] + tail, true)
         == (Backslashes(n) + [c] + ParseArgument(tail, true).0, ParseArgument(tail, true).1)
  {
    hide ParseArgument;
    var inner := [c] + tail;
    var s := Backslashes(n) + inner;
    assert Backslashes(n) + [c] + tail == s;
    assert LeadingBackslashes(inner) == 0 && inner[1..] == tail;
    ParsePiece(inner, true, [c], tail, true);
    var rest := ParseArgument(tail, true).0;
    assert Backslashes(n) + ([c] + rest) == Backslashes(n) + [c] + rest;
    if n > 0 {
      BackslashRun(n, inner);
      assert s[..n] == Backslashes(n) && s[n..] == inner;
      ParsePiece(s, true, Backslashes(n), inner, true);
    } else {
      assert s == inner && Backslashes(0) + [c] == [c];
    }
  }

  lemma ParseEscapedQuote(n: nat, tail: string)
    ensures ParseArgument(Backslashes(2 * n + 1) + [QUOTE] + tail, true)
         == (Backslashes(n) + [QUOTE] + ParseArgument(tail, true).0, ParseArgument(tail, true).1)
  {
    hide ParseArgument;
    var s := Backslashes(2 * n + 1) + ([QUOTE] + tail);
    assert Backslashes(2 * n + 1) + [QUOTE] + tail == s;
    BackslashRun(2 * n + 1, [QUOTE] + tail);
    assert (2 * n + 1) / 2 == n;
    assert s[..n] == Backslashes(n) && s[2 * n + 2..] == tail;
    ParsePiece(s, true, Backslashes(n) + [QUOTE], tail, true);
  }

  lemma ParseClosing(n: nat, rest: string)
    requires Boundary(rest)
    ensures ParseArgument(Backslashes(2 * n) + [QUOTE] + rest, true) == (Backslashes(n), rest)
  {
    var inner := [QUOTE] + rest;
    var s := Backslashes(2 * n) + inner;
    assert Backslashes(2 * n) + [QUOTE] + rest == s;
    assert LeadingBackslashes(inner) == 0 && inner[1..] == rest;
    assert ParseArgument(rest, false) == ([], rest);
    hide ParseArgument;
    ParsePiece(inner, true, [], rest, false);
    assert Backslashes(n) + [] == Backslashes(n) && (2 * n) / 2 == n;
    var nothing: string := [];
    assert nothing + nothing == nothing;
    if n > 0 {
      BackslashRun(2 * n, inner);
      assert s[..n] == Backslashes(n) && s[2 * n..] == inner;
      ParsePiece(s, true, Backslashes(n), inner, true);
    } else {
      assert s == inner;
    }
  }

  /** Inside quotes the escaped text reads back as the pending backslashes and the value. */
  lemma {:induction false} ParseEscaped(value: string, pending: nat, rest: string)
    requires Boundary(rest)
    ensures ParseArgument(Escaped(value, pending) + rest, true) == (Backslashes(pending) + value, rest)
    decreases |value|
  {
    hide ParseArgument;
    if value == [] {
      ParseClosing(pending, rest);
      assert Backslashes(pending) + [] == Backslashes(pending);
      return;
    }
    var tail := value[1..];
    if value[0] == BACKSLASH {
      ParseEscaped(tail, pending + 1, rest);
      assert Backslashes(pending + 1) + tail == Backslashes(pending) + value;
      return;
    }
    ParseEscaped(tail, 0, rest);
    assert Backslashes(0) + tail == tail;
    assert Backslashes(pending) + [value[0]] + tail == Backslashes(pending) + value;
    var after := Escaped(tail, 0) + rest;
    if value[0] == QUOTE {
      ParseEscapedQuote(pending, after);
      assert Escaped(value, pending) + rest == Backslashes(2 * pending + 1) + [QUOTE] + after;
    } else {
      ParseRun(pending, value[0], after);
      assert Escaped(value, pending) + rest == Backslashes(pending) + [value[0]] + after;
    }
  }

  /** No character that makes quotes necessary. */
  predicate Plain(value: string) {
    forall i :: 0 <= i < |value| ==> value[i] != QUOTE && !IsWhiteSpace(value[i])
  }

  /** What the first piece of an unquoted argument is. */
  lemma PlainPiece(value: string, rest: string) returns (k: nat)
    requires value != [] && Boundary(rest)
    requires Plain(value)
    ensures 0 < k <= |value| && !AtEnd(value + rest, false)
    ensures Piece(value + rest, false) == (value[..k], k, false)
  {
    var s := value + rest;
    var n := LeadingBackslashes(s);
    assert s[0] == value[0];
    assert |value| < |s| ==> s[|value|] == ' ';
    assert n < |value| ==> s[n] == value[n];
    k := if n > 0 then n else 1;
    assert [s[0]] == s[..1] && s[..k] == value[..k];
  }

  /** An argument that needs no quotes reads back as it is. */
  lemma {:induction false} ParsePlain(value: string, rest: string)
    requires Boundary(rest)
    requires Plain(value)
    ensures ParseArgument(value + rest, false) == (value, rest)
    decreases |value|
  {
    if value == [] {
      assert value + rest == rest;
    } else {
      hide ParseArgument, Piece, IsWhiteSpace;
      var k := PlainPiece(value, rest);
      var s, tail := value + rest, value[k..] + rest;
      ParsePlain(value[k..], rest);
      assert |s| - |tail| == k && s[k..] == tail;
      ParsePiece(s, false, value[..k], tail, false);
      assert value[..k] + value[k..] == value;
    }
  }

  lemma QuotedStart(value: string)
    ensures Quoted(value) != [] && !IsDelimiter(Quoted(value)[0])
    ensures RequiresQuotes(value) || Plain(value)
  {
    if !RequiresQuotes(value) {
      assert forall i :: 0 <= i < |value| ==> value[i] in value;
    }
  }

  lemma ParseQuoted(value: string, rest: string)
    requires Boundary(rest)
    ensures ParseArgument(Quoted(value) + rest, false) == (value, rest)
  {
    QuotedStart(value);
    hide ParseArgument, IsWhiteSpace;
    if RequiresQuotes(value) {
      var s, tail := Quoted(value) + rest, Escaped(value, 0) + rest;
      assert LeadingBackslashes(s) == 0 && s[1..] == tail;
      ParsePiece(s, false, [], tail, true);
      ParseEscaped(value, 0, rest);
      assert [] + (Backslashes(0) + value) == value;
    } else {
      ParsePlain(value, rest);
    }
  }

  lemma {:induction false} ParseCommandLine(arguments: seq<string>)
    requires arguments != []
    ensures ParseArguments(CommandLine(arguments)) == arguments
    decreases |arguments|
  {
    hide ParseArgument, Quoted;
    var first := arguments[0];
    var line := CommandLine(arguments);
    if |arguments| == 1 {
      QuotedStart(first);
      ParseQuoted(first, []);
      assert Quoted(first) + [] == line;
    } else {
      var rest := [' '] + CommandLine(arguments[1..]);
      QuotedStart(first);
      ParseQuoted(first, rest);
      assert line == Quoted(first) + rest;
      ParseCommandLine(arguments[1..]);
      LeadingSpace(CommandLine(arguments[1..]));
    }
    assert SkipDelimiters(line) == line;
  }

  lemma LeadingSpace(s: string)
    ensures ParseArguments([' '] + s) == ParseArguments(s)
  {
    assert ([' '] + s)[1..] == s;
  }

  lemma {:induction false} EscapedKeepsCharacters(value: string, pending: nat)
    ensures forall c <- Escaped(value, pending) :: c in value || c == QUOTE || c == BACKSLASH
    decreases |value|
  {
    if value != [] {
      EscapedKeepsCharacters(value[1..], if value[0] == BACKSLASH then pending + 1 else 0);
    }
  }

  lemma {:induction false} CommandLineWithoutNul(arguments: seq<string>)
    requires arguments != [] && forall a <- arguments :: NUL !in a
    ensures NUL !in CommandLine(arguments)
    decreases |arguments|
  {
    EscapedKeepsCharacters(arguments[0], 0);
    assert arguments[0] in arguments;
    if |arguments| > 1 { CommandLineWithoutNul(arguments[1..]); }
  }

  lemma {:induction false} ParseArgumentKeepsNulOut(s: string, inQuotes: bool)
    requires NUL !in s
    ensures NUL !in ParseArgument(s, inQuotes).0 && NUL !in ParseArgument(s, inQuotes).1
    decreases |s|
  {
    if !AtEnd(s, inQuotes) {
      var (text, taken, quoting) := Piece(s, inQuotes);
      assert NUL !in text;
      ParseArgumentKeepsNulOut(s[taken..], quoting);
    }
  }

  lemma {:induction false} ParseArgumentsKeepsNulOut(s: string)
    requires NUL !in s
    ensures forall a <- ParseArguments(s) :: NUL !in a
    decreases |s|
  {
    var t := SkipDelimiters(s);
    if t != [] {
      ParseArgumentProgress(t);
      ParseArgumentKeepsNulOut(t, false);
      ParseArgumentsKeepsNulOut(ParseArgument(t, false).1);
    }
  }

  /**
   The child process receives exactly the path and the arguments, embedded quotes, empty
   arguments and every run of backslashes included, if and only if none contains a NUL.
   */
  lemma RoundTripIff(cliPath: string, args: seq<string>)
    ensures Arguments(CommandLine([cliPath] + args)) == [cliPath] + args
       <==> forall a <- [cliPath] + args :: NUL !in a
  {
    var arguments := [cliPath] + args;
    if forall a <- arguments :: NUL !in a {
      CommandLineWithoutNul(arguments);
      ParseCommandLine(arguments);
    } else {
      var a :| a in arguments && NUL in a;
      ParseArgumentsKeepsNulOut(UntilNul(CommandLine(arguments)));
    }
  }
}

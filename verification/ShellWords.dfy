/** The splitter that reads the leading words of a shell command line. */
module ShellWords {
  import opened Options

  /** ECMAScript `\s`. */
  predicate IsSpace(c: char) {
    || '\t' <= c <= '\r' || c == ' '
    || c as int in {0xA0, 0x1680, 0x2028, 0x2029, 0x202F, 0x205F, 0x3000, 0xFEFF}
    || 0x2000 <= c as int <= 0x200A
  }

  predicate IsQuote(c: char) {
    c == '"' || c == '\''
  }

  /** A word, and whether whitespace ended it. */
  datatype Word = Word(text: string, ended: bool)

  /** Every word of the rest of a command, given the word under way and the open quote. */
  function Words(rest: string, current: string, quote: Option<char>): seq<Word>
    decreases |rest|
  {
    if rest == [] then if current == [] then [] else [Word(current, false)]
    else
      var c := rest[0];
      if quote.Some? then
        if c == quote.value then Words(rest[1..], current, None)
        else Words(rest[1..], current + [c], quote)
      else if IsQuote(c) then Words(rest[1..], current, Some(c))
      else if !IsSpace(c) then Words(rest[1..], current + [c], None)
      else if current == [] then Words(rest[1..], [], None)
      else [Word(current, true)] + Words(rest[1..], [], None)
  }

  function Texts(words: seq<Word>): (r: seq<string>)
    ensures |r| == |words| && forall k :: 0 <= k < |r| ==> r[k] == words[k].text
  {
    seq(|words|, k requires 0 <= k < |words| => words[k].text)
  }

  /** The unlimited split. */
  function Split(command: string): seq<string> {
    Texts(Words(command, [], None))
  }

  function First(tokens: seq<string>, n: nat): seq<string> {
    if |tokens| <= n then tokens else tokens[..n]
  }

  lemma OneMore(tokens: seq<string>, w: Word, rest: seq<Word>)
    ensures tokens + Texts([w] + rest) == (tokens + [w.text]) + Texts(rest)
  {
  }

  lemma Step(rest: string, current: string, quote: Option<char>)
    requires rest != []
    ensures var c := rest[0];
      Words(rest, current, quote)
      == if quote.Some? && c == quote.value then Words(rest[1..], current, None)
         else if quote.Some? then Words(rest[1..], current + [c], quote)
         else if IsQuote(c) then Words(rest[1..], current, Some(c))
         else if !IsSpace(c) then Words(rest[1..], current + [c], None)
         else if current == [] then Words(rest[1..], [], None)
         else [Word(current, true)] + Words(rest[1..], [], None)
  {
  }

  /**
   * For a limit of at least one the result is the first words of the whole split. A limit of zero is
   * only looked at after a word was pushed, so the first word is returned when whitespace ended it.
   */
  method TokenizeLeadingShellWords(command: string, limit: nat) returns (tokens: seq<string>)
    ensures limit >= 1 ==> tokens == First(Split(command), limit)
    ensures limit == 0 ==>
      var all := Words(command, [], None);
      tokens == if all != [] && all[0].ended then [all[0].text] else []
  {
    hide Words;
    tokens := [];
    var current := "";
    var quote: Option<char> := None;
    assert command[0..] == command;
    for i := 0 to |command|
      invariant tokens + Texts(Words(command[i..], current, quote)) == Split(command)
      invariant |tokens| < limit || tokens == []
      invariant limit == 0 ==> Words(command[i..], current, quote) == Words(command, [], None)
    {
      var ch := command[i];
      Step(command[i..], current, quote);
      assert command[i..][1..] == command[i + 1..];
      if quote.Some? {
        if ch == quote.value {
          quote := None;
        } else {
          current := current + [ch];
        }
        continue;
      }
      if ch == '"' || ch == '\'' {
        quote := Some(ch);
        continue;
      }
      if IsSpace(ch) {
        if current != [] {
          OneMore(tokens, Word(current, true), Words(command[i + 1..], [], None));
          tokens := tokens + [current];
          if |tokens| >= limit {
            return;
          }
          current := "";
        }
        continue;
      }
      current := current + [ch];
    }
    AtEnd(current, quote);
    if current != [] && |tokens| < limit {
      tokens := tokens + [current];
    }
  }

  lemma AtEnd(current: string, quote: Option<char>)
    ensures Words([], current, quote) == if current == [] then [] else [Word(current, false)]
  {
  }

  // ---------------------------------------------------------------------------------------------
  // Printing words back
  // ---------------------------------------------------------------------------------------------

  function Quoted(word: string): string {
    ['\''] + word + ['\'']
  }

  /** The words, each in single quotes, joined by spaces. */
  function Print(words: seq<string>): string {
    if words == [] then []
    else if |words| == 1 then Quoted(words[0])
    else Quoted(words[0]) + [' '] + Print(words[1..])
  }

  predicate Printable(word: string) {
    word != [] && '\'' !in word
  }

  lemma {:induction false} InsideQuotes(word: string, tail: string, current: string)
    requires '\'' !in word
    ensures Words(word + ['\''] + tail, current, Some('\'')) == Words(tail, current + word, None)
    decreases |word|
  {
    var rest := word + ['\''] + tail;
    if word == [] {
      assert rest[1..] == tail && current + word == current;
    } else {
      assert rest[1..] == word[1..] + ['\''] + tail;
      InsideQuotes(word[1..], tail, current + [word[0]]);
      assert current + [word[0]] + word[1..] == current + word;
    }
  }

  lemma QuotedWord(word: string, tail: string)
    requires '\'' !in word
    ensures Words(Quoted(word) + tail, [], None) == Words(tail, word, None)
  {
    assert (Quoted(word) + tail)[1..] == word + ['\''] + tail;
    InsideQuotes(word, tail, []);
    assert [] + word == word;
  }

  /** Words in single quotes, joined by spaces, split back to themselves. */
  lemma {:induction false} PrintSplitsBack(words: seq<string>)
    requires forall k :: 0 <= k < |words| ==> Printable(words[k])
    ensures Split(Print(words)) == words
    decreases |words|
  {
    if |words| == 1 {
      assert Print(words) == Quoted(words[0]) + [];
      QuotedWord(words[0], []);
    } else if |words| > 1 {
      var tail := [' '] + Print(words[1..]);
      assert Print(words) == Quoted(words[0]) + tail;
      QuotedWord(words[0], tail);
      assert tail[1..] == Print(words[1..]);
      PrintSplitsBack(words[1..]);
      OneMore([], Word(words[0], true), Words(tail[1..], [], None));
    }
  }

  /** So the leading words of a printed list are its first words. */
  lemma LeadingWordsOfPrint(words: seq<string>, limit: nat)
    requires limit >= 1 && forall k :: 0 <= k < |words| ==> Printable(words[k])
    ensures First(Split(Print(words)), limit) == First(words, limit)
  {
    PrintSplitsBack(words);
  }

  /** No split word is empty. */
  lemma {:induction false} WordsAreNotEmpty(rest: string, current: string, quote: Option<char>)
    ensures forall w <- Words(rest, current, quote) :: w.text != []
    decreases |rest|
  {
    if rest != [] {
      var c := rest[0];
      WordsAreNotEmpty(rest[1..], current, None);
      WordsAreNotEmpty(rest[1..], current + [c], quote);
      WordsAreNotEmpty(rest[1..], current, Some(c));
      WordsAreNotEmpty(rest[1..], [], None);
    }
  }

  /** Splitting is idempotent through printing: quoting what was split and splitting again changes nothing. */
  lemma SplitIsStable(command: string)
    requires forall token <- Split(command) :: '\'' !in token
    ensures Split(Print(Split(command))) == Split(command)
  {
    WordsAreNotEmpty(command, [], None);
    PrintSplitsBack(Split(command));
  }

  // ---------------------------------------------------------------------------------------------
  // Any way of writing a word
  // ---------------------------------------------------------------------------------------------

  /** A stretch of a word: as it is, or between quotes of either kind. */
  datatype Piece = Unquoted(text: string) | Enclosed(mark: char, text: string)

  predicate IsPiece(piece: Piece) {
    match piece
    case Unquoted(text) => forall k :: 0 <= k < |text| ==> !IsQuote(text[k]) && !IsSpace(text[k])
    case Enclosed(mark, text) => IsQuote(mark) && mark !in text
  }

  function Written(pieces: seq<Piece>): string {
    if pieces == [] then []
    else
      (match pieces[0]
       case Unquoted(text) => text
       case Enclosed(mark, text) => [mark] + text + [mark]) + Written(pieces[1..])
  }

  function Meant(pieces: seq<Piece>): string {
    if pieces == [] then [] else pieces[0].text + Meant(pieces[1..])
  }

  lemma {:induction false} EnclosedRead(text: string, mark: char, tail: string, current: string)
    requires mark !in text
    ensures Words(text + [mark] + tail, current, Some(mark)) == Words(tail, current + text, None)
    decreases |text|
  {
    var rest := text + [mark] + tail;
    if text == [] {
      assert rest[1..] == tail && current + text == current;
    } else {
      assert rest[1..] == text[1..] + [mark] + tail;
      EnclosedRead(text[1..], mark, tail, current + [text[0]]);
      assert current + [text[0]] + text[1..] == current + text;
    }
  }

  lemma {:induction false} UnquotedRead(text: string, tail: string, current: string)
    requires IsPiece(Unquoted(text))
    ensures Words(text + tail, current, None) == Words(tail, current + text, None)
    decreases |text|
  {
    if text == [] {
      assert text + tail == tail && current + text == current;
    } else {
      assert (text + tail)[1..] == text[1..] + tail;
      UnquotedRead(text[1..], tail, current + [text[0]]);
      assert current + [text[0]] + text[1..] == current + text;
    }
  }

  lemma PieceRead(piece: Piece, tail: string, current: string)
    requires IsPiece(piece)
    ensures var own := match piece case Unquoted(text) => text case Enclosed(mark, text) => [mark] + text + [mark];
      Words(own + tail, current, None) == Words(tail, current + piece.text, None)
  {
    match piece
    case Unquoted(text) => UnquotedRead(text, tail, current);
    case Enclosed(mark, text) =>
      assert ([mark] + text + [mark] + tail)[1..] == text + [mark] + tail;
      EnclosedRead(text, mark, tail, current);
  }

  lemma {:induction false} PiecesRead(pieces: seq<Piece>, tail: string, current: string)
    requires forall k :: 0 <= k < |pieces| ==> IsPiece(pieces[k])
    ensures Words(Written(pieces) + tail, current, None) == Words(tail, current + Meant(pieces), None)
    decreases |pieces|
  {
    hide Words, IsPiece;
    if pieces == [] {
      assert Written(pieces) + tail == tail && current + Meant(pieces) == current;
    } else {
      var own := match pieces[0] case Unquoted(text) => text case Enclosed(mark, text) => [mark] + text + [mark];
      assert Written(pieces) + tail == own + (Written(pieces[1..]) + tail);
      PieceRead(pieces[0], Written(pieces[1..]) + tail, current);
      PiecesRead(pieces[1..], tail, current + pieces[0].text);
      assert current + pieces[0].text + Meant(pieces[1..]) == current + Meant(pieces);
    }
  }

  lemma {:induction false} GapRead(gap: string, tail: string)
    requires forall k :: 0 <= k < |gap| ==> IsSpace(gap[k])
    ensures Words(gap + tail, [], None) == Words(tail, [], None)
    decreases |gap|
  {
    if gap == [] {
      assert gap + tail == tail;
    } else {
      assert (gap + tail)[1..] == gap[1..] + tail;
      GapRead(gap[1..], tail);
      SpaceIsNoQuote(gap[0]);
    }
  }

  lemma SpaceIsNoQuote(c: char)
    ensures IsSpace(c) ==> !IsQuote(c)
  {
  }

  /** A word as it is written, and the white space in front of it. */
  datatype Entry = Entry(gap: string, pieces: seq<Piece>)

  predicate IsEntry(entry: Entry, first: bool) {
    && (forall k :: 0 <= k < |entry.gap| ==> IsSpace(entry.gap[k])) && (first || entry.gap != [])
    && (forall k :: 0 <= k < |entry.pieces| ==> IsPiece(entry.pieces[k])) && Meant(entry.pieces) != []
  }

  function Line(entries: seq<Entry>): string {
    if entries == [] then [] else entries[0].gap + Written(entries[0].pieces) + Line(entries[1..])
  }

  lemma WordEnds(word: string, rest: string)
    requires rest != [] && IsSpace(rest[0]) && word != []
    ensures Words(rest, word, None) == [Word(word, true)] + Words(rest[1..], [], None)
  {
    SpaceIsNoQuote(rest[0]);
  }

  /** What the line says: the words, the last one ended by the end of the line. */
  lemma {:induction false} LineReads(entries: seq<Entry>, first: bool)
    requires forall k :: 0 <= k < |entries| ==> IsEntry(entries[k], first && k == 0)
    ensures var words := Words(Line(entries), [], None);
      |words| == |entries| && forall k :: 0 <= k < |entries| ==> words[k].text == Meant(entries[k].pieces)
    decreases |entries|
  {
    hide Words, IsPiece, IsSpace, Written, Meant;
    if entries == [] {
      AtEnd([], None);
    } else {
      var e, rest := entries[0], Line(entries[1..]);
      assert IsEntry(e, first);
      assert Line(entries) == e.gap + (Written(e.pieces) + rest);
      GapRead(e.gap, Written(e.pieces) + rest);
      PiecesRead(e.pieces, rest, []);
      assert [] + Meant(e.pieces) == Meant(e.pieces);
      if |entries| == 1 {
        AtEnd(Meant(e.pieces), None);
      } else {
        assert forall k :: 0 <= k < |entries[1..]| ==> entries[1..][k] == entries[k + 1] && IsEntry(entries[k + 1], false);
        LineReads(entries[1..], false);
        var next := entries[1];
        assert IsEntry(next, false) && entries[1..][0] == next;
        assert rest == next.gap + (Written(next.pieces) + Line(entries[1..][1..]));
        WordEnds(Meant(e.pieces), rest);
        GapRead([rest[0]], rest[1..]);
        assert [rest[0]] + rest[1..] == rest;
      }
    }
  }

  /**
   However words are written, with quotes of either kind around any stretch of them and any white space
   between them: the split yields what they mean.
   */
  lemma WrittenWordsSplitBack(entries: seq<Entry>)
    requires forall k :: 0 <= k < |entries| ==> IsEntry(entries[k], k == 0)
    ensures Split(Line(entries)) == seq(|entries|, k requires 0 <= k < |entries| => Meant(entries[k].pieces))
  {
    hide Words, IsEntry, Line;
    LineReads(entries, true);
  }

  /** A quote that is never closed runs to the end of the command. */
  lemma {:induction false} OpenQuoteRunsOn(text: string, mark: char, current: string)
    requires mark !in text
    ensures Words(text, current, Some(mark)) == if current + text == [] then [] else [Word(current + text, false)]
    decreases |text|
  {
    if text == [] {
      assert current + text == current;
    } else {
      OpenQuoteRunsOn(text[1..], mark, current + [text[0]]);
      assert current + [text[0]] + text[1..] == current + text;
    }
  }
}

/** Which rendered rows count as tabs, and which of them as active, told by labels and records. */
module TabReading {
  import opened Options
  import opened RenderedLines
  import opened AccessibilityTree
  import opened TabCompaction
  import opened TreeReading

  /** Latin letters in lower case. */
  function Folded(s: string): (r: string)
    ensures |r| == |s|
  {
    seq(|s|, k requires 0 <= k < |s| => if 'A' <= s[k] <= 'Z' then 'a' + (s[k] - 'A') else s[k])
  }

  lemma {:induction false} RstripFront(head: string, tail: string)
    requires head != "" && head[|head| - 1] != ' '
    ensures head <= Rstrip(head + tail) <= head + tail
  {
    RstripKeepsHead(head, tail);
  }

  /** A label that goes on behind `front`: what the row says behind its index, and how that goes on. */
  lemma RowText(info: Info, index: nat, depth: nat, front: string, rest: string) returns (after: string)
    requires front != "" && front[|front| - 1] != ' ' && info.roleLabel == front + rest
    ensures RenderLine(info, index, depth) == Tabs(depth) + (Decimal(index) + (" " + (front + after)))
    ensures rest == "" || rest[0] in " (," ==> after == "" || after[0] in " (,"
  {
    hide Decimal, Title, FormattedValue, SummaryText, ActionsText, Tabs;
    var head, tail := Decimal(index) + " " + front, rest + " " + Title(info);
    var suffix := FormattedValue(info) + SummaryText(info) + ActionsText(info);
    RstripFront(head, tail);
    hide Rstrip;
    SuffixStart(info);
    assert Decimal(index) + " " + info.roleLabel + " " + Title(info) == head + tail;
    var stripped := Rstrip(head + tail);
    var more := stripped[|head|..];
    assert stripped == head + more;
    assert more <= tail;
    after := more + suffix;
    Behind(Tabs(depth), Decimal(index), front, more, FormattedValue(info), SummaryText(info), ActionsText(info));
  }

  lemma Behind(tabs: string, digits: string, front: string, more: string, value: string, summary: string, actions: string)
    ensures tabs + ((digits + " " + front + more) + value + summary + actions)
         == tabs + (digits + (" " + (front + (more + (value + summary + actions)))))
  {
  }

  lemma LineStart(index: nat, depth: nat, spoken: string)
    ensures var line := Tabs(depth) + (Decimal(index) + (" " + spoken));
      && Tabs(depth) <= line && line[depth..] == Decimal(index) + (" " + spoken)
      && LeadingDigits(line[depth..]) == |Decimal(index)| < |line[depth..]|
      && line[depth..][|Decimal(index)|] == ' ' && line[depth..][|Decimal(index)| + 1..] == spoken
  {
    hide Decimal;
    var line := Tabs(depth) + (Decimal(index) + (" " + spoken));
    assert line[depth..] == Decimal(index) + (" " + spoken);
    DigitRun(Decimal(index), " " + spoken);
  }

  /** A row whose label is that of a tab, in any case and with or without a state behind it, counts as one. */
  lemma TabRowIsTabLine(info: Info, index: nat, depth: nat, label0: string, state: string)
    requires Folded(label0) in {"page tab", "tab item", "tab"} && info.roleLabel == label0 + state
    requires state == "" || state[0] in " (,"
    ensures IsDirectTabLine(RenderLine(info, index, depth), depth)
  {
    hide RenderLine, Decimal, LeadingDigits;
    var k := |label0| - 1;
    assert Folded(label0)[k] != ' ';
    var after := RowText(info, index, depth, label0, state);
    LineStart(index, depth, label0 + after);
    assert Folded(label0) in TAB_WORDS by { Words(Folded(label0)); }
    assert StartsWithWord(label0 + after, Folded(label0)) by { SpokenWord(label0, after); }
  }

  lemma Words(word: string)
    ensures word in TAB_WORDS <==> word in {"page tab", "tab item", "tab"}
  {
    assert TAB_WORDS[0] == "page tab" && TAB_WORDS[1] == "tab item" && TAB_WORDS[2] == "tab";
  }

  lemma SpokenWord(label0: string, after: string)
    requires after == "" || after[0] in " (,"
    ensures StartsWithWord(label0 + after, Folded(label0))
  {
    assert (label0 + after)[|label0|..] == after;
  }

  /** A row whose label begins neither with `tab` nor with `page` does not, whatever it says behind the label. */
  lemma OtherRowIsNoTabLine(info: Info, index: nat, rendered: nat, depth: nat)
    requires |info.roleLabel| >= 4 && info.roleLabel[3] != ' '
    requires Folded(info.roleLabel[..3]) != "tab" && Folded(info.roleLabel[..4]) != "page"
    ensures !IsDirectTabLine(RenderLine(info, index, rendered), depth)
  {
    hide RenderLine, Decimal, LeadingDigits, ElementIndex;
    var line, front := RenderLine(info, index, rendered), info.roleLabel[..4];
    TabLineDepth(info, index, rendered, depth);
    assert info.roleLabel[..3] == front[..3];
    if IsDirectTabLine(line, depth) {
      assert info.roleLabel == front + info.roleLabel[4..];
      var after := RowText(info, index, depth, front, info.roleLabel[4..]);
      LineStart(index, depth, front + after);
      var word :| word in TAB_WORDS && StartsWithWord(front + after, word);
      Words(word);
      NoWord(front, after, word);
    }
  }

  lemma NoWord(front: string, after: string, word: string)
    requires |front| == 4 && StartsWithWord(front + after, word) && word in {"page tab", "tab item", "tab"}
    ensures Folded(front[..3]) == "tab" || Folded(front) == "page"
  {
    if word == "page tab" {
      assert Folded(front) == word[..4];
    } else {
      assert Folded(front[..3]) == word[..3];
    }
  }

  // Which of them are active.

  lemma SaysIsContains(line: string, part: string)
    ensures Says(line, part) <==> Contains(line, part)
  {
    if Says(line, part) {
      var i, j :| 0 <= i <= j <= |line| && line[i..j] == part;
      assert j == i + |part|;
      assert OccursAt(line, part, i);
    }
  }

  /** The last record of an index. */
  predicate IsLastOf(records: seq<Record>, index: nat, k: nat) {
    && k < |records| && records[k].index == index
    && forall j :: k < j < |records| ==> records[j].index != index
  }

  lemma {:induction false} LastRecord(records: seq<Record>, index: nat) returns (k: nat)
    ensures if RecordByIndex(records, index).None? then forall j :: 0 <= j < |records| ==> records[j].index != index
            else IsLastOf(records, index, k) && RecordByIndex(records, index) == Some(records[k])
  {
    k := 0;
    if records != [] {
      if records[|records| - 1].index == index {
        k := |records| - 1;
      } else {
        k := LastRecord(records[..|records| - 1], index);
      }
    }
  }

  /**
   A tab line is active exactly when it says that it is selected, or when the last record of the index it
   shows is selected or has the value 1.
   */
  lemma ActiveIff(line: string, depth: nat, records: seq<Record>)
    ensures IsActiveTabLine(line, depth, records) <==>
      || Says(line, "(selected")
      || exists k :: 0 <= k < |records| && IsLastOf(records, records[k].index, k)
                     && ElementIndex(line, depth) == Some(records[k].index)
                     && (records[k].info.selected || records[k].info.value == "1")
  {
    hide ElementIndex, RecordByIndex, Contains, Says;
    SaysIsContains(line, "(selected");
    if ElementIndex(line, depth).Some? {
      var index := ElementIndex(line, depth).value;
      var last := LastRecord(records, index);
      forall k | 0 <= k < |records| && IsLastOf(records, index, k)
        ensures RecordByIndex(records, index) == Some(records[k])
      {
        assert k == last;
      }
    }
  }
}

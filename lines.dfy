/** Turning raw text into the cleaned line lists that the comparator works on. */
module LineCleaning {
  import opened Seqs
  import opened PyStr

  /** `[line.strip() for line in lines if line.strip()]` */
  function StrippedNonBlank(lines: seq<string>): seq<string> {
    if lines == [] then []
    else (if HasContent(lines[0]) then [Strip(lines[0])] else []) + StrippedNonBlank(lines[1..])
  }

  /** The comprehension keeps the order of its input: it distributes over concatenation. */
  lemma {:induction false} StrippedNonBlankAppend(xs: seq<string>, ys: seq<string>)
    ensures StrippedNonBlank(xs + ys) == StrippedNonBlank(xs) + StrippedNonBlank(ys)
  {
    if xs == [] {
      assert xs + ys == ys;
    } else {
      assert (xs + ys)[1..] == xs[1..] + ys;
      StrippedNonBlankAppend(xs[1..], ys);
    }
  }

  /** Every kept line is non-empty and has no whitespace at either end, and
      there are no more of them than input lines. */
  lemma {:induction false} StrippedNonBlankLines(lines: seq<string>)
    ensures |StrippedNonBlank(lines)| <= |lines|
    ensures forall k :: 0 <= k < |StrippedNonBlank(lines)| ==>
      var l := StrippedNonBlank(lines)[k]; l != "" && !IsSpace(l[0]) && !IsSpace(l[|l| - 1])
  {
    if lines != [] {
      StrippedNonBlankLines(lines[1..]);
      StripSpec(lines[0]);
      var head := if HasContent(lines[0]) then [Strip(lines[0])] else [];
      assert StrippedNonBlank(lines) == head + StrippedNonBlank(lines[1..]);
    }
  }

  /** A character absent from every input line is absent from every output line. */
  lemma {:induction false} StrippedNonBlankAvoids(lines: seq<string>, c: char)
    requires forall k :: 0 <= k < |lines| ==> c !in lines[k]
    ensures forall k :: 0 <= k < |StrippedNonBlank(lines)| ==> c !in StrippedNonBlank(lines)[k]
  {
    if lines != [] {
      StrippedNonBlankAvoids(lines[1..], c);
      StripSpec(lines[0]);
      var head := if HasContent(lines[0]) then [Strip(lines[0])] else [];
      assert StrippedNonBlank(lines) == head + StrippedNonBlank(lines[1..]);
    }
  }

  /** `[line for line in lines if line.strip()]` */
  function NonBlank(lines: seq<string>): seq<string> {
    Filter(HasContent, lines)
  }

  /** Each piece followed by a line break. */
  function WithNewlines(pieces: seq<string>): (r: seq<string>)
    ensures |r| == |pieces|
    ensures forall k :: 0 <= k < |r| ==> r[k] == pieces[k] + "\n"
  {
    if pieces == [] then [] else [pieces[0] + "\n"] + WithNewlines(pieces[1..])
  }

  /** The lines that iterating over a text file yields, given its text after
      newline translation: the pieces between line breaks, each followed by its
      line break, and a final piece without one only when it is not empty. */
  function FileLines(text: string): seq<string> {
    var pieces := Split(text, '\n');
    var last := pieces[|pieces| - 1];
    WithNewlines(pieces[..|pieces| - 1]) + (if last == "" then [] else [last])
  }

  /** The lines concatenate back to the text. */
  lemma FileLinesConcat(text: string)
    ensures Flatten(FileLines(text)) == text
  {
    var pieces := Split(text, '\n');
    var n := |pieces|;
    var init, last := pieces[..n - 1], pieces[n - 1];
    JoinOfSplit(text, '\n');
    assert pieces == init + [last];
    FlattenWithNewlines(init, last);
    if last == "" {
      FlattenAppend(WithNewlines(init), []);
    } else {
      FlattenAppend(WithNewlines(init), [last]);
    }
  }

  /** No line is empty; every line but the last ends with a line break, and no
      line has one anywhere else. */
  lemma FileLinesBreaks(text: string)
    ensures forall k :: 0 <= k < |FileLines(text)| ==> FileLines(text)[k] != ""
    ensures forall k :: 0 <= k < |FileLines(text)| - 1 ==>
      FileLines(text)[k][|FileLines(text)[k]| - 1] == '\n'
    ensures forall k, m :: 0 <= k < |FileLines(text)| && 0 <= m < |FileLines(text)[k]| - 1 ==>
      FileLines(text)[k][m] != '\n'
  {
    var pieces := Split(text, '\n');
    var n := |pieces|;
    var init, last := pieces[..n - 1], pieces[n - 1];
    var r := FileLines(text);
    SplitPieces(text, '\n');
    assert |r| == n - 1 || |r| == n;
    forall k | 0 <= k < |r|
      ensures r[k] != "" && (k < |r| - 1 ==> r[k][|r[k]| - 1] == '\n')
      ensures forall m :: 0 <= m < |r[k]| - 1 ==> r[k][m] != '\n'
    {
      if k < n - 1 {
        assert r[k] == pieces[k] + "\n";
        assert '\n' !in pieces[k];
      } else {
        assert r[k] == last && '\n' !in last;
      }
    }
  }

  lemma {:induction false} FlattenWithNewlines(pieces: seq<string>, last: string)
    ensures Flatten(WithNewlines(pieces)) + last == Join(pieces + [last], "\n")
  {
    if pieces != [] {
      FlattenWithNewlines(pieces[1..], last);
      assert (pieces + [last])[1..] == pieces[1..] + [last];
    }
  }

  /** Reading a text file line by line and cleaning the lines gives the same
      list as splitting its text on line breaks and cleaning the pieces. */
  lemma {:induction false} FileLinesCleanLikeSplit(text: string)
    ensures StrippedNonBlank(FileLines(text)) == StrippedNonBlank(Split(text, '\n'))
  {
    var pieces := Split(text, '\n');
    var n := |pieces|;
    var init, last := pieces[..n - 1], pieces[n - 1];
    var tail := if last == "" then [] else [last];
    assert FileLines(text) == WithNewlines(init) + tail;
    assert StrippedNonBlank(tail) == StrippedNonBlank([last]) by {
      if last == "" {
        assert !HasContent(last);
        assert StrippedNonBlank([last]) == [] + StrippedNonBlank([]);
      }
    }
    calc {
      StrippedNonBlank(FileLines(text));
    == { StrippedNonBlankAppend(WithNewlines(init), tail); }
      StrippedNonBlank(WithNewlines(init)) + StrippedNonBlank(tail);
    == { NewlineIgnored(init); }
      StrippedNonBlank(init) + StrippedNonBlank([last]);
    == { StrippedNonBlankAppend(init, [last]); assert init + [last] == pieces; }
      StrippedNonBlank(pieces);
    }
  }

  lemma {:induction false} NewlineIgnored(pieces: seq<string>)
    ensures StrippedNonBlank(WithNewlines(pieces)) == StrippedNonBlank(pieces)
  {
    if pieces != [] {
      NewlineIgnored(pieces[1..]);
      StripAppendSpace(pieces[0], '\n');
      assert pieces[0] + "\n" == pieces[0] + ['\n'];
    }
  }
}

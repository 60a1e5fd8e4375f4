/** `FileCompareApp` (gui.py): what the window shows after a comparison. The
    two text panes are modelled by their text and by the lines that carry the
    highlight tag; widgets, dialogs and scrolling are outside the model. */
module Gui {
  import opened Outcome
  import opened Seqs
  import opened PyStr
  import opened LineCleaning
  import opened Comparator

  const NoFilesMessage := "请选择两个要比较的文件"

  /** How a click on the compare button ends: the results are shown, the
      missing-file message is shown, or the comparator raised `error`. */
  datatype CompareOutcome = Shown(comparison: Comparison) | NoFiles | Raised(error: Exception)

  /** The positions in the diff list whose line starts with `"- "`. */
  function RemovedPositions(diffLines: seq<string>): set<nat> {
    set k: nat | k < |diffLines| && StartsWith(diffLines[k], "- ")
  }

  /** The positions in the diff list whose line starts with `"+ "` and not
      with `"- "`. */
  function AddedPositions(diffLines: seq<string>): set<nat> {
    set k: nat | k < |diffLines| && !StartsWith(diffLines[k], "- ") && StartsWith(diffLines[k], "+ ")
  }

  /** The lines `i` of a pane showing `count` lines that the loops at
      gui.py:143-151 tag: those whose index is in the diff map. */
  function TaggedLines(count: nat, diffMap: set<nat>): set<nat> {
    set i: nat | i < count && i in diffMap
  }

  /** The text a pane holds after each line has been inserted with a line
      break after it. */
  function Rendered(lines: seq<string>): string {
    Flatten(WithNewlines(lines))
  }

  /** The loop at gui.py:131-140: `diff_map1`, `diff_map2` and the final value
      of `current_line`. */
  method BuildDiffMaps(diffLines: seq<string>) returns (diffMap1: set<nat>, diffMap2: set<nat>, currentLine: nat)
    ensures forall k: nat :: k in diffMap1 <==> k < |diffLines| && StartsWith(diffLines[k], "- ")
    ensures forall k: nat :: k in diffMap2 <==> k < |diffLines| && !StartsWith(diffLines[k], "- ") && StartsWith(diffLines[k], "+ ")
    ensures diffMap1 == RemovedPositions(diffLines) && diffMap2 == AddedPositions(diffLines)
    ensures diffMap1 !! diffMap2
    ensures currentLine == |diffLines|
  {
    diffMap1, diffMap2 := {}, {};
    currentLine := 0;
    while currentLine < |diffLines|
      invariant currentLine <= |diffLines|
      invariant forall k: nat :: k in diffMap1 <==> k < currentLine && StartsWith(diffLines[k], "- ")
      invariant forall k: nat :: k in diffMap2 <==> k < currentLine && !StartsWith(diffLines[k], "- ") && StartsWith(diffLines[k], "+ ")
    {
      var diff := diffLines[currentLine];
      if StartsWith(diff, "- ") {
        diffMap1 := diffMap1 + {currentLine};
      } else if StartsWith(diff, "+ ") {
        diffMap2 := diffMap2 + {currentLine};
      }
      currentLine := currentLine + 1;
    }
  }

  /** The text `str(len(diff_lines))` shown as the difference count (gui.py:112). */
  function DiffCountText(diffLines: seq<string>): (t: string)
    ensures |t| >= 1 && (t[0] == '0' ==> t == "0") && forall c :: c in t ==> '0' <= c <= '9'
    ensures DecimalValue(t) == |diffLines|
  {
    NatToString(|diffLines|)
  }

  /** A `tk.Text` pane: its text, and the 0-based indices `i` of the lines
      `f"{i+1}.0"` to `f"{i+1}.end"` that carry the pane's highlight tag. */
  class TextView {
    var content: string
    var tagged: set<nat>

    constructor()
      ensures content == "" && tagged == {}
    {
      content := "";
      tagged := {};
    }

    /** `delete(1.0, tk.END)`: the text goes, and the tags with it. */
    method Clear()
      modifies this
      ensures content == "" && tagged == {}
    {
      content := "";
      tagged := {};
    }

    /** `insert(tk.END, s)` */
    method Insert(s: string)
      modifies this
      ensures content == old(content) + s && tagged == old(tagged)
    {
      content := content + s;
    }

    /** `tag_add(tag, f"{i+1}.0", f"{i+1}.end")` */
    method TagLine(i: nat)
      modifies this
      ensures content == old(content) && tagged == old(tagged) + {i}
    {
      tagged := tagged + {i};
    }

    /** One of the loops at gui.py:143-151 on a cleared pane: every line is
        inserted with a line break, and line `i` is tagged when `i` is in the
        diff map. */
    method ShowLines(lines: seq<string>, diffMap: set<nat>)
      modifies this
      requires content == "" && tagged == {}
      ensures content == Rendered(lines)
      ensures tagged == TaggedLines(|lines|, diffMap)
    {
      for i := 0 to |lines|
        invariant content == Rendered(lines[..i])
        invariant tagged == TaggedLines(i, diffMap)
      {
        RenderedSnoc(lines[..i], lines[i]);
        assert lines[..i + 1] == lines[..i] + [lines[i]];
        Insert(lines[i] + "\n");
        if i in diffMap {
          TagLine(i);
        }
      }
      assert lines[..|lines|] == lines;
    }
  }

  lemma RenderedSnoc(lines: seq<string>, line: string)
    ensures Rendered(lines + [line]) == Rendered(lines) + (line + "\n")
  {
    var ws := WithNewlines(lines);
    assert WithNewlines(lines + [line]) == ws + [line + "\n"];
    FlattenAppend(ws, [line + "\n"]);
    assert Flatten([line + "\n"]) == line + "\n" + Flatten([]);
  }

  /** `FileCompareApp` after `__init__`: the comparator it uses and the state
      of the result area. */
  class FileCompareApp {
    const comparator: FileComparator
    const text1: TextView
    const text2: TextView
    /** The value behind `similarity_var`; its formatting as a percentage is not modelled. */
    var similarity: real
    /** `diff_var` */
    var diffCount: string
    /** The messages shown with `messagebox.showerror`, in order. */
    var errors: seq<string>

    predicate Valid()
      reads this
    {
      text1 != text2
    }

    /** `__init__` (gui.py:6-21): the comparator is `FileComparator()`. */
    constructor()
      ensures Valid() && fresh(comparator) && fresh(text1) && fresh(text2)
      ensures comparator.algorithm == DefaultAlgorithm && !comparator.trained
      ensures text1.content == "" && text1.tagged == {} && text2.content == "" && text2.tagged == {}
      ensures errors == [] && diffCount == ""
    {
      comparator := new FileComparator(DefaultAlgorithm);
      text1 := new TextView();
      text2 := new TextView();
      similarity := 0.0;
      diffCount := "";
      errors := [];
    }

    /** `compare_files` (gui.py:95-115) and `display_file_with_highlight`
        (gui.py:117-151). Without two paths an error is shown and nothing
        else changes; an exception of the comparator ends the call with both
        panes cleared; otherwise the score and the count are shown and each
        pane holds its file's lines, tagged as the diff maps say. */
    method CompareFiles(file1: string, content1: FileContent, file2: string, content2: FileContent, lib: Library)
      returns (r: CompareOutcome)
      requires Valid()
      modifies this, text1, text2
      ensures Valid()
      ensures file1 == "" || file2 == "" ==>
        && r == NoFiles
        && errors == old(errors) + [NoFilesMessage]
        && diffCount == old(diffCount) && similarity == old(similarity)
        && unchanged(text1, text2)
      ensures file1 != "" && file2 != "" ==>
        && r != NoFiles && errors == old(errors)
        && match CompareResult(comparator.algorithm, comparator.trained, file1, content1, file2, content2, DefaultMode, lib)
           case Failure(e) => r == Raised(e)
           case Success(c) => r == Shown(c)
      ensures r.Raised? ==>
        && text1.content == "" && text1.tagged == {} && text2.content == "" && text2.tagged == {}
        && similarity == old(similarity) && diffCount == old(diffCount)
      ensures r.Shown? ==>
        var lines1, lines2 := FileLinesOf(file1, content1).value, FileLinesOf(file2, content2).value;
        && similarity == r.comparison.similarity
        && diffCount == DiffCountText(r.comparison.diffs)
        && text1.content == Rendered(lines1) && text2.content == Rendered(lines2)
        && text1.tagged == TaggedLines(|lines1|, RemovedPositions(r.comparison.diffs))
        && text2.tagged == TaggedLines(|lines2|, AddedPositions(r.comparison.diffs))
    {
      if file1 == "" || file2 == "" {
        errors := errors + [NoFilesMessage];
        return NoFiles;
      }
      text1.Clear();
      text2.Clear();
      var result := comparator.CompareFiles(file1, content1, file2, content2, DefaultMode, lib);
      if result.Failure? {
        return Raised(result.error);
      }
      var c := result.value;
      similarity := c.similarity;
      diffCount := NatToString(|c.diffs|);
      DisplayWithHighlight(file1, content1, file2, content2, c.diffs);
      return Shown(c);
    }

    /** `display_file_with_highlight` (gui.py:117-151), for files that
        loaded once already. */
    method DisplayWithHighlight(file1: string, content1: FileContent, file2: string, content2: FileContent,
                                diffLines: seq<string>)
      requires Valid()
      requires FileLinesOf(file1, content1).Success? && FileLinesOf(file2, content2).Success?
      modifies text1, text2
      ensures var lines1, lines2 := FileLinesOf(file1, content1).value, FileLinesOf(file2, content2).value;
        && text1.content == Rendered(lines1) && text2.content == Rendered(lines2)
        && text1.tagged == TaggedLines(|lines1|, RemovedPositions(diffLines))
        && text2.tagged == TaggedLines(|lines2|, AddedPositions(diffLines))
    {
      var r1 := comparator.GetFileLines(file1, content1);
      var r2 := comparator.GetFileLines(file2, content2);
      text1.Clear();
      text2.Clear();
      var diffMap1, diffMap2, _ := BuildDiffMaps(diffLines);
      text1.ShowLines(r1.value, diffMap1);
      text2.ShowLines(r2.value, diffMap2);
    }
  }
}

/** What the window shows, set against what the comparator reports. */
module GuiProperties {
  import opened Seqs
  import opened PyStr
  import opened LineCleaning
  import opened Opcodes
  import opened Comparator
  import opened ComparatorProperties
  import opened Gui

  /** Line `i + 1` of a pane shows line `i` of its file: splitting the pane's
      text at line breaks gives the lines back, and an empty last line. */
  lemma RenderedLines(lines: seq<string>)
    requires forall k :: 0 <= k < |lines| ==> '\n' !in lines[k]
    ensures Split(Rendered(lines), '\n') == lines + [""]
  {
    FlattenWithNewlines(lines, "");
    assert Rendered(lines) + "" == Rendered(lines);
    SplitJoinRoundTrip(lines + [""], '\n');
  }

  /** For the lines the comparator loads, the panes show exactly them. */
  lemma PanesShowLoadedLines(path: string, content: FileContent)
    requires FileLinesOf(path, content).Success?
    ensures Split(Rendered(FileLinesOf(path, content).value), '\n') == FileLinesOf(path, content).value + [""]
  {
    LoadedLinesClean(path, content);
    RenderedLines(FileLinesOf(path, content).value);
  }

  /** On a line-mode report, the first diff map holds the positions of the
      removed lines and the second those of the added lines. */
  lemma DiffMapsOfLineReport(a: seq<string>, b: seq<string>, ops: seq<Opcode>)
    requires Chain(ops, a, b)
    ensures forall k: nat :: k in RemovedPositions(LineDiffs(a, b, ops)) <==> k < |DiffRows(ops)| && DiffRows(ops)[k].Removed?
    ensures forall k: nat :: k in AddedPositions(LineDiffs(a, b, ops)) <==> k < |DiffRows(ops)| && DiffRows(ops)[k].Added?
  {
    var diffs, rows := LineDiffs(a, b, ops), DiffRows(ops);
    DiffRowsMeaning(a, b, ops);
    forall k: nat | k < |rows|
      ensures StartsWith(diffs[k], "- ") <==> rows[k].Removed?
      ensures StartsWith(diffs[k], "+ ") <==> rows[k].Added?
    {
      assert RowMeaning(a, b, ops, rows[k], diffs[k]);
      var rest := if rows[k].Removed? then a[rows[k].row] else b[rows[k].row];
      assert diffs[k] == (if rows[k].Removed? then "- " else "+ ") + rest;
      assert diffs[k][..2] == (if rows[k].Removed? then "- " else "+ ");
    }
  }

  /** Two two-line files that differ in their second line: the window tags
      line 1 of file 1, which is the same in both files, and leaves its
      changed line 2 untagged. */
  lemma HighlightByPosition()
    ensures var lines1, lines2 := ["x", "a"], ["x", "b"];
      var ops := [Opcode(Equal, 0, 1, 0, 1), Opcode(Replace, 1, 2, 1, 2)];
      var diffs := LineDiffs(lines1, lines2, ops);
      && IsOpcodes(ops, lines1, lines2)
      && diffs == ["- a", "+ b"]
      && TaggedLines(|lines1|, RemovedPositions(diffs)) == {0}
      && lines1[0] == lines2[0] && lines1[1] != lines2[1]
  {
    ExampleOpcodes();
    ExampleDiffs();
    var diffs: seq<string> := ["- a", "+ b"];
    assert StartsWith(diffs[0], "- ") && !StartsWith(diffs[1], "- ");
    assert 0 in TaggedLines(2, RemovedPositions(diffs));
  }

  lemma ExampleOpcodes()
    ensures IsOpcodes([Opcode(Equal, 0, 1, 0, 1), Opcode(Replace, 1, 2, 1, 2)], ["x", "a"], ["x", "b"])
  {
    var lines1, lines2: seq<string> := ["x", "a"], ["x", "b"];
    var e := Opcode(Equal, 0, 1, 0, 1);
    assert [e, Opcode(Replace, 1, 2, 1, 2)][..1] == [e] && [e][..0] == [];
    assert lines1[0..1] == lines2[0..1];
    assert Chain([e][..0], lines1, lines2) && Step(e, lines1, lines2, 0, 0);
    assert Chain([e], lines1, lines2);
  }

  lemma ExampleDiffs()
    ensures LineDiffs(["x", "a"], ["x", "b"], [Opcode(Equal, 0, 1, 0, 1), Opcode(Replace, 1, 2, 1, 2)]) == ["- a", "+ b"]
  {
    var lines1, lines2: seq<string> := ["x", "a"], ["x", "b"];
    var e, r := Opcode(Equal, 0, 1, 0, 1), Opcode(Replace, 1, 2, 1, 2);
    var ops := [e, r];
    assert ops[..1] == [e] && [e][..0] == [];
    assert LineDiffs(lines1, lines2, [e]) == [];
    assert Slice(lines1, 1, 2) == ["a"] && Slice(lines2, 1, 2) == ["b"];
    assert "- " + "a" == "- a" && "+ " + "b" == "+ b";
    assert OpLineDiffs(lines1, lines2, r) == Prefixed("- ", ["a"]) + Prefixed("+ ", ["b"]) == ["- a", "+ b"];
  }

  /** Line `i` (0-based) of file 1 is in the 1-based range `file1_lines` of
      a line record. */
  predicate NamedInFile1(details: seq<DiffDetail>, i: nat) {
    exists d :: d in details && d.LineDetail? && d.file1Lines.0 <= i + 1 <= d.file1Lines.1
  }

  /** Line `j` of file 2 is in the range `file2_lines` of a line record. */
  predicate NamedInFile2(details: seq<DiffDetail>, j: nat) {
    exists d :: d in details && d.LineDetail? && d.file2Lines.0 <= j + 1 <= d.file2Lines.1
  }

  /** The lines of a pane of file 1 to tag, read from the records. */
  function ChangedLines1(count: nat, details: seq<DiffDetail>): set<nat> {
    set i: nat | i < count && NamedInFile1(details, i)
  }

  /** The lines of a pane of file 2 to tag, read from the records. */
  function ChangedLines2(count: nat, details: seq<DiffDetail>): set<nat> {
    set j: nat | j < count && NamedInFile2(details, j)
  }

  /** Tagging the lines the line-mode records name tags exactly the lines of
      each file that a change removes or adds. */
  lemma ChangedLinesAreEdited(a: seq<string>, b: seq<string>, ops: seq<Opcode>)
    requires Chain(ops, a, b)
    ensures forall i: nat :: i in ChangedLines1(|a|, LineDetails(a, b, ops)) <==>
      i < |a| && exists o :: o in ops && IsEdit(o) && o.i1 <= i < o.i2
    ensures forall j: nat :: j in ChangedLines2(|b|, LineDetails(a, b, ops)) <==>
      j < |b| && exists o :: o in ops && IsEdit(o) && o.j1 <= j < o.j2
  {
    var ds, es := LineDetails(a, b, ops), Edits(ops);
    LineDetailsPerEdit(a, b, ops);
    EditsAreOps(ops);
    forall d | d in ds
      ensures exists o :: o in ops && IsEdit(o) && d == LineRecord(a, b, o)
    {
      var k :| 0 <= k < |ds| && ds[k] == d;
      assert es[k] in ops && IsEdit(es[k]);
    }
    forall o | o in ops && IsEdit(o)
      ensures LineRecord(a, b, o) in ds
    {
      EditsComplete(ops, o);
      var k :| 0 <= k < |es| && es[k] == o;
      assert ds[k] == LineRecord(a, b, o);
    }
  }
}

/** What `FileComparator` promises about its score and its difference report. */
module ComparatorProperties {
  import opened Outcome
  import opened Seqs
  import opened PyStr
  import opened LineCleaning
  import opened Opcodes
  import opened Comparator
  import PdfParser
  import WordParser
  import WordParserProperties

  predicate InUnit(x: real) {
    0.0 <= x <= 1.0
  }

  /** The lexical score is a weighted mean: it lies in [0, 1] with its three
      ratios, it is 1 exactly when all three are 1 and 0 exactly when all three
      are 0, and three equal ratios give that ratio back. */
  lemma LexicalScoreBounds(r: Ratios)
    requires InUnit(r.charLevel) && InUnit(r.tokenLevel) && InUnit(r.lineLevel)
    ensures InUnit(LexicalScore(r))
    ensures LexicalScore(r) == 1.0 <==> r.charLevel == 1.0 && r.tokenLevel == 1.0 && r.lineLevel == 1.0
    ensures LexicalScore(r) == 0.0 <==> r.charLevel == 0.0 && r.tokenLevel == 0.0 && r.lineLevel == 0.0
    ensures r.charLevel == r.tokenLevel == r.lineLevel ==> LexicalScore(r) == r.charLevel
  {
  }

  /** `calculate_similarity` raises exactly for an untrained word2vec
      comparator, for two texts without a token under a trained one, and for
      an unknown algorithm, with these messages; a trained word2vec comparator
      whose vectors include a zero vector scores 0. */
  lemma SimilarityErrors(algorithm: string, trained: bool, r: Ratios, v: Vectors)
    ensures Similarity(algorithm, trained, r, v).Failure? <==>
      algorithm != "difflib" && (algorithm != "word2vec" || !trained || (v.words1 == [] && v.words2 == []))
    ensures algorithm == "word2vec" && !trained ==>
      Similarity(algorithm, trained, r, v) == Failure(ValueError("Word2Vec模型未训练"))
    ensures algorithm != "difflib" && algorithm != "word2vec" ==>
      Similarity(algorithm, trained, r, v) == Failure(ValueError("不支持的算法: " + algorithm))
    ensures algorithm == "word2vec" && trained && v.words1 == [] && v.words2 == [] ==>
      Similarity(algorithm, trained, r, v) == Failure(ValueError(EmptyVocabulary))
    ensures algorithm == "word2vec" && trained && (v.words1 != [] || v.words2 != []) && (v.norm1 == 0.0 || v.norm2 == 0.0) ==>
      Similarity(algorithm, trained, r, v) == Success(0.0)
  {
  }

  /** With the Cauchy-Schwarz bound that numpy's vectors satisfy, the cosine
      lies in [-1, 1]. */
  lemma CosineBounds(v: Vectors)
    requires v.norm1 > 0.0 && v.norm2 > 0.0
    requires -(v.norm1 * v.norm2) <= v.dot <= v.norm1 * v.norm2
    ensures -1.0 <= Cosine(v) <= 1.0
  {
    var p := v.norm1 * v.norm2;
    assert p > 0.0;
    QuotientBounds(v.dot, p);
    assert Cosine(v) == v.dot / p;
  }

  lemma QuotientBounds(d: real, p: real)
    requires p > 0.0 && -p <= d <= p
    ensures -1.0 <= d / p <= 1.0
  {
  }

  /** Line mode emits one record per opcode that is not `equal`, in opcode
      order. */
  lemma {:induction false} LineDetailsPerEdit(a: seq<string>, b: seq<string>, ops: seq<Opcode>)
    ensures |LineDetails(a, b, ops)| == |Edits(ops)|
    ensures forall k :: 0 <= k < |Edits(ops)| ==> LineDetails(a, b, ops)[k] == LineRecord(a, b, Edits(ops)[k])
  {
    if ops != [] {
      LineDetailsPerEdit(a, b, ops[..|ops| - 1]);
    }
  }

  /** For difflib's opcodes, record `k` describes the `k`-th change: its tag,
      its 1-based first and last line in each file, and exactly the lines of
      each file in that range. */
  lemma LineRecordsDescribeEdits(a: seq<string>, b: seq<string>, ops: seq<Opcode>)
    requires Chain(ops, a, b)
    ensures |LineDetails(a, b, ops)| == |Edits(ops)|
    ensures forall k :: 0 <= k < |Edits(ops)| ==>
      var d, e := LineDetails(a, b, ops)[k], Edits(ops)[k];
      && d.LineDetail? && d.kind == e.tag && d.kind != Equal
      && d.file1Lines == (e.i1 + 1, e.i2) && d.file2Lines == (e.j1 + 1, e.j2)
      && e.i1 <= e.i2 <= |a| && d.lineContent1 == a[e.i1..e.i2]
      && e.j1 <= e.j2 <= |b| && d.lineContent2 == b[e.j1..e.j2]
  {
    LineDetailsPerEdit(a, b, ops);
    EditsAreOps(ops);
    ChainBounds(ops, a, b);
  }

  /** Every record of a line-mode report is consistent with the files: its
      contents are the lines its 1-based ranges name. */
  lemma LineRecordsConsistent(a: seq<string>, b: seq<string>, ops: seq<Opcode>)
    requires Chain(ops, a, b)
    ensures forall d :: d in LineDetails(a, b, ops) ==> RecordConsistent(a, b, d)
  {
    LineRecordsDescribeEdits(a, b, ops);
  }

  /** A line record whose ranges lie within the files and whose contents are
      the lines they name. */
  predicate RecordConsistent(a: seq<string>, b: seq<string>, d: DiffDetail) {
    && d.LineDetail?
    && 1 <= d.file1Lines.0 && d.file1Lines.0 - 1 <= d.file1Lines.1 <= |a|
    && 1 <= d.file2Lines.0 && d.file2Lines.0 - 1 <= d.file2Lines.1 <= |b|
    && d.lineContent1 == a[d.file1Lines.0 - 1..d.file1Lines.1]
    && d.lineContent2 == b[d.file2Lines.0 - 1..d.file2Lines.1]
  }

  /** Line mode emits `i2 - i1` lines prefixed `"- "` and `j2 - j1` lines
      prefixed `"+ "` for every change. */
  lemma {:induction false} LineDiffsCount(a: seq<string>, b: seq<string>, ops: seq<Opcode>)
    requires Chain(ops, a, b)
    ensures |LineDiffs(a, b, ops)| == EditSpanA(ops) + EditSpanB(ops)
  {
    if ops != [] {
      LineDiffsCount(a, b, ops[..|ops| - 1]);
    }
  }

  /** For difflib's opcodes, every line outside an `equal` block is reported
      once, there are diff lines exactly when there are records, and two files
      without records are equal. */
  lemma LineReportSize(a: seq<string>, b: seq<string>, ops: seq<Opcode>)
    requires IsOpcodes(ops, a, b)
    ensures |LineDiffs(a, b, ops)| + 2 * EqualSpan(ops) == |a| + |b|
    ensures LineDiffs(a, b, ops) == [] <==> LineDetails(a, b, ops) == []
    ensures LineDetails(a, b, ops) == [] ==> a == b
  {
    LineDiffsCount(a, b, ops);
    ChainSpans(ops, a, b);
    NoEditsIffNoSpan(ops, a, b);
    LineDetailsPerEdit(a, b, ops);
    OpEditsCount(b, ops);
    PatchRoundTrip(ops, a, b);
  }

  /** The edits a report's line records describe: replace the lines
      `file1_lines` name by the lines of `file2_content`. */
  function LineEditsOf(details: seq<DiffDetail>): seq<Edit<string>> {
    if details == [] then []
    else
      var d := details[|details| - 1];
      LineEditsOf(details[..|details| - 1])
        + (if d.LineDetail? then [Edit(if d.file1Lines.0 == 0 then 0 else d.file1Lines.0 - 1, d.file1Lines.1, d.lineContent2)] else [])
  }

  /** The edits a report's character records describe. */
  function PosEditsOf(details: seq<DiffDetail>): seq<Edit<char>> {
    if details == [] then []
    else
      var d := details[|details| - 1];
      PosEditsOf(details[..|details| - 1])
        + (if d.PosDetail? then [Edit(d.file1Pos.0, d.file1Pos.1, d.textContent2)] else [])
  }

  lemma {:induction false} LineEditsOfRecords(a: seq<string>, b: seq<string>, ops: seq<Opcode>)
    ensures LineEditsOf(LineDetails(a, b, ops)) == OpEdits(b, ops)
  {
    if ops != [] {
      var init, o := ops[..|ops| - 1], ops[|ops| - 1];
      LineEditsOfRecords(a, b, init);
      if IsEdit(o) {
        var ds := LineDetails(a, b, init) + [LineRecord(a, b, o)];
        assert ds[..|ds| - 1] == LineDetails(a, b, init);
      } else {
        assert LineDetails(a, b, ops) == LineDetails(a, b, init);
        assert OpEdits(b, ops) == OpEdits(b, init);
      }
    }
  }

  lemma {:induction false} PosEditsOfRecords(t1: string, t2: string, ops: seq<Opcode>)
    ensures PosEditsOf(FullDetails(t1, t2, ops)) == OpEdits(t2, ops)
  {
    if ops != [] {
      var init, o := ops[..|ops| - 1], ops[|ops| - 1];
      PosEditsOfRecords(t1, t2, init);
      if IsEdit(o) {
        var ds := FullDetails(t1, t2, init) + [PosRecord(t1, t2, o)];
        assert ds[..|ds| - 1] == FullDetails(t1, t2, init);
      } else {
        assert FullDetails(t1, t2, ops) == FullDetails(t1, t2, init);
        assert OpEdits(t2, ops) == OpEdits(t2, init);
      }
    }
  }

  /** The line records are a complete patch: replacing, in file 1, the lines
      each record names by its file 2 content gives file 2. */
  lemma LineRecordsPatch(a: seq<string>, b: seq<string>, ops: seq<Opcode>)
    requires IsOpcodes(ops, a, b)
    ensures Patch(a, LineEditsOf(LineDetails(a, b, ops)), |a|) == b
  {
    LineEditsOfRecords(a, b, ops);
    PatchRoundTrip(ops, a, b);
  }

  /** The character records of the first full-mode pass are a complete patch
      of the text of file 1 into the text of file 2. */
  lemma PosRecordsPatch(t1: string, t2: string, ops: seq<Opcode>)
    requires IsOpcodes(ops, t1, t2)
    ensures Patch(t1, PosEditsOf(FullDetails(t1, t2, ops)), |t1|) == t2
  {
    PosEditsOfRecords(t1, t2, ops);
    PatchRoundTrip(ops, t1, t2);
  }

  /** What one diff line of line mode stands for: line `row` of file 1,
      removed by opcode `op`, or line `row` of file 2, added by it. */
  datatype DiffRow = Removed(op: nat, row: nat) | Added(op: nat, row: nat)

  /** The rows behind the diff lines of opcode `x`. */
  function OpRows(x: nat, o: Opcode): seq<DiffRow> {
    if IsEdit(o) && o.i1 <= o.i2 && o.j1 <= o.j2 then
      seq(o.i2 - o.i1, k requires 0 <= k => Removed(x, o.i1 + k))
        + seq(o.j2 - o.j1, k requires 0 <= k => Added(x, o.j1 + k))
    else []
  }

  /** The rows behind every diff line of line mode, in order. */
  function DiffRows(ops: seq<Opcode>): seq<DiffRow> {
    if ops == [] then [] else DiffRows(ops[..|ops| - 1]) + OpRows(|ops| - 1, ops[|ops| - 1])
  }

  /** Diff line `line` is row `r`: `"- "` and the removed line of file 1, or
      `"+ "` and the added line of file 2, inside the ranges of its opcode. */
  predicate RowMeaning(a: seq<string>, b: seq<string>, ops: seq<Opcode>, r: DiffRow, line: string) {
    && r.op < |ops| && IsEdit(ops[r.op])
    && match r
       case Removed(x, i) => ops[x].i1 <= i < ops[x].i2 && i < |a| && line == "- " + a[i]
       case Added(x, j) => ops[x].j1 <= j < ops[x].j2 && j < |b| && line == "+ " + b[j]
  }

  /** Every diff line of line mode is `"- "` and a line of file 1 removed by a
      change, or `"+ "` and a line of file 2 added by one. */
  lemma {:induction false} DiffRowsMeaning(a: seq<string>, b: seq<string>, ops: seq<Opcode>)
    requires Chain(ops, a, b)
    ensures |DiffRows(ops)| == |LineDiffs(a, b, ops)|
    ensures forall k :: 0 <= k < |DiffRows(ops)| ==> RowMeaning(a, b, ops, DiffRows(ops)[k], LineDiffs(a, b, ops)[k])
  {
    if ops != [] {
      var init, o := ops[..|ops| - 1], ops[|ops| - 1];
      DiffRowsMeaning(a, b, init);
      ChainBounds(ops, a, b);
      var prevRows, prevLines := DiffRows(init), LineDiffs(a, b, init);
      var newRows, newLines := OpRows(|init|, o), OpLineDiffs(a, b, o);
      assert DiffRows(ops) == prevRows + newRows;
      assert LineDiffs(a, b, ops) == prevLines + newLines;
      OpRowsMeaning(a, b, ops, |init|);
      forall k | 0 <= k < |prevRows|
        ensures RowMeaning(a, b, ops, prevRows[k], prevLines[k])
      {
        RowMeaningExtends(a, b, init, ops, prevRows[k], prevLines[k]);
      }
      ConcatPairs(prevRows, newRows, prevLines, newLines, (r, l) => RowMeaning(a, b, ops, r, l));
    }
  }

  /** The rows of one change stand for its diff lines. */
  lemma OpRowsMeaning(a: seq<string>, b: seq<string>, ops: seq<Opcode>, x: nat)
    requires x < |ops| && ops[x].i1 <= ops[x].i2 <= |a| && ops[x].j1 <= ops[x].j2 <= |b|
    ensures |OpRows(x, ops[x])| == |OpLineDiffs(a, b, ops[x])|
    ensures forall k :: 0 <= k < |OpRows(x, ops[x])| ==>
      RowMeaning(a, b, ops, OpRows(x, ops[x])[k], OpLineDiffs(a, b, ops[x])[k])
  {
    var o := ops[x];
    if IsEdit(o) {
      var removed, added := Prefixed("- ", a[o.i1..o.i2]), Prefixed("+ ", b[o.j1..o.j2]);
      var rowsR := seq(o.i2 - o.i1, k requires 0 <= k => Removed(x, o.i1 + k));
      var rowsA := seq(o.j2 - o.j1, k requires 0 <= k => Added(x, o.j1 + k));
      RemovedRowsMeaning(a, b, ops, x);
      AddedRowsMeaning(a, b, ops, x);
      ConcatPairs(rowsR, rowsA, removed, added, (r, l) => RowMeaning(a, b, ops, r, l));
      assert OpRows(x, o) == rowsR + rowsA;
      assert OpLineDiffs(a, b, o) == removed + added;
    }
  }

  lemma RemovedRowsMeaning(a: seq<string>, b: seq<string>, ops: seq<Opcode>, x: nat)
    requires x < |ops| && IsEdit(ops[x]) && ops[x].i1 <= ops[x].i2 <= |a|
    ensures var o := ops[x];
      var rows, lines := seq(o.i2 - o.i1, k requires 0 <= k => Removed(x, o.i1 + k)), Prefixed("- ", a[o.i1..o.i2]);
      |rows| == |lines| && forall k :: 0 <= k < |rows| ==> RowMeaning(a, b, ops, rows[k], lines[k])
  {
    var o := ops[x];
    var rows, lines := seq(o.i2 - o.i1, k requires 0 <= k => Removed(x, o.i1 + k)), Prefixed("- ", a[o.i1..o.i2]);
    forall k | 0 <= k < |rows|
      ensures RowMeaning(a, b, ops, rows[k], lines[k])
    {
      assert rows[k] == Removed(x, o.i1 + k);
      assert lines[k] == "- " + a[o.i1 + k];
    }
  }

  lemma AddedRowsMeaning(a: seq<string>, b: seq<string>, ops: seq<Opcode>, x: nat)
    requires x < |ops| && IsEdit(ops[x]) && ops[x].j1 <= ops[x].j2 <= |b|
    ensures var o := ops[x];
      var rows, lines := seq(o.j2 - o.j1, k requires 0 <= k => Added(x, o.j1 + k)), Prefixed("+ ", b[o.j1..o.j2]);
      |rows| == |lines| && forall k :: 0 <= k < |rows| ==> RowMeaning(a, b, ops, rows[k], lines[k])
  {
    var o := ops[x];
    var rows, lines := seq(o.j2 - o.j1, k requires 0 <= k => Added(x, o.j1 + k)), Prefixed("+ ", b[o.j1..o.j2]);
    forall k | 0 <= k < |rows|
      ensures RowMeaning(a, b, ops, rows[k], lines[k])
    {
      assert rows[k] == Added(x, o.j1 + k);
      assert lines[k] == "+ " + b[o.j1 + k];
    }
  }

  lemma RowMeaningExtends(a: seq<string>, b: seq<string>, init: seq<Opcode>, ops: seq<Opcode>, r: DiffRow, line: string)
    requires |init| <= |ops| && init == ops[..|init|]
    requires RowMeaning(a, b, init, r, line)
    ensures RowMeaning(a, b, ops, r, line)
  {
    assert ops[r.op] == init[r.op];
  }

  /** A relation that holds position by position on two pairs of sequences
      holds position by position on their concatenations. */
  lemma ConcatPairs<R, L>(rs: seq<R>, rs': seq<R>, ls: seq<L>, ls': seq<L>, p: (R, L) -> bool)
    requires |rs| == |ls| && |rs'| == |ls'|
    requires forall k :: 0 <= k < |rs| ==> p(rs[k], ls[k])
    requires forall k :: 0 <= k < |rs'| ==> p(rs'[k], ls'[k])
    ensures forall k :: 0 <= k < |rs + rs'| ==> p((rs + rs')[k], (ls + ls')[k])
  {
    forall k | 0 <= k < |rs + rs'|
      ensures p((rs + rs')[k], (ls + ls')[k])
    {
      if k >= |rs| {
        assert (rs + rs')[k] == rs'[k - |rs|] && (ls + ls')[k] == ls'[k - |ls|];
      }
    }
  }

  /** Row `r1` may come before row `r2`: opcodes in order, and within one
      opcode removals before additions, each kind in increasing line order. */
  predicate InOrder(r1: DiffRow, r2: DiffRow) {
    && r1.op <= r2.op
    && (r1.op == r2.op ==>
          && (r1.Added? ==> r2.Added?)
          && (r1.Added? == r2.Added? ==> r1.row < r2.row))
  }

  lemma OpRowsOrder(x: nat, o: Opcode)
    ensures forall k :: 0 <= k < |OpRows(x, o)| ==> OpRows(x, o)[k].op == x
    ensures forall k1, k2 :: 0 <= k1 < k2 < |OpRows(x, o)| ==> InOrder(OpRows(x, o)[k1], OpRows(x, o)[k2])
  {
  }

  /** Every diff line of line mode belongs to one of the opcodes. */
  lemma {:induction false} DiffRowsOps(ops: seq<Opcode>)
    ensures forall k :: 0 <= k < |DiffRows(ops)| ==> DiffRows(ops)[k].op < |ops|
  {
    if ops != [] {
      var init, o := ops[..|ops| - 1], ops[|ops| - 1];
      DiffRowsOps(init);
      OpRowsOrder(|init|, o);
      var prev, next := DiffRows(init), OpRows(|init|, o);
      var rows := prev + next;
      assert DiffRows(ops) == rows;
      forall k | 0 <= k < |rows|
        ensures rows[k].op < |ops|
      {
        if k >= |prev| {
          assert rows[k] == next[k - |prev|];
        }
      }
    }
  }

  /** The diff lines of line mode follow the opcodes in order; within one
      opcode every `"- "` line comes before every `"+ "` line, and each kind
      follows the file's own line order. */
  lemma {:induction false} DiffRowsOrder(ops: seq<Opcode>)
    ensures forall k1, k2 :: 0 <= k1 < k2 < |DiffRows(ops)| ==> InOrder(DiffRows(ops)[k1], DiffRows(ops)[k2])
  {
    if ops != [] {
      var init, o := ops[..|ops| - 1], ops[|ops| - 1];
      DiffRowsOrder(init);
      DiffRowsOps(init);
      OpRowsOrder(|init|, o);
      var prev, next := DiffRows(init), OpRows(|init|, o);
      var rows := prev + next;
      assert DiffRows(ops) == rows;
      forall k1, k2 | 0 <= k1 < k2 < |rows|
        ensures InOrder(rows[k1], rows[k2])
      {
        if k2 < |prev| {
          assert rows[k1] == prev[k1] && rows[k2] == prev[k2];
        } else if k1 < |prev| {
          assert rows[k1] == prev[k1] && rows[k2] == next[k2 - |prev|];
        } else {
          assert rows[k1] == next[k1 - |prev|] && rows[k2] == next[k2 - |prev|];
        }
      }
    }
  }

  /** The first letter of each tag in capitals tells the tags apart. */
  function Initial(t: Tag): char {
    match t
    case Equal => 'E'
    case Replace => 'R'
    case Delete => 'D'
    case Insert => 'I'
  }

  lemma UpperTagInitial(t: Tag)
    ensures |AsciiUpper(TagName(t))| >= 1 && AsciiUpper(TagName(t))[0] == Initial(t)
  {
    var name := TagName(t);
    assert AsciiUpper(name) == [UpperChar(name[0])] + AsciiUpper(name[1..]);
  }

  /** Two strings that agree up to the first occurrence of `c` in each agree
      on both sides of it. */
  lemma CutAt(x: string, y: string, x': string, y': string, c: char)
    requires c !in x && c !in x'
    requires x + y == x' + y' && |y| > 0 && |y'| > 0 && y[0] == c && y'[0] == c
    ensures x == x' && y == y'
  {
    var s := x + y;
    assert x == s[..|x|] && x' == s[..|x'|];
    assert y == s[|x|..] && y' == s[|x'|..];
  }

  /** A number written in decimal followed by a non-digit can be read back. */
  lemma DigitsCut(n: nat, n': nat, y: string, y': string, c: char)
    requires !('0' <= c <= '9')
    requires NatToString(n) + y == NatToString(n') + y' && |y| > 0 && |y'| > 0 && y[0] == c && y'[0] == c
    ensures n == n' && y == y'
  {
    CutAt(NatToString(n), y, NatToString(n'), y', c);
  }

  lemma DropPrefix(p: string, y: string, y': string)
    requires p + y == p + y'
    ensures y == y'
  {
    assert y == (p + y)[|p|..] && y' == (p + y')[|p|..];
  }

  lemma OffsetsIdentify(o1: Opcode, o2: Opcode)
    requires Offsets(o1) == Offsets(o2)
    ensures o1.i1 == o2.i1 && o1.i2 == o2.i2 && o1.j1 == o2.j1 && o1.j2 == o2.j2
  {
    var z4, z4' := NatToString(o1.j2) + " in file2", NatToString(o2.j2) + " in file2";
    var z3, z3' := NatToString(o1.j1) + ("-" + z4), NatToString(o2.j1) + ("-" + z4');
    var z2, z2' := NatToString(o1.i2) + (" in file1, " + z3), NatToString(o2.i2) + (" in file1, " + z3');
    var z1, z1' := NatToString(o1.i1) + ("-" + z2), NatToString(o2.i1) + ("-" + z2');
    DropPrefix(" at ", z1, z1');
    DigitsCut(o1.i1, o2.i1, "-" + z2, "-" + z2', '-');
    DropPrefix("-", z2, z2');
    DigitsCut(o1.i2, o2.i2, " in file1, " + z3, " in file1, " + z3', ' ');
    DropPrefix(" in file1, ", z3, z3');
    DigitsCut(o1.j1, o2.j1, "-" + z4, "-" + z4', '-');
    DropPrefix("-", z4, z4');
    DigitsCut(o1.j2, o2.j2, " in file2", " in file2", ' ');
  }

  /** Each full-mode message names its change: no two opcodes give the same
      message. */
  lemma MessagesIdentifyChanges(o1: Opcode, o2: Opcode)
    requires PosMessage(o1) == PosMessage(o2)
    ensures o1 == o2
  {
    var u1, u2 := AsciiUpper(TagName(o1.tag)), AsciiUpper(TagName(o2.tag));
    UpperTagInitial(o1.tag);
    UpperTagInitial(o2.tag);
    assert PosMessage(o1)[0] == u1[0] && PosMessage(o2)[0] == u2[0];
    assert o1.tag == o2.tag;
    DropPrefix(u1, Offsets(o1), Offsets(o2));
    OffsetsIdentify(o1, o2);
  }

  /** The first full-mode pass emits one message per change, in order,
      naming the change's tag and offsets. */
  lemma {:induction false} FullMessagesPerEdit(ops: seq<Opcode>)
    ensures |FullMessages(ops)| == |Edits(ops)|
    ensures forall k :: 0 <= k < |Edits(ops)| ==> FullMessages(ops)[k] == PosMessage(Edits(ops)[k])
  {
    if ops != [] {
      FullMessagesPerEdit(ops[..|ops| - 1]);
    }
  }

  /** The first full-mode pass emits one record per change, in order, naming
      the change's offsets and text. */
  lemma {:induction false} FullDetailsPerEdit(t1: string, t2: string, ops: seq<Opcode>)
    ensures |FullDetails(t1, t2, ops)| == |Edits(ops)|
    ensures forall k :: 0 <= k < |Edits(ops)| ==> FullDetails(t1, t2, ops)[k] == PosRecord(t1, t2, Edits(ops)[k])
  {
    if ops != [] {
      FullDetailsPerEdit(t1, t2, ops[..|ops| - 1]);
    }
  }

  /** In `'full'` mode as written, the records are one character record per
      change followed by one line record per change, both read from the same
      character opcodes: twice as many records as changes. */
  lemma AsWrittenFullMode(lines1: seq<string>, lines2: seq<string>, lineOps: seq<Opcode>, charOps: seq<Opcode>)
    ensures var ds, es := AsWrittenReport("full", lines1, lines2, lineOps, charOps).details, Edits(charOps);
      && |ds| == 2 * |es|
      && (forall k :: 0 <= k < |es| ==> ds[k] == PosRecord(Join(lines1, "\n"), Join(lines2, "\n"), es[k]))
      && (forall k :: |es| <= k < |ds| ==> ds[k] == LineRecord(lines1, lines2, es[k - |es|]))
    ensures var diffs, es := AsWrittenReport("full", lines1, lines2, lineOps, charOps).diffs, Edits(charOps);
      |diffs| >= |es| && forall k :: 0 <= k < |es| ==> diffs[k] == PosMessage(es[k])
  {
    var text1, text2 := Join(lines1, "\n"), Join(lines2, "\n");
    var rep := AsWrittenReport("full", lines1, lines2, lineOps, charOps);
    assert rep.details == FullDetails(text1, text2, charOps) + LineDetails(lines1, lines2, charOps);
    assert rep.diffs == FullMessages(charOps) + LineDiffs(lines1, lines2, charOps);
    RecordsOfBothPasses(text1, text2, lines1, lines2, charOps);
    FullMessagesPerEdit(charOps);
    ConcatIndex(FullMessages(charOps), LineDiffs(lines1, lines2, charOps));
  }

  /** The records of the two passes over the same opcodes, one after the other. */
  lemma RecordsOfBothPasses(t1: string, t2: string, lines1: seq<string>, lines2: seq<string>, ops: seq<Opcode>)
    ensures var ds, es := FullDetails(t1, t2, ops) + LineDetails(lines1, lines2, ops), Edits(ops);
      && |ds| == 2 * |es|
      && (forall k :: 0 <= k < |es| ==> ds[k] == PosRecord(t1, t2, es[k]))
      && (forall k :: |es| <= k < |ds| ==> ds[k] == LineRecord(lines1, lines2, es[k - |es|]))
  {
    var pos, line := FullDetails(t1, t2, ops), LineDetails(lines1, lines2, ops);
    FullDetailsPerEdit(t1, t2, ops);
    LineDetailsPerEdit(lines1, lines2, ops);
    ConcatIndex(pos, line);
  }

  /** Any mode other than `'full'` is line mode. */
  lemma OtherModesAreLineMode(mode: string, lines1: seq<string>, lines2: seq<string>, lineOps: seq<Opcode>, charOps: seq<Opcode>)
    requires mode != "full"
    ensures AsWrittenReport(mode, lines1, lines2, lineOps, charOps) == AsWrittenReport("line", lines1, lines2, lineOps, charOps)
    ensures AsWrittenReport(mode, lines1, lines2, lineOps, charOps)
      == Report(LineDiffs(lines1, lines2, lineOps), LineDetails(lines1, lines2, lineOps))
  {
  }

  /** The character opcodes of `"ab"` against `"ac"`. */
  lemma PhantomExampleOpcodes()
    ensures IsOpcodes([Opcode(Equal, 0, 1, 0, 1), Opcode(Replace, 1, 2, 1, 2)], "ab", "ac")
  {
    var e, r := Opcode(Equal, 0, 1, 0, 1), Opcode(Replace, 1, 2, 1, 2);
    assert [e, r][..1] == [e] && [e][..0] == [];
    assert "ab"[0..1] == "ac"[0..1];
    assert Chain([e][..0], "ab", "ac") && Step(e, "ab", "ac", 0, 0);
    assert Chain([e], "ab", "ac");
  }

  /** A one-line file compared in `'full'` mode: the second pass reads the
      character opcode `replace 1-2` as lines 2 to 2 of one-line files, and adds
      a record for a line the files do not have, with empty contents. */
  lemma FullModePhantomRecord()
    ensures var lines1, lines2 := ["ab"], ["ac"];
      var charOps := [Opcode(Equal, 0, 1, 0, 1), Opcode(Replace, 1, 2, 1, 2)];
      var rep := AsWrittenReport("full", lines1, lines2, [Opcode(Replace, 0, 1, 0, 1)], charOps);
      && IsOpcodes(charOps, Join(lines1, "\n"), Join(lines2, "\n"))
      && rep.details == [PosDetail(Replace, (1, 2), (1, 2), "b", "c"), LineDetail(Replace, (2, 2), (2, 2), [], [])]
      && !RecordConsistent(lines1, lines2, rep.details[1])
  {
    assert Join(["ab"], "\n") == "ab" && Join(["ac"], "\n") == "ac";
    PhantomExampleOpcodes();
    PhantomPasses();
  }

  /** The two passes over the character opcodes of `"ab"` and `"ac"`. */
  lemma PhantomPasses()
    ensures var charOps := [Opcode(Equal, 0, 1, 0, 1), Opcode(Replace, 1, 2, 1, 2)];
      && FullDetails("ab", "ac", charOps) == [PosDetail(Replace, (1, 2), (1, 2), "b", "c")]
      && LineDetails(["ab"], ["ac"], charOps) == [LineDetail(Replace, (2, 2), (2, 2), [], [])]
  {
    var lines1, lines2: seq<string> := ["ab"], ["ac"];
    var e, r := Opcode(Equal, 0, 1, 0, 1), Opcode(Replace, 1, 2, 1, 2);
    var charOps := [e, r];
    assert charOps[..|charOps| - 1] == [e] && [e][..0] == [];
    assert [e][..|[e]| - 1] == [];
    assert FullDetails("ab", "ac", [e]) == [];
    assert LineDetails(lines1, lines2, [e]) == LineDetails(lines1, lines2, []) + [];
    assert "ab"[1..2] == "b" && "ac"[1..2] == "c";
    assert Slice(lines1, 1, 2) == [] && Slice(lines2, 1, 2) == [];
  }

  /** The report as evidently intended: `'full'` mode reports the character
      opcodes only, and other modes the line opcodes. */
  function IntendedReport(mode: string, lines1: seq<string>, lines2: seq<string>,
                          lineOps: seq<Opcode>, charOps: seq<Opcode>): (rep: Report)
    ensures mode != "full" ==> rep == AsWrittenReport(mode, lines1, lines2, lineOps, charOps)
  {
    if mode == "full" then
      Report(FullMessages(charOps), FullDetails(Join(lines1, "\n"), Join(lines2, "\n"), charOps))
    else
      Report(LineDiffs(lines1, lines2, lineOps), LineDetails(lines1, lines2, lineOps))
  }

  /** The intended report has one record per change of the opcodes its mode
      reads, every record is of the mode's kind, and the records patch file 1
      into file 2: its text in `'full'` mode, its lines otherwise. */
  lemma IntendedReportSound(mode: string, lines1: seq<string>, lines2: seq<string>, lineOps: seq<Opcode>, charOps: seq<Opcode>)
    requires IsOpcodes(lineOps, lines1, lines2)
    requires IsOpcodes(charOps, Join(lines1, "\n"), Join(lines2, "\n"))
    ensures var rep, text1, text2 := IntendedReport(mode, lines1, lines2, lineOps, charOps), Join(lines1, "\n"), Join(lines2, "\n");
      mode == "full" ==>
        && |rep.details| == |rep.diffs| == |Edits(charOps)|
        && (forall k :: 0 <= k < |rep.details| ==> rep.details[k].PosDetail?)
        && Patch(text1, PosEditsOf(rep.details), |text1|) == text2
    ensures var rep := IntendedReport(mode, lines1, lines2, lineOps, charOps);
      mode != "full" ==>
        && |rep.details| == |Edits(lineOps)|
        && (forall k :: 0 <= k < |rep.details| ==> RecordConsistent(lines1, lines2, rep.details[k]))
        && Patch(lines1, LineEditsOf(rep.details), |lines1|) == lines2
  {
    var text1, text2 := Join(lines1, "\n"), Join(lines2, "\n");
    if mode == "full" {
      FullMessagesPerEdit(charOps);
      FullDetailsPerEdit(text1, text2, charOps);
      PosRecordsPatch(text1, text2, charOps);
    } else {
      var ds := LineDetails(lines1, lines2, lineOps);
      LineRecordsDescribeEdits(lines1, lines2, lineOps);
      LineRecordsConsistent(lines1, lines2, lineOps);
      assert forall k :: 0 <= k < |ds| ==> ds[k] in ds;
      LineRecordsPatch(lines1, lines2, lineOps);
    }
  }

  /** A line the comparator works on: it has a non-whitespace character and
      no line break. */
  predicate CleanLine(l: string) {
    HasContent(l) && '\n' !in l
  }

  /** A stripped, kept line without a line break is clean. */
  lemma StrippedLinesClean(pieces: seq<string>)
    requires forall k :: 0 <= k < |pieces| ==> '\n' !in pieces[k]
    ensures forall k :: 0 <= k < |StrippedNonBlank(pieces)| ==> CleanLine(StrippedNonBlank(pieces)[k])
  {
    var ls := StrippedNonBlank(pieces);
    StrippedNonBlankLines(pieces);
    StrippedNonBlankAvoids(pieces, '\n');
    forall k | 0 <= k < |ls|
      ensures CleanLine(ls[k])
    {
      HasContentMeansNonSpace(ls[k]);
      assert !IsSpace(ls[k][0]);
    }
  }

  /** Reading a plain text file line by line and cleaning it is the same as
      splitting its text on line breaks, which is what the PDF reader does. */
  lemma PlainLinesLikePdfLines(text: string)
    ensures PlainLines(text) == PdfParser.PdfLines(text)
  {
    FileLinesCleanLikeSplit(text);
  }

  /** Whichever reader the suffix picks, every loaded line is clean. */
  lemma LoadedLinesClean(path: string, content: FileContent)
    ensures var r := FileLinesOf(path, content);
      r.Success? ==> forall k :: 0 <= k < |r.value| ==> CleanLine(r.value[k])
  {
    var r := FileLinesOf(path, content);
    if r.Success? {
      if EndsWith(path, ".docx") {
        WordParserProperties.WordLinesArePieces(WordParser.WordText(content.word).value);
      } else {
        var text := if EndsWith(path, ".pdf") then PdfParser.PdfText(content.pdf).value else content.text.value;
        FileLinesCleanLikeSplit(text);
        SplitPieces(text, '\n');
        StrippedLinesClean(Split(text, '\n'));
      }
    }
  }

  /** The loaded lines can be read back from the text that is scored: joining
      them with line breaks and splitting that text again gives them back. */
  lemma ScoredTextSplitsBack(path: string, content: FileContent)
    ensures var r := FileLinesOf(path, content);
      r.Success? && r.value != [] ==> Split(Join(r.value, "\n"), '\n') == r.value
  {
    var r := FileLinesOf(path, content);
    if r.Success? && r.value != [] {
      LoadedLinesClean(path, content);
      SplitJoinRoundTrip(r.value, '\n');
    }
  }
}

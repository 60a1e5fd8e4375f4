/** `file_comparator/word_parser.py`: the text of a .docx document and its lines.
    python-docx is not modelled; the document it loads is an input. */
module WordParser {
  import opened Outcome
  import opened Seqs
  import opened PyStr
  import opened LineCleaning

  /** The texts python-docx gives for a document: its body paragraphs in order,
      and its tables, each a sequence of rows, each a sequence of cell texts. */
  datatype Docx = Docx(paragraphs: seq<string>, tables: seq<seq<seq<string>>>)

  /** What `Document(file_path)` does: raise, or load the document. */
  datatype WordSource = WordUnreadable(reason: string) | WordDocument(doc: Docx)

  /** The prefix of every error `parse_word` raises. */
  const FailurePrefix := "解析Word文档失败: "

  /** The cell texts of some rows, row by row. */
  function CellsOfRows(rows: seq<seq<string>>): seq<string> {
    if rows == [] then [] else CellsOfRows(rows[..|rows| - 1]) + rows[|rows| - 1]
  }

  /** The cell texts of some tables, table by table. */
  function CellsOfTables(tables: seq<seq<seq<string>>>): seq<string> {
    if tables == [] then [] else CellsOfTables(tables[..|tables| - 1]) + CellsOfRows(tables[|tables| - 1])
  }

  /** The texts `parse_word` appends: the paragraphs with content, then the
      cells with content, verbatim. */
  function WordParts(doc: Docx): seq<string> {
    NonBlank(doc.paragraphs) + NonBlank(CellsOfTables(doc.tables))
  }

  /** `parse_word` as a value. */
  function WordText(src: WordSource): Result<string> {
    match src
    case WordUnreadable(reason) => Failure(Wrapped(FailurePrefix, reason))
    case WordDocument(doc) => Success(Join(WordParts(doc), "\n"))
  }

  lemma NonBlankSnoc(s: seq<string>, x: string)
    ensures NonBlank(s + [x]) == NonBlank(s) + (if HasContent(x) then [x] else [])
  {
    FilterAppend(HasContent, s, [x]);
    assert [x][1..] == [];
  }

  /** `parse_word` (word_parser.py:4-33). */
  method ParseWord(src: WordSource) returns (r: Result<string>)
    ensures r == WordText(src)
  {
    match src
    case WordUnreadable(reason) =>
      return Failure(Wrapped(FailurePrefix, reason));
    case WordDocument(doc) =>
      var textParts: seq<string> := [];
      for i := 0 to |doc.paragraphs|
        invariant textParts == NonBlank(doc.paragraphs[..i])
      {
        var para := doc.paragraphs[i];
        assert doc.paragraphs[..i + 1] == doc.paragraphs[..i] + [para];
        NonBlankSnoc(doc.paragraphs[..i], para);
        if HasContent(para) {
          textParts := textParts + [para];
        }
      }
      assert doc.paragraphs[..|doc.paragraphs|] == doc.paragraphs;
      ghost var kept := textParts;
      for t := 0 to |doc.tables|
        invariant textParts == kept + NonBlank(CellsOfTables(doc.tables[..t]))
      {
        var table := doc.tables[t];
        var before, cells := CellsOfTables(doc.tables[..t]), CellsOfRows(table);
        assert doc.tables[..t + 1][..t] == doc.tables[..t];
        assert CellsOfTables(doc.tables[..t + 1]) == before + cells;
        FilterAppend(HasContent, before, cells);
        AppendAssoc(kept, NonBlank(before), NonBlank(cells));
        textParts := AppendTableCells(textParts, table);
      }
      assert doc.tables[..|doc.tables|] == doc.tables;
      return Success(Join(textParts, "\n"));
  }

  /** The row and cell loops of `parse_word` for one table (word_parser.py:25-28):
      the cells with content are appended in row order. */
  method AppendTableCells(parts: seq<string>, table: seq<seq<string>>) returns (textParts: seq<string>)
    ensures textParts == parts + NonBlank(CellsOfRows(table))
  {
    textParts := parts;
    for rw := 0 to |table|
      invariant textParts == parts + NonBlank(CellsOfRows(table[..rw]))
    {
      var row := table[rw];
      ghost var beforeRow := textParts;
      for c := 0 to |row|
        invariant textParts == beforeRow + NonBlank(row[..c])
      {
        var cell := row[c];
        assert row[..c + 1] == row[..c] + [cell];
        NonBlankSnoc(row[..c], cell);
        var kept := if HasContent(cell) then [cell] else [];
        AppendAssoc(beforeRow, NonBlank(row[..c]), kept);
        if HasContent(cell) {
          textParts := textParts + [cell];
        }
      }
      assert row[..|row|] == row;
      var before := CellsOfRows(table[..rw]);
      assert table[..rw + 1][..rw] == table[..rw];
      assert CellsOfRows(table[..rw + 1]) == before + row;
      FilterAppend(HasContent, before, row);
      AppendAssoc(parts, NonBlank(before), NonBlank(row));
    }
    assert table[..|table|] == table;
  }

  /** The comprehension of `parse_word_to_lines` (word_parser.py:46). */
  function WordLines(text: string): seq<string> {
    NonBlank(Split(text, '\n'))
  }

  /** `parse_word_to_lines` (word_parser.py:35-46): errors of `parse_word` pass through. */
  method ParseWordToLines(src: WordSource) returns (r: Result<seq<string>>)
    ensures WordText(src).Failure? ==> r == Failure(WordText(src).error)
    ensures WordText(src).Success? ==> r == Success(WordLines(WordText(src).value))
  {
    var fullText := ParseWord(src);
    match fullText
    case Failure(e) => return Failure(e);
    case Success(t) => return Success(WordLines(t));
  }
}

module WordParserProperties {
  import opened Outcome
  import opened Seqs
  import opened PyStr
  import opened LineCleaning
  import opened WordParser

  /** `parse_word` fails only when the document cannot be loaded, and then
      with a prefixed `ValueError`. */
  lemma WordErrors(src: WordSource)
    ensures WordText(src).Failure? <==> src.WordUnreadable?
    ensures WordText(src).Failure? ==>
      WordText(src).error.ValueError? && StartsWith(WordText(src).error.message, FailurePrefix)
  {
  }

  /** Every kept part has content; every paragraph and every cell with content
      is kept, as it is; paragraphs come before cells. */
  lemma WordPartsKeepContent(doc: Docx)
    ensures forall k :: 0 <= k < |WordParts(doc)| ==> HasContent(WordParts(doc)[k])
    ensures forall k :: 0 <= k < |doc.paragraphs| && HasContent(doc.paragraphs[k]) ==>
      doc.paragraphs[k] in WordParts(doc)[..|NonBlank(doc.paragraphs)|]
    ensures forall k :: 0 <= k < |CellsOfTables(doc.tables)| && HasContent(CellsOfTables(doc.tables)[k]) ==>
      CellsOfTables(doc.tables)[k] in WordParts(doc)[|NonBlank(doc.paragraphs)|..]
  {
    var ps, cs := NonBlank(doc.paragraphs), NonBlank(CellsOfTables(doc.tables));
    FilterSpec(HasContent, doc.paragraphs);
    FilterSpec(HasContent, CellsOfTables(doc.tables));
    assert WordParts(doc)[..|ps|] == ps && WordParts(doc)[|ps|..] == cs;
  }

  /** Table cells come table by table: the cells of consecutive groups of
      tables are concatenated. */
  lemma {:induction false} CellsOfTablesAppend(ts: seq<seq<seq<string>>>, us: seq<seq<seq<string>>>)
    ensures CellsOfTables(ts + us) == CellsOfTables(ts) + CellsOfTables(us)
  {
    if us == [] {
      assert ts + us == ts;
    } else {
      var n := |us|;
      assert (ts + us)[..|ts + us| - 1] == ts + us[..n - 1];
      assert (ts + us)[|ts + us| - 1] == us[n - 1];
      CellsOfTablesAppend(ts, us[..n - 1]);
      var x, y, z := CellsOfTables(ts), CellsOfTables(us[..n - 1]), CellsOfRows(us[n - 1]);
      assert CellsOfTables(ts + us) == (x + y) + z;
      AppendAssoc(x, y, z);
    }
  }

  /** Every line of `parse_word_to_lines` is a piece of the text between line
      breaks, kept as it is (not stripped), and has content. */
  lemma WordLinesArePieces(text: string)
    ensures forall k :: 0 <= k < |WordLines(text)| ==>
      WordLines(text)[k] in Split(text, '\n') && HasContent(WordLines(text)[k]) && '\n' !in WordLines(text)[k]
  {
    FilterSpec(HasContent, Split(text, '\n'));
    SplitPieces(text, '\n');
  }

  /** The lines of each part, in order. */
  function WordLinesOfEach(parts: seq<string>): seq<string> {
    if parts == [] then [] else WordLines(parts[0]) + WordLinesOfEach(parts[1..])
  }

  /** The lines of the joined parts are the lines of each part in order: no
      line spans two parts. */
  lemma WordLinesByPart(parts: seq<string>)
    ensures WordLines(Join(parts, "\n")) == WordLinesOfEach(parts)
  {
    if parts == [] {
      assert NonBlank([""]) == [] by {
        StripSpec("");
      }
    } else {
      SplitOfJoin(parts, '\n');
      NonBlankEach(parts);
    }
  }

  lemma {:induction false} NonBlankEach(parts: seq<string>)
    ensures NonBlank(SplitEach(parts, '\n')) == WordLinesOfEach(parts)
  {
    if parts != [] {
      NonBlankEach(parts[1..]);
      FilterAppend(HasContent, Split(parts[0], '\n'), SplitEach(parts[1..], '\n'));
    }
  }

  /** When no kept paragraph or cell contains a line break, the lines are
      exactly the kept parts. */
  lemma WordLinesOfSingleLineParts(doc: Docx)
    requires forall k :: 0 <= k < |WordParts(doc)| ==> '\n' !in WordParts(doc)[k]
    ensures WordLines(Join(WordParts(doc), "\n")) == WordParts(doc)
  {
    var parts := WordParts(doc);
    WordPartsKeepContent(doc);
    if parts == [] {
      assert NonBlank([""]) == [] by {
        StripSpec("");
      }
    } else {
      SplitJoinRoundTrip(parts, '\n');
      AllKept(parts);
    }
  }

  lemma {:induction false} AllKept(parts: seq<string>)
    requires forall k :: 0 <= k < |parts| ==> HasContent(parts[k])
    ensures NonBlank(parts) == parts
  {
    if parts != [] {
      AllKept(parts[1..]);
    }
  }
}

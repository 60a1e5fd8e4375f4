# file-comparator-tool in Dafny

This project models the core of *file-comparator-tool*, a Python tool that
compares two documents (plain text, `.docx` or `.pdf`). The tool:

- loads each document as a list of cleaned lines;
- scores how similar the two documents are;
- reports their differences as flat diff lines and as structured records;
- shows both documents side by side in a Tk window, with lines highlighted
  by their position in the diff list (see Findings).

The model covers five parts of the tool:

- **Line cleaning** (`LineCleaning`, `PyStr`). This is how each reader turns
  a document into lines:
  - a plain text file is iterated line by line and each line is stripped;
  - the PDF reader joins its page texts, splits them at line breaks and
    strips the pieces;
  - the Word reader joins its paragraph and cell texts, splits them at line
    breaks and keeps the pieces that have content without stripping them.

  The Python `str` operations involved (`strip`, `split`, `join`,
  `startswith`, `endswith`, `str(n)`) are written out over `seq<char>`.
- **The readers** (`PdfParser`, `WordParser`). `parse_pdf` and `parse_word`
  are imperative loops, each proved equal to a function of the document.
  What the PDF library or python-docx yields for a file is an input datatype.
  For PDFs that input includes the exceptions of opening, decrypting and
  extracting each page; for Word documents, the exception of loading the
  document. The readers wrap them as `ValueError`s with their own prefix.
- **The score** (`Comparator.Similarity`). This is the weighted
  0.3/0.5/0.2 lexical score, or the cosine of the word2vec vectors. Its three
  `ValueError`s are modelled: an unknown algorithm, an untrained word2vec
  model, and the empty TF-IDF vocabulary of two texts without a token.
- **The difference report** (`Comparator.BuildReport`,
  `Comparator.AsWrittenReport`). difflib's opcodes are an input. What difflib
  guarantees about them (they chain, cover both sequences, and `equal` blocks
  are equal) is the `Opcodes.IsOpcodes` predicate. From that predicate the
  model proves the following:
  - in line mode, and for the character records of the first pass of
    `'full'` mode, the records are a complete patch of file 1 into file 2;
  - in line mode, the flat diff lines are the removed and added lines, in
    order;
  - the character-level messages identify their opcodes.
- **The window** (`Gui`). The window is modelled as follows:
  - the diff-map loop;
  - the panes, modelled as a `TextView` class holding the text and the set
    of tagged lines;
  - the highlight loops;
  - the difference count;
  - the missing-path message.

The libraries the tool calls (difflib's matcher, gensim, scikit-learn, numpy,
PyPDF2, python-docx, the file system) are parameters. A `Library` value gives
the opcodes, the three ratios and the vectors. A `FileContent` value gives what
each reader obtains for a path.

## Model

| member | source | states |
|---|---|---|
| LineCleaning.StrippedNonBlankLines | file_comparator/comparator.py:133 | every line `[line.strip() for line in f if line.strip()]` keeps is non-empty and has no whitespace at either end; there are no more of them than input lines |
| LineCleaning.StrippedNonBlankAppend | file_comparator/comparator.py:133 | the comprehension keeps input order: cleaning a concatenation is the concatenation of the cleaned parts |
| LineCleaning.StrippedNonBlankAvoids | file_comparator/pdf_parser.py:48 | a character absent from every input line is absent from every kept line |
| LineCleaning.FileLinesConcat | file_comparator/comparator.py:208-209 | the lines a text file iterates over concatenate back to its text |
| LineCleaning.FileLinesBreaks | file_comparator/comparator.py:208-209 | no iterated line is empty, every line but the last ends with its line break, and no line has a line break elsewhere |
| LineCleaning.FileLinesCleanLikeSplit | file_comparator/comparator.py:209 | cleaning the iterated lines gives the same list as cleaning the pieces of `text.split('\n')` |
| PyStr.StripSpec | file_comparator/comparator.py:133 | `strip()` keeps a factor of its argument that neither starts nor ends with whitespace, and is empty exactly when the argument is all whitespace |
| PyStr.StripIdempotent | file_comparator/comparator.py:133 | stripping a stripped line changes nothing |
| PyStr.HasContentMeansNonSpace | file_comparator/word_parser.py:46 | `line.strip()` is truthy exactly when the line has a non-whitespace character |
| PyStr.StripAppendSpace | file_comparator/comparator.py:133 | a trailing line break does not change the stripped line |
| PyStr.SplitPieces | file_comparator/pdf_parser.py:48 | no piece of `split('\n')` contains a line break |
| PyStr.JoinOfSplit | file_comparator/pdf_parser.py:48 | `'\n'.join(s.split('\n')) == s` |
| PyStr.SplitOfJoin | file_comparator/pdf_parser.py:32 | splitting a `'\n'.join` splits every part on its own: no piece spans two parts |
| PyStr.SplitJoinRoundTrip | file_comparator/comparator.py:146-147 | parts without line breaks are recovered exactly by splitting their join |
| PyStr.NatToString | gui.py:112 | `str(n)` is at least one decimal digit, has no leading zero and has value `n` |
| Seqs.Slice | file_comparator/comparator.py:177-178 | the slice `s[lo:hi]` clamps both bounds to `len(s)`, has the elements `s[lo + k]`, and is `s[lo..hi]` within bounds |
| Seqs.FilterSpec | file_comparator/word_parser.py:19-21 | the filter keeps exactly the elements that satisfy the predicate, each as many times as it occurs, and returns the whole sequence when every element passes |
| Seqs.FilterAppend | file_comparator/word_parser.py:19-21 | the filter keeps the relative order: filtering a concatenation is the concatenation of the filtered parts |
| Opcodes.EditsAreOps | file_comparator/comparator.py:174-175 | the opcodes the loop reports are opcodes of the list, none of them `equal` |
| Opcodes.EditsComplete | file_comparator/comparator.py:174-175 | every opcode that is not `equal` is reported |
| Opcodes.ChainBounds | file_comparator/comparator.py:174 | every opcode of a chain lies within both sequences |
| Opcodes.ChainSpans | file_comparator/comparator.py:174 | `equal` and other opcodes together cover each sequence up to the end of the chain |
| Opcodes.NoEditsIffNoSpan | file_comparator/comparator.py:174-175 | there is no opcode besides `equal` exactly when the changes cover nothing |
| Opcodes.PatchRoundTrip | file_comparator/comparator.py:170-174 | replacing `a[i1:i2]` by `b[j1:j2]` for every opcode that is not `equal` turns `a` into `b` |
| Outcome.Wrapped | file_comparator/pdf_parser.py:34-35 | the handler raises a `ValueError` whose message is the reader's prefix followed by the caught exception's text, which can be read back (the same handler closes `parse_word`, word_parser.py:32-33) |
| PdfParser.FirstUnextractable | file_comparator/pdf_parser.py:27-28 | the first page whose extraction raises: all pages before it extract |
| PdfParser.ParsePdf | file_comparator/pdf_parser.py:5-35 | the page loop returns the specification value `PdfText`, including each error |
| PdfParser.ParsePdfToLines | file_comparator/pdf_parser.py:37-48 | errors of `parse_pdf` pass through; otherwise the result is the cleaned pieces of its text |
| PdfParserProperties.PdfErrors | file_comparator/pdf_parser.py:15-35 | `parse_pdf` succeeds exactly when the reader opens, decryption does not raise and every page extracts; every failure is a prefixed `ValueError`, and the decryption error is wrapped twice |
| PdfParserProperties.KeptTextsAppend | file_comparator/pdf_parser.py:27-30 | the page loop keeps page order |
| PdfParserProperties.KeptTextsOfOnePage | file_comparator/pdf_parser.py:29-30 | a page contributes its text exactly when the text is non-empty, even if it is all whitespace |
| PdfParserProperties.KeptTextsNonEmpty | file_comparator/pdf_parser.py:29-30 | every kept page text is non-empty |
| PdfParserProperties.PdfTextSeparatesPages | file_comparator/pdf_parser.py:32 | page texts without line breaks are recovered by splitting the joined text |
| PdfParserProperties.NoTextWithoutNonEmptyPage | file_comparator/pdf_parser.py:20-32 | a document that opens and is unencrypted or decrypts, whose pages all extract to `""`, gives the empty text and no lines |
| PdfParserProperties.EmptyPagesKeepNothing | file_comparator/pdf_parser.py:29-30 | pages that all extract to `""` keep nothing |
| PdfParserProperties.PdfLinesAreClean | file_comparator/pdf_parser.py:48 | every line is non-empty, has no whitespace at either end and contains no line break |
| PdfParserProperties.PdfLinesByPage | file_comparator/pdf_parser.py:32-48 | the lines of the joined pages are the lines of each page in page order |
| WordParser.ParseWord | file_comparator/word_parser.py:4-33 | the three loops return the specification value `WordText`: the joined paragraphs, then cells, that have content |
| WordParser.AppendTableCells | file_comparator/word_parser.py:25-28 | the row and cell loops append the cells with content of one table in row order |
| WordParser.ParseWordToLines | file_comparator/word_parser.py:35-46 | errors of `parse_word` pass through; otherwise the result is the pieces of its text that have content |
| WordParserProperties.WordErrors | file_comparator/word_parser.py:14-33 | `parse_word` fails exactly when the document cannot be loaded, with a prefixed `ValueError` |
| WordParserProperties.WordPartsKeepContent | file_comparator/word_parser.py:19-28 | every kept part has content; every paragraph and every cell with content is kept as it is, paragraphs before cells |
| WordParserProperties.CellsOfTablesAppend | file_comparator/word_parser.py:24-28 | cells come table by table |
| WordParserProperties.WordLinesArePieces | file_comparator/word_parser.py:46 | every line is a piece of the text between line breaks, not stripped, that has content |
| WordParserProperties.WordLinesByPart | file_comparator/word_parser.py:30-46 | the lines of the joined parts are the lines of each part in order |
| WordParserProperties.WordLinesOfSingleLineParts | file_comparator/word_parser.py:30-46 | when no kept part has a line break, the lines are exactly the kept parts |
| Comparator.Prefixed | file_comparator/comparator.py:177-178 | `[f"{p}{line}" for line in lines]` has one entry `p + line` per line |
| Comparator.FileComparator.constructor | file_comparator/comparator.py:8-16 | the comparator keeps its algorithm name and has no word2vec model |
| Comparator.FileComparator.TrainWord2Vec | file_comparator/comparator.py:30-43 | afterwards the model is set; the algorithm is unchanged |
| Comparator.FileComparator.CalculateSimilarity | file_comparator/comparator.py:45-103 | the result is `Similarity` of the algorithm, the model state and the library values: the lexical score, the cosine, 0.0 for a zero vector, or one of the three `ValueError`s |
| Comparator.FileComparator.GetFileLines | file_comparator/comparator.py:191-209 | the result is `FileLinesOf`: the reader chosen by suffix, with its exceptions passed through |
| Comparator.FileComparator.CompareFiles | file_comparator/comparator.py:105-189 | the result is `CompareResult`: the first exception in load, load, score order, or the score and the report |
| Comparator.LinePass | file_comparator/comparator.py:174-187 | the loop appends `LineDiffs` and `LineDetails` of the opcodes to the lists it is given |
| Comparator.LineStep | file_comparator/comparator.py:175-187 | one iteration appends the `-`/`+` lines and one record for an opcode that is not `equal`, and nothing for an `equal` one |
| Comparator.FullPass | file_comparator/comparator.py:157-167 | the character loop produces `FullMessages` and `FullDetails` of the opcodes |
| Comparator.BuildReport | file_comparator/comparator.py:146-189 | the report is `AsWrittenReport` of the mode and the library's opcodes |
| ComparatorProperties.LexicalScoreBounds | file_comparator/comparator.py:62-67 | for ratios in [0, 1], the weighted score is in [0, 1]; it is 1 exactly when all three ratios are 1 and 0 exactly when all are 0; equal ratios give that ratio back |
| ComparatorProperties.SimilarityErrors | file_comparator/comparator.py:56-103 | the score fails exactly for an unknown algorithm (`不支持的算法: ` and the name), an untrained word2vec (`Word2Vec模型未训练`), or a trained word2vec on two texts without a gensim token, where TF-IDF raises its empty-vocabulary error; otherwise a zero norm gives 0.0 |
| ComparatorProperties.CosineBounds | file_comparator/comparator.py:97-100 | when `|dot| <= norm1 * norm2`, as Cauchy-Schwarz guarantees, the word2vec score is in [-1, 1] |
| ComparatorProperties.LineDetailsPerEdit | file_comparator/comparator.py:174-187 | line mode emits one record per opcode that is not `equal`, in opcode order |
| ComparatorProperties.LineRecordsDescribeEdits | file_comparator/comparator.py:181-187 | record `k` has the tag of change `k`, its 1-based first and last line in each file, and exactly the lines of each file in that range |
| ComparatorProperties.LineRecordsConsistent | file_comparator/comparator.py:181-187 | every line-mode record's contents are the lines its ranges name, within the files |
| ComparatorProperties.LineDiffsCount | file_comparator/comparator.py:177-178 | every change adds `i2 - i1` removed and `j2 - j1` added lines |
| ComparatorProperties.LineReportSize | file_comparator/comparator.py:170-187 | diff lines plus twice the lines of the `equal` blocks make `len(lines1) + len(lines2)`; there are diff lines exactly when there are records; files without records are equal |
| ComparatorProperties.LineRecordsPatch | file_comparator/comparator.py:181-187 | replacing in file 1 the lines each record names by its file 2 content gives file 2 |
| ComparatorProperties.PosRecordsPatch | file_comparator/comparator.py:161-167 | the character records patch the text of file 1 into the text of file 2 |
| ComparatorProperties.DiffRowsMeaning | file_comparator/comparator.py:174-178 | every diff line is `"- "` and a line of file 1 a change removes, or `"+ "` and a line of file 2 a change adds |
| ComparatorProperties.DiffRowsOrder | file_comparator/comparator.py:174-178 | diff lines follow the opcodes; within one opcode removed lines come before added ones, each in file order |
| ComparatorProperties.MessagesIdentifyChanges | file_comparator/comparator.py:160 | two changes with the same full-mode message are the same opcode |
| ComparatorProperties.FullMessagesPerEdit | file_comparator/comparator.py:157-160 | one message per change, naming its tag and offsets |
| ComparatorProperties.FullDetailsPerEdit | file_comparator/comparator.py:157-167 | one character record per change, with its offsets and text |
| ComparatorProperties.AsWrittenFullMode | file_comparator/comparator.py:150-187 | in `'full'` mode there are twice as many records as changes: a character record for each, then a line record read from the same character opcodes |
| ComparatorProperties.OtherModesAreLineMode | file_comparator/comparator.py:168-187 | every mode but `'full'` gives the line-mode report |
| ComparatorProperties.FullModePhantomRecord | file_comparator/comparator.py:174-187 | for `"ab"` against `"ac"` in `'full'` mode, the second record names line 2 of one-line files, with empty contents |
| ComparatorProperties.IntendedReportSound | file_comparator/comparator.py:150-187 | the corrected report has one record per change of its mode's opcodes, all of the mode's kind, and the records patch file 1 into file 2 |
| ComparatorProperties.LoadedLinesClean | file_comparator/comparator.py:191-209 | whatever reader the suffix picks, every loaded line has content and no line break |
| ComparatorProperties.PlainLinesLikePdfLines | file_comparator/comparator.py:209 | cleaning a plain text file gives the same lines as the PDF reader's comprehension on the same text |
| ComparatorProperties.ScoredTextSplitsBack | file_comparator/comparator.py:146-148 | the loaded lines are recovered from the scored text by splitting it at line breaks |
| Gui.BuildDiffMaps | gui.py:131-140 | position `k` is in the first map exactly when diff line `k` starts with `"- "`; it is in the second exactly when the line starts with `"+ "` and not `"- "`; the maps are disjoint; the counter ends at `len(diff_lines)` |
| Gui.DiffCountText | gui.py:112 | the count shown is the decimal digits of `len(diff_lines)`, with no leading zero |
| Gui.TextView.Clear | gui.py:104-105 | `delete(1.0, tk.END)` leaves the pane with no text and no tagged line |
| Gui.TextView.Insert | gui.py:144 | `insert(tk.END, s)` appends `s` to the pane's text and leaves the tags as they were |
| Gui.TextView.TagLine | gui.py:146 | `tag_add` on line `i + 1` adds `i` to the tagged lines and leaves the text as it was |
| Gui.TextView.ShowLines | gui.py:143-151 | a cleared pane ends holding every line followed by a line break, with line `i` tagged exactly when `i` is in the diff map |
| Gui.FileCompareApp.constructor | gui.py:6-21 | the window's comparator is `FileComparator()`, that is `'difflib'` and untrained, and both panes start empty |
| Gui.FileCompareApp.CompareFiles | gui.py:95-115 | without two paths the error message is shown and nothing else changes; a comparator exception leaves both panes empty and untagged and the score and count as they were; otherwise the score, the count, both panes and their tags are as the comparator's line-mode result says |
| Gui.FileCompareApp.DisplayWithHighlight | gui.py:117-151 | each pane holds its file's lines; line `i` is tagged when `i < len(lines)` and diff position `i` is in that pane's map |
| GuiProperties.RenderedLines | gui.py:143-149 | line `i + 1` of a pane shows line `i` of its file |
| GuiProperties.PanesShowLoadedLines | gui.py:119-149 | the panes show exactly the loaded lines |
| GuiProperties.DiffMapsOfLineReport | gui.py:135-139 | on a line-mode report the maps hold exactly the positions of the removed and of the added diff lines |
| GuiProperties.HighlightByPosition | gui.py:143-146 | for `["x", "a"]` against `["x", "b"]`, the unchanged line 1 of file 1 is tagged and the changed line 2 is not |
| GuiProperties.ChangedLinesAreEdited | gui.py:143-151 | tagging the lines the records name tags exactly the lines of each file that a change removes or adds |

## Left out

- The matching algorithm of `difflib.SequenceMatcher` and its `ratio()` are inputs. The opcodes' documented contract is assumed as `Opcodes.IsOpcodes`, and the ratios are assumed to be in [0, 1] where a lemma needs it.
- gensim's `simple_preprocess` and `Word2Vec`, scikit-learn's TF-IDF and numpy (comparator.py:18-28, 73-97) are outside the model. The word2vec branch receives the two token lists, the dot product and the two norms (`Comparator.Vectors`). TF-IDF's one exception is modelled: the empty-vocabulary `ValueError` (comparator.py:80), raised exactly when neither token list has a token (`Comparator.NoVocabulary`). The message is sklearn's text and may differ between sklearn versions.
- Comparator.FileComparator.TrainWord2Vec: records only that a model is set. It ignores its sentences and does not model a gensim failure.
- Comparator.Similarity: scores are exact reals, not IEEE doubles, so rounding in the weighted sum and in the division is not modelled.
- ComparatorProperties.CosineBounds: assumes the Cauchy-Schwarz bound `|dot| <= norm1 * norm2` rather than deriving it from vectors.
- File I/O is an input (`Comparator.FileContent`, `PdfParser.PdfSource`, `WordParser.WordSource`). This covers opening a file, `utf-8-sig` decoding with `errors='replace'`, universal-newline translation, PyPDF2 and python-docx. The model starts from the decoded, newline-translated text and from the extracted page, paragraph and cell texts.
- WordParserProperties.WordErrors: python-docx can also raise while `parse_word` reads `doc.paragraphs`, `para.text`, `doc.tables`, `table.rows` or `row.cells` (word_parser.py:19-28), and the handler at word_parser.py:32-33 wraps those exceptions too. `WordParser.WordSource` can fail only at `Document(file_path)`, so the lemma's "fails exactly when the document cannot be loaded" covers load failures only. A failure during the loops would give the same prefixed `ValueError`, because `text_parts` is local and is discarded.
- Python's default arguments are explicit: `Comparator.FileComparator.CompareFiles` takes its mode as a parameter, and the default `'line'` (comparator.py:105) is `Comparator.DefaultMode`. `Comparator.FileComparator.constructor` takes its algorithm, whose default `'difflib'` (comparator.py:8) is `Comparator.DefaultAlgorithm`. The window uses both defaults (gui.py:21, 108).
- `compare_files` (comparator.py:124-143) loads its files with the same suffix dispatch as `get_file_lines`. The model calls `GetFileLines` for both.
- The report records are Python dicts. They are the `Comparator.DiffDetail` datatype, with the dict keys as named fields.
- `PyStr.AsciiUpper`: `tag.upper()` is applied only to difflib's four ASCII tag names. Full Unicode case mapping is not modelled.
- The Tk window is outside the model: widget layout, file dialogs, scroll synchronisation (gui.py:1-93) and the `__main__` block. The `{similarity*100:.2f}%` text (gui.py:111) is shown as the score itself. The two tag styles are not modelled.
- Gui.FileCompareApp.CompareFiles: a comparator exception is returned as `Raised`. In Tk such an exception ends the callback and is printed by Tk.
- Gui.FileCompareApp.DisplayWithHighlight: `display_file_with_highlight` reads both files a second time through `get_file_lines` (gui.py:119-120). The model gives both reads the same `FileContent` and requires that it loads. A file that changes or disappears between the two reads is not modelled. In the source that case raises after the score and count are set (gui.py:111-112) and the panes are cleared.
- compare.py (the command-line entry) is not part of this model. It unpacks the three results of `compare_files` into two names, so it raises at that line (compare.py:39).
- `file_comparator/__init__.py` only re-exports names and is not part of this model.

## Findings

| source | as written | input that shows it | evidently intended | confidence | as-written member | corrected member |
|---|---|---|---|---|---|---|
| file_comparator/comparator.py:174-187 | the line loop is not inside the `else`, so in `'full'` mode it runs again on the character opcodes, reading character offsets as line numbers | lines `["ab"]` and `["ac"]` in `'full'` mode: the character opcode `replace 1-2` adds the record `file1_lines (2, 2)` with empty contents for one-line files, so every change gives two records | `'full'` mode reports the character opcodes only | high, not executed | ComparatorProperties.FullModePhantomRecord | ComparatorProperties.IntendedReportSound |
| gui.py:133-151 | the diff maps hold positions in the diff list, and the panes tag line `i` when diff position `i` is in the map | files `["x", "a"]` and `["x", "b"]`: the diff lines are `["- a", "+ b"]`, so line 1 of file 1 (`"x"`, unchanged) is tagged and the changed line 2 is not | tag the lines the records' `file1_lines` and `file2_lines` name | high, not executed | GuiProperties.HighlightByPosition | GuiProperties.ChangedLinesAreEdited |

The full-mode message of a change is its upper-cased tag and its two offset ranges, for example `"REPLACE at 1-2 in file1, 1-2 in file2"` (comparator.py:160).

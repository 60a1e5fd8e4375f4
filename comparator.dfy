/** `FileComparator` (file_comparator/comparator.py): loading the two files as
    cleaned line lists, the similarity score, and the difference report built
    from difflib's opcodes. difflib, gensim, sklearn and numpy are outside the
    model; what they return is given by a `Library` value. */
module Comparator {
  import opened Outcome
  import opened Seqs
  import opened PyStr
  import opened LineCleaning
  import opened Opcodes
  import PdfParser
  import WordParser

  /** The three `SequenceMatcher(...).ratio()` values of the lexical score:
      over the characters, over the gensim tokens and over the lines. */
  datatype Ratios = Ratios(charLevel: real, tokenLevel: real, lineLevel: real)

  /** What the word2vec branch works from: the gensim tokens `words1` and
      `words2` of the two texts (comparator.py:73-74), and what numpy computes
      from the two weighted vectors, `np.dot(vec1, vec2)` and the two norms. */
  datatype Vectors = Vectors(words1: seq<string>, words2: seq<string>, dot: real, norm1: real, norm2: real)

  /** The results of the library calls, as functions of their arguments. */
  datatype Library = Library(
    lineOpcodes: (seq<string>, seq<string>) -> seq<Opcode>,
    charOpcodes: (string, string) -> seq<Opcode>,
    ratios: (string, string) -> Ratios,
    vectors: (string, string) -> Vectors)

  /** What each reader makes of one file: the decoded text that `open` reads
      (or the `OSError` it raises), the Word document, and the PDF document. */
  datatype FileContent = FileContent(text: Result<string>, word: WordParser.WordSource, pdf: PdfParser.PdfSource)

  const Untrained := "Word2Vec模型未训练"
  const UnsupportedPrefix := "不支持的算法: "
  /** The `ValueError` that `TfidfVectorizer().fit_transform(corpus)` raises
      (comparator.py:78-80) when the corpus holds no token. */
  const EmptyVocabulary := "empty vocabulary; perhaps the documents only contain stop words"

  /** The default arguments `algorithm='difflib'` of `FileComparator`
      (comparator.py:8) and `mode='line'` of `compare_files` (comparator.py:105). */
  const DefaultAlgorithm := "difflib"
  const DefaultMode := "line"

  /** The weighted lexical score (comparator.py:67). */
  function LexicalScore(r: Ratios): real {
    0.3 * r.charLevel + 0.5 * r.tokenLevel + 0.2 * r.lineLevel
  }

  /** `np.dot(vec1, vec2) / (norm1 * norm2)` (comparator.py:99). */
  function Cosine(v: Vectors): real
    requires v.norm1 > 0.0 && v.norm2 > 0.0
  {
    v.dot / (v.norm1 * v.norm2)
  }

  /** The corpus `[' '.join(words1), ' '.join(words2)]` has no TF-IDF term.
      gensim's tokens are runs of at least two letters, and every such run is a
      term of sklearn's default token pattern, so that happens exactly when
      both texts have no token. */
  predicate NoVocabulary(v: Vectors) {
    v.words1 == [] && v.words2 == []
  }

  /** `calculate_similarity` (comparator.py:56-103): the dispatch on the
      algorithm name, its own two `ValueError`s, and the one the TF-IDF
      vectorizer raises. */
  function Similarity(algorithm: string, trained: bool, r: Ratios, v: Vectors): Result<real> {
    if algorithm == "difflib" then Success(LexicalScore(r))
    else if algorithm == "word2vec" then
      if !trained then Failure(ValueError(Untrained))
      else if NoVocabulary(v) then Failure(ValueError(EmptyVocabulary))
      else if v.norm1 > 0.0 && v.norm2 > 0.0 then Success(Cosine(v))
      else Success(0.0)
    else Failure(ValueError(UnsupportedPrefix + algorithm))
  }

  /** `[line.strip() for line in f if line.strip()]` over the text a file holds. */
  function PlainLines(text: string): seq<string> {
    StrippedNonBlank(FileLines(text))
  }

  /** `get_file_lines` (comparator.py:191-209), and the loading steps of
      `compare_files` (comparator.py:125-143): the reader is chosen by the
      path's suffix, and its exceptions pass through. */
  function FileLinesOf(path: string, content: FileContent): Result<seq<string>> {
    if EndsWith(path, ".docx") then
      var t := WordParser.WordText(content.word);
      if t.Failure? then Failure(t.error) else Success(WordParser.WordLines(t.value))
    else if EndsWith(path, ".pdf") then
      var t := PdfParser.PdfText(content.pdf);
      if t.Failure? then Failure(t.error) else Success(PdfParser.PdfLines(t.value))
    else
      match content.text
      case Failure(e) => Failure(e)
      case Success(t) => Success(PlainLines(t))
  }

  /** One structured difference: a line-level record
      (`file1_lines`/`file2_lines`, 1-based first line and last line) or a
      character-level record (`file1_pos`/`file2_pos`, 0-based offsets). */
  datatype DiffDetail =
    | LineDetail(kind: Tag, file1Lines: (nat, nat), file2Lines: (nat, nat),
                 lineContent1: seq<string>, lineContent2: seq<string>)
    | PosDetail(kind: Tag, file1Pos: (nat, nat), file2Pos: (nat, nat),
                textContent1: string, textContent2: string)

  /** `[f"{p}{line}" for line in lines]` */
  function Prefixed(p: string, lines: seq<string>): (r: seq<string>)
    ensures |r| == |lines|
    ensures forall k :: 0 <= k < |r| ==> r[k] == p + lines[k]
  {
    if lines == [] then [] else [p + lines[0]] + Prefixed(p, lines[1..])
  }

  /** The diff lines of one opcode (comparator.py:177-178). */
  function OpLineDiffs(a: seq<string>, b: seq<string>, o: Opcode): seq<string> {
    if IsEdit(o) then Prefixed("- ", Slice(a, o.i1, o.i2)) + Prefixed("+ ", Slice(b, o.j1, o.j2)) else []
  }

  /** The record of one opcode (comparator.py:181-187). */
  function LineRecord(a: seq<string>, b: seq<string>, o: Opcode): DiffDetail {
    LineDetail(o.tag, (o.i1 + 1, o.i2), (o.j1 + 1, o.j2), Slice(a, o.i1, o.i2), Slice(b, o.j1, o.j2))
  }

  /** The diff lines the loop at comparator.py:174-178 adds for `ops`. */
  function LineDiffs(a: seq<string>, b: seq<string>, ops: seq<Opcode>): seq<string> {
    if ops == [] then [] else LineDiffs(a, b, ops[..|ops| - 1]) + OpLineDiffs(a, b, ops[|ops| - 1])
  }

  /** The records the loop at comparator.py:174-187 adds for `ops`. */
  function LineDetails(a: seq<string>, b: seq<string>, ops: seq<Opcode>): seq<DiffDetail> {
    if ops == [] then []
    else
      var o := ops[|ops| - 1];
      LineDetails(a, b, ops[..|ops| - 1]) + (if IsEdit(o) then [LineRecord(a, b, o)] else [])
  }

  /** `f"{tag.upper()} at {i1}-{i2} in file1, {j1}-{j2} in file2"` (comparator.py:160). */
  function PosMessage(o: Opcode): string {
    AsciiUpper(TagName(o.tag)) + Offsets(o)
  }

  /** The message after the tag, grouped from the right. */
  function Offsets(o: Opcode): string {
    " at " + (NatToString(o.i1) + ("-" + (NatToString(o.i2)
      + (" in file1, " + (NatToString(o.j1) + ("-" + (NatToString(o.j2) + " in file2")))))))
  }

  /** The character-level record of one opcode (comparator.py:161-167). */
  function PosRecord(t1: string, t2: string, o: Opcode): DiffDetail {
    PosDetail(o.tag, (o.i1, o.i2), (o.j1, o.j2), Slice(t1, o.i1, o.i2), Slice(t2, o.j1, o.j2))
  }

  /** The messages the loop at comparator.py:157-160 emits for `ops`. */
  function FullMessages(ops: seq<Opcode>): seq<string> {
    if ops == [] then []
    else
      var o := ops[|ops| - 1];
      FullMessages(ops[..|ops| - 1]) + (if IsEdit(o) then [PosMessage(o)] else [])
  }

  /** The records the loop at comparator.py:157-167 emits for `ops`. */
  function FullDetails(t1: string, t2: string, ops: seq<Opcode>): seq<DiffDetail> {
    if ops == [] then []
    else
      var o := ops[|ops| - 1];
      FullDetails(t1, t2, ops[..|ops| - 1]) + (if IsEdit(o) then [PosRecord(t1, t2, o)] else [])
  }

  /** The diff lines and records of `compare_files`. */
  datatype Report = Report(diffs: seq<string>, details: seq<DiffDetail>)

  /** The report of comparator.py:150-189 as the code runs it. In `'full'` mode
      the character opcodes are reported once per message and record at
      157-167, and the loop at 174-187, which is not inside the `else`, then
      reads the same character opcodes as if they were line opcodes. */
  function AsWrittenReport(mode: string, lines1: seq<string>, lines2: seq<string>,
                           lineOps: seq<Opcode>, charOps: seq<Opcode>): Report {
    if mode == "full" then
      var text1, text2 := Join(lines1, "\n"), Join(lines2, "\n");
      Report(FullMessages(charOps) + LineDiffs(lines1, lines2, charOps),
             FullDetails(text1, text2, charOps) + LineDetails(lines1, lines2, charOps))
    else
      Report(LineDiffs(lines1, lines2, lineOps), LineDetails(lines1, lines2, lineOps))
  }

  /** What `compare_files` returns: the score, the diff lines and the records. */
  datatype Comparison = Comparison(similarity: real, diffs: seq<string>, details: seq<DiffDetail>)

  /** `compare_files` (comparator.py:105-189): file 1 is loaded, then file 2,
      then the score is computed, and the first exception raised ends it. */
  function CompareResult(algorithm: string, trained: bool, path1: string, content1: FileContent,
                         path2: string, content2: FileContent, mode: string, lib: Library): Result<Comparison> {
    var r1 := FileLinesOf(path1, content1);
    if r1.Failure? then Failure(r1.error)
    else
      var r2 := FileLinesOf(path2, content2);
      if r2.Failure? then Failure(r2.error)
      else
        var lines1, lines2 := r1.value, r2.value;
        var text1, text2 := Join(lines1, "\n"), Join(lines2, "\n");
        var s := Similarity(algorithm, trained, lib.ratios(text1, text2), lib.vectors(text1, text2));
        if s.Failure? then Failure(s.error)
        else
          var rep := AsWrittenReport(mode, lines1, lines2, lib.lineOpcodes(lines1, lines2), lib.charOpcodes(text1, text2));
          Success(Comparison(s.value, rep.diffs, rep.details))
  }

  /** The loop at comparator.py:174-187 over `ops`, appending to the lists it
      is given. */
  method LinePass(lines1: seq<string>, lines2: seq<string>, ops: seq<Opcode>,
                  diffs0: seq<string>, details0: seq<DiffDetail>)
    returns (diffs: seq<string>, details: seq<DiffDetail>)
    ensures diffs == diffs0 + LineDiffs(lines1, lines2, ops)
    ensures details == details0 + LineDetails(lines1, lines2, ops)
  {
    diffs, details := diffs0, details0;
    for n := 0 to |ops|
      invariant diffs == diffs0 + LineDiffs(lines1, lines2, ops[..n])
      invariant details == details0 + LineDetails(lines1, lines2, ops[..n])
    {
      LineDiffsSnoc(lines1, lines2, ops, n);
      AppendAssoc(diffs0, LineDiffs(lines1, lines2, ops[..n]), OpLineDiffs(lines1, lines2, ops[n]));
      AppendAssoc(details0, LineDetails(lines1, lines2, ops[..n]),
                  if IsEdit(ops[n]) then [LineRecord(lines1, lines2, ops[n])] else []);
      diffs, details := LineStep(lines1, lines2, ops[n], diffs, details);
    }
    assert ops[..|ops|] == ops;
  }

  lemma LineDiffsSnoc(lines1: seq<string>, lines2: seq<string>, ops: seq<Opcode>, n: nat)
    requires n < |ops|
    ensures LineDiffs(lines1, lines2, ops[..n + 1]) == LineDiffs(lines1, lines2, ops[..n]) + OpLineDiffs(lines1, lines2, ops[n])
    ensures LineDetails(lines1, lines2, ops[..n + 1]) == LineDetails(lines1, lines2, ops[..n])
      + (if IsEdit(ops[n]) then [LineRecord(lines1, lines2, ops[n])] else [])
  {
    assert ops[..n + 1][..n] == ops[..n];
  }

  /** One iteration of the loop at comparator.py:174-187. */
  method LineStep(lines1: seq<string>, lines2: seq<string>, o: Opcode,
                  diffs0: seq<string>, details0: seq<DiffDetail>)
    returns (diffs: seq<string>, details: seq<DiffDetail>)
    ensures diffs == diffs0 + OpLineDiffs(lines1, lines2, o)
    ensures details == details0 + (if IsEdit(o) then [LineRecord(lines1, lines2, o)] else [])
  {
    diffs, details := diffs0, details0;
    if o.tag != Equal {
      var removed := Prefixed("- ", Slice(lines1, o.i1, o.i2));
      var added := Prefixed("+ ", Slice(lines2, o.j1, o.j2));
      diffs := diffs + removed;
      diffs := diffs + added;
      AppendAssoc(diffs0, removed, added);
      details := details + [LineDetail(o.tag, (o.i1 + 1, o.i2), (o.j1 + 1, o.j2),
                                       Slice(lines1, o.i1, o.i2), Slice(lines2, o.j1, o.j2))];
    }
  }

  /** The loop at comparator.py:157-167 over the character opcodes. */
  method FullPass(text1: string, text2: string, ops: seq<Opcode>)
    returns (diffs: seq<string>, details: seq<DiffDetail>)
    ensures diffs == FullMessages(ops)
    ensures details == FullDetails(text1, text2, ops)
  {
    diffs, details := [], [];
    for n := 0 to |ops|
      invariant diffs == FullMessages(ops[..n])
      invariant details == FullDetails(text1, text2, ops[..n])
    {
      var o := ops[n];
      assert ops[..n + 1][..n] == ops[..n];
      if o.tag != Equal {
        diffs := diffs + [PosMessage(o)];
        details := details + [PosDetail(o.tag, (o.i1, o.i2), (o.j1, o.j2),
                                        Slice(text1, o.i1, o.i2), Slice(text2, o.j1, o.j2))];
      }
    }
    assert ops[..|ops|] == ops;
  }

  /** The report-building part of `compare_files` (comparator.py:146-189). */
  method BuildReport(mode: string, lines1: seq<string>, lines2: seq<string>, lib: Library) returns (report: Report)
    ensures report == AsWrittenReport(mode, lines1, lines2, lib.lineOpcodes(lines1, lines2),
                                      lib.charOpcodes(Join(lines1, "\n"), Join(lines2, "\n")))
  {
    var text1, text2 := Join(lines1, "\n"), Join(lines2, "\n");
    var diffs: seq<string>, details: seq<DiffDetail>;
    var ops: seq<Opcode>;
    if mode == "full" {
      ops := lib.charOpcodes(text1, text2);
      diffs, details := FullPass(text1, text2, ops);
    } else {
      ops := lib.lineOpcodes(lines1, lines2);
      diffs, details := [], [];
    }
    diffs, details := LinePass(lines1, lines2, ops, diffs, details);
    return Report(diffs, details);
  }

  class FileComparator {
    /** The algorithm name the comparator was created with. */
    var algorithm: string
    /** Whether `word2vec_model` has been set. */
    var trained: bool

    /** `__init__` (comparator.py:8-16). */
    constructor(algorithm: string)
      ensures this.algorithm == algorithm && !trained
    {
      this.algorithm := algorithm;
      trained := false;
    }

    /** `train_word2vec` (comparator.py:30-43): the model is set; how gensim
        trains it is not modelled. */
    method TrainWord2Vec(sentences: seq<seq<string>>)
      modifies this
      ensures trained && algorithm == old(algorithm)
    {
      trained := true;
    }

    /** `calculate_similarity` (comparator.py:45-103). */
    method CalculateSimilarity(text1: string, text2: string, lib: Library) returns (r: Result<real>)
      ensures r == Similarity(algorithm, trained, lib.ratios(text1, text2), lib.vectors(text1, text2))
    {
      if algorithm == "difflib" {
        var ratios := lib.ratios(text1, text2);
        return Success(0.3 * ratios.charLevel + 0.5 * ratios.tokenLevel + 0.2 * ratios.lineLevel);
      } else if algorithm == "word2vec" {
        if !trained {
          return Failure(ValueError(Untrained));
        }
        var v := lib.vectors(text1, text2);
        var words1, words2 := v.words1, v.words2;
        if words1 == [] && words2 == [] {
          return Failure(ValueError(EmptyVocabulary));
        }
        if v.norm1 > 0.0 && v.norm2 > 0.0 {
          return Success(Cosine(v));
        }
        return Success(0.0);
      } else {
        return Failure(ValueError(UnsupportedPrefix + algorithm));
      }
    }

    /** `get_file_lines` (comparator.py:191-209). */
    method GetFileLines(path: string, content: FileContent) returns (r: Result<seq<string>>)
      ensures r == FileLinesOf(path, content)
    {
      if EndsWith(path, ".docx") {
        r := WordParser.ParseWordToLines(content.word);
      } else if EndsWith(path, ".pdf") {
        r := PdfParser.ParsePdfToLines(content.pdf);
      } else {
        match content.text
        case Failure(e) => return Failure(e);
        case Success(t) => return Success(StrippedNonBlank(FileLines(t)));
      }
    }

    /** `compare_files` (comparator.py:105-189). */
    method CompareFiles(path1: string, content1: FileContent, path2: string, content2: FileContent,
                        mode: string, lib: Library) returns (r: Result<Comparison>)
      ensures r == CompareResult(algorithm, trained, path1, content1, path2, content2, mode, lib)
    {
      var r1 := GetFileLines(path1, content1);
      if r1.Failure? {
        return Failure(r1.error);
      }
      var r2 := GetFileLines(path2, content2);
      if r2.Failure? {
        return Failure(r2.error);
      }
      var lines1, lines2 := r1.value, r2.value;
      var text1, text2 := Join(lines1, "\n"), Join(lines2, "\n");
      var similarity := CalculateSimilarity(text1, text2, lib);
      if similarity.Failure? {
        return Failure(similarity.error);
      }
      var report := BuildReport(mode, lines1, lines2, lib);
      return Success(Comparison(similarity.value, report.diffs, report.details));
    }
  }
}

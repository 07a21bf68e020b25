/** The orchestration in `main`: collect, keep the first ten records, halt
    when none remain, otherwise report the counts, build the prompt and make
    the one completion call. */
module Pipeline {
  import Decimal
  import Paths
  import opened Extraction
  import opened Collection
  import PromptBuilder
  import Completion

  /** At most this many records go into the prompt. */
  const MaxResumes: nat := 10

  /** The first `MaxResumes` records, as a Python slice `[:10]` keeps them. */
  function Truncate(rs: seq<ResumePage>): (kept: seq<ResumePage>)
    ensures |kept| == if |rs| < MaxResumes then |rs| else MaxResumes
    ensures kept == rs[..|kept|]
  {
    if |rs| <= MaxResumes then rs else rs[..MaxResumes]
  }

  /** Truncating twice keeps what truncating once keeps. */
  lemma TruncateIdempotent(rs: seq<ResumePage>)
    ensures Truncate(Truncate(rs)) == Truncate(rs)
  {
  }

  /** Truncation empties the list only when the list was empty. */
  lemma TruncateEmpty(rs: seq<ResumePage>)
    ensures Truncate(rs) == [] <==> rs == []
  {
  }

  /** The number of distinct files among the records: at most one per
      record, and at least one when there is a record. */
  function FileCount(rs: seq<ResumePage>): (n: nat)
    ensures n <= |rs|
    ensures rs != [] ==> 1 <= n
  {
    FileCountBounds(rs);
    |SourceFiles(rs)|
  }

  /** One distinct file name at most per record, and at least one when there
      is a record. */
  lemma {:induction false} FileCountBounds(rs: seq<ResumePage>)
    ensures |SourceFiles(rs)| <= |rs|
    ensures rs != [] ==> 1 <= |SourceFiles(rs)|
    decreases |rs|
  {
    if rs != [] {
      var last := rs[|rs| - 1];
      var init := rs[..|rs| - 1];
      assert rs == init + [last];
      assert SourceFiles(rs) == SourceFiles(init) + {last.sourceFile};
      FileCountBounds(init);
    }
  }

  /** A prefix names no file the whole list does not name. */
  lemma PrefixSources(prefix: seq<ResumePage>, rs: seq<ResumePage>)
    requires prefix <= rs
    ensures SourceFiles(prefix) <= SourceFiles(rs)
  {
    forall f | f in SourceFiles(prefix)
      ensures f in SourceFiles(rs)
    {
      var r :| r in prefix && r.sourceFile == f;
      var k :| 0 <= k < |prefix| && prefix[k] == r;
      assert rs[k] == r;
    }
  }

  /** The number of records that are the first from their file, counted
      record by record. */
  function FirstOccurrences(rs: seq<ResumePage>): nat
    decreases |rs|
  {
    if rs == [] then 0
    else
      var init := rs[..|rs| - 1];
      FirstOccurrences(init) + (if rs[|rs| - 1].sourceFile in SourceFiles(init) then 0 else 1)
  }

  /** The distinct-file count is the number of records that are the first
      from their file. */
  lemma {:induction false} FileCountFirstOccurrences(rs: seq<ResumePage>)
    ensures FileCount(rs) == FirstOccurrences(rs)
    decreases |rs|
  {
    if rs != [] {
      var last := rs[|rs| - 1];
      var init := rs[..|rs| - 1];
      assert rs == init + [last];
      assert SourceFiles(rs) == SourceFiles(init) + {last.sourceFile};
      FileCountFirstOccurrences(init);
      if last.sourceFile in SourceFiles(init) {
        assert SourceFiles(rs) == SourceFiles(init);
      } else {
        assert |SourceFiles(rs)| == |SourceFiles(init)| + 1;
      }
    }
  }

  lemma SubsetCardinality<T>(a: set<T>, b: set<T>)
    requires a <= b
    ensures |a| <= |b|
  {
    assert b == a + (b - a);
  }

  /** The counts printed before the completion call. */
  datatype Summary = Summary(resumeCount: nat, fileCount: nat)

  function Summarize(rs: seq<ResumePage>): Summary {
    Summary(|rs|, FileCount(rs))
  }

  const FoundWord: string := "Found "

  const AcrossWord: string := " resumes across "

  const FilesWord: string := " PDF files:"

  /** The count line that precedes the per-resume listing. */
  function SummaryLine(s: Summary): string {
    FoundWord + Decimal.FromNat(s.resumeCount) + AcrossWord
      + Decimal.FromNat(s.fileCount) + FilesWord
  }

  /** Both counts can be read back from the count line: the record count
      right after "Found ", the file count right after the record count and
      " resumes across ". */
  lemma SummaryLineReadable(s: Summary)
    ensures Decimal.NumeralAfter(SummaryLine(s), FoundWord, s.resumeCount)
    ensures
      var head := FoundWord + Decimal.FromNat(s.resumeCount) + AcrossWord;
      Decimal.NumeralAfter(SummaryLine(s), head, s.fileCount)
    ensures PromptBuilder.EndsWith(SummaryLine(s), FilesWord)
  {
    var count := Decimal.FromNat(s.resumeCount);
    var files := Decimal.FromNat(s.fileCount);
    var head := FoundWord + count + AcrossWord;
    assert SummaryLine(s) == FoundWord + count + (AcrossWord + files + FilesWord);
    Decimal.NumeralReadsBack(FoundWord, s.resumeCount, AcrossWord + files + FilesWord);
    assert SummaryLine(s) == head + files + FilesWord;
    Decimal.NumeralReadsBack(head, s.fileCount, FilesWord);
  }

  const NoResumesPrefix: string := "No PDF resumes found in "

  const NoResumesSuffix: string := ". Please add some resume PDFs and try again."

  /** The message printed when no record remains. */
  function NoResumesMessage(dataFolder: string): string {
    NoResumesPrefix + dataFolder + NoResumesSuffix
  }

  /** The halt message names the data folder verbatim between its fixed
      opening and closing text, so different folders give different
      messages. */
  lemma NoResumesMessageNamesFolder(dataFolder: string, other: string)
    ensures
      var m := NoResumesMessage(dataFolder);
      && |NoResumesPrefix| + |NoResumesSuffix| <= |m|
      && m[..|NoResumesPrefix|] == NoResumesPrefix
      && m[|NoResumesPrefix|..|m| - |NoResumesSuffix|] == dataFolder
      && m[|m| - |NoResumesSuffix|..] == NoResumesSuffix
    ensures NoResumesMessage(dataFolder) == NoResumesMessage(other) ==> dataFolder == other
  {
  }

  /** How one run ends: halted before any completion call, or matched with
      the records used, their counts, the prompt sent and the text returned. */
  datatype RunOutcome =
    | Halted(message: string)
    | Matched(resumes: seq<ResumePage>, summary: Summary, prompt: string, result: string)

  /** One run over a listing of PDF files. The job description is the text
      already resolved from the argument, a file, or the console; `complete`
      stands for the completion call. */
  function Run(dataFolder: string, files: seq<PdfFile>, jobDescription: string,
               complete: string -> Completion.Outcome): (o: RunOutcome)
    ensures o.Halted? <==> Collect(files) == []
    ensures o.Halted? ==> o.message == NoResumesMessage(dataFolder)
    ensures o.Matched? ==>
      && o.resumes <= Collect(files)
      && |o.resumes| == (if |Collect(files)| < MaxResumes then |Collect(files)| else MaxResumes)
      && o.summary == Summary(|o.resumes|, FileCount(o.resumes))
      && 1 <= o.summary.fileCount <= o.summary.resumeCount <= MaxResumes
      && o.summary.fileCount <= |files|
      && o.prompt == PromptBuilder.Prompt(jobDescription, o.resumes)
      && o.result == Completion.ResultText(complete(o.prompt))
  {
    var all := Collect(files);
    var resumes := Truncate(all);
    TruncateEmpty(all);
    if resumes == [] then
      Halted(NoResumesMessage(dataFolder))
    else
      FileCountBounds(resumes);
      CollectSources(files);
      BasenamesBound(files);
      PrefixSources(resumes, all);
      SubsetCardinality(SourceFiles(resumes), SourceFiles(all));
      SubsetCardinality(SourceFiles(all), Basenames(files));
      var prompt := PromptBuilder.Prompt(jobDescription, resumes);
      Matched(resumes, Summarize(resumes), prompt, Completion.ResultText(complete(prompt)))
  }

  /** A run that halts never consults the completion call: any two calls
      give the same outcome. */
  lemma HaltIgnoresCompletion(dataFolder: string, files: seq<PdfFile>, jobDescription: string,
                              c1: string -> Completion.Outcome, c2: string -> Completion.Outcome)
    requires Collect(files) == []
    ensures Run(dataFolder, files, jobDescription, c1) == Run(dataFolder, files, jobDescription, c2)
  {
  }

  /** A run that matches consults the completion call on its prompt only:
      two calls that agree on that prompt give the same outcome. */
  lemma MatchConsultsOnlyPrompt(dataFolder: string, files: seq<PdfFile>, jobDescription: string,
                                c1: string -> Completion.Outcome, c2: string -> Completion.Outcome)
    requires Collect(files) != []
    requires
      var prompt := PromptBuilder.Prompt(jobDescription, Truncate(Collect(files)));
      c1(prompt) == c2(prompt)
    ensures Run(dataFolder, files, jobDescription, c1) == Run(dataFolder, files, jobDescription, c2)
  {
  }

  /** With at most ten records collected, the run uses all of them. */
  lemma RunKeepsAllWhenFew(dataFolder: string, files: seq<PdfFile>, jobDescription: string,
                           complete: string -> Completion.Outcome)
    requires 0 < |Collect(files)| <= MaxResumes
    ensures Run(dataFolder, files, jobDescription, complete).Matched?
    ensures Run(dataFolder, files, jobDescription, complete).resumes == Collect(files)
  {
  }

  /** The listing of the two-file example below. */
  function TwoFiles(): seq<PdfFile> {
    [PdfFile("data/a.pdf", Readable([Text("A1"), Text("A2")])),
     PdfFile("data/b.pdf", Readable([Text("B1")]))]
  }

  /** The records of the two-file example, `a.pdf`'s two pages then `b.pdf`'s. */
  function TwoFileRecords(): seq<ResumePage> {
    [ResumePage("a.pdf", 1, "A1"), ResumePage("a.pdf", 2, "A2"), ResumePage("b.pdf", 1, "B1")]
  }

  /** Both files read cleanly, so their records are concatenated whole. */
  lemma TwoFileCollect()
    ensures Collect(TwoFiles()) == TwoFileRecords()
  {
    var files := TwoFiles();
    var a, b := files[0], files[1];
    Paths.BasenameOfJoin("data", "a.pdf");
    Paths.BasenameOfJoin("data", "b.pdf");
    assert a.path == "data" + "/" + "a.pdf";
    assert b.path == "data" + "/" + "b.pdf";
    ExtractClosedForm(a.path, a.doc);
    ExtractClosedForm(b.path, b.doc);
    var ra := [ResumePage("a.pdf", 1, "A1"), ResumePage("a.pdf", 2, "A2")];
    var rb := [ResumePage("b.pdf", 1, "B1")];
    assert Extract(a.path, a.doc) == ra;
    assert Extract(b.path, b.doc) == rb;
    assert files[1..] == [b];
    assert Collect([b]) == rb + Collect([]);
    assert ra + rb == TwoFileRecords();
  }

  /** The example's records come from exactly two files. */
  lemma TwoFileSources()
    ensures SourceFiles(TwoFileRecords()) == {"a.pdf", "b.pdf"}
    ensures FileCount(TwoFileRecords()) == 2
  {
    var rs := TwoFileRecords();
    forall f | f in SourceFiles(rs)
      ensures f == "a.pdf" || f == "b.pdf"
    {
      var r :| r in rs && r.sourceFile == f;
    }
    assert rs[0] in rs && rs[2] in rs;
    assert "a.pdf"[0] != "b.pdf"[0];
  }

  /** The count line for three records from two files. */
  lemma CountLine()
    ensures SummaryLine(Summary(3, 2)) == "Found 3 resumes across 2 PDF files:"
  {
    Decimal.SingleDigit(3);
    Decimal.SingleDigit(2);
    var head, tail := "Found 3 resumes across ", "2 PDF files:";
    assert FoundWord + "3" + AcrossWord == head;
    assert "2" + FilesWord == tail;
    assert SummaryLine(Summary(3, 2)) == head + tail;
  }

  /** Two files in the data folder, `a.pdf` with two pages and `b.pdf` with
      one: the run matches three records from two files, and the count line
      says so. */
  lemma TwoFileRun(jobDescription: string, complete: string -> Completion.Outcome)
    ensures
      var o := Run("data", TwoFiles(), jobDescription, complete);
      && o.Matched?
      && o.resumes == TwoFileRecords()
      && o.summary == Summary(3, 2)
  {
    TwoFileCollect();
    RunKeepsAllWhenFew("data", TwoFiles(), jobDescription, complete);
    TwoFileSources();
    assert Run("data", TwoFiles(), jobDescription, complete).summary == Summary(3, 2);
  }
}

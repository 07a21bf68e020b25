/** Resume collection: the listed PDF files are extracted one after another
    and their records concatenated. The directory listing itself (the glob
    and its order) is an input. */
module Collection {
  import Paths
  import opened Extraction

  /** A listed PDF file: its path and what reading it yields. */
  datatype PdfFile = PdfFile(path: string, doc: Document)

  /** Number of pages of a file that contributes records. */
  function CleanPages(f: PdfFile): nat {
    if ReadsCleanly(f.doc) then |f.doc.pages| else 0
  }

  /** Total page count over the files that read cleanly. */
  function CleanPageTotal(files: seq<PdfFile>): nat
    decreases |files|
  {
    if files == [] then 0 else CleanPages(files[0]) + CleanPageTotal(files[1..])
  }

  /** Basenames of the listed files. */
  function Basenames(files: seq<PdfFile>): set<string> {
    set f | f in files :: Paths.Basename(f.path)
  }

  /** All records of all listed files, file after file in listing order. */
  function Collect(files: seq<PdfFile>): (rs: seq<ResumePage>)
    ensures |rs| == CleanPageTotal(files)
    decreases |files|
  {
    if files == [] then []
    else Extract(files[0].path, files[0].doc) + Collect(files[1..])
  }

  /** Every collected record names one of the listed files. */
  lemma {:induction false} CollectSources(files: seq<PdfFile>)
    ensures SourceFiles(Collect(files)) <= Basenames(files)
    decreases |files|
  {
    if files != [] {
      var head := Extract(files[0].path, files[0].doc);
      var tail := Collect(files[1..]);
      ExtractSingleSource(files[0].path, files[0].doc);
      CollectSources(files[1..]);
      assert SourceFiles(head + tail) == SourceFiles(head) + SourceFiles(tail);
      assert Basenames(files) == {Paths.Basename(files[0].path)} + Basenames(files[1..]);
    }
  }

  /** Collecting a listing in two parts concatenates the two results. */
  lemma {:induction false} CollectAppend(a: seq<PdfFile>, b: seq<PdfFile>)
    ensures Collect(a + b) == Collect(a) + Collect(b)
    decreases |a|
  {
    if a == [] {
      assert a + b == b;
    } else {
      assert (a + b)[0] == a[0];
      assert (a + b)[1..] == a[1..] + b;
      CollectAppend(a[1..], b);
      var head := Extract(a[0].path, a[0].doc);
      calc {
        Collect(a + b);
        head + Collect(a[1..] + b);
        head + (Collect(a[1..]) + Collect(b));
        (head + Collect(a[1..])) + Collect(b);
        Collect(a) + Collect(b);
      }
    }
  }

  /** A listing splits around any one of its files. */
  lemma SplitAround<T>(s: seq<T>, i: nat)
    requires i < |s|
    ensures s == s[..i] + ([s[i]] + s[i + 1..])
  {
  }

  /** The records of file `i` form one contiguous run, between the records of
      the files before it and those of the files after it. */
  lemma CollectContiguous(files: seq<PdfFile>, i: nat)
    requires i < |files|
    ensures Collect(files) ==
      Collect(files[..i]) + Extract(files[i].path, files[i].doc) + Collect(files[i + 1..])
  {
    var before, here, after := files[..i], files[i], files[i + 1..];
    var mine := Extract(here.path, here.doc);
    SplitAround(files, i);
    assert ([here] + after)[1..] == after;
    CollectAppend(before, [here] + after);
    assert Collect([here] + after) == mine + Collect(after);
  }

  /** At most one distinct file name per listed file. */
  lemma {:induction false} BasenamesBound(files: seq<PdfFile>)
    ensures |Basenames(files)| <= |files|
    decreases |files|
  {
    if files != [] {
      assert Basenames(files) == {Paths.Basename(files[0].path)} + Basenames(files[1..]);
      BasenamesBound(files[1..]);
    }
  }

  /** Collecting one more file of the listing appends that file's records. */
  lemma CollectSnoc(files: seq<PdfFile>, i: nat)
    requires i < |files|
    ensures Collect(files[..i + 1]) == Collect(files[..i]) + Extract(files[i].path, files[i].doc)
  {
    assert files[..i + 1] == files[..i] + [files[i]];
    CollectAppend(files[..i], [files[i]]);
    assert Collect([files[i]]) == Extract(files[i].path, files[i].doc) + Collect([]);
  }

  /** The collection loop: each file's records are extended onto the list. */
  method GetResumes(files: seq<PdfFile>) returns (resumes: seq<ResumePage>)
    ensures resumes == Collect(files)
  {
    resumes := [];
    var i := 0;
    while i < |files|
      invariant 0 <= i <= |files|
      invariant resumes == Collect(files[..i])
    {
      var pdfResumes := ExtractTextFromPdf(files[i].path, files[i].doc);
      CollectSnoc(files, i);
      resumes := resumes + pdfResumes;
      i := i + 1;
    }
    assert files[..i] == files;
  }
}

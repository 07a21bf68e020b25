/** Page-record extraction: one PDF file becomes one resume record per page.
    The PDF parser is not modelled; a document is the outcome of reading it,
    page by page. */
module Extraction {
  import Paths

  /** One page of one PDF file, the unit the pipeline ranks. */
  datatype ResumePage = ResumePage(sourceFile: string, page: nat, content: string)

  /** The outcome of extracting the text of one page. */
  datatype PageText = Text(text: string) | PageError(message: string)

  /** The outcome of opening and parsing a PDF file. */
  datatype Document = Unreadable(message: string) | Readable(pages: seq<PageText>)

  /** The file opens and every page yields its text. */
  predicate ReadsCleanly(doc: Document) {
    doc.Readable? && forall k :: 0 <= k < |doc.pages| ==> doc.pages[k].Text?
  }

  /** The set of file names that records come from. */
  function SourceFiles(rs: seq<ResumePage>): set<string> {
    set r | r in rs :: r.sourceFile
  }

  /** Records for consecutive pages, numbered from `first`. */
  function PageRecords(name: string, pages: seq<PageText>, first: nat): (rs: seq<ResumePage>)
    requires forall k :: 0 <= k < |pages| ==> pages[k].Text?
    ensures |rs| == |pages|
    ensures forall k :: 0 <= k < |rs| ==> rs[k] == ResumePage(name, first + k, pages[k].text)
    decreases |pages|
  {
    if pages == [] then []
    else [ResumePage(name, first, pages[0].text)] + PageRecords(name, pages[1..], first + 1)
  }

  /** What extracting `path` yields: one record per page, numbered from 1 and
      tagged with the basename, when every page reads; nothing otherwise. */
  function Extract(path: string, doc: Document): (rs: seq<ResumePage>)
    ensures |rs| == (if ReadsCleanly(doc) then |doc.pages| else 0)
  {
    if ReadsCleanly(doc) then PageRecords(Paths.Basename(path), doc.pages, 1) else []
  }

  /** The extraction loop: records are appended page by page; an error on any
      page is caught for the whole file, and the records already built for
      earlier pages are dropped. */
  method ExtractTextFromPdf(path: string, doc: Document) returns (resumes: seq<ResumePage>)
    ensures resumes == Extract(path, doc)
  {
    if doc.Unreadable? {
      return [];
    }
    var name := Paths.Basename(path);
    var pages := doc.pages;
    resumes := [];
    var pageNum := 0;
    while pageNum < |pages|
      invariant 0 <= pageNum <= |pages|
      invariant forall k :: 0 <= k < pageNum ==> pages[k].Text?
      invariant |resumes| == pageNum
      invariant forall k :: 0 <= k < pageNum ==> resumes[k] == ResumePage(name, k + 1, pages[k].text)
    {
      if pages[pageNum].PageError? {
        return [];
      }
      resumes := resumes + [ResumePage(name, pageNum + 1, pages[pageNum].text)];
      pageNum := pageNum + 1;
    }
    assert resumes == PageRecords(name, pages, 1);
  }

  /** For a file whose pages all read, extraction yields one record per page,
      numbered from 1 in page order, carrying that page's text and the file's
      basename; for any other file, even one that fails only on its last
      page, it yields nothing. */
  lemma ExtractClosedForm(path: string, doc: Document)
    ensures ReadsCleanly(doc) ==> |Extract(path, doc)| == |doc.pages|
    ensures ReadsCleanly(doc) ==> forall k :: 0 <= k < |doc.pages| ==>
      Extract(path, doc)[k] == ResumePage(Paths.Basename(path), k + 1, doc.pages[k].text)
    ensures !ReadsCleanly(doc) ==> Extract(path, doc) == []
  {
  }

  /** Every record extracted from one file names that file, and at most one
      file name occurs. */
  lemma ExtractSingleSource(path: string, doc: Document)
    ensures SourceFiles(Extract(path, doc)) <= {Paths.Basename(path)}
    ensures Extract(path, doc) != [] ==> SourceFiles(Extract(path, doc)) == {Paths.Basename(path)}
  {
    var rs := Extract(path, doc);
    if rs != [] {
      assert rs[0] in rs;
    }
  }
}

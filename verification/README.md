# Matchly engine: the record-and-prompt pipeline

Matchly ranks PDF resumes against a job description by asking a
large language model. Every page of every PDF in a data folder counts as one
resume. This project models the deterministic part of `MatchlyEngine` and its
`main` function:

- **Extraction** (`extract_text_from_pdf`) turns one PDF into page records
  `{source_file, page, content}`. `source_file` is the basename of the path
  and pages are numbered from 1. Any failure, even on the last page, yields
  no records for that file.
- **Collection** (`get_resumes`) concatenates the per-file results in the
  order the files are listed.
- **Truncation and halt** (`main`) keep the first 10 records. When none
  remain, the run stops with a message and no completion call is made.
- **Prompt serialisation** (`match_resume_to_job`) builds the exact prompt
  string: a job-description header, one labelled block per record numbered
  from 1, and a fixed instruction block.
- **Summary counts** report the number of records and the number of distinct
  source files.
- **Completion fallback**: a failed completion call is reported as the text
  `"Error matching resumes to job: "` followed by the error message.

The PDF parser, the directory listing and the completion call are inputs.
A PDF is a `Document` value: unreadable, or a list of per-page outcomes. The
listing is a sequence of `PdfFile` values. The completion call is a function
from the prompt to a reply or a raised error.

Modules, one per component: `Decimal` (Python's `str` of a non-negative
`int`, and its inverse), `Paths` (`os.path.basename` on POSIX paths), `Extraction`,
`Collection`, `PromptBuilder`, `Completion` and `Pipeline` (the `main`
orchestration).

One `try` (matchly_engine.py:27-40) covers the whole file. A failing page
therefore discards every record of that file, including the pages already
read, and no record is ever made for a failed page.

## Model

| member | source | states |
|---|---|---|
| Decimal.FromNat | matchly_engine.py:57 | A rendered page or resume number is a non-empty string of digits with no leading zero. |
| Decimal.ToNatFromNat | matchly_engine.py:57 | Parsing a rendered number gives the number back, so labels carry the exact index and page. |
| Decimal.FromNatInjective | matchly_engine.py:57 | Different numbers are rendered as different labels. |
| Decimal.NumeralReadsBack | matchly_engine.py:57 | A number rendered after a fixed word and followed by a non-digit can be read back from the text. |
| Paths.Basename | matchly_engine.py:33 | The recorded `source_file` is no longer than the path and contains no '/'. |
| Paths.BasenameIsLastComponent | matchly_engine.py:33 | The `source_file` basename has no '/', ends the path, and is either the whole path or follows a '/'. |
| Paths.BasenameOfJoin | matchly_engine.py:46 | For a listed file `folder/name`, the recorded `source_file` is exactly `name`. |
| Extraction.PageRecords | matchly_engine.py:30-36 | One record per page text, in page order, with consecutive page numbers and the page's text as content. |
| Extraction.Extract | matchly_engine.py:24-40 | A file yields as many records as it has pages when every page reads, and none otherwise. |
| Extraction.ExtractTextFromPdf | matchly_engine.py:24-40 | The page loop appends one record per page. An error on any page makes the whole call return the empty list, discarding earlier records, and nothing is raised. |
| Extraction.ExtractClosedForm | matchly_engine.py:27-40 | For a clean file, record k has page k+1, the k-th page's text and the path's basename. Any failure gives the empty sequence. |
| Extraction.ExtractSingleSource | matchly_engine.py:33 | Every record from one file carries the same `source_file`, the basename of its path. |
| Collection.Collect | matchly_engine.py:42-52 | The collected list is as long as the total page count of the files that read cleanly. |
| Collection.CollectAppend | matchly_engine.py:48-50 | Collecting a listing in two parts concatenates the two results in listing order. |
| Collection.CollectContiguous | matchly_engine.py:48-50 | Each file's records form one contiguous run, between the records of the earlier and the later files. |
| Collection.CollectSources | matchly_engine.py:42-52 | Every collected record names one of the listed files. |
| Collection.BasenamesBound | matchly_engine.py:46-50 | The listed files have at most as many distinct basenames as there are files. |
| Collection.CollectSnoc | matchly_engine.py:48-50 | Collecting one more listed file appends exactly that file's records. |
| Collection.GetResumes | matchly_engine.py:42-52 | The loop that extends the list file by file computes exactly the listing-order concatenation. |
| PromptBuilder.LabelShape | matchly_engine.py:57 | A label starts with "Resume " and a number that reads back as the resume's 1-based position, and ends with a newline. |
| PromptBuilder.BlockReadable | matchly_engine.py:57 | A block starts with "Resume " and its number, which reads back, and ends with the resume's content verbatim after a non-empty label. |
| PromptBuilder.JoinLength | matchly_engine.py:65 | Joining the blocks adds no separator and loses nothing: the result is as long as all parts together. |
| PromptBuilder.JoinAppend | matchly_engine.py:65 | Joining a list in two parts concatenates the two joins. |
| PromptBuilder.BlocksShape | matchly_engine.py:57-65 | The joined blocks are empty exactly when there is no resume, and otherwise start with the block of resume 1. |
| PromptBuilder.PromptLayout | matchly_engine.py:61-73 | The prompt is, in order and with nothing in between, the job-description header, the job description, the resumes header, the joined blocks and the fixed instructions. |
| PromptBuilder.BlocksAppend | matchly_engine.py:57-65 | Splitting the resume list splits the joined blocks, and numbering continues across the split. |
| PromptBuilder.BlocksSnoc | matchly_engine.py:57-65 | Adding one more resume to the list appends exactly its block, numbered one past the earlier ones. |
| PromptBuilder.BlockInPlace | matchly_engine.py:57-65 | Resume i appears verbatim as block i+1 of the joined text, and each block starts after the block before it. |
| PromptBuilder.BlockInPrompt | matchly_engine.py:57-73 | In the full prompt, resume i appears as block i+1 right after the header and the blocks of the earlier resumes. |
| PromptBuilder.BuildPrompt | matchly_engine.py:57-73 | Appending the blocks one by one in input order and framing them gives exactly the prompt. |
| Completion.ResultText | matchly_engine.py:86-88 | A raised error is returned as the error prefix followed by the message. A reply is returned unchanged. |
| Completion.UnprefixedMeansReply | matchly_engine.py:86-88 | A result without the error prefix always comes from a successful reply. |
| Completion.PrefixDoesNotIdentifyErrors | matchly_engine.py:86-88 | A reply that starts with the error prefix cannot be told apart from a raised error. |
| Pipeline.Truncate | matchly_engine.py:104 | Truncation keeps the first min(n, 10) records, unchanged and in order. |
| Pipeline.TruncateIdempotent | matchly_engine.py:104 | Truncating twice is the same as truncating once. |
| Pipeline.TruncateEmpty | matchly_engine.py:104-107 | Truncation leaves nothing only when nothing was collected. |
| Pipeline.FileCountBounds | matchly_engine.py:109 | The set of source-file names of a record list has at most one name per record, and at least one name when there is a record. |
| Pipeline.FileCount | matchly_engine.py:109 | The distinct-file count is at most the record count, and at least 1 when there is a record. |
| Pipeline.FileCountFirstOccurrences | matchly_engine.py:109 | The size of the set of source files equals the number of records that are the first from their file. |
| Pipeline.SummaryLineReadable | matchly_engine.py:109 | The record count reads back right after "Found ", the file count reads back right after " resumes across ", and the line ends with " PDF files:". |
| Pipeline.NoResumesMessageNamesFolder | matchly_engine.py:106 | The halt message holds the data folder verbatim between its fixed opening and closing text, so different folders give different messages. |
| Pipeline.PrefixSources | matchly_engine.py:104-109 | The kept records name no file that the collected records do not name. |
| Pipeline.Run | matchly_engine.py:102-125 | The run halts with the "No PDF resumes found" message exactly when nothing was collected. Otherwise it keeps the first min(n, 10) records, builds their prompt, reports counts with 1 <= files <= records <= 10 and files <= listed files, and returns the completion call's text for that prompt, or the error text. |
| Pipeline.HaltIgnoresCompletion | matchly_engine.py:105-107 | When nothing is collected the outcome does not depend on the completion call at all: the run returns before calling it. |
| Pipeline.MatchConsultsOnlyPrompt | matchly_engine.py:104-122 | Otherwise the outcome depends on the completion call only through its answer to the one prompt built from the kept records. |
| Pipeline.RunKeepsAllWhenFew | matchly_engine.py:104-109 | When between 1 and 10 records are collected, the run matches all of them. |
| Pipeline.TwoFileCollect | matchly_engine.py:42-52 | With `a.pdf` (2 pages) and `b.pdf` (1 page), collection gives a.pdf pages 1 and 2, then b.pdf page 1. |
| Pipeline.TwoFileSources | matchly_engine.py:109 | Those three records come from exactly the two files `a.pdf` and `b.pdf`, so the file count is 2. |
| Pipeline.CountLine | matchly_engine.py:109 | Three records from two files produce the line "Found 3 resumes across 2 PDF files:". |
| Pipeline.TwoFileRun | matchly_engine.py:102-109 | The two-file run matches all three records and reports 3 records from 2 files. |

## Left out

- PDF parsing (`PyPDF2.PdfReader`, `extract_text`): a foreign library. A PDF is a `Document` value that is unreadable or holds one outcome per page. A page's text is taken as a string (`None` is not modelled).
- `glob.glob` over `folder/*.pdf`: filesystem I/O whose order depends on the platform. The listing is the `files` parameter. The `*.pdf` filter and the non-recursive scan are not modelled.
- `litellm.completion`: a network call. The system message, `max_tokens=1000`, `temperature=0.3` and the model name are not modelled. Only the outcome is modelled, as a reply text or a raised message. A reply whose content is `None` is not modelled.
- API-key resolution, the `os.environ` assignment, `load_dotenv` and argparse: environment and command-line plumbing.
- Job-description resolution (`input()`, `os.path.isfile`, reading the file): interactive and file I/O. `Run` takes the already-resolved text. The source resolves it only after the halt check, and the model's halt outcome does not depend on it.
- Pipeline.Run: assumes the job description was resolved. In the source, `input()` can raise `EOFError` and reading the file can fail or be undecodable. `main` then raises after the count line and before any completion call. The model has no outcome for that.
- Paths.Basename: models only the POSIX form of `os.path.basename`, which splits at '/'. On Windows, `ntpath.basename` also splits at a backslash and after a drive colon, so `data\a.pdf` would be recorded as `a.pdf` there but is its own basename in the model.
- Printing: the per-file extraction diagnostic, the per-resume listing lines and the final "Matching Results:" output are not modelled. The halt message and the count line are modelled as strings.

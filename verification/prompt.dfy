/** Prompt serialisation: the job description and the resume records become
    one prompt string with a fixed header, one labelled block per record and
    a fixed instruction block. */
module PromptBuilder {
  import Decimal
  import opened Extraction

  const JobHeader: string := "Job Description:\n"

  const ResumesHeader: string := "\n\nI have the following resumes:\n"

  /** The ranking and output-format instructions that close the prompt; the
      first two lines end in a space. */
  const Instructions: string :=
    "\n\nBased on the job description, rank these resumes from best to worst match. \n"
    + "Provide a score from 0-100 for each resume and explain the reasoning. \n"
    + "Format your response as:\n"
    + "1. Resume X (File: filename, Page: Y) - Score: XX/100 - [Brief explanation]\n"
    + "2. Resume Z (File: filename, Page: W) - Score: XX/100 - [Brief explanation]\n"
    + "And so on...\n"

  const ResumeWord: string := "Resume "

  /** The label line of the resume at 1-based position `number`. */
  function Label(number: nat, r: ResumePage): string {
    ResumeWord + Decimal.FromNat(number) + " (File: " + r.sourceFile
      + ", Page: " + Decimal.FromNat(r.page) + "):\n"
  }

  /** One resume block: its label, then its content verbatim. */
  function Block(number: nat, r: ResumePage): string {
    Label(number, r) + r.content
  }

  /** `text` ends with `tail`. */
  predicate EndsWith(text: string, tail: string) {
    |tail| <= |text| && text[|text| - |tail|..] == tail
  }

  /** The label starts with "Resume " and the resume number, which reads
      back as that number, and it ends the line, so the content starts on a
      line of its own. */
  lemma LabelShape(number: nat, r: ResumePage)
    ensures Decimal.NumeralAfter(Label(number, r), ResumeWord, number)
    ensures Label(number, r)[|Label(number, r)| - 1] == '\n'
  {
    var rest := " (File: " + r.sourceFile + ", Page: " + Decimal.FromNat(r.page) + "):\n";
    assert Label(number, r) == ResumeWord + Decimal.FromNat(number) + rest;
    Decimal.NumeralReadsBack(ResumeWord, number, rest);
  }

  /** A block is numbered as its label is, and it ends with the resume's
      content, after a label that is never empty. */
  lemma BlockReadable(number: nat, r: ResumePage)
    ensures Decimal.NumeralAfter(Block(number, r), ResumeWord, number)
    ensures EndsWith(Block(number, r), r.content)
    ensures |ResumeWord| + |r.content| < |Block(number, r)|
  {
    var rest := " (File: " + r.sourceFile + ", Page: " + Decimal.FromNat(r.page) + "):\n" + r.content;
    assert Block(number, r) == ResumeWord + Decimal.FromNat(number) + rest;
    Decimal.NumeralReadsBack(ResumeWord, number, rest);
  }

  /** The list of resume blocks, numbered from `first` in input order. */
  function Rendered(rs: seq<ResumePage>, first: nat): (parts: seq<string>)
    ensures |parts| == |rs|
    ensures forall k :: 0 <= k < |rs| ==> parts[k] == Block(first + k, rs[k])
  {
    seq(|rs|, k requires 0 <= k < |rs| => Block(first + k, rs[k]))
  }

  /** The sum of the lengths of `parts`. */
  function TotalLength(parts: seq<string>): nat
    decreases |parts|
  {
    if parts == [] then 0 else |parts[0]| + TotalLength(parts[1..])
  }

  /** Strings joined with no separator, as `''.join` does. */
  function Join(parts: seq<string>): string
    decreases |parts|
  {
    if parts == [] then "" else parts[0] + Join(parts[1..])
  }

  /** The joined resume blocks, numbered from `first`. */
  function Blocks(rs: seq<ResumePage>, first: nat): string {
    Join(Rendered(rs, first))
  }

  /** The whole prompt for a job description and a list of resumes. */
  function Prompt(jobDescription: string, rs: seq<ResumePage>): string {
    JobHeader + jobDescription + ResumesHeader + Blocks(rs, 1) + Instructions
  }

  /** Joining a list in two parts concatenates the two joins. */
  lemma {:induction false} JoinAppend(p: seq<string>, q: seq<string>)
    ensures Join(p + q) == Join(p) + Join(q)
    decreases |p|
  {
    if p == [] {
      assert p + q == q;
    } else {
      assert (p + q)[0] == p[0];
      assert (p + q)[1..] == p[1..] + q;
      JoinAppend(p[1..], q);
    }
  }

  /** Joining adds and loses nothing: the result is as long as the parts
      together. */
  lemma {:induction false} JoinLength(parts: seq<string>)
    ensures |Join(parts)| == TotalLength(parts)
    decreases |parts|
  {
    if parts != [] {
      JoinLength(parts[1..]);
    }
  }

  /** The joined blocks are empty exactly when there is no resume, and
      otherwise start with the first resume's block. */
  lemma BlocksShape(rs: seq<ResumePage>, first: nat)
    ensures Blocks(rs, first) == [] <==> rs == []
    ensures rs != [] ==> Block(first, rs[0]) <= Blocks(rs, first)
  {
    if rs != [] {
      var parts := Rendered(rs, first);
      BlockReadable(first, rs[0]);
      assert Join(parts) == parts[0] + Join(parts[1..]);
    }
  }

  /** Where part `i` starts in the joined string. */
  function PartOffset(parts: seq<string>, i: nat): nat
    requires i <= |parts|
  {
    |Join(parts[..i])|
  }

  /** Part `i` appears verbatim at its offset, and the next part starts
      right after it. */
  lemma PartInPlace(parts: seq<string>, i: nat)
    requires i < |parts|
    ensures PartOffset(parts, i) + |parts[i]| == PartOffset(parts, i + 1) <= |Join(parts)|
    ensures Join(parts)[PartOffset(parts, i)..PartOffset(parts, i + 1)] == parts[i]
  {
    var before, here, after := parts[..i], parts[i], parts[i + 1..];
    assert parts == before + ([here] + after);
    assert parts[..i + 1] == before + [here];
    JoinAppend(before, [here] + after);
    JoinAppend(before, [here]);
    assert Join([here] + after) == here + Join(after);
    assert Join([here]) == here + Join([]);
  }

  /** Numbering continues across a split of the resume list. */
  lemma BlocksAppend(a: seq<ResumePage>, b: seq<ResumePage>, first: nat)
    ensures Blocks(a + b, first) == Blocks(a, first) + Blocks(b, first + |a|)
  {
    assert Rendered(a + b, first) == Rendered(a, first) + Rendered(b, first + |a|);
    JoinAppend(Rendered(a, first), Rendered(b, first + |a|));
  }

  /** One more resume appends its block, numbered by its position. */
  lemma BlocksSnoc(rs: seq<ResumePage>, i: nat)
    requires i < |rs|
    ensures Blocks(rs[..i + 1], 1) == Blocks(rs[..i], 1) + Block(i + 1, rs[i])
  {
    assert rs[..i + 1] == rs[..i] + [rs[i]];
    BlocksAppend(rs[..i], [rs[i]], 1);
    assert Rendered([rs[i]], i + 1) == [Block(i + 1, rs[i])];
    assert Join([Block(i + 1, rs[i])]) == Block(i + 1, rs[i]) + Join([]);
  }

  /** The resume at index `i` appears as block number `i + 1`, verbatim, in
      the joined blocks; the blocks before it are those of the resumes before
      it, and each block starts after the one before it. */
  lemma BlockInPlace(rs: seq<ResumePage>, i: nat)
    requires i < |rs|
    ensures
      var parts := Rendered(rs, 1);
      && Blocks(rs[..i], 1) == Join(parts[..i])
      && PartOffset(parts, i) + |Block(i + 1, rs[i])| == PartOffset(parts, i + 1)
      && PartOffset(parts, i + 1) <= |Blocks(rs, 1)|
      && Blocks(rs, 1)[PartOffset(parts, i)..PartOffset(parts, i + 1)] == Block(i + 1, rs[i])
  {
    var parts := Rendered(rs, 1);
    assert Rendered(rs[..i], 1) == parts[..i];
    PartInPlace(parts, i);
  }

  /** The five parts of `a + b + c + d + e` can be cut back out of it. */
  lemma FiveParts(a: string, b: string, c: string, d: string, e: string)
    ensures
      var p := a + b + c + d + e;
      var ab, abc := |a| + |b|, |a| + |b| + |c|;
      && |p| == abc + |d| + |e|
      && p[..|a|] == a
      && p[|a|..ab] == b
      && p[ab..abc] == c
      && p[abc..abc + |d|] == d
      && p[abc + |d|..] == e
  {
  }

  /** A slice of a slice is a slice of the whole, shifted. */
  lemma SliceOfSlice(p: string, d: string, start: nat, lo: nat, hi: nat)
    requires start + |d| <= |p| && p[start..start + |d|] == d
    requires lo <= hi <= |d|
    ensures p[start + lo..start + hi] == d[lo..hi]
  {
    var x, y := p[start + lo..start + hi], d[lo..hi];
    forall k | 0 <= k < |x|
      ensures x[k] == y[k]
    {
      assert p[start..start + |d|][lo + k] == p[start + lo + k];
    }
  }

  /** Where the resume blocks start in the prompt. */
  function BlocksStart(jobDescription: string): nat {
    |JobHeader| + |jobDescription| + |ResumesHeader|
  }

  /** The prompt is the job-description header and the job description, the
      resumes header, the joined blocks, and the instructions, in that order. */
  lemma PromptLayout(jobDescription: string, rs: seq<ResumePage>)
    ensures
      var p := Prompt(jobDescription, rs);
      var start := BlocksStart(jobDescription);
      var end := start + |Blocks(rs, 1)|;
      && end + |Instructions| == |p|
      && p[..|JobHeader|] == JobHeader
      && p[|JobHeader|..|JobHeader| + |jobDescription|] == jobDescription
      && p[|JobHeader| + |jobDescription|..start] == ResumesHeader
      && p[start..end] == Blocks(rs, 1)
      && p[end..] == Instructions
  {
    FiveParts(JobHeader, jobDescription, ResumesHeader, Blocks(rs, 1), Instructions);
  }

  /** In the prompt, the resume at index `i` is block number `i + 1`, found
      verbatim right after the header and the blocks of the resumes before
      it. */
  lemma BlockInPrompt(jobDescription: string, rs: seq<ResumePage>, i: nat)
    requires i < |rs|
    ensures
      var start := BlocksStart(jobDescription) + |Blocks(rs[..i], 1)|;
      var block := Block(i + 1, rs[i]);
      && start + |block| <= |Prompt(jobDescription, rs)|
      && Prompt(jobDescription, rs)[start..start + |block|] == block
  {
    BlockInPlace(rs, i);
    PromptLayout(jobDescription, rs);
    var parts := Rendered(rs, 1);
    SliceOfSlice(Prompt(jobDescription, rs), Blocks(rs, 1), BlocksStart(jobDescription),
                 PartOffset(parts, i), PartOffset(parts, i + 1));
  }

  /** The prompt assembly: each resume's block is appended in input order,
      then the blocks are framed by the header and the instructions. */
  method BuildPrompt(jobDescription: string, resumes: seq<ResumePage>) returns (prompt: string)
    ensures prompt == Prompt(jobDescription, resumes)
  {
    var joined := "";
    var i := 0;
    while i < |resumes|
      invariant 0 <= i <= |resumes|
      invariant joined == Blocks(resumes[..i], 1)
    {
      BlocksSnoc(resumes, i);
      joined := joined + Block(i + 1, resumes[i]);
      i := i + 1;
    }
    assert resumes[..i] == resumes;
    prompt := JobHeader + jobDescription + ResumesHeader + joined + Instructions;
  }
}

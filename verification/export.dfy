/**
  The newer exporter, `src/io/export.rs`: file-name sanitising, the
  markdown layout of a note, the `{safe_name}_{i}.{format}` naming scheme
  and the export worker's loop over the notes.

  The folder dialog, the worker thread, the progress channel and the
  markdown-to-HTML conversion are outside the model: the file system is an
  oracle (`Disk`) and the conversion a function parameter (`toHtml`).
 */
module Export {
  import opened Wrappers
  import opened Text
  import opened Models

  const MaxNameLength: nat := 100

  predicate NoSeparators(s: string) {
    forall k :: 0 <= k < |s| ==> s[k] != '/' && s[k] != ' '
  }

  predicate AllAscii(s: string) {
    forall k :: 0 <= k < |s| ==> IsAscii(s[k])
  }

  /** A name `sanitize` leaves alone: at most 100 ASCII characters, none of them '/' or ' '. */
  predicate IsSafeName(s: string) {
    |s| <= MaxNameLength && NoSeparators(s) && AllAscii(s)
  }

  /** `s` with every `from` replaced by `to`: Rust's `str::replace` for one-character patterns. */
  function ReplaceChar(s: string, from: char, to: char): (r: string)
    ensures |r| == |s|
    ensures forall k :: 0 <= k < |s| ==> r[k] == (if s[k] == from then to else s[k])
  {
    if |s| == 0 then [] else [if s[0] == from then to else s[0]] + ReplaceChar(s[1..], from, to)
  }

  /** The first step of `sanitize`: '/' and then ' ' replaced by '_'. */
  function Underscored(s: string): (r: string)
    ensures |r| == |s| && NoSeparators(r)
    ensures NoSeparators(s) ==> r == s
    ensures AllAscii(s) ==> AllAscii(r)
  {
    ReplaceChar(ReplaceChar(s, '/', '_'), ' ', '_')
  }

  /** The ASCII characters of `s`, in order. */
  function KeepAscii(s: string): (r: string)
    ensures |r| <= |s| && AllAscii(r)
    ensures NoSeparators(s) ==> NoSeparators(r)
    ensures AllAscii(s) ==> r == s
  {
    if |s| == 0 then [] else (if IsAscii(s[0]) then [s[0]] else []) + KeepAscii(s[1..])
  }

  /**
    `sanitize`: separators become '_', non-ASCII characters are dropped, and
    the result is cut to its first 100 characters. (The source compares and
    truncates byte lengths; after the filter every character is one byte.)
   */
  function Sanitize(s: string): (r: string)
    ensures IsSafeName(r)
    ensures r <= KeepAscii(Underscored(s))
    ensures |r| == if |KeepAscii(Underscored(s))| <= MaxNameLength then |KeepAscii(Underscored(s))| else MaxNameLength
  {
    var x := KeepAscii(Underscored(s));
    if |x| > MaxNameLength then x[..MaxNameLength] else x
  }

  /** `sanitize` changes exactly the names that are not already safe. */
  lemma SanitizeFixedPoints(s: string)
    ensures Sanitize(s) == s <==> IsSafeName(s)
  {

  }

  /** Sanitising twice is sanitising once. */
  lemma SanitizeIdempotent(s: string)
    ensures Sanitize(Sanitize(s)) == Sanitize(s)
  {
    SanitizeFixedPoints(Sanitize(s));
  }

  /** The characters after the last '_' of `x` (all of `x` when it has none). */
  function LastField(x: string): string {
    if |x| == 0 then []
    else if x[|x| - 1] == '_' then []
    else LastField(x[..|x| - 1]) + [x[|x| - 1]]
  }

  lemma {:induction false} LastFieldAfterUnderscore(a: string, d: string)
    requires forall k :: 0 <= k < |d| ==> d[k] != '_'
    ensures LastField(a + "_" + d) == d
    decreases |d|
  {
    var x := a + "_" + d;
    if |d| == 0 {
      assert x[|x| - 1] == '_';
    } else {
      var d' := d[..|d| - 1];
      assert x[..|x| - 1] == a + "_" + d';
      assert x[|x| - 1] == d[|d| - 1];
      LastFieldAfterUnderscore(a, d');
    }
  }

  /** The export file name of the note at position `i`: `{safe_name}_{i}.{format}`. */
  function FileName(safeName: string, i: nat, format: string): string {
    safeName + "_" + NatToString(i) + "." + format
  }

  /**
    Export file names are distinct for distinct positions, whatever the
    sanitised names are: the number after the last '_' tells the position.
   */
  lemma FileNamesDistinct(a: string, b: string, i: nat, j: nat, format: string)
    requires i != j
    ensures FileName(a, i, format) != FileName(b, j, format)
  {
    if FileName(a, i, format) == FileName(b, j, format) {
      var x, y := a + "_" + NatToString(i), b + "_" + NatToString(j);
      assert FileName(a, i, format) == x + ("." + format);
      assert FileName(b, j, format) == y + ("." + format);
      assert x == FileName(a, i, format)[..|x|];
      assert x == y;
      LastFieldAfterUnderscore(a, NatToString(i));
      LastFieldAfterUnderscore(b, NatToString(j));
      NatToStringInjective(i, j);
    }
  }

  /** The note's content, or "" when it has none. */
  function ContentText(n: Note): string {
    match n.content
    case Some(c) => c
    case None => ""
  }

  /** The note's deletion time, or "NA" when it is not deleted. */
  function DeletedText(n: Note): string {
    match n.deletedAt
    case Some(d) => d
    case None => "NA"
  }

  /** The front-matter lines of `format_note_as_md`, before the content. */
  function MdHeader(n: Note): seq<string> {
    [ "---",
      "title: \"" + n.name + "\"",
      "",
      "date: " + n.createdAt,
      "",
      "updated: " + n.updatedAt,
      "",
      "deleted: " + DeletedText(n),
      "",
      "draft: false",
      "",
      "---",
      "" ]
  }

  /** `format_note_as_md`: the template's lines, each ended by '\n', with the content last. */
  function FormatNoteAsMd(n: Note): (r: string)
    ensures "---\ntitle: \"" + n.name + "\"\n" <= r
    ensures |r| > |ContentText(n)| && r[|r| - |ContentText(n)| - 1..] == ContentText(n) + "\n"
  {
    var ls := MdHeader(n) + [ContentText(n)];
    TerminatedAppend(MdHeader(n), [ContentText(n)]);
    assert ls[0] == "---" && ls[1] == "title: \"" + n.name + "\"";
    assert Terminated(ls) == "---" + "\n" + (ls[1] + "\n" + Terminated(ls[2..]));
    Terminated(ls)
  }

  /** A missing content is written as "", a missing deletion time as "NA". */
  lemma FormatNoteDefaults(n: Note)
    ensures FormatNoteAsMd(n.(content := None)) == FormatNoteAsMd(n.(content := Some("")))
    ensures FormatNoteAsMd(n.(deletedAt := None)) == FormatNoteAsMd(n.(deletedAt := Some("NA")))
  {
  }

  /**
    Read back line by line, the document is the 13 front-matter lines
    followed by the content's own lines, provided the name and timestamps
    hold no newline.
   */
  lemma FormatNoteLines(n: Note)
    requires !HasNewline(n.name) && !HasNewline(n.createdAt) && !HasNewline(n.updatedAt)
    requires !HasNewline(DeletedText(n))
    ensures Lines(FormatNoteAsMd(n)) == MdHeader(n) + SplitAll(ContentText(n))
  {
    var h := MdHeader(n);
    assert forall k :: 0 <= k < |h| ==> !HasNewline(h[k]) by {
      forall k | 0 <= k < |h|
        ensures !HasNewline(h[k])
      {
        if k == 1 {
          assert !HasNewline("title: \"") && !HasNewline("\"");
          assert h[1] == "title: \"" + n.name + "\"";
        }
      }
    }
    var c := ContentText(n);
    assert h + [c] == h + [c] + [];
    LinesOfTerminated(h + [c]);
    SplitEachAround(h, c, []);
    assert h + SplitAll(c) + [] == h + SplitAll(c);
  }

  /** The file system as the exporters see it: whether creating a file and each write to it succeed. */
  datatype Disk = Disk(canCreate: string -> bool, canWrite: (string, nat) -> bool)

  /** Every create and every write succeeds. */
  ghost predicate Healthy(disk: Disk) {
    && (forall p :: disk.canCreate(p))
    && (forall p, k :: disk.canWrite(p, k))
  }

  datatype ExportError = CreateFailed(path: string) | SaveFailed(safeName: string)

  /** The files left behind and the worker's answer: the number of notes saved, or the first failure. */
  datatype ExportRun = ExportRun(files: map<string, string>, outcome: Result<nat, ExportError>)

  /** What is written for a note: its markdown, converted when the target is "html". */
  function Rendered(n: Note, format: string, toHtml: string -> string): string {
    var data := FormatNoteAsMd(n);
    if format == "html" then toHtml(data) else data
  }

  /** The file the note at position `i` is exported to. */
  function ExportPath(notes: seq<Note>, i: nat, format: string): string
    requires i < |notes|
  {
    FileName(Sanitize(notes[i].name), i, format)
  }

  /** One iteration's worth of work: the file to create, the name used in messages, the text to write. */
  datatype Job = Job(path: string, safeName: string, data: string)

  /** The work the loop does for each note, in order. */
  function Jobs(notes: seq<Note>, format: string, toHtml: string -> string): (jobs: seq<Job>)
    ensures |jobs| == |notes|
  {
    seq(|notes|, i requires 0 <= i < |notes| =>
      Job(ExportPath(notes, i, format), Sanitize(notes[i].name), Rendered(notes[i], format, toHtml)))
  }

  /**
    The worker's loop from job `i` on, with `files` written so far and
    `actual` notes saved. A failed create or write ends the whole export
    with an error; a file whose write failed is left empty.
   */
  function RunJobs(jobs: seq<Job>, i: nat, disk: Disk, files: map<string, string>, actual: nat): ExportRun
    requires i <= |jobs|
    decreases |jobs| - i
  {
    if i == |jobs| then ExportRun(files, Ok(actual))
    else
      var job := jobs[i];
      if !disk.canCreate(job.path) then ExportRun(files, Err(CreateFailed(job.path)))
      else if !disk.canWrite(job.path, 0) then ExportRun(files[job.path := ""], Err(SaveFailed(job.safeName)))
      else RunJobs(jobs, i + 1, disk, files[job.path := job.data], actual + 1)
  }

  /** The export worker over all notes, starting with no files. */
  function ExportNotes(notes: seq<Note>, format: string, disk: Disk, toHtml: string -> string): ExportRun {
    RunJobs(Jobs(notes, format, toHtml), 0, disk, map[], 0)
  }

  /** A successful run always reports one more saved note per remaining job. */
  lemma {:induction false} SavedCount(jobs: seq<Job>, i: nat, disk: Disk, files: map<string, string>, actual: nat)
    requires i <= |jobs|
    ensures var r := RunJobs(jobs, i, disk, files, actual);
      r.outcome.Ok? ==> r.outcome.value == actual + |jobs| - i
    decreases |jobs| - i
  {
    if i < |jobs| && disk.canCreate(jobs[i].path) && disk.canWrite(jobs[i].path, 0) {
      SavedCount(jobs, i + 1, disk, files[jobs[i].path := jobs[i].data], actual + 1);
    }
  }

  /** `actual` is redundant: a successful export has saved every note. */
  lemma SuccessSavesAll(notes: seq<Note>, format: string, disk: Disk, toHtml: string -> string)
    ensures var r := ExportNotes(notes, format, disk, toHtml);
      r.outcome.Ok? ==> r.outcome.value == |notes|
  {
    SavedCount(Jobs(notes, format, toHtml), 0, disk, map[], 0);
  }

  /** A failed create stops the export at once, leaving the files as they were. */
  lemma {:induction false} CreateFailureStops(jobs: seq<Job>, i: nat, disk: Disk, files: map<string, string>, actual: nat)
    requires i < |jobs|
    requires !disk.canCreate(jobs[i].path)
    ensures RunJobs(jobs, i, disk, files, actual) == ExportRun(files, Err(CreateFailed(jobs[i].path)))
  {
  }

  /** The jobs' files are pairwise distinct. */
  predicate DistinctPaths(jobs: seq<Job>) {
    forall a, b :: 0 <= a < b < |jobs| ==> jobs[a].path != jobs[b].path
  }

  /** The export's jobs never share a file, thanks to the `_{i}` suffix. */
  lemma JobsDistinct(notes: seq<Note>, format: string, toHtml: string -> string)
    ensures DistinctPaths(Jobs(notes, format, toHtml))
  {
    var jobs := Jobs(notes, format, toHtml);
    forall a, b | 0 <= a < b < |jobs|
      ensures jobs[a].path != jobs[b].path
    {
      FileNamesDistinct(Sanitize(notes[a].name), Sanitize(notes[b].name), a, b, format);
    }
  }

  /** On a healthy disk, the run finishes and counts every remaining job. */
  lemma {:induction false} HealthyRunSucceeds(jobs: seq<Job>, i: nat, disk: Disk, files: map<string, string>, actual: nat)
    requires i <= |jobs|
    requires Healthy(disk)
    ensures RunJobs(jobs, i, disk, files, actual).outcome == Ok(actual + |jobs| - i)
    decreases |jobs| - i
  {
    if i < |jobs| {
      assert disk.canCreate(jobs[i].path) && disk.canWrite(jobs[i].path, 0);
      HealthyRunSucceeds(jobs, i + 1, disk, files[jobs[i].path := jobs[i].data], actual + 1);
    }
  }

  /** On a healthy disk, a file that no remaining job writes keeps its contents. */
  lemma {:induction false} HealthyRunKeeps(jobs: seq<Job>, i: nat, disk: Disk, files: map<string, string>, actual: nat, p: string)
    requires i <= |jobs|
    requires Healthy(disk)
    requires p in files
    requires forall j :: i <= j < |jobs| ==> p != jobs[j].path
    ensures var r := RunJobs(jobs, i, disk, files, actual);
      p in r.files && r.files[p] == files[p]
    decreases |jobs| - i
  {
    if i < |jobs| {
      assert disk.canCreate(jobs[i].path) && disk.canWrite(jobs[i].path, 0);
      HealthyRunKeeps(jobs, i + 1, disk, files[jobs[i].path := jobs[i].data], actual + 1, p);
    }
  }

  /** On a healthy disk with distinct files, job `j` leaves its data in its file. */
  lemma {:induction false} HealthyRunWrites(jobs: seq<Job>, i: nat, disk: Disk, files: map<string, string>, actual: nat, j: nat)
    requires i <= j < |jobs|
    requires Healthy(disk)
    requires DistinctPaths(jobs)
    ensures var r := RunJobs(jobs, i, disk, files, actual);
      jobs[j].path in r.files && r.files[jobs[j].path] == jobs[j].data
    decreases |jobs| - i
  {
    var files' := files[jobs[i].path := jobs[i].data];
    assert disk.canCreate(jobs[i].path) && disk.canWrite(jobs[i].path, 0);
    if j == i {
      HealthyRunKeeps(jobs, i + 1, disk, files', actual + 1, jobs[i].path);
    } else {
      HealthyRunWrites(jobs, i + 1, disk, files', actual + 1, j);
    }
  }

  /** When every create and write succeeds, the export reports all notes saved. */
  lemma HealthyExportSucceeds(notes: seq<Note>, format: string, disk: Disk, toHtml: string -> string)
    requires Healthy(disk)
    ensures ExportNotes(notes, format, disk, toHtml).outcome == Ok(|notes|)
  {
    HealthyRunSucceeds(Jobs(notes, format, toHtml), 0, disk, map[], 0);
  }

  /**
    When every create and write succeeds, note `j` sits in its own file
    with its rendering: no note overwrites another, even when sanitised
    names coincide.
   */
  lemma EveryNoteInItsOwnFile(notes: seq<Note>, format: string, disk: Disk, toHtml: string -> string, j: nat)
    requires Healthy(disk)
    requires j < |notes|
    ensures var r := ExportNotes(notes, format, disk, toHtml);
      && ExportPath(notes, j, format) in r.files
      && r.files[ExportPath(notes, j, format)] == Rendered(notes[j], format, toHtml)
  {
    var jobs := Jobs(notes, format, toHtml);
    JobsDistinct(notes, format, toHtml);
    HealthyRunWrites(jobs, 0, disk, map[], 0, j);
    assert jobs[j].path == ExportPath(notes, j, format);
    assert jobs[j].data == Rendered(notes[j], format, toHtml);
  }
}

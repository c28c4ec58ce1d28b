/**
  The older exporter, `src/export/export.rs`: one markdown file per note,
  named after the sanitised note name alone, written line by line with
  `write_line`, and only for the "md" target.

  Its `sanitize` is a character-for-character copy of the newer
  exporter's, so the model uses `Export.Sanitize` for both. The folder
  dialog, the worker thread and the progress channel are outside the model;
  the file system is the `Disk` oracle.
 */
module LegacyExport {
  import opened Text
  import opened Models
  import opened Export

  /** The lines `write_line` writes for a note, in order. */
  function LegacyLines(n: Note): (ls: seq<string>)
    ensures |ls| == 8
  {
    [ "# " + n.name,
      "",
      ContentText(n),
      "",
      "---",
      "Created at " + n.createdAt,
      "Updated at " + n.updatedAt,
      "Deleted at " + DeletedText(n) ]
  }

  /** The complete exported file: every line followed by '\n'. */
  function LegacyFile(n: Note): string {
    Terminated(LegacyLines(n))
  }

  /** The exported file, written out character by character. */
  lemma LegacyFileText(n: Note)
    ensures LegacyFile(n) ==
      "# " + n.name + "\n" + "\n" + ContentText(n) + "\n" + "\n" + "---" + "\n"
      + "Created at " + n.createdAt + "\n" + "Updated at " + n.updatedAt + "\n"
      + "Deleted at " + DeletedText(n) + "\n"
  {
    var ls := LegacyLines(n);
    var t0 := "# " + n.name + "\n";
    var t1 := t0 + "\n";
    var t2 := t1 + ContentText(n) + "\n";
    var t3 := t2 + "\n";
    var t4 := t3 + "---" + "\n";
    var t5 := t4 + "Created at " + n.createdAt + "\n";
    var t6 := t5 + "Updated at " + n.updatedAt + "\n";
    assert Terminated(ls[..1]) == t0 by {
      TerminatedSnoc([], ls[0]);
      assert [] + [ls[0]] == ls[..1];
    }
    assert Terminated(ls[..2]) == t1 by {
      TerminatedSnoc(ls[..1], ls[1]);
      assert ls[..1] + [ls[1]] == ls[..2];
      assert t0 + "" == t0;
    }
    assert Terminated(ls[..3]) == t2 by {
      TerminatedSnoc(ls[..2], ls[2]);
      assert ls[..2] + [ls[2]] == ls[..3];
    }
    assert Terminated(ls[..4]) == t3 by {
      TerminatedSnoc(ls[..3], ls[3]);
      assert ls[..3] + [ls[3]] == ls[..4];
      assert t2 + "" == t2;
    }
    assert Terminated(ls[..5]) == t4 by {
      TerminatedSnoc(ls[..4], ls[4]);
      assert ls[..4] + [ls[4]] == ls[..5];
    }
    assert Terminated(ls[..6]) == t5 by {
      TerminatedSnoc(ls[..5], ls[5]);
      assert ls[..5] + [ls[5]] == ls[..6];
      AppendAssoc(t4, "Created at ", n.createdAt);
    }
    assert Terminated(ls[..7]) == t6 by {
      TerminatedSnoc(ls[..6], ls[6]);
      assert ls[..6] + [ls[6]] == ls[..7];
      AppendAssoc(t5, "Updated at ", n.updatedAt);
    }
    TerminatedSnoc(ls[..7], ls[7]);
    assert ls[..7] + [ls[7]] == ls;
    AppendAssoc(t6, "Deleted at ", DeletedText(n));
  }

  /** `format!("{safe_name}.md")`: the file a note is exported to. */
  function LegacyFileName(n: Note): (r: string)
    ensures |r| >= 3 && IsSafeName(r[..|r| - 3]) && r[|r| - 3..] == ".md"
  {
    Sanitize(n.name) + ".md"
  }

  /**
    How many of `count` successive `write_line` calls to the file at `path`
    succeed before the first one that fails (the k-th call is the write
    numbered k).
   */
  function WrittenCount(path: string, disk: Disk, count: nat): (w: nat)
    ensures w <= count
    ensures forall k :: 0 <= k < w ==> disk.canWrite(path, k)
    ensures w < count ==> !disk.canWrite(path, w)
  {
    if count == 0 then 0
    else
      var w := WrittenCount(path, disk, count - 1);
      if w == count - 1 && disk.canWrite(path, count - 1) then count else w
  }

  /** One iteration's worth of work: the file to create and the lines to write to it. */
  datatype LegacyJob = LegacyJob(path: string, lines: seq<string>)

  /** The work the loop does for each note, in order. */
  function LegacyJobs(notes: seq<Note>): (jobs: seq<LegacyJob>)
    ensures |jobs| == |notes|
  {
    seq(|notes|, i requires 0 <= i < |notes| => LegacyJob(LegacyFileName(notes[i]), LegacyLines(notes[i])))
  }

  /**
    The worker loop from job `i` on, with `files` written so far. A failed
    create returns from the worker; a failed `write_line` returns too, after
    the lines before it reached the file. `File::create` truncates, so a
    file holds only what its last writer wrote.
   */
  function LegacyRun(jobs: seq<LegacyJob>, i: nat, disk: Disk, files: map<string, string>): map<string, string>
    requires i <= |jobs|
    decreases |jobs| - i
  {
    if i == |jobs| then files
    else
      var job := jobs[i];
      if !disk.canCreate(job.path) then files
      else
        var w := WrittenCount(job.path, disk, |job.lines|);
        var files' := files[job.path := Terminated(job.lines[..w])];
        if w < |job.lines| then files' else LegacyRun(jobs, i + 1, disk, files')
  }

  /** `p` is the file of one of the jobs from `i` on. */
  predicate IsJobPath(jobs: seq<LegacyJob>, i: nat, p: string) {
    exists j :: i <= j < |jobs| && p == jobs[j].path
  }

  /** The older `export`: the worker runs only for the "md" target; otherwise nothing is written. */
  function LegacyExport(notes: seq<Note>, target: string, disk: Disk): (files: map<string, string>)
    ensures target != "md" ==> files == map[]
    ensures forall p :: p in files ==> exists j :: 0 <= j < |notes| && p == LegacyFileName(notes[j])
  {
    if target == "md" then
      var jobs := LegacyJobs(notes);
      LegacyRunPaths(jobs, 0, disk, map[]);
      assert forall p :: IsJobPath(jobs, 0, p) ==> exists j :: 0 <= j < |notes| && p == LegacyFileName(notes[j]);
      LegacyRun(jobs, 0, disk, map[])
    else map[]
  }

  /** Every file the run leaves behind was there before or belongs to a job from `i` on. */
  lemma {:induction false} LegacyRunPaths(jobs: seq<LegacyJob>, i: nat, disk: Disk, files: map<string, string>)
    requires i <= |jobs|
    ensures forall p :: p in LegacyRun(jobs, i, disk, files) ==> p in files || IsJobPath(jobs, i, p)
    decreases |jobs| - i
  {
    if i < |jobs| && disk.canCreate(jobs[i].path) {
      var job := jobs[i];
      var w := WrittenCount(job.path, disk, |job.lines|);
      var files' := files[job.path := Terminated(job.lines[..w])];
      if w == |job.lines| {
        LegacyRunPaths(jobs, i + 1, disk, files');
        forall p | IsJobPath(jobs, i + 1, p)
          ensures IsJobPath(jobs, i, p)
        {
          var j :| i + 1 <= j < |jobs| && p == jobs[j].path;
        }
      }
    }
  }

  /** A failed create stops the worker: no later note is written. */
  lemma LegacyCreateFailureStops(jobs: seq<LegacyJob>, i: nat, disk: Disk, files: map<string, string>)
    requires i < |jobs|
    requires !disk.canCreate(jobs[i].path)
    ensures LegacyRun(jobs, i, disk, files) == files
  {
  }

  /**
    A failed `write_line` stops the worker: the job's file keeps the lines
    written before the failure and no later job is run.
   */
  lemma LegacyWriteFailureStops(jobs: seq<LegacyJob>, i: nat, disk: Disk, files: map<string, string>, k: nat)
    requires i < |jobs|
    requires disk.canCreate(jobs[i].path)
    requires k < |jobs[i].lines|
    requires forall m :: 0 <= m < k ==> disk.canWrite(jobs[i].path, m)
    requires !disk.canWrite(jobs[i].path, k)
    ensures LegacyRun(jobs, i, disk, files) == files[jobs[i].path := Terminated(jobs[i].lines[..k])]
  {
    var w := WrittenCount(jobs[i].path, disk, |jobs[i].lines|);
    assert w == k;
  }

  /** On a healthy disk every line is written. */
  lemma HealthyWritesAll(path: string, disk: Disk, count: nat)
    requires Healthy(disk)
    ensures WrittenCount(path, disk, count) == count
  {
    assert disk.canWrite(path, WrittenCount(path, disk, count));
  }

  /** On a healthy disk a job writes all of its lines and the worker moves on. */
  lemma LegacyRunHealthyStep(jobs: seq<LegacyJob>, i: nat, disk: Disk, files: map<string, string>)
    requires i < |jobs|
    requires Healthy(disk)
    ensures LegacyRun(jobs, i, disk, files)
      == LegacyRun(jobs, i + 1, disk, files[jobs[i].path := Terminated(jobs[i].lines)])
  {
    var job := jobs[i];
    assert disk.canCreate(job.path);
    HealthyWritesAll(job.path, disk, |job.lines|);
    assert job.lines[..|job.lines|] == job.lines;
  }

  /** On a healthy disk, a file that no job from `i` on writes keeps its contents. */
  lemma {:induction false} LegacyRunKeeps(jobs: seq<LegacyJob>, i: nat, disk: Disk, files: map<string, string>, p: string)
    requires i <= |jobs|
    requires Healthy(disk)
    requires p in files
    requires forall j :: i <= j < |jobs| ==> p != jobs[j].path
    ensures var r := LegacyRun(jobs, i, disk, files);
      p in r && r[p] == files[p]
    decreases |jobs| - i
  {
    if i < |jobs| {
      var job := jobs[i];
      LegacyRunHealthyStep(jobs, i, disk, files);
      LegacyRunKeeps(jobs, i + 1, disk, files[job.path := Terminated(job.lines)], p);
    }
  }

  /**
    On a healthy disk, job `j`'s file holds all of its lines when no later
    job writes the same file: the last writer wins.
   */
  lemma {:induction false} LegacyRunWrites(jobs: seq<LegacyJob>, i: nat, disk: Disk, files: map<string, string>, j: nat)
    requires i <= j < |jobs|
    requires Healthy(disk)
    requires forall m :: j < m < |jobs| ==> jobs[m].path != jobs[j].path
    ensures var r := LegacyRun(jobs, i, disk, files);
      jobs[j].path in r && r[jobs[j].path] == Terminated(jobs[j].lines)
    decreases |jobs| - i
  {
    var job := jobs[i];
    LegacyRunHealthyStep(jobs, i, disk, files);
    var files' := files[job.path := Terminated(job.lines)];
    if j == i {
      LegacyRunKeeps(jobs, i + 1, disk, files', job.path);
    } else {
      LegacyRunWrites(jobs, i + 1, disk, files', j);
    }
  }

  /**
    On a healthy disk, note `j`'s file holds note `j`'s export when no later
    note's name sanitises to the same file name.
   */
  lemma LegacyLastWriterWins(notes: seq<Note>, disk: Disk, j: nat)
    requires j < |notes|
    requires Healthy(disk)
    requires forall m :: j < m < |notes| ==> LegacyFileName(notes[m]) != LegacyFileName(notes[j])
    ensures var r := LegacyExport(notes, "md", disk);
      LegacyFileName(notes[j]) in r && r[LegacyFileName(notes[j])] == LegacyFile(notes[j])
  {
    var jobs := LegacyJobs(notes);
    LegacyRunWrites(jobs, 0, disk, map[], j);
  }

  /** "a b" and "a/b" both sanitise to "a_b". */
  lemma SanitizeSeparators()
    ensures Sanitize("a b") == "a_b" && Sanitize("a/b") == "a_b"
  {
    assert Underscored("a b") == "a_b" && Underscored("a/b") == "a_b";
    assert KeepAscii("a_b") == "a_b";
  }

  lemma SeparatorFileNames(first: Note, second: Note)
    requires first.name == "a b" && second.name == "a/b"
    ensures LegacyFileName(first) == LegacyFileName(second) == "a_b" + ".md"
  {
    SanitizeSeparators();
  }

  /**
    Two different notes whose names sanitise alike, "a b" and "a/b", share
    one file: on a healthy disk the second export overwrites the first.
   */
  lemma LegacyNamesCollide(first: Note, second: Note, disk: Disk)
    requires first.name == "a b" && second.name == "a/b"
    requires Healthy(disk)
    ensures LegacyFileName(first) == LegacyFileName(second) == "a_b" + ".md"
    ensures LegacyExport([first, second], "md", disk) == map["a_b" + ".md" := LegacyFile(second)]
  {
    SeparatorFileNames(first, second);
    var jobs := LegacyJobs([first, second]);
    var path := "a_b" + ".md";
    assert jobs[0] == LegacyJob(path, LegacyLines(first));
    assert jobs[1] == LegacyJob(path, LegacyLines(second));
    var m1 := map[path := LegacyFile(first)];
    var m2 := map[path := LegacyFile(second)];
    LegacyRunHealthyStep(jobs, 0, disk, map[]);
    assert map[][path := LegacyFile(first)] == m1;
    LegacyRunHealthyStep(jobs, 1, disk, m1);
    assert m1[path := LegacyFile(second)] == m2;
  }


  /**
    Read back line by line, the exported file is its eight lines, with the
    content spread over its own lines, provided the name and timestamps
    hold no newline.
   */
  lemma LegacyFileLines(n: Note)
    requires !HasNewline(n.name) && !HasNewline(n.createdAt) && !HasNewline(n.updatedAt)
    requires !HasNewline(DeletedText(n))
    ensures Lines(LegacyFile(n)) == ["# " + n.name, ""] + SplitAll(ContentText(n))
      + ["", "---", "Created at " + n.createdAt, "Updated at " + n.updatedAt, "Deleted at " + DeletedText(n)]
  {
    var ls := LegacyLines(n);
    var head := ["# " + n.name, ""];
    var tail := ["", "---", "Created at " + n.createdAt, "Updated at " + n.updatedAt, "Deleted at " + DeletedText(n)];
    assert ls == head + [ContentText(n)] + tail;
    assert forall k :: 0 <= k < |head| ==> !HasNewline(head[k]) by {
      assert !HasNewline("# ");
    }
    assert forall k :: 0 <= k < |tail| ==> !HasNewline(tail[k]) by {
      assert !HasNewline("Created at ") && !HasNewline("Updated at ") && !HasNewline("Deleted at ");
    }
    LinesOfTerminated(ls);
    SplitEachAround(head, ContentText(n), tail);
  }
}

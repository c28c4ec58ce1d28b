/**
  The line-diff engine of `src/diff.rs`.

  The diff algorithm itself belongs to the `similar` crate; its output is
  taken as an abstract edit script (a sequence of `Change`s) that is only
  required to be consistent with the two texts (`IsEditScript`).
  `create_diff` keeps the Delete and Insert changes as `Diff` records, each
  anchored at a line index, and `restore_from_diff` replays the records
  backwards over a newer text to get the older one.
 */
module Diff {
  import opened Text

  /** One change reported by the line-diff algorithm, with the lines it covers. */
  datatype Change =
    | Equal(lines: seq<string>)
    | Delete(lines: seq<string>)
    | Insert(lines: seq<string>)

  /**
    A stored change record. `value` is held as its lines (what `value.lines()`
    yields); `op` is a free string because records can come back from storage.
   */
  datatype Diff = Diff(op: string, value: seq<string>, index: nat)

  const InsertOp: string := "+"
  const DeleteOp: string := "-"

  /** The lines of the old text that `script` walks: Equal and Delete lines. */
  function OldLines(script: seq<Change>): seq<string> {
    if |script| == 0 then []
    else (if script[0].Insert? then [] else script[0].lines) + OldLines(script[1..])
  }

  /** The lines of the new text that `script` walks: Equal and Insert lines. */
  function NewLines(script: seq<Change>): seq<string> {
    if |script| == 0 then []
    else (if script[0].Delete? then [] else script[0].lines) + NewLines(script[1..])
  }

  /** `script` turns the lines `a` into the lines `b`. */
  predicate IsEditScript(script: seq<Change>, a: seq<string>, b: seq<string>) {
    OldLines(script) == a && NewLines(script) == b
  }

  /** How far one change moves the running index: Equal and Insert lines count, Delete lines do not. */
  function Advance(c: Change): nat {
    if c.Delete? then 0 else |c.lines|
  }

  /** The records one change contributes when the running index is `index`. */
  function Emit(c: Change, index: nat): seq<Diff> {
    match c
    case Equal(_) => []
    case Delete(ls) => [Diff(DeleteOp, ls, index)]
    case Insert(ls) => [Diff(InsertOp, ls, index)]
  }

  /** The records `create_diff` produces for `script`, with the running index starting at `start`. */
  function Records(script: seq<Change>, start: nat): seq<Diff> {
    if |script| == 0 then []
    else Emit(script[0], start) + Records(script[1..], start + Advance(script[0]))
  }

  /** Applies one record to a line vector, undoing the change it describes. */
  function ApplyRecord(lines: seq<string>, d: Diff): seq<string> {
    if d.op == InsertOp then
      if d.index + |d.value| <= |lines| then lines[..d.index] + lines[d.index + |d.value|..] else lines
    else if d.op == DeleteOp then
      if d.index <= |lines| then lines[..d.index] + d.value + lines[d.index..] else lines
    else
      lines
  }

  /** The bounds guard of `d` succeeds on `lines`. */
  predicate Applies(lines: seq<string>, d: Diff) {
    || (d.op == InsertOp && d.index + |d.value| <= |lines|)
    || (d.op == DeleteOp && d.index <= |lines|)
  }

  /** Applies the records of `v` to `lines` from the last record to the first. */
  function RestoreLines(lines: seq<string>, v: seq<Diff>): seq<string> {
    if |v| == 0 then lines else ApplyRecord(RestoreLines(lines, v[1..]), v[0])
  }

  /** Every bounds guard succeeds while `RestoreLines(lines, v)` runs. */
  predicate AllApply(lines: seq<string>, v: seq<Diff>) {
    |v| == 0 || (AllApply(lines, v[1..]) && Applies(RestoreLines(lines, v[1..]), v[0]))
  }

  /** What `restore_from_diff` returns: the restored lines joined by "\n". */
  function RestoreText(s: string, v: seq<Diff>): string {
    Join(RestoreLines(Lines(s), v), "\n")
  }

  lemma {:induction false} NewLinesAppend(a: seq<Change>, b: seq<Change>)
    ensures NewLines(a + b) == NewLines(a) + NewLines(b)
  {
    if |a| == 0 {
      EmptyConcat(a, b);
    } else {
      assert (a + b)[0] == a[0];
      DropOfConcat(a, b, 1);
      NewLinesAppend(a[1..], b);
      var here := if a[0].Delete? then [] else a[0].lines;
      AppendAssoc(here, NewLines(a[1..]), NewLines(b));
    }
  }

  /** `create_diff` works change by change: the records of a concatenation are the records of its parts. */
  lemma {:induction false} RecordsSplit(a: seq<Change>, b: seq<Change>, start: nat)
    ensures Records(a + b, start) == Records(a, start) + Records(b, start + |NewLines(a)|)
  {
    if |a| == 0 {
      EmptyConcat(a, b);
    } else {
      var c, a' := a[0], a[1..];
      var s' := start + Advance(c);
      var e := Emit(c, start);
      var m := s' + |NewLines(a')|;
      assert Records(a + b, start) == e + Records(a' + b, s') by {
        assert (a + b)[0] == c;
        assert (a + b)[1..] == a' + b;
      }
      assert |NewLines(a)| == Advance(c) + |NewLines(a')|;
      RecordsSplit(a', b, s');
      AppendAssoc(e, Records(a', s'), Records(b, m));
    }
  }

  /**
    The change at position `k` contributes exactly its own records, in
    order: nothing for Equal, one "-" record for Delete, one "+" record for
    Insert, anchored at the number of Equal and Insert lines before it
    (a position in the new text).
   */
  lemma RecordOfChange(script: seq<Change>, k: nat)
    requires k < |script|
    ensures Records(script, 0)
         == Records(script[..k], 0)
          + Emit(script[k], |NewLines(script[..k])|)
          + Records(script[k + 1..], |NewLines(script[..k + 1])|)
  {
    var pre, c, post := script[..k], script[k], script[k + 1..];
    var n := |NewLines(pre)|;
    var later := Records(post, n + Advance(c));
    assert |NewLines(script[..k + 1])| == n + Advance(c) by {
      assert script[..k + 1] == pre + [c];
      NewLinesAppend(pre, [c]);
    }
    calc {
      Records(script, 0);
      { assert script == pre + ([c] + post); }
      Records(pre + ([c] + post), 0);
      { RecordsSplit(pre, [c] + post, 0); }
      Records(pre, 0) + Records([c] + post, n);
      { assert ([c] + post)[1..] == post; }
      Records(pre, 0) + (Emit(c, n) + later);
      { AppendAssoc(Records(pre, 0), Emit(c, n), later); }
      Records(pre, 0) + Emit(c, n) + later;
    }
  }

  /**
    Every record is a "+" or "-" record, and its index lies inside the new
    text: an inserted block fits inside it, a deletion point is at most its end.
   */
  lemma {:induction false} RecordsInNewText(script: seq<Change>, start: nat)
    ensures forall d :: d in Records(script, start) ==>
              && (d.op == InsertOp || d.op == DeleteOp)
              && start <= d.index
              && (d.op == InsertOp ==> d.index + |d.value| <= start + |NewLines(script)|)
              && (d.op == DeleteOp ==> d.index <= start + |NewLines(script)|)
  {
    if |script| > 0 {
      RecordsInNewText(script[1..], start + Advance(script[0]));
    }
  }

  /** The indices of `create_diff`'s records never decrease along the list. */
  lemma {:induction false} IndicesNonDecreasing(script: seq<Change>, start: nat)
    ensures forall i, j :: 0 <= i <= j < |Records(script, start)| ==>
              start <= Records(script, start)[i].index <= Records(script, start)[j].index
  {
    if |script| > 0 {
      var rest := Records(script[1..], start + Advance(script[0]));
      IndicesNonDecreasing(script[1..], start + Advance(script[0]));
      var r := Records(script, start);
      var e := Emit(script[0], start);
      assert r == e + rest;
      forall i, j | 0 <= i <= j < |r|
        ensures start <= r[i].index <= r[j].index
      {
        if i < |e| && j >= |e| {
          assert r[j] == rest[j - |e|];
        }
      }
    }
  }

  /** A "-" record followed by the "+" record for the same lines and index changes nothing. */
  lemma InsertThenRemove(lines: seq<string>, ls: seq<string>, i: nat)
    requires i <= |lines|
    ensures ApplyRecord(ApplyRecord(lines, Diff(DeleteOp, ls, i)), Diff(InsertOp, ls, i)) == lines
  {
    ConcatParts(lines[..i], ls, lines[i..]);
    TakeDrop(lines, i);
  }

  /** A "+" record removing lines that are present, then the "-" record putting them back, changes nothing. */
  lemma RemoveThenInsert(lines: seq<string>, ls: seq<string>, i: nat)
    requires i + |ls| <= |lines|
    requires lines[i..i + |ls|] == ls
    ensures ApplyRecord(ApplyRecord(lines, Diff(InsertOp, ls, i)), Diff(DeleteOp, ls, i)) == lines
  {
    var mid := lines[..i] + lines[i + |ls|..];
    assert mid[..i] == lines[..i];
    assert mid[i..] == lines[i + |ls|..];
    assert lines == lines[..i] + lines[i..i + |ls|] + lines[i + |ls|..];
  }

  /** Undoing a deletion: the "-" record puts the deleted lines back after the prefix. */
  lemma UndoDelete(lines: seq<string>, v: seq<Diff>, prefix: seq<string>, ls: seq<string>, oldRest: seq<string>)
    requires RestoreLines(lines, v) == prefix + oldRest && AllApply(lines, v)
    ensures RestoreLines(lines, [Diff(DeleteOp, ls, |prefix|)] + v) == prefix + ls + oldRest
    ensures AllApply(lines, [Diff(DeleteOp, ls, |prefix|)] + v)
  {
    var w := [Diff(DeleteOp, ls, |prefix|)] + v;
    assert w[1..] == v;
    var mid := prefix + oldRest;
    assert mid[..|prefix|] == prefix && mid[|prefix|..] == oldRest;
  }

  /** Undoing an insertion: the "+" record removes the inserted lines after the prefix. */
  lemma UndoInsert(lines: seq<string>, v: seq<Diff>, prefix: seq<string>, ls: seq<string>, oldRest: seq<string>)
    requires RestoreLines(lines, v) == prefix + ls + oldRest && AllApply(lines, v)
    ensures RestoreLines(lines, [Diff(InsertOp, ls, |prefix|)] + v) == prefix + oldRest
    ensures AllApply(lines, [Diff(InsertOp, ls, |prefix|)] + v)
  {
    var w := [Diff(InsertOp, ls, |prefix|)] + v;
    assert w[1..] == v;
    var mid := prefix + ls + oldRest;
    assert mid[..|prefix|] == prefix && mid[|prefix| + |ls|..] == oldRest;
  }

  /** Replaying the records of `script` after `prefix` over the new lines gives the old lines, guards all succeeding. */
  predicate UndoneAfter(prefix: seq<string>, script: seq<Change>) {
    && RestoreLines(prefix + NewLines(script), Records(script, |prefix|)) == prefix + OldLines(script)
    && AllApply(prefix + NewLines(script), Records(script, |prefix|))
  }

  lemma StepEqual(prefix: seq<string>, script: seq<Change>)
    requires |script| > 0 && script[0].Equal?
    requires UndoneAfter(prefix + script[0].lines, script[1..])
    ensures UndoneAfter(prefix, script)
  {
    var ls, rest := script[0].lines, script[1..];
    assert Records(script, |prefix|) == Records(rest, |prefix + ls|) by {
      assert Emit(script[0], |prefix|) == [];
    }
    assert prefix + NewLines(script) == (prefix + ls) + NewLines(rest) by {
      assert NewLines(script) == ls + NewLines(rest);
    }
    assert prefix + OldLines(script) == (prefix + ls) + OldLines(rest) by {
      assert OldLines(script) == ls + OldLines(rest);
    }
  }

  lemma StepDelete(prefix: seq<string>, script: seq<Change>)
    requires |script| > 0 && script[0].Delete?
    requires UndoneAfter(prefix, script[1..])
    ensures UndoneAfter(prefix, script)
  {
    var ls, rest, n := script[0].lines, script[1..], |prefix|;
    var lines := prefix + NewLines(script);
    assert lines == prefix + NewLines(rest) by {
      EmptyConcat([], NewLines(rest));
    }
    assert Records(script, n) == [Diff(DeleteOp, ls, n)] + Records(rest, n) by {
      assert Emit(script[0], n) == [Diff(DeleteOp, ls, n)];
    }
    UndoDelete(lines, Records(rest, n), prefix, ls, OldLines(rest));
    AppendAssoc(prefix, ls, OldLines(rest));
  }

  lemma StepInsert(prefix: seq<string>, script: seq<Change>)
    requires |script| > 0 && script[0].Insert?
    requires UndoneAfter(prefix + script[0].lines, script[1..])
    ensures UndoneAfter(prefix, script)
  {
    var ls, rest, n := script[0].lines, script[1..], |prefix|;
    var lines := prefix + NewLines(script);
    var later := Records(rest, n + |ls|);
    var oldRest := OldLines(rest);
    assert lines == (prefix + ls) + NewLines(rest) by {
      assert NewLines(script) == ls + NewLines(rest);
    }
    assert RestoreLines(lines, later) == prefix + ls + oldRest && AllApply(lines, later) by {
      assert |prefix + ls| == n + |ls|;
    }
    assert Records(script, n) == [Diff(InsertOp, ls, n)] + later by {
      assert Emit(script[0], n) == [Diff(InsertOp, ls, n)];
    }
    UndoInsert(lines, later, prefix, ls, oldRest);
    assert OldLines(script) == oldRest;
  }

  /**
    The heart of the round trip. If `prefix` is already in place, replaying
    the records of `script` (anchored after the prefix) over the new lines
    gives the old lines, and every bounds guard succeeds.
   */
  lemma {:induction false} RestoreAfterPrefix(prefix: seq<string>, script: seq<Change>)
    ensures UndoneAfter(prefix, script)
    decreases |script|
  {
    if |script| == 0 {
      assert prefix + [] == prefix;
    } else {
      match script[0]
      case Equal(ls) =>
        RestoreAfterPrefix(prefix + ls, script[1..]);
        StepEqual(prefix, script);
      case Delete(ls) =>
        RestoreAfterPrefix(prefix, script[1..]);
        StepDelete(prefix, script);
      case Insert(ls) =>
        RestoreAfterPrefix(prefix + ls, script[1..]);
        StepInsert(prefix, script);
    }
  }

  /**
    Round trip on line vectors: for any edit script from `a` to `b`,
    restoring `b` from the records of the script gives `a`, and no bounds
    guard ever fails.
   */
  lemma RestoreUndoesCreate(script: seq<Change>, a: seq<string>, b: seq<string>)
    requires IsEditScript(script, a, b)
    ensures RestoreLines(b, Records(script, 0)) == a
    ensures AllApply(b, Records(script, 0))
  {
    RestoreAfterPrefix([], script);
    assert [] + NewLines(script) == b;
    assert [] + OldLines(script) == a;
  }

  /**
    Round trip on texts, as `restore_from_diff` returns it: the old text's
    lines joined by "\n", which is the old text less a final newline.
   */
  lemma RestoreTextRoundTrip(s1: string, s2: string, script: seq<Change>)
    requires IsEditScript(script, Lines(s1), Lines(s2))
    ensures RestoreText(s2, Records(script, 0)) == Join(Lines(s1), "\n")
    ensures RestoreText(s2, Records(script, 0)) == DropFinalNewline(s1)
  {
    RestoreUndoesCreate(script, Lines(s1), Lines(s2));
    JoinLines(s1);
  }

  /** With no records, the text comes back re-joined: only a final newline is lost. */
  lemma RestoreNothing(s: string)
    ensures RestoreText(s, []) == DropFinalNewline(s)
    ensures s == "a\n" ==> RestoreText(s, []) == "a"
  {
    JoinLines(s);
  }

  /**
    On a hypothetical edit script of one unchanged line followed by one
    inserted line, the walk emits a single "+" record at line 1. The script is
    written by hand: the line differ keeps each line's newline in its tokens,
    so this is not the exact script it would produce for any pair of texts.
   */
  lemma AppendedLineExample()
    ensures Records([Equal(["# Welcome"]), Insert(["Extra line"])], 0) == [Diff(InsertOp, ["Extra line"], 1)]
  {
  }

  /** One step of `create_diff`'s walk: the change at `i` emits its records, then the walk goes on. */
  lemma RecordsStep(script: seq<Change>, i: nat, index: nat)
    requires i < |script|
    ensures Records(script[i..], index)
         == Emit(script[i], index) + Records(script[i + 1..], index + Advance(script[i]))
  {
    assert script[i..][0] == script[i];
    assert script[i..][1..] == script[i + 1..];
  }

  /** `create_diff`: walks the edit script once with a running line index. */
  method CreateDiff(script: seq<Change>) returns (changes: seq<Diff>)
    ensures changes == Records(script, 0)
    ensures forall i :: 0 <= i < |changes| ==> changes[i].op == InsertOp || changes[i].op == DeleteOp
    ensures forall i, j :: 0 <= i <= j < |changes| ==> changes[i].index <= changes[j].index
  {
    changes := [];
    var currIndex: nat := 0;
    var i := 0;
    while i < |script|
      invariant i <= |script|
      invariant changes + Records(script[i..], currIndex) == Records(script, 0)
      decreases |script| - i
    {
      ghost var before, index := changes, currIndex;
      match script[i] {
        case Equal(ls) =>
          currIndex := currIndex + |ls|;
        case Delete(ls) =>
          changes := changes + [Diff(DeleteOp, ls, currIndex)];
        case Insert(ls) =>
          changes := changes + [Diff(InsertOp, ls, currIndex)];
          currIndex := currIndex + |ls|;
      }
      WalkStep(script, i, before, index);
      i := i + 1;
    }
    assert script[i..] == [];
    RecordsWellFormed(script);
  }

  /** The loop invariant of `CreateDiff` survives one change. */
  lemma WalkStep(script: seq<Change>, i: nat, before: seq<Diff>, index: nat)
    requires i < |script|
    requires before + Records(script[i..], index) == Records(script, 0)
    ensures (before + Emit(script[i], index)) + Records(script[i + 1..], index + Advance(script[i]))
         == Records(script, 0)
  {
    RecordsStep(script, i, index);
    var emitted := Emit(script[i], index);
    var later := Records(script[i + 1..], index + Advance(script[i]));
    Text.AppendAssoc(before, emitted, later);
  }

  /** `create_diff`'s records are all "+" or "-" records, with indices that never decrease. */
  lemma RecordsWellFormed(script: seq<Change>)
    ensures var rs := Records(script, 0);
      && (forall i :: 0 <= i < |rs| ==> rs[i].op == InsertOp || rs[i].op == DeleteOp)
      && (forall i, j :: 0 <= i <= j < |rs| ==> rs[i].index <= rs[j].index)
  {
    var rs := Records(script, 0);
    RecordsInNewText(script, 0);
    IndicesNonDecreasing(script, 0);
    assert forall i :: 0 <= i < |rs| ==> rs[i] in rs;
  }

  /** `restore_from_diff`: replays the records last to first over the lines of `s1`. */
  method RestoreFromDiff(s1: string, v: seq<Diff>) returns (r: string)
    ensures r == Join(RestoreLines(Lines(s1), v), "\n")
    ensures |v| == 0 ==> r == DropFinalNewline(s1)
  {
    var lines := Lines(s1);
    var i: nat := |v|;
    while i > 0
      invariant i <= |v|
      invariant lines == RestoreLines(Lines(s1), v[i..])
    {
      i := i - 1;
      assert v[i..][1..] == v[i + 1..];
      lines := ApplyRecord(lines, v[i]);
    }
    r := Join(lines, "\n");
    if |v| == 0 {
      RestoreNothing(s1);
    }
  }
}

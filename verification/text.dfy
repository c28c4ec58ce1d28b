/**
  The pieces of Rust's string library the rest of the model relies on:
  `str::lines`, `join("\n")`, `writeln!` line termination, decimal `{}`
  formatting of an unsigned integer, `char::is_ascii` and `str::trim_end`.
  Strings are sequences of Unicode scalar values (`char`).
 */
module Text {

  /** Index of the first '\n' in `s` at or after `k`, or `|s|` when there is none. */
  function LineEndFrom(s: string, k: nat): (i: nat)
    requires k <= |s|
    ensures k <= i <= |s|
    ensures i < |s| ==> s[i] == '\n'
    decreases |s| - k
  {
    if k == |s| then k
    else if s[k] == '\n' then k
    else LineEndFrom(s, k + 1)
  }

  /** Index of the first '\n' in `s`, or `|s|` when there is none (see `LineEndFirst`). */
  function LineEnd(s: string): (i: nat)
    ensures i <= |s|
    ensures i < |s| ==> s[i] == '\n'
  {
    LineEndFrom(s, 0)
  }

  lemma {:induction false} LineEndFromFirst(s: string, k: nat)
    requires k <= |s|
    ensures forall m :: k <= m < LineEndFrom(s, k) ==> s[m] != '\n'
    decreases |s| - k
  {
    if k < |s| && s[k] != '\n' {
      LineEndFromFirst(s, k + 1);
    }
  }

  /** No '\n' comes before `LineEnd(s)`: it is the first one. */
  lemma LineEndFirst(s: string)
    ensures forall k :: 0 <= k < LineEnd(s) ==> s[k] != '\n'
  {
    LineEndFromFirst(s, 0);
  }

  /** The first '\n' is unique, so any index with its two properties is `LineEnd`. */
  lemma LineEndIs(s: string, i: nat)
    requires i <= |s|
    requires forall k :: 0 <= k < i ==> s[k] != '\n'
    requires i < |s| ==> s[i] == '\n'
    ensures LineEnd(s) == i
  {
    LineEndFirst(s);
  }

  predicate HasNewline(s: string) {
    exists k :: 0 <= k < |s| && s[k] == '\n'
  }

  /**
    Rust's `str::lines` for '\n' terminators: the text between newlines,
    where the empty string has no lines and a final '\n' does not open a
    further, empty line.
   */
  function Lines(s: string): (r: seq<string>)
    ensures |r| == 0 <==> |s| == 0
    decreases |s|
  {
    if |s| == 0 then []
    else
      var i := LineEnd(s);
      if i == |s| then [s] else [s[..i]] + Lines(s[i + 1..])
  }

  /** No line holds a newline. */
  lemma {:induction false} LinesHaveNoNewline(s: string)
    ensures forall k :: 0 <= k < |Lines(s)| ==> !HasNewline(Lines(s)[k])
    decreases |s|
  {
    if |s| > 0 {
      var i := LineEnd(s);
      LineEndFirst(s);
      if i < |s| {
        LinesHaveNoNewline(s[i + 1..]);
        var ls := Lines(s);
        assert ls == [s[..i]] + Lines(s[i + 1..]);
        forall k | 0 <= k < |ls|
          ensures !HasNewline(ls[k])
        {
          if k > 0 {
            assert ls[k] == Lines(s[i + 1..])[k - 1];
          }
        }
      }
    }
  }

  /**
    Every piece of `s` between '\n' characters, including a final piece
    that may be empty: `SplitAll("a\n") == ["a", ""]`, `SplitAll("") == [""]`.
   */
  function SplitAll(s: string): (r: seq<string>)
    ensures |r| >= 1
    decreases |s|
  {
    var i := LineEnd(s);
    if i == |s| then [s] else [s[..i]] + SplitAll(s[i + 1..])
  }

  /** Rust's `slice.join(sep)` on strings. */
  function Join(ls: seq<string>, sep: string): string {
    if |ls| == 0 then ""
    else if |ls| == 1 then ls[0]
    else ls[0] + sep + Join(ls[1..], sep)
  }

  /** `s` with one trailing '\n' removed, if it has one. */
  function DropFinalNewline(s: string): (r: string)
    ensures r <= s
    ensures |s| - 1 <= |r|
  {
    if |s| > 0 && s[|s| - 1] == '\n' then s[..|s| - 1] else s
  }

  /** The lines of `ls`, each followed by '\n', as successive `writeln!` calls write them. */
  function Terminated(ls: seq<string>): string {
    if |ls| == 0 then "" else ls[0] + "\n" + Terminated(ls[1..])
  }

  lemma {:induction false} TerminatedAppend(a: seq<string>, b: seq<string>)
    ensures Terminated(a + b) == Terminated(a) + Terminated(b)
  {
    if |a| == 0 {
      EmptyConcat(a, b);
    } else {
      assert (a + b)[0] == a[0];
      DropOfConcat(a, b, 1);
      TerminatedAppend(a[1..], b);
    }
  }

  lemma TerminatedSnoc(ls: seq<string>, x: string)
    ensures Terminated(ls + [x]) == Terminated(ls) + x + "\n"
  {
    TerminatedAppend(ls, [x]);
    assert [x][1..] == [];
    assert Terminated([x]) == x + "\n" + "";
    assert x + "\n" + "" == x + "\n";
    AppendAssoc(Terminated(ls), x, "\n");
  }

  /** `SplitAll` of every element, concatenated. */
  function SplitEach(ls: seq<string>): seq<string> {
    if |ls| == 0 then [] else SplitAll(ls[0]) + SplitEach(ls[1..])
  }

  /**
    Splitting into lines and joining them with "\n" gives the text back,
    except that a final newline is lost.
   */
  lemma {:induction false} JoinLines(s: string)
    ensures Join(Lines(s), "\n") == DropFinalNewline(s)
    decreases |s|
  {
    if |s| > 0 {
      var i := LineEnd(s);
      if i == |s| {
        LineEndFirst(s);
        assert s[|s| - 1] != '\n';
      } else {
        var t := s[i + 1..];
        assert s == s[..i] + "\n" + t;
        if |t| == 0 {
          assert Lines(s) == [s[..i]];
        } else {
          JoinLines(t);
          JoinLinesStep(s, i);
          DropAfterLine(s[..i], t);
        }
      }
    }
  }

  /** Past the first newline, joining the lines continues with the lines of the rest. */
  lemma JoinLinesStep(s: string, i: nat)
    requires i == LineEnd(s) && i + 1 < |s|
    ensures Join(Lines(s), "\n") == s[..i] + "\n" + Join(Lines(s[i + 1..]), "\n")
  {
    LinesCons(s, i);
    JoinCons(s[..i], Lines(s[i + 1..]), "\n");
  }

  /** The lines of a text with a newline at `i`: the text before it, then the lines after it. */
  lemma LinesCons(s: string, i: nat)
    requires i == LineEnd(s) && i < |s|
    ensures Lines(s) == [s[..i]] + Lines(s[i + 1..])
  {
  }

  lemma JoinCons(a: string, rest: seq<string>, sep: string)
    requires |rest| > 0
    ensures Join([a] + rest, sep) == a + sep + Join(rest, sep)
  {
    var ls := [a] + rest;
    assert ls[0] == a && ls[1..] == rest;
  }

  /** Dropping a final newline only touches the part after the last line break. */
  lemma DropAfterLine(l: string, t: string)
    requires |t| > 0
    ensures DropFinalNewline(l + "\n" + t) == l + "\n" + DropFinalNewline(t)
  {
    var s := l + "\n" + t;
    assert s[|s| - 1] == t[|t| - 1];
    if t[|t| - 1] == '\n' {
      assert s[..|s| - 1] == l + "\n" + t[..|t| - 1];
    }
  }

  /** A text without newlines is a single piece. */
  lemma SplitAllNoNewline(l: string)
    requires !HasNewline(l)
    ensures SplitAll(l) == [l]
  {
    LineEndIs(l, |l|);
  }

  /** Reading past a line that `writeln!` terminated: its pieces, then the lines of the rest. */
  lemma {:induction false} LinesAfterLine(l: string, rest: string)
    ensures Lines(l + "\n" + rest) == SplitAll(l) + Lines(rest)
    decreases |l|
  {
    var j := LineEnd(l);
    if j == |l| {
      LinesAfterLastPiece(l, rest);
    } else {
      LinesAfterLine(l[j + 1..], rest);
      LinesAfterPiece(l, rest, j);
    }
  }

  lemma LinesAfterLastPiece(l: string, rest: string)
    requires LineEnd(l) == |l|
    ensures Lines(l + "\n" + rest) == SplitAll(l) + Lines(rest)
  {
    var s := l + "\n" + rest;
    LineEndBeforeLine(l, rest);
    LinesCons(s, |l|);
    assert s[..|l|] == l && s[|l| + 1..] == rest;
  }

  lemma LinesAfterPiece(l: string, rest: string, j: nat)
    requires j == LineEnd(l) && j < |l|
    requires Lines(l[j + 1..] + "\n" + rest) == SplitAll(l[j + 1..]) + Lines(rest)
    ensures Lines(l + "\n" + rest) == SplitAll(l) + Lines(rest)
  {
    var l' := l[j + 1..];
    var first, pieces, later := l[..j], SplitAll(l'), Lines(rest);
    LinesAtFirstNewline(l, rest, j);
    SplitAllCons(l, j);
    AppendAssoc([first], pieces, later);
  }

  lemma AppendAssoc<T>(a: seq<T>, b: seq<T>, c: seq<T>)
    ensures a + (b + c) == (a + b) + c
  {
  }

  lemma SplitAllCons(l: string, j: nat)
    requires j == LineEnd(l) && j < |l|
    ensures SplitAll(l) == [l[..j]] + SplitAll(l[j + 1..])
  {
  }

  /** A newline inside `l` ends the first line of `l + "\n" + rest`. */
  lemma LinesAtFirstNewline(l: string, rest: string, j: nat)
    requires j == LineEnd(l) && j < |l|
    ensures Lines(l + "\n" + rest) == [l[..j]] + Lines(l[j + 1..] + "\n" + rest)
  {
    var s := l + "\n" + rest;
    LineEndBeforeLine(l, rest);
    LinesCons(s, j);
    AppendAssoc(l, "\n", rest);
    TakeOfConcat(l, "\n" + rest, j);
    DropOfConcat(l, "\n" + rest, j + 1);
    AppendAssoc(l[j + 1..], "\n", rest);
  }

  lemma DropOfConcat<T>(a: seq<T>, b: seq<T>, i: nat)
    requires i <= |a|
    ensures (a + b)[i..] == a[i..] + b
  {
  }

  lemma TakeOfConcat<T>(a: seq<T>, b: seq<T>, i: nat)
    requires i <= |a|
    ensures (a + b)[..i] == a[..i]
  {
  }

  lemma EmptyConcat<T>(a: seq<T>, b: seq<T>)
    requires |a| == 0
    ensures a + b == b
  {
  }

  /** The outer parts of `a + b + c` are `a` and `c`. */
  lemma ConcatParts<T>(a: seq<T>, b: seq<T>, c: seq<T>)
    ensures (a + b + c)[..|a|] == a
    ensures (a + b + c)[|a| + |b|..] == c
  {
  }

  lemma TakeDrop<T>(s: seq<T>, i: nat)
    requires i <= |s|
    ensures s[..i] + s[i..] == s
  {
  }

  /** The first newline of `l + "\n" + rest` is the first newline of `l`, or the one appended. */
  lemma LineEndBeforeLine(l: string, rest: string)
    ensures LineEnd(l + "\n" + rest) == LineEnd(l)
  {
    var s := l + "\n" + rest;
    var j := LineEnd(l);
    LineEndFirst(l);
    assert forall k :: 0 <= k < j ==> s[k] == l[k];
    LineEndIs(s, j);
  }

  /** Reading back a `Terminated` text gives the pieces of every written line. */
  lemma {:induction false} LinesOfTerminated(ls: seq<string>)
    ensures Lines(Terminated(ls)) == SplitEach(ls)
  {
    if |ls| > 0 {
      LinesAfterLine(ls[0], Terminated(ls[1..]));
      LinesOfTerminated(ls[1..]);
    }
  }

  lemma {:induction false} SplitEachAppend(a: seq<string>, b: seq<string>)
    ensures SplitEach(a + b) == SplitEach(a) + SplitEach(b)
  {
    if |a| > 0 {
      assert (a + b)[0] == a[0];
      DropOfConcat(a, b, 1);
      SplitEachAppend(a[1..], b);
    } else {
      EmptyConcat(a, b);
    }
  }

  /** Splitting lines where only the middle one may hold newlines. */
  lemma SplitEachAround(head: seq<string>, mid: string, tail: seq<string>)
    requires forall k :: 0 <= k < |head| ==> !HasNewline(head[k])
    requires forall k :: 0 <= k < |tail| ==> !HasNewline(tail[k])
    ensures SplitEach(head + [mid] + tail) == head + SplitAll(mid) + tail
  {
    SplitEachAppend(head + [mid], tail);
    SplitEachAppend(head, [mid]);
    SplitEachNoNewlines(head);
    SplitEachNoNewlines(tail);
    assert SplitEach([mid]) == SplitAll(mid) by {
      assert [mid][1..] == [];
      assert SplitAll(mid) + [] == SplitAll(mid);
    }
  }

  /** Lines without newlines are read back exactly as written. */
  lemma {:induction false} SplitEachNoNewlines(ls: seq<string>)
    requires forall k :: 0 <= k < |ls| ==> !HasNewline(ls[k])
    ensures SplitEach(ls) == ls
  {
    if |ls| > 0 {
      SplitAllNoNewline(ls[0]);
      SplitEachNoNewlines(ls[1..]);
    }
  }

  /** Decimal digit character for `d`. */
  function DigitChar(d: nat): (c: char)
    requires d < 10
    ensures '0' <= c <= '9'
    ensures c as int - '0' as int == d
  {
    "0123456789"[d]
  }

  predicate IsDigit(c: char) {
    '0' <= c <= '9'
  }

  /** Rust's `{}` formatting of an unsigned integer: decimal, no sign, no leading zeros. */
  function NatToString(n: nat): (r: string)
    ensures 1 <= |r|
    ensures forall k :: 0 <= k < |r| ==> IsDigit(r[k])
    ensures |r| == 1 <==> n < 10
  {
    if n < 10 then [DigitChar(n)] else NatToString(n / 10) + [DigitChar(n % 10)]
  }

  /** Distinct numbers print differently. */
  lemma {:induction false} NatToStringInjective(a: nat, b: nat)
    requires NatToString(a) == NatToString(b)
    ensures a == b
  {
    var sa, sb := NatToString(a), NatToString(b);
    if a >= 10 && b >= 10 {
      assert sa[|sa| - 1] == DigitChar(a % 10);
      assert sb[|sb| - 1] == DigitChar(b % 10);
      assert sa[..|sa| - 1] == NatToString(a / 10);
      assert sb[..|sb| - 1] == NatToString(b / 10);
      NatToStringInjective(a / 10, b / 10);
    } else if a < 10 && b < 10 {
      assert sa[0] == DigitChar(a) && sb[0] == DigitChar(b);
    }
  }

  /** Rust's `char::is_ascii`. */
  predicate IsAscii(c: char) {
    c as int < 128
  }

  /** Rust's `char::is_whitespace`: the Unicode White_Space property. */
  predicate IsWhitespace(c: char) {
    || '\U{9}' <= c <= '\U{D}'
    || c == ' '
    || c == '\U{85}'
    || c == '\U{A0}'
    || c == '\U{1680}'
    || '\U{2000}' <= c <= '\U{200A}'
    || c == '\U{2028}'
    || c == '\U{2029}'
    || c == '\U{202F}'
    || c == '\U{205F}'
    || c == '\U{3000}'
  }

  /** Rust's `str::trim_end`: `s` without its trailing whitespace. */
  function TrimEnd(s: string): (r: string)
    ensures r <= s
    ensures |r| == 0 || !IsWhitespace(r[|r| - 1])
    ensures forall k :: |r| <= k < |s| ==> IsWhitespace(s[k])
  {
    if |s| > 0 && IsWhitespace(s[|s| - 1]) then TrimEnd(s[..|s| - 1]) else s
  }
}

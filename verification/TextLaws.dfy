/** What the string operations and the layout of the baseline file come to, character by character. */
module TextLaws {
  import opened Prelude
  import opened Text
  import opened BaselineFile
  import opened BaselineText
  import opened BaselineOrder

  // ------------------------------------------------------------------------
  // Characters
  // ------------------------------------------------------------------------

  lemma BreaksAre(c: char)
    ensures IsLineBreak(c) <==> c as int in {10, 11, 12, 13, 28, 29, 30, 0x85, 0x2028, 0x2029}
  {
  }

  lemma SpacesAre(c: char)
    ensures IsSpace(c) <==> c as int in {9, 10, 11, 12, 13, 28, 29, 30, 31, 32, 0x85, 0xA0, 0x1680,
                                         0x2000, 0x2001, 0x2002, 0x2003, 0x2004, 0x2005, 0x2006, 0x2007, 0x2008, 0x2009, 0x200A,
                                         0x2028, 0x2029, 0x202F, 0x205F, 0x3000}
  {
  }

  // ------------------------------------------------------------------------
  // Lines
  // ------------------------------------------------------------------------

  /** What ends a line before `rest`: "\r\n", or one break character, "\r" only if no newline follows. */
  ghost predicate Terminator(end: string, rest: string) {
    || end == "\r\n"
    || (|end| == 1 && IsLineBreak(end[0]) && (end[0] == '\r' && rest != "" ==> rest[0] != '\n'))
  }

  lemma {:induction false} FirstLine(line: string, end: string, rest: string)
    requires OneLine(line) && Terminator(end, rest)
    ensures var s := line + (end + rest);
            LineEnd(s, 0) == |line| && NextLine(s, 0) == |line| + |end|
  {
    var s := line + (end + rest);
    assert forall j :: 0 <= j < |line| ==> s[j] == line[j];
    assert s[|line|] == end[0];
    assert |end| == 2 ==> s[|line| + 1] == end[1];
    assert |end| == 1 && rest != "" ==> s[|line| + 1] == rest[0];
    LineEndIs(s, 0, |line|);
  }

  /** Splitting takes off one line and its terminator at a time. */
  lemma {:induction false} SplitTerminated(line: string, end: string, rest: string)
    requires OneLine(line) && Terminator(end, rest)
    ensures SplitLines(line + (end + rest)) == [line] + SplitLines(rest)
  {
    var s, k := line + (end + rest), |line| + |end|;
    FirstLine(line, end, rest);
    SplitUnfold(s, 0);
    assert s[0..|line|] == line && s[k..] == rest;
    SplitSuffix(s, rest, k, k);
  }

  /** What follows the last terminator is a line unless it is empty. */
  lemma {:induction false} SplitUnterminated(line: string)
    requires OneLine(line)
    ensures SplitLines(line) == if line == "" then [] else [line]
  {
    if line == "" {
    } else {
      LineEndIs(line, 0, |line|);
      SplitUnfold(line, 0);
      assert line[0..|line|] == line;
      SplitAtEnd(line);
    }
  }

  lemma HasIff(s: string, sep: string)
    ensures Has(s, sep) <==> exists before, after :: s == before + sep + after
  {
    if i :| 0 <= i <= |s| - |sep| && OccursAt(s, sep, i) {
      assert s == s[..i] + sep + s[i + |sep|..];
    }
    if before, after :| s == before + sep + after {
      assert s[|before|..|before| + |sep|] == sep;
      assert OccursAt(s, sep, |before|);
    }
  }

  // ------------------------------------------------------------------------
  // Order
  // ------------------------------------------------------------------------

  /** The strings agree on their first k characters, and there a ends, or has the smaller character. */
  ghost predicate DiffersAt(a: string, b: string, k: int) {
    0 <= k <= |a| && k < |b| && a[..k] == b[..k] && (k == |a| || a[k] < b[k])
  }

  ghost predicate Before(a: string, b: string) {
    exists k :: DiffersAt(a, b, k)
  }

  lemma {:induction false} FirstDifference(a: string, b: string, i: nat) returns (k: nat)
    requires i <= |a| && i <= |b| && a[..i] == b[..i] && StrLess(a, b, i)
    ensures DiffersAt(a, b, k)
    decreases |a| - i
  {
    if i == |a| || a[i] < b[i] {
      k := i;
    } else {
      assert a[..i + 1] == a[..i] + [a[i]] && b[..i + 1] == b[..i] + [b[i]];
      k := FirstDifference(a, b, i + 1);
    }
  }

  lemma {:induction false} DifferenceDecides(a: string, b: string, k: nat, i: nat)
    requires DiffersAt(a, b, k) && i <= k
    ensures StrLess(a, b, i)
    decreases k - i
  {
    if i == k {
    } else {
      assert a[i] == a[..k][i] == b[..k][i] == b[i];
      DifferenceDecides(a, b, k, i + 1);
    }
  }

  /** Strings are ordered by their first difference. */
  lemma StrLessIff(a: string, b: string)
    ensures StrLess(a, b) <==> Before(a, b)
  {
    if StrLess(a, b) {
      var k := FirstDifference(a, b, 0);
    }
    if k :| DiffersAt(a, b, k) {
      DifferenceDecides(a, b, k, 0);
    }
  }

  /** Findings are ordered by kind, then file, then name, then ordinal. */
  lemma LessMeans(f: Finding, g: Finding)
    ensures Less(f, g)
       <==> || Before(f.kind, g.kind)
            || (f.kind == g.kind && Before(f.file, g.file))
            || (f.kind == g.kind && f.file == g.file && Before(f.qualname, g.qualname))
            || (f.kind == g.kind && f.file == g.file && f.qualname == g.qualname && f.ordinal < g.ordinal)
  {
    StrLessIff(f.kind, g.kind);
    StrLessIff(f.file, g.file);
    StrLessIff(f.qualname, g.qualname);
    StrLessIsStrictOrder(f.kind, f.kind, f.kind);
    StrLessIsStrictOrder(f.file, f.file, f.file);
    StrLessIsStrictOrder(f.qualname, f.qualname, f.qualname);
  }

  // ------------------------------------------------------------------------
  // Layout
  // ------------------------------------------------------------------------

  /** The blanks behind a kind: the file starts in column 13, or one blank behind a longer kind. */
  ghost predicate Fills(blanks: string, kind: string) {
    |blanks| == (if |kind| < 12 then 13 - |kind| else 1) && forall i :: 0 <= i < |blanks| ==> blanks[i] == ' '
  }

  lemma PadIs(f: Finding, blanks: string)
    requires Fills(blanks, f.kind)
    ensures Pad(f) == blanks
  {
  }

  /** A line: kind, file, name, from the second symbol of a name on its number, and the note if there is one. */
  lemma LineIs(f: Finding, note: string, blanks: string)
    requires Fills(blanks, f.kind)
    ensures RenderLine(f, note)
         == f.kind + blanks + f.file + "  " + f.qualname + (if f.ordinal > 1 then "@" + Decimal(f.ordinal) else "")
            + (if note != "" then "  # " + note else "")
  {
    PadIs(f, blanks);
    FiveParts(f.kind, blanks, f.file, f.qualname, if f.ordinal > 1 then "@" + Decimal(f.ordinal) else "");
  }

  lemma FiveParts(a: string, b: string, c: string, d: string, e: string)
    ensures a + (b + (c + ("  " + (d + e)))) == a + b + c + "  " + d + e
  {
  }

  // ------------------------------------------------------------------------
  // Trouble
  // ------------------------------------------------------------------------

  /** A line that cannot be read, or repeats the finding of an earlier one. */
  ghost predicate TroubleAt(lines: seq<Line>, i: int)
    requires 0 <= i < |lines|
  {
    lines[i] == Bad || (lines[i].Entry? && exists j :: 0 <= j < i && lines[j].Entry? && lines[j].finding == lines[i].finding)
  }

  ghost predicate FirstTrouble(lines: seq<Line>, i: int) {
    0 <= i < |lines| && TroubleAt(lines, i) && forall j :: 0 <= j < i ==> !TroubleAt(lines, j)
  }

  /** The trouble reported, with its line number counted from 1. */
  ghost predicate Reported(lines: seq<Line>, trouble: Trouble) {
    var i := trouble.line - 1;
    FirstTrouble(lines, i) && (trouble.CannotParse? <==> lines[i] == Bad)
  }

  lemma TroubleInPast(past: seq<Line>, last: Line, i: int)
    requires 0 <= i < |past|
    ensures TroubleAt(past + [last], i) <==> TroubleAt(past, i)
  {
    var lines := past + [last];
    assert forall j :: 0 <= j < |past| ==> lines[j] == past[j];
  }

  lemma FirstTroubleInPast(past: seq<Line>, last: Line, i: int)
    requires FirstTrouble(past, i)
    ensures FirstTrouble(past + [last], i) && (past + [last])[i] == past[i]
  {
    forall j | 0 <= j <= i ensures TroubleAt(past + [last], j) <==> TroubleAt(past, j) {
      TroubleInPast(past, last, j);
    }
  }

  lemma NoTrouble(lines: seq<Line>, read: Entries)
    requires Describes(lines, read)
    ensures forall i :: 0 <= i < |lines| ==> !TroubleAt(lines, i)
    ensures forall f :: f in read <==> exists j :: 0 <= j < |lines| && lines[j].Entry? && lines[j].finding == f
  {
    forall f | f in read ensures exists j :: 0 <= j < |lines| && lines[j].Entry? && lines[j].finding == f {
      var j :| 0 <= j < |lines| && lines[j] == Entry(f, read[f]);
    }
  }

  lemma LastTrouble(past: seq<Line>, last: Line, read: Entries)
    requires Describes(past, read)
    ensures TroubleAt(past + [last], |past|) <==> last == Bad || (last.Entry? && last.finding in read)
    ensures TroubleAt(past + [last], |past|) ==> FirstTrouble(past + [last], |past|)
  {
    var lines := past + [last];
    NoTrouble(past, read);
    assert lines[|past|] == last && forall j :: 0 <= j < |past| ==> lines[j] == past[j];
    forall j | 0 <= j < |past| ensures !TroubleAt(lines, j) {
      TroubleInPast(past, last, j);
    }
  }

  /** Reading fails at the first line that cannot be read or repeats a finding, and says which of the two and where. */
  lemma {:induction false} ErrorIs(lines: seq<Line>)
    requires Collect(lines).Err?
    ensures Reported(lines, Collect(lines).error)
    decreases |lines|
  {
    var past, last := lines[..|lines| - 1], lines[|lines| - 1];
    assert past + [last] == lines;
    if Collect(past).Err? {
      ErrorIs(past);
      FirstTroubleInPast(past, last, Collect(past).error.line - 1);
    } else {
      OkDescribes(past);
      LastTrouble(past, last, Collect(past).value);
    }
  }
}

/** The whole baseline file: a header and one line per finding. */
module BaselineText {
  import opened Prelude
  import opened Text
  import opened BaselineFile

  type Entries = map<Finding, string>

  datatype Trouble = CannotParse(line: nat) | Duplicate(line: nat)

  // ------------------------------------------------------------------------
  // Reading
  // ------------------------------------------------------------------------

  function ParseNext(read: Entries, line: Line, number: nat): Result<Entries, Trouble> {
    match line
    case Skip => Ok(read)
    case Bad => Err(CannotParse(number))
    case Entry(f, note) => if f in read then Err(Duplicate(number)) else Ok(read[f := note])
  }

  function Collect(lines: seq<Line>): Result<Entries, Trouble> {
    if lines == [] then Ok(map[]) else
      match Collect(lines[..|lines| - 1])
      case Err(trouble) => Err(trouble)
      case Ok(read) => ParseNext(read, lines[|lines| - 1], |lines|)
  }

  function ParseAll(raw: seq<string>): (lines: seq<Line>)
    ensures |lines| == |raw| && forall i :: 0 <= i < |raw| ==> lines[i] == ParseLine(raw[i])
  {
    if raw == [] then [] else ParseAll(raw[..|raw| - 1]) + [ParseLine(raw[|raw| - 1])]
  }

  /** What `parse_baseline` makes of a text. */
  function ParseText(text: string): Result<Entries, Trouble> {
    Collect(ParseAll(SplitLines(text)))
  }

  method ParseBaseline(text: string) returns (r: Result<Entries, Trouble>)
    ensures r == ParseText(text)
  {
    var raw := SplitLines(text);
    ghost var lines := ParseAll(raw);
    var entries: Entries := map[];
    for i := 0 to |raw|
      invariant Collect(lines[..i]) == Ok(entries)
    {
      assert lines[..i + 1][..i] == lines[..i];
      var next := ParseNext(entries, ParseLine(raw[i]), i + 1);
      assert Collect(lines[..i + 1]) == next;
      if next.Err? {
        ErrorStays(lines, i + 1);
        return next;
      }
      entries := next.value;
    }
    assert lines[..|raw|] == lines;
    r := Ok(entries);
  }

  lemma {:induction false} ErrorStays(lines: seq<Line>, k: nat)
    requires k <= |lines| && Collect(lines[..k]).Err?
    ensures Collect(lines) == Collect(lines[..k])
    decreases |lines|
  {
    if k < |lines| {
      assert lines[..|lines| - 1][..k] == lines[..k];
      ErrorStays(lines[..|lines| - 1], k);
    } else {
      assert lines[..k] == lines;
    }
  }

  /** `read` holds exactly the entries among the lines; none is unreadable or repeated. */
  ghost predicate Describes(lines: seq<Line>, read: Entries) {
    && (forall i :: 0 <= i < |lines| ==> lines[i] != Bad)
    && (forall i :: 0 <= i < |lines| && lines[i].Entry? ==> lines[i].finding in read && read[lines[i].finding] == lines[i].note)
    && (forall f :: f in read ==> Entry(f, read[f]) in lines)
    && (forall i, j :: 0 <= i < j < |lines| && lines[i].Entry? && lines[j].Entry? ==> lines[i].finding != lines[j].finding)
  }

  ghost predicate Clash(lines: seq<Line>) {
    || (exists i :: 0 <= i < |lines| && lines[i] == Bad)
    || (exists i, j :: 0 <= i < j < |lines| && lines[i].Entry? && lines[j].Entry? && lines[i].finding == lines[j].finding)
  }

  /** Reading succeeds with `read` exactly when `read` describes the lines. */
  lemma ReadIffDescribes(lines: seq<Line>, read: Entries)
    ensures Collect(lines) == Ok(read) <==> Describes(lines, read)
  {
    if Collect(lines).Ok? {
      OkDescribes(lines);
      if Describes(lines, read) {
        DescriptionIsUnique(lines, Collect(lines).value, read);
      }
    } else {
      ErrClashes(lines);
    }
  }

  lemma DescriptionIsUnique(lines: seq<Line>, a: Entries, b: Entries)
    requires Describes(lines, a) && Describes(lines, b)
    ensures a == b
  {
  }

  lemma {:induction false} OkDescribes(lines: seq<Line>)
    requires Collect(lines).Ok?
    ensures Describes(lines, Collect(lines).value)
    decreases |lines|
  {
    if lines == [] {
    } else {
      var past, last := lines[..|lines| - 1], lines[|lines| - 1];
      OkDescribes(past);
      DescribesNext(past, last, Collect(past).value, Collect(lines).value);
      assert past + [last] == lines;
    }
  }

  lemma DescribesNext(past: seq<Line>, last: Line, read: Entries, next: Entries)
    requires Describes(past, read) && ParseNext(read, last, |past| + 1) == Ok(next)
    ensures Describes(past + [last], next)
  {
    var lines := past + [last];
    forall f | f in next ensures Entry(f, next[f]) in lines {
      if last.Entry? && f == last.finding {
        assert lines[|past|] == Entry(f, next[f]);
      } else {
        assert Entry(f, read[f]) in past;
      }
    }
  }

  lemma {:induction false} ErrClashes(lines: seq<Line>)
    requires Collect(lines).Err?
    ensures Clash(lines)
    decreases |lines|
  {
    var past, last := lines[..|lines| - 1], lines[|lines| - 1];
    if Collect(past).Err? {
      ErrClashes(past);
      ClashStays(past, lines);
    } else {
      OkDescribes(past);
      if last.Entry? {
        var i :| 0 <= i < |past| && past[i] == Entry(last.finding, Collect(past).value[last.finding]);
        assert lines[i].finding == lines[|past|].finding;
      } else {
        assert lines[|past|] == Bad;
      }
    }
  }

  lemma ClashStays(past: seq<Line>, lines: seq<Line>)
    requires Clash(past) && past <= lines
    ensures Clash(lines)
  {
  }

  // ------------------------------------------------------------------------
  // Writing
  // ------------------------------------------------------------------------

  /** The findings of a map, each once, in some order. */
  ghost predicate Enumerates(order: seq<Finding>, entries: Entries) {
    && (forall f :: f in order <==> f in entries)
    && (forall i, j :: 0 <= i < j < |order| ==> order[i] != order[j])
  }

  function RenderLines(order: seq<Finding>, entries: Entries): (lines: seq<string>)
    requires forall f :: f in order ==> f in entries
    ensures |lines| == |order| && forall i :: 0 <= i < |order| ==> lines[i] == RenderLine(order[i], entries[order[i]])
  {
    if order == [] then [] else
      [RenderLine(order[0], entries[order[0]])] + RenderLines(order[1..], entries)
  }

  function Unlines(lines: seq<string>): string {
    if lines == [] then "" else lines[0] + "\n" + Unlines(lines[1..])
  }

  /** The header, a blank line if the header ends its last line itself, then the entries. */
  function RenderText(header: string, order: seq<Finding>, entries: Entries): string
    requires forall f :: f in order ==> f in entries
  {
    header + "\n" + Unlines(RenderLines(order, entries))
  }

  /** The header holds comments and blank lines only. */
  ghost predicate IsHeader(header: string) {
    forall l :: l in SplitLines(header + "\n") ==> ParseLine(l) == Skip
  }

  lemma {:induction false} SplitUnlines(lines: seq<string>)
    requires forall l :: l in lines ==> OneLine(l)
    ensures SplitLines(Unlines(lines)) == lines
  {
    if lines == [] {
    } else {
      SplitUnlines(lines[1..]);
      SplitAppend(lines[0] + "\n", Unlines(lines[1..]));
      SplitOneLine(lines[0]);
    }
  }

  lemma LinesOfText(header: string, order: seq<Finding>, entries: Entries)
    requires forall f :: f in order ==> f in entries
    requires forall i :: 0 <= i < |order| ==> OneLine(RenderLine(order[i], entries[order[i]]))
    ensures SplitLines(RenderText(header, order, entries)) == SplitLines(header + "\n") + RenderLines(order, entries)
  {
    var lines := RenderLines(order, entries);
    SplitUnlines(lines);
    SplitAppend(header + "\n", Unlines(lines));
  }

  // ------------------------------------------------------------------------
  // Writing, then reading
  // ------------------------------------------------------------------------

  ghost predicate FileSafe(f: Finding, note: string) {
    LineSafe(f, note) && OneLine(f.qualname) && OneLine(note)
  }

  lemma RenderedIsOneLine(f: Finding, note: string)
    requires Words(f) && OneLine(f.qualname) && OneLine(note)
    ensures OneLine(RenderLine(f, note))
  {
  }

  /** Safe entries come back whole, in whatever order they were written. */
  lemma SafeTextReads(header: string, order: seq<Finding>, entries: Entries)
    requires IsHeader(header) && Enumerates(order, entries)
    requires forall f :: f in entries ==> FileSafe(f, entries[f])
    ensures ParseText(RenderText(header, order, entries)) == Ok(entries)
  {
    var rows := RenderLines(order, entries);
    forall i | 0 <= i < |order|
      ensures OneLine(rows[i]) && ParseLine(rows[i]) == Entry(order[i], entries[order[i]])
    {
      assert order[i] in entries;
      RenderedIsOneLine(order[i], entries[order[i]]);
      SafeLineReads(order[i], entries[order[i]]);
    }
    LinesOfText(header, order, entries);
    ParseAllAppend(SplitLines(header + "\n"), rows);
    RenderedDescribes(ParseAll(SplitLines(header + "\n")), ParseAll(rows), order, entries);
    ReadIffDescribes(ParseAll(SplitLines(RenderText(header, order, entries))), entries);
  }

  lemma ParseAllAt(a: seq<string>, b: seq<string>, i: nat)
    requires i < |a| + |b|
    ensures ParseAll(a + b)[i] == (ParseAll(a) + ParseAll(b))[i]
  {
    if i < |a| {
      assert (a + b)[i] == a[i];
    } else {
      assert (a + b)[i] == b[i - |a|];
    }
  }

  lemma ParseAllAppend(a: seq<string>, b: seq<string>)
    ensures ParseAll(a + b) == ParseAll(a) + ParseAll(b)
  {
    var all, parts := ParseAll(a + b), ParseAll(a) + ParseAll(b);
    forall i: nat | i < |a| + |b| ensures all[i] == parts[i] {
      ParseAllAt(a, b, i);
    }
  }

  lemma RenderedDescribes(top: seq<Line>, rows: seq<Line>, order: seq<Finding>, entries: Entries)
    requires forall l :: l in top ==> l == Skip
    requires Enumerates(order, entries) && |rows| == |order|
    requires forall i :: 0 <= i < |order| ==> order[i] in entries && rows[i] == Entry(order[i], entries[order[i]])
    ensures Describes(top + rows, entries)
  {
    var all := top + rows;
    assert forall i :: 0 <= i < |top| ==> all[i] in top;
    forall f | f in entries ensures Entry(f, entries[f]) in all {
      var k :| 0 <= k < |order| && order[k] == f;
      assert all[|top| + k] == rows[k];
    }
  }
}

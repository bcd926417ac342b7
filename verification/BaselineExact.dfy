/**
 A baseline survives being written and read back exactly when each of its entries
 is safe: no unsafe entry can be made good by the others.
 */
module BaselineExact {
  import opened Prelude
  import opened Text
  import opened BaselineFile
  import opened LineExact
  import opened BaselineText

  // ------------------------------------------------------------------------
  // What any entry read from a line looks like
  // ------------------------------------------------------------------------

  lemma SliceIsOneLine(s: string, i: nat, j: nat)
    requires OneLine(s) && i <= j <= |s|
    ensures OneLine(s[i..j])
  {
  }

  lemma StripIsOneLine(s: string)
    requires OneLine(s)
    ensures OneLine(Lstrip(s)) && OneLine(Strip(s))
  {
  }

  lemma ParsedNameIsOneLine(kind: string, file: string, key: string)
    requires OneLine(key)
    ensures OneLine(ParseKey(kind, file, key).qualname)
  {
  }

  lemma BodyEntryIsOneLine(body: string, rest: string, f: Finding, note: string)
    requires OneLine(body) && OneLine(rest) && ParseBody(body, rest) == Entry(f, note)
    ensures OneLine(f.qualname) && OneLine(note)
  {
    var (kind, file, third) := Split3(body).value;
    Split3Third(body);
    StripIsOneLine(third);
    ParsedNameIsOneLine(kind, file, Strip(third));
    StripIsOneLine(rest);
  }

  lemma Split3Third(s: string)
    requires OneLine(s) && Split3(s).Some?
    ensures OneLine(Split3(s).value.2)
  {
  }

  /** What holds of every entry that was read from some line. */
  ghost predicate Readable(f: Finding, note: string) {
    Words(f) && f.kind[0] != '#' && OneLine(f.qualname) && OneLine(note)
  }

  lemma EntryIsReadable(raw: string, f: Finding, note: string)
    requires OneLine(raw) && ParseLine(raw) == Entry(f, note)
    ensures Readable(f, note)
  {
    EntryHasWords(raw, f, note);
    match Find(raw, SEP) {
      case None =>
        EntryWithoutSeparator(raw, Entry(f, note));
        BodyEntryIsOneLine(raw, "", f, note);
        FirstWordStarts(raw, raw, f, "", note);
      case Some(i) =>
        EntryBeforeSeparator(raw, i, Entry(f, note));
        SliceIsOneLine(raw, 0, i);
        SliceIsOneLine(raw, i + 4, |raw|);
        BodyEntryIsOneLine(raw[..i], raw[i + 4..], f, note);
        FirstWordStarts(raw, raw[..i], f, raw[i + 4..], note);
    }
  }

  /** The kind starts where the line starts. */
  lemma FirstWordStarts(raw: string, body: string, f: Finding, rest: string, note: string)
    requires body <= raw && ParseBody(body, rest) == Entry(f, note) && ParseLine(raw).Entry? && f.kind != ""
    ensures f.kind[0] != '#'
  {
    var a := SkipSpaces(body, 0);
    SkipSpacesIs(raw, 0, a);
    assert Lstrip(raw)[0] == raw[a] == body[a];
    assert Split3(body).value.0 == body[a..WordEnd(body, a)];
    ParseKeyKeepsWords(Split3(body).value.0, Split3(body).value.1, Strip(Split3(body).value.2));
  }

  // ------------------------------------------------------------------------
  // A line that is read never names more than was written
  // ------------------------------------------------------------------------

  /** A prefix of a framed line that still has three parts has the frame's words. */
  lemma PrefixWords(f: Finding, t: string, body: string)
    requires Words(f) && body <= Framed(f, t) && Split3(body).Some?
    ensures Split3(body).value.0 == f.kind && Split3(body).value.1 == f.file
  {
    FramedParts(f, t);
    FramedBlanks(f, t);
    FramedWords(f, t);
    var a, b := |f.kind|, |f.kind| + |Pad(f)|;
    WordsOfPrefix(Framed(f, t), body, a, b, b + |f.file|);
  }

  lemma FramedWords(f: Finding, t: string)
    requires Words(f)
    ensures var line := Framed(f, t);
            var b := |f.kind| + |Pad(f)|;
            && (forall j :: 0 <= j < |f.kind| ==> !IsSpace(line[j]))
            && (forall j :: b <= j < b + |f.file| ==> !IsSpace(line[j]))
  {
  }

  lemma WordsOfPrefix(line: string, s: string, a: nat, b: nat, c: nat)
    requires s <= line && 0 < a < b < c && c + 2 <= |line| && Split3(s).Some?
    requires forall j :: 0 <= j < a ==> !IsSpace(line[j])
    requires forall j :: a <= j < b ==> IsSpace(line[j])
    requires forall j :: b <= j < c ==> !IsSpace(line[j])
    requires IsSpace(line[c])
    ensures Split3(s).value.0 == line[..a] && Split3(s).value.1 == line[b..c]
  {
    var n := |s|;
    if n > 0 {
      assert s[0] == line[0];
      assert SkipSpaces(s, 0) == 0;
    }
    WordEndIs(s, 0, Min(a, n));
    SkipSpacesIs(s, Min(a, n), Min(b, n));
    WordEndIs(s, Min(b, n), Min(c, n));
    assert SkipSpaces(s, n) == n;
    assert n > c;
    assert s[..a] == line[..a];
    assert s[b..c] == line[b..c];
  }

  lemma {:induction false} DecimalIsUnique(s: string)
    requires s != "" && forall i :: 0 <= i < |s| ==> IsDigit(s[i])
    ensures |Decimal(ToInt(s))| == |s| ==> Decimal(ToInt(s)) == s
  {
    var n, rest := ToInt(s), s[..|s| - 1];
    assert s == rest + [s[|s| - 1]];
    if n < 10 {
    } else {
      assert n / 10 == ToInt(rest);
      DecimalIsUnique(rest);
    }
  }

  /** A key that is not shortened by being read is kept. */
  lemma KeyKeptIfNotShorter(kind: string, file: string, key: string)
    requires |Key(ParseKey(kind, file, key))| == |key|
    ensures Key(ParseKey(kind, file, key)) == key
  {
    ParsedKeyIsNoLonger(kind, file, key);
    if EndsInOrdinal(key) {
      var d := DigitsStart(key, |key|);
      DecimalIsShortest(key[d..]);
      DecimalIsUnique(key[d..]);
      assert key == key[..d - 1] + ("@" + key[d..]);
    }
  }

  lemma WholeBodyGives(f: Finding, rest: string, g: Finding, n: string)
    requires Words(f) && ParseBody(Body(f), rest) == Entry(g, n) && |Key(g)| == |Key(f)|
    ensures g == ParseKey(f.kind, f.file, Key(f)) && Key(g) == Key(f)
  {
    var read := Strip(Lstrip(Key(f)));
    Split3Framed(f, Key(f));
    ParsedKeyIsNoLonger(f.kind, f.file, read);
    StripTrims(Lstrip(Key(f)));
    StripTrims(Key(f));
    assert read == Lstrip(Key(f)) == Key(f);
    KeyKeptIfNotShorter(f.kind, f.file, Key(f));
  }

  lemma BodyGivesNoMore(f: Finding, body: string, rest: string, g: Finding, n: string)
    requires Words(f) && body <= Body(f) && ParseBody(body, rest) == Entry(g, n)
    ensures |Key(g)| <= |Key(f)|
    ensures |Key(g)| == |Key(f)| ==> g == ParseKey(f.kind, f.file, Key(f)) && Key(g) == Key(f)
  {
    PrefixWords(f, Key(f), body);
    ThirdBeyondFrame(f, Key(f), body);
    FramedParts(f, Key(f));
    var third := Split3(body).value.2;
    ParsedKeyIsNoLonger(f.kind, f.file, Strip(third));
    StripTrims(third);
    if |Key(g)| == |Key(f)| {
      assert body == Body(f);
      WholeBodyGives(f, rest, g, n);
    }
  }

  lemma LineGivesNoMore(f: Finding, note: string, g: Finding, n: string)
    requires Words(f) && ParseLine(RenderLine(f, note)) == Entry(g, n)
    ensures |Key(g)| <= |Key(f)|
    ensures |Key(g)| == |Key(f)| ==> g == ParseKey(f.kind, f.file, Key(f)) && Key(g) == Key(f)
  {
    var line := RenderLine(f, note);
    LineCuts(f, note);
    if note != "" {
      WrittenSeparatorOccurs(f, note);
    }
    match Find(line, SEP) {
      case None =>
        EntryWithoutSeparator(line, Entry(g, n));
        BodyGivesNoMore(f, line, "", g, n);
      case Some(i) =>
        EntryBeforeSeparator(line, i, Entry(g, n));
        assert i <= |Body(f)|;
        TakeTwice(line, Body(f), i);
        BodyGivesNoMore(f, line[..i], line[i + 4..], g, n);
    }
  }

  // ------------------------------------------------------------------------
  // Reading permutes the findings, so it keeps every one
  // ------------------------------------------------------------------------

  ghost function Weight(fs: seq<Finding>): nat {
    if fs == [] then 0 else |Key(fs[0])| + Weight(fs[1..])
  }

  lemma {:induction false} WeightRemove(fs: seq<Finding>, j: nat)
    requires j < |fs|
    ensures Weight(fs) == |Key(fs[j])| + Weight(fs[..j] + fs[j + 1..])
  {
    var rest := fs[..j] + fs[j + 1..];
    if j > 0 {
      WeightRemove(fs[1..], j - 1);
      assert fs[1..][..j - 1] + fs[1..][j..] == rest[1..];
    } else {
      assert rest == fs[1..];
    }
  }

  ghost predicate Distinct(fs: seq<Finding>) {
    forall i, j :: 0 <= i < j < |fs| ==> fs[i] != fs[j]
  }

  lemma {:induction false} SameWeight(a: seq<Finding>, b: seq<Finding>)
    requires Distinct(a) && Distinct(b) && forall f :: f in a <==> f in b
    ensures Weight(a) == Weight(b)
  {
    if a == [] {
      assert forall i :: 0 <= i < |b| ==> b[i] in a;
    } else {
      assert a[0] in b;
      var j :| 0 <= j < |b| && b[j] == a[0];
      var rest := b[..j] + b[j + 1..];
      forall f ensures f in a[1..] <==> f in rest {
        RemovedFrom(b, j, f);
        RemovedFrom(a, 0, f);
        assert a[..0] + a[1..] == a[1..];
      }
      SameWeight(a[1..], rest);
      WeightRemove(b, j);
    }
  }

  lemma RemovedFrom(fs: seq<Finding>, j: nat, f: Finding)
    requires Distinct(fs) && j < |fs|
    ensures Distinct(fs[..j] + fs[j + 1..])
    ensures f in fs[..j] + fs[j + 1..] <==> f in fs && f != fs[j]
  {
  }

  /** Pointwise no heavier and equally heavy in all means equally heavy everywhere. */
  lemma {:induction false} NoneLighter(a: seq<Finding>, b: seq<Finding>, k: nat)
    requires |a| == |b| && k < |a| && forall i :: 0 <= i < |a| ==> |Key(a[i])| <= |Key(b[i])|
    ensures Weight(a) <= Weight(b)
    ensures Weight(a) == Weight(b) ==> |Key(a[k])| == |Key(b[k])|
  {
    if |a| <= 1 {
    } else {
      NoneLighter(a[1..], b[1..], if k == 0 then 0 else k - 1);
    }
  }

  /** Reading what was written for `f` gave `g`. */
  ghost predicate NoMore(f: Finding, g: Finding) {
    && |Key(g)| <= |Key(f)|
    && (|Key(g)| == |Key(f)| ==> g == ParseKey(f.kind, f.file, Key(f)) && Key(g) == Key(f))
  }

  /** `found` holds the findings of `order` again, each read where another was written. */
  ghost predicate Rearranges(order: seq<Finding>, found: seq<Finding>) {
    && |found| == |order| && Distinct(order) && Distinct(found)
    && (forall f :: f in found <==> f in order)
    && (forall i :: 0 <= i < |order| ==> NoMore(order[i], found[i]))
  }

  lemma RearrangedAreKept(order: seq<Finding>, found: seq<Finding>, k: nat)
    requires Rearranges(order, found) && k < |order|
    ensures found[k] == order[k]
  {
    SameWeight(found, order);
    assert order[k] in found;
    var j :| 0 <= j < |found| && found[j] == order[k];
    assert NoMore(order[k], found[k]) && NoMore(order[j], found[j]);
    NoneLighter(found, order, k);
    NoneLighter(found, order, j);
    ParseKeyKeepsWords(order[j].kind, order[j].file, Key(order[j]));
    assert found[k] == found[j];
  }

  // ------------------------------------------------------------------------
  // The whole file
  // ------------------------------------------------------------------------

  lemma TextEntriesAreReadable(text: string, entries: Entries, f: Finding)
    requires ParseText(text) == Ok(entries) && f in entries
    ensures Readable(f, entries[f])
  {
    var raw := SplitLines(text);
    ReadIffDescribes(ParseAll(raw), entries);
    var i :| 0 <= i < |raw| && ParseAll(raw)[i] == Entry(f, entries[f]);
    SplitGivesLines(text, 0);
    assert raw[i] in raw;
    EntryIsReadable(raw[i], f, entries[f]);
  }

  lemma ReadableIsNotSkipped(f: Finding, note: string)
    requires Readable(f, note)
    ensures ParseLine(RenderLine(f, note)) != Skip
  {
  }

  ghost function FindingsOf(lines: seq<Line>): (fs: seq<Finding>)
    requires forall l :: l in lines ==> l.Entry?
    ensures |fs| == |lines| && forall i :: 0 <= i < |fs| ==> fs[i] == lines[i].finding
  {
    if lines == [] then [] else [lines[0].finding] + FindingsOf(lines[1..])
  }

  lemma RowIsEntry(top: seq<Line>, rows: seq<Line>, entries: Entries, i: nat)
    requires Describes(top + rows, entries) && i < |rows| && rows[i] != Skip
    ensures rows[i].Entry? && rows[i].finding in entries && rows[i].note == entries[rows[i].finding]
  {
    assert (top + rows)[|top| + i] == rows[i];
  }

  lemma RowsDiffer(top: seq<Line>, rows: seq<Line>, entries: Entries, i: nat, j: nat)
    requires Describes(top + rows, entries) && i < j < |rows| && rows[i].Entry? && rows[j].Entry?
    ensures rows[i].finding != rows[j].finding
  {
    assert (top + rows)[|top| + i] == rows[i] && (top + rows)[|top| + j] == rows[j];
  }

  lemma EntryIsInRows(top: seq<Line>, rows: seq<Line>, entries: Entries, f: Finding) returns (i: nat)
    requires Describes(top + rows, entries) && f in entries && forall l :: l in top ==> l == Skip
    ensures i < |rows| && rows[i] == Entry(f, entries[f])
  {
    assert Entry(f, entries[f]) in top + rows;
    assert Entry(f, entries[f]) !in top;
    i :| 0 <= i < |rows| && rows[i] == Entry(f, entries[f]);
  }

  /** The rows hold each finding of the map once. */
  lemma RowsPermute(top: seq<Line>, rows: seq<Line>, entries: Entries)
    requires (forall l :: l in top ==> l == Skip) && (forall i :: 0 <= i < |rows| ==> rows[i] != Skip)
    requires Describes(top + rows, entries)
    ensures (forall l :: l in rows ==> l.Entry? && l.finding in entries && l.note == entries[l.finding])
    ensures Distinct(FindingsOf(rows)) && forall f :: f in FindingsOf(rows) <==> f in entries
  {
    forall i | 0 <= i < |rows|
      ensures rows[i].Entry? && rows[i].finding in entries && rows[i].note == entries[rows[i].finding]
    {
      RowIsEntry(top, rows, entries, i);
    }
    var found := FindingsOf(rows);
    forall i, j | 0 <= i < j < |found| ensures found[i] != found[j] {
      RowsDiffer(top, rows, entries, i, j);
    }
    forall f | f in entries ensures f in found {
      var i := EntryIsInRows(top, rows, entries, f);
      assert found[i] == f;
    }
  }

  /** The baseline comes back whole if and only if every entry in it is safe. */
  lemma FileRoundTrip(header: string, order: seq<Finding>, entries: Entries)
    requires IsHeader(header) && Enumerates(order, entries)
    ensures ParseText(RenderText(header, order, entries)) == Ok(entries)
       <==> forall f :: f in entries ==> FileSafe(f, entries[f])
  {
    var text := RenderText(header, order, entries);
    if forall f :: f in entries ==> FileSafe(f, entries[f]) {
      SafeTextReads(header, order, entries);
    }
    if ParseText(text) == Ok(entries) {
      forall f | f in entries ensures FileSafe(f, entries[f]) {
        ReadBackIsSafe(header, order, entries, f);
      }
    }
  }

  lemma RowOf(f: Finding, note: string)
    requires Readable(f, note)
    ensures var row := RenderLine(f, note);
            && OneLine(row) && ParseLine(row) != Skip
            && (ParseLine(row).Entry? ==> NoMore(f, ParseLine(row).finding))
  {
    RenderedIsOneLine(f, note);
    ReadableIsNotSkipped(f, note);
    var row := ParseLine(RenderLine(f, note));
    if row.Entry? {
      LineGivesNoMore(f, note, row.finding, row.note);
    }
  }

  lemma RowsOf(order: seq<Finding>, entries: Entries, rows: seq<Line>)
    requires forall f :: f in order ==> f in entries && Readable(f, entries[f])
    requires rows == ParseAll(RenderLines(order, entries))
    ensures forall i :: 0 <= i < |order| ==> OneLine(RenderLine(order[i], entries[order[i]]))
    ensures forall i :: 0 <= i < |rows| ==> rows[i] != Skip
  {
    forall i | 0 <= i < |order|
      ensures OneLine(RenderLine(order[i], entries[order[i]])) && rows[i] != Skip
    {
      assert order[i] in order;
      RowOf(order[i], entries[order[i]]);
    }
  }

  lemma RowsGiveNoMore(order: seq<Finding>, entries: Entries, rows: seq<Line>)
    requires forall f :: f in order ==> f in entries && Readable(f, entries[f])
    requires rows == ParseAll(RenderLines(order, entries)) && forall l :: l in rows ==> l.Entry?
    ensures forall i :: 0 <= i < |order| ==> NoMore(order[i], FindingsOf(rows)[i])
  {
    forall i | 0 <= i < |order|
      ensures NoMore(order[i], FindingsOf(rows)[i])
    {
      assert order[i] in order;
      assert rows[i] in rows;
      RowOf(order[i], entries[order[i]]);
    }
  }

  /** The lines of a text that reads back: the header's, then one entry per row. */
  lemma ReadBackRows(header: string, order: seq<Finding>, entries: Entries) returns (rows: seq<Line>)
    requires IsHeader(header) && Enumerates(order, entries)
    requires ParseText(RenderText(header, order, entries)) == Ok(entries)
    ensures rows == ParseAll(RenderLines(order, entries))
    ensures forall l :: l in rows ==> l.Entry? && l.finding in entries && l.note == entries[l.finding]
    ensures Rearranges(order, FindingsOf(rows))
  {
    var text := RenderText(header, order, entries);
    forall g | g in order ensures g in entries && Readable(g, entries[g]) {
      TextEntriesAreReadable(text, entries, g);
    }
    rows := ParseAll(RenderLines(order, entries));
    var top := ParseAll(SplitLines(header + "\n"));
    RowsOf(order, entries, rows);
    LinesOfText(header, order, entries);
    ParseAllAppend(SplitLines(header + "\n"), RenderLines(order, entries));
    ReadIffDescribes(top + rows, entries);
    RowsPermute(top, rows, entries);
    RowsGiveNoMore(order, entries, rows);
  }

  lemma ReadBackIsSafe(header: string, order: seq<Finding>, entries: Entries, f: Finding)
    requires IsHeader(header) && Enumerates(order, entries)
    requires ParseText(RenderText(header, order, entries)) == Ok(entries) && f in entries
    ensures FileSafe(f, entries[f])
  {
    TextEntriesAreReadable(RenderText(header, order, entries), entries, f);
    var rows := ReadBackRows(header, order, entries);
    assert f in order;
    var k :| 0 <= k < |order| && order[k] == f;
    RearrangedAreKept(order, FindingsOf(rows), k);
    assert rows[k] in rows;
    assert ParseLine(RenderLine(f, entries[f])) == Entry(f, entries[f]);
    LineRoundTrip(f, entries[f]);
  }
}

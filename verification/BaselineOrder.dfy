/** The order of a baseline file: sorted by kind, file, name and ordinal. */
module BaselineOrder {
  import opened Prelude
  import opened Text
  import opened BaselineFile
  import opened BaselineText
  import opened BaselineExact

  predicate Less(f: Finding, g: Finding) {
    if f.kind != g.kind then StrLess(f.kind, g.kind)
    else if f.file != g.file then StrLess(f.file, g.file)
    else if f.qualname != g.qualname then StrLess(f.qualname, g.qualname)
    else f.ordinal < g.ordinal
  }

  lemma LessIsStrictOrder(f: Finding, g: Finding, h: Finding)
    ensures f != g ==> Less(f, g) || Less(g, f)
    ensures !(Less(f, g) && Less(g, f))
    ensures Less(f, g) && Less(g, h) ==> Less(f, h)
  {
    StrLessIsStrictOrder(f.kind, g.kind, h.kind);
    StrLessIsStrictOrder(f.file, g.file, h.file);
    StrLessIsStrictOrder(f.qualname, g.qualname, h.qualname);
  }

  ghost predicate Sorted(order: seq<Finding>) {
    forall i, j :: 0 <= i < j < |order| ==> Less(order[i], order[j])
  }

  function Insert(order: seq<Finding>, f: Finding): seq<Finding> {
    if order == [] || Less(f, order[0]) then [f] + order else [order[0]] + Insert(order[1..], f)
  }

  lemma {:induction false} InsertHas(order: seq<Finding>, f: Finding, g: Finding)
    ensures g in Insert(order, f) <==> g in order || g == f
  {
    if order == [] || Less(f, order[0]) {
    } else {
      InsertHas(order[1..], f, g);
      assert order == [order[0]] + order[1..];
    }
  }

  lemma {:induction false} InsertSorts(order: seq<Finding>, f: Finding)
    requires Sorted(order) && f !in order
    ensures Sorted(Insert(order, f))
  {
    if order != [] && Less(f, order[0]) {
      forall j | 0 < j < |order| ensures Less(f, order[j]) {
        LessIsStrictOrder(f, order[0], order[j]);
      }
    } else if order != [] {
      InsertSorts(order[1..], f);
      var rest := Insert(order[1..], f);
      forall g | g in rest ensures Less(order[0], g) {
        InsertHas(order[1..], f, g);
        LessIsStrictOrder(f, order[0], g);
      }
    }
  }

  method SortFindings(findings: set<Finding>) returns (order: seq<Finding>)
    ensures Sorted(order) && forall f :: f in order <==> f in findings
  {
    order := [];
    var todo := findings;
    while todo != {}
      invariant todo <= findings && Sorted(order)
      invariant forall f :: f in order <==> f in findings - todo
      decreases todo
    {
      var f := Choose(todo);
      InsertSorts(order, f);
      forall g ensures g in Insert(order, f) <==> g in order || g == f {
        InsertHas(order, f, g);
      }
      order := Insert(order, f);
      todo := todo - {f};
    }
  }

  /** A set of findings can be sorted in one way only, so a map has one text. */
  lemma {:induction false} SortedIsUnique(a: seq<Finding>, b: seq<Finding>)
    requires Sorted(a) && Sorted(b) && forall f :: f in a <==> f in b
    ensures a == b
  {
    assert (a != [] ==> a[0] in b) && (b != [] ==> b[0] in a);
    if a == [] || b == [] {
    } else {
      LessIsStrictOrder(a[0], b[0], a[0]);
      assert a[0] == b[0];
      SortedTail(a);
      SortedTail(b);
      SortedIsUnique(a[1..], b[1..]);
    }
  }

  lemma SortedTail(a: seq<Finding>)
    requires Sorted(a) && a != []
    ensures Sorted(a[1..]) && forall f :: f in a[1..] <==> f in a && f != a[0]
  {
  }

  lemma SortedIsDistinct(a: seq<Finding>)
    requires Sorted(a)
    ensures forall i, j :: 0 <= i < j < |a| ==> a[i] != a[j]
  {
  }

  // ------------------------------------------------------------------------
  // Writing the file
  // ------------------------------------------------------------------------

  /** `text` is the one text of `entries` below `header`. */
  ghost predicate IsTextOf(text: string, header: string, entries: Entries) {
    exists order :: Sorted(order) && Enumerates(order, entries) && text == RenderText(header, order, entries)
  }

  lemma {:induction false} UnlinesMore(lines: seq<string>, last: string)
    ensures Unlines(lines + [last]) == Unlines(lines) + (last + "\n")
  {
    if lines == [] {
      assert Unlines([last]) == last + "\n" + Unlines([]);
    } else {
      assert (lines + [last])[1..] == lines[1..] + [last];
      UnlinesMore(lines[1..], last);
    }
  }

  lemma UnlinesNext(lines: seq<string>, i: nat)
    requires i < |lines|
    ensures Unlines(lines[..i + 1]) == Unlines(lines[..i]) + (lines[i] + "\n")
  {
    UnlinesMore(lines[..i], lines[i]);
    assert lines[..i + 1] == lines[..i] + [lines[i]];
  }

  /** The rows of `order`, each ended by a newline. */
  method RenderRows(order: seq<Finding>, entries: Entries) returns (rows: string)
    requires forall f :: f in order ==> f in entries
    ensures rows == Unlines(RenderLines(order, entries))
  {
    rows := "";
    ghost var lines := RenderLines(order, entries);
    for i := 0 to |order|
      invariant rows == Unlines(lines[..i])
    {
      var row := RenderLine(order[i], entries[order[i]]);
      UnlinesNext(lines, i);
      assert row == lines[i];
      rows := rows + (row + "\n");
    }
    assert lines[..|order|] == lines;
  }

  method RenderBaseline(header: string, entries: Entries) returns (text: string)
    ensures IsTextOf(text, header, entries)
  {
    var order := SortFindings(entries.Keys);
    SortedIsDistinct(order);
    var rows := RenderRows(order, entries);
    text := header + "\n" + rows;
    assert Enumerates(order, entries) && text == RenderText(header, order, entries);
  }

  lemma TextIsUnique(header: string, entries: Entries, a: string, b: string)
    requires IsTextOf(a, header, entries) && IsTextOf(b, header, entries)
    ensures a == b
  {
    var p :| Sorted(p) && Enumerates(p, entries) && a == RenderText(header, p, entries);
    var q :| Sorted(q) && Enumerates(q, entries) && b == RenderText(header, q, entries);
    SortedIsUnique(p, q);
  }

  /** Round trip of the file as it is written. */
  lemma BaselineRoundTrip(header: string, entries: Entries, text: string)
    requires IsHeader(header) && IsTextOf(text, header, entries)
    ensures ParseText(text) == Ok(entries) <==> forall f :: f in entries ==> FileSafe(f, entries[f])
  {
    var order :| Sorted(order) && Enumerates(order, entries) && text == RenderText(header, order, entries);
    FileRoundTrip(header, order, entries);
  }

  /**
   Word-like kinds and files, trimmed names and notes, and no separator inside any
   field are not enough: these shapes still put a separator, or a comment, in the line.
   */
  lemma StillUnsafe(f: Finding, note: string)
    requires Words(f)
    requires || f.kind[0] == '#'
             || (f.file == "#" && |f.kind| < KIND_WIDTH)
             || "# " <= Key(f)
             || (note != "" && |Key(f)| >= 3 && Key(f)[|Key(f)| - 3..] == "  #")
    ensures !FileSafe(f, note)
  {
    if f.kind[0] == '#' {
    } else if f.file == "#" && |f.kind| < KIND_WIDTH {
      FileIsHash(f, note);
    } else if "# " <= Key(f) {
      KeyStartsWithHash(f, note);
    } else {
      KeyEndsWithHash(f, note);
    }
  }

  /** What the separator is searched in. */
  ghost function Start(f: Finding, note: string): string {
    Body(f) + if note != "" then "  #" else ""
  }

  lemma HasAt(s: string, i: nat)
    requires i + 4 <= |s| && s[i..i + 2] == "  " && s[i + 2] == '#' && s[i + 3] == ' '
    ensures Has(s, SEP)
  {
    assert s[i] == s[i..i + 2][0] && s[i + 1] == s[i..i + 2][1];
    assert s[i..i + 4] == SEP;
    assert OccursAt(s, SEP, i);
  }

  lemma FileIsHash(f: Finding, note: string)
    requires f.file == "#" && |f.kind| < KIND_WIDTH
    ensures Has(Start(f, note), SEP)
  {
    FramedParts(f, Key(f));
    BlanksEnd(f);
    var body, a, b := Body(f), |f.kind|, |f.kind| + |Pad(f)|;
    assert body[b - 2..b] == body[a..b][|Pad(f)| - 2..];
    assert body[b] == body[b..b + 1][0] && body[b + 1] == body[b + 1..][0];
    assert Start(f, note)[b - 2..b] == body[b - 2..b];
    HasAt(Start(f, note), b - 2);
  }

  lemma KeyStartsWithHash(f: Finding, note: string)
    requires "# " <= Key(f)
    ensures Has(Start(f, note), SEP)
  {
    FramedParts(f, Key(f));
    var body, d := Body(f), |f.kind| + |Pad(f)| + |f.file|;
    var tail := "  " + Key(f);
    assert body[d] == tail[0] && body[d + 1] == tail[1] && body[d + 2] == tail[2] && body[d + 3] == tail[3];
    assert Start(f, note)[d..d + 2] == "  ";
    HasAt(Start(f, note), d);
  }

  lemma KeyEndsWithHash(f: Finding, note: string)
    requires note != "" && |Key(f)| >= 3 && Key(f)[|Key(f)| - 3..] == "  #"
    ensures Has(Start(f, note), SEP)
  {
    var body, n := Body(f), |Body(f)|;
    BodyEndsWithKey(f, body);
    EndingWithHash(body, n - 3);
    assert Start(f, note)[n - 3..n - 1] == body[n - 3..n - 1];
    HasAt(Start(f, note), n - 3);
  }

  lemma EndingWithHash(s: string, i: nat)
    requires i + 3 == |s| && s[i..] == "  #"
    ensures s[i..i + 2] == "  " && s[i + 2] == '#'
  {
  }

  lemma BodyEndsWithKey(f: Finding, body: string)
    requires body == Body(f) && |Key(f)| >= 3
    ensures |body| >= 3 && body[|body| - 3..] == Key(f)[|Key(f)| - 3..]
  {
  }

  lemma BlanksEnd(f: Finding)
    requires |f.kind| < KIND_WIDTH
    ensures |Pad(f)| >= 2 && Pad(f)[|Pad(f)| - 2..] == "  "
  {
  }
}

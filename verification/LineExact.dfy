/** `LineSafe` is exact: a line that reads back as it was written satisfies it. */
module LineExact {
  import opened Prelude
  import opened Text
  import opened BaselineFile

  /** Where the third part of a line can start, once the first two are the kind and file of `f`. */
  lemma ThirdBeyondFrame(f: Finding, t: string, body: string)
    requires body <= Framed(f, t)
    requires Split3(body).Some? && Split3(body).value.0 == f.kind && Split3(body).value.1 == f.file
    requires f.kind != "" && !IsSpace(f.kind[0])
    ensures |f.kind| + |Pad(f)| + |f.file| + 2 + |Split3(body).value.2| <= |body|
  {
    FramedParts(f, t);
    FramedBlanks(f, t);
    var a, b, c := |f.kind|, |f.kind| + |Pad(f)|, |f.kind| + |Pad(f)| + |f.file|;
    BlankRunsDelay(body, a, b, c);
  }

  /** In the frame, the places between the words hold white space. */
  lemma FramedBlanks(f: Finding, t: string)
    ensures var line := Framed(f, t);
            var b := |f.kind| + |Pad(f)|;
            && (forall j :: |f.kind| <= j < b ==> IsSpace(line[j]))
            && (forall j :: b + |f.file| <= j < b + |f.file| + 2 ==> IsSpace(line[j]))
            && (f.kind != "" ==> line[0] == f.kind[0])
  {
  }

  lemma BlankRunsDelay(s: string, a: nat, b: nat, c: nat)
    requires Split3(s).Some? && s != "" && !IsSpace(s[0])
    requires |Split3(s).value.0| == a && a <= b <= c && |Split3(s).value.1| == c - b
    requires forall j :: a <= j < b && j < |s| ==> IsSpace(s[j])
    requires forall j :: c <= j < c + 2 && j < |s| ==> IsSpace(s[j])
    ensures c + 2 + |Split3(s).value.2| <= |s|
  {
  }

  /** A body that is cut short cannot give back the whole finding. */
  lemma ShortBodyLosesKey(f: Finding, n: nat, note: string, read: string)
    requires n < |Body(f)| && f.kind != "" && !IsSpace(f.kind[0])
    ensures ParseBody(Body(f)[..n], note) != Entry(f, read)
  {
    var body := Body(f)[..n];
    if ParseBody(body, note) == Entry(f, read) {
      var (kind, file, third) := Split3(body).value;
      ParsedKeyIsNoLonger(kind, file, Strip(third));
      StripTrims(third);
      ParseKeyKeepsWords(kind, file, Strip(third));
      ThirdBeyondFrame(f, Key(f), body);
      FramedParts(f, Key(f));
      assert false;
    }
  }

  lemma ParseKeyKeepsWords(kind: string, file: string, key: string)
    ensures ParseKey(kind, file, key).kind == kind && ParseKey(kind, file, key).file == file
  {
  }

  lemma Split3Words(s: string)
    requires Split3(s).Some?
    ensures IsWord(Split3(s).value.0) && IsWord(Split3(s).value.1)
  {
  }

  /** The parts of an entry that was read: words, and a trimmed note. */
  lemma EntryHasWords(raw: string, f: Finding, note: string)
    requires ParseLine(raw) == Entry(f, note)
    ensures Words(f) && Trimmed(note)
  {
    var (body, rest) := match Find(raw, SEP) { case None => (raw, "") case Some(i) => (raw[..i], raw[i + 4..]) };
    assert ParseBody(body, rest) == Entry(f, note);
    Split3Words(body);
    var (kind, file, third) := Split3(body).value;
    ParseKeyKeepsWords(kind, file, Strip(third));
    StripTrims(rest);
  }

  lemma EntryBeforeSeparator(raw: string, i: nat, entry: Line)
    requires ParseLine(raw) == entry && entry.Entry? && Find(raw, SEP) == Some(i)
    ensures i + 4 <= |raw| && ParseBody(raw[..i], raw[i + 4..]) == entry
  {
  }

  lemma EntryWithoutSeparator(raw: string, entry: Line)
    requires ParseLine(raw) == entry && entry.Entry? && Find(raw, SEP) == None
    ensures ParseBody(raw, "") == entry
  {
  }

  lemma TakeTwice(a: string, b: string, i: nat)
    requires i <= |b| <= |a| && a[..|b|] == b
    ensures a[..i] == b[..i]
  {
  }

  lemma FoundNotEarlier(f: Finding, note: string, line: string, i: nat)
    requires Words(f) && line == RenderLine(f, note) && ParseLine(line) == Entry(f, note)
    requires Find(line, SEP) == Some(i)
    ensures i >= |Body(f)|
  {
    LineCuts(f, note);
    EntryBeforeSeparator(line, i, Entry(f, note));
    if i < |Body(f)| {
      TakeTwice(line, Body(f), i);
      ShortBodyLosesKey(f, i, line[i + 4..], note);
    }
  }

  lemma WrittenSeparatorOccurs(f: Finding, note: string)
    requires note != ""
    ensures OccursAt(RenderLine(f, note), SEP, |Body(f)|)
  {
  }

  /** The separator that was found is the one that was written. */
  lemma FoundIsWritten(f: Finding, note: string, line: string)
    requires Words(f) && line == RenderLine(f, note) && ParseLine(line) == Entry(f, note)
    ensures Find(line, SEP) == if note != "" then Some(|Body(f)|) else None
  {
    var found := Find(line, SEP);
    if found.Some? {
      FoundNotEarlier(f, note, line, found.value);
    }
    if note != "" {
      WrittenSeparatorOccurs(f, note);
    } else {
      LineCuts(f, note);
    }
  }

  lemma BodySurvives(f: Finding, note: string, line: string)
    requires Words(f) && line == RenderLine(f, note) && ParseLine(line) == Entry(f, note)
    ensures ParseBody(Body(f), note) == Entry(f, note)
  {
    FoundIsWritten(f, note, line);
    LineCuts(f, note);
    if note != "" {
      EntryBeforeSeparator(line, |Body(f)|, Entry(f, note));
    } else {
      EntryWithoutSeparator(line, Entry(f, note));
    }
  }

  lemma NoEarlierSeparator(f: Finding, note: string)
    requires Find(RenderLine(f, note), SEP) == if note != "" then Some(|Body(f)|) else None
    ensures !Has(Body(f) + (if note != "" then "  #" else ""), SEP)
  {
    var line, start := RenderLine(f, note), Body(f) + if note != "" then "  #" else "";
    LineCuts(f, note);
    AppendCuts(Body(f), SEP, note);
    assert start <= line;
    forall j | 0 <= j <= |start| - 4 ensures !OccursAt(start, SEP, j) {
      assert line[j..j + 4] == start[j..j + 4];
      assert !OccursAt(line, SEP, j);
    }
  }

  lemma KeySurvives(f: Finding, note: string)
    requires Words(f) && ParseBody(Body(f), note) == Entry(f, note)
    ensures Key(f) != "" && Trimmed(Key(f))
    ensures f.ordinal > 1 || (f.ordinal == 1 && !EndsInOrdinal(f.qualname))
  {
    Split3Framed(f, Key(f));
    var read := Strip(Lstrip(Key(f)));
    assert f == ParseKey(f.kind, f.file, read);
    ParsedKeyIsNoLonger(f.kind, f.file, read);
    StripTrims(Lstrip(Key(f)));
    StripTrims(Key(f));
    assert |read| == |Key(f)|;
    assert Lstrip(Key(f)) == Key(f);
  }

  /** A finding and its note survive one line exactly when they are safe. */
  lemma LineRoundTrip(f: Finding, note: string)
    ensures ParseLine(RenderLine(f, note)) == Entry(f, note) <==> LineSafe(f, note)
  {
    var line := RenderLine(f, note);
    if LineSafe(f, note) {
      SafeLineReads(f, note);
    }
    if ParseLine(line) == Entry(f, note) {
      EntryHasWords(line, f, note);
      FoundIsWritten(f, note, line);
      NoEarlierSeparator(f, note);
      BodySurvives(f, note, line);
      KeySurvives(f, note);
      NotAComment(f, note);
    }
  }

  lemma NotAComment(f: Finding, note: string)
    requires Words(f) && ParseLine(RenderLine(f, note)).Entry?
    ensures f.kind[0] != '#'
  {
  }
}

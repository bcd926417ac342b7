/**
 The baseline file of the dead-code gate: one line per finding, written by
 `RenderLine` and read back by `ParseLine`.
 */
module BaselineFile {
  import opened Prelude
  import opened Text

  datatype Finding = Finding(kind: string, file: string, qualname: string, ordinal: int)

  const SEP := "  # "
  const KIND_WIDTH := 12

  // ------------------------------------------------------------------------
  // One line
  // ------------------------------------------------------------------------

  /** The qualified name, plus "@n" from the second symbol with that name on. */
  function Key(f: Finding): string {
    f.qualname + if f.ordinal > 1 then "@" + Decimal(f.ordinal) else ""
  }

  /** The kind padded to its column, the file, and what follows. */
  function Framed(f: Finding, t: string): string {
    f.kind + (Pad(f) + (f.file + ("  " + t)))
  }

  /** What sets the file off: up to the kind's column, then one more blank. */
  function Pad(f: Finding): string {
    Blanks(1 + Max(0, KIND_WIDTH - |f.kind|))
  }

  function Blanks(n: nat): (s: string)
    ensures |s| == n && forall i :: 0 <= i < n ==> s[i] == ' '
  {
    if n == 0 then "" else " " + Blanks(n - 1)
  }

  function Body(f: Finding): string {
    Framed(f, Key(f))
  }

  function RenderLine(f: Finding, note: string): string {
    Body(f) + if note != "" then SEP + note else ""
  }

  datatype Line = Skip | Bad | Entry(finding: Finding, note: string)

  /** A key that reads as "name@digits". */
  predicate EndsInOrdinal(key: string) {
    var d := DigitsStart(key, |key|);
    0 < d < |key| && key[d - 1] == '@'
  }

  /** `key` comes from a single line. */
  function ParseKey(kind: string, file: string, key: string): Finding {
    var d := DigitsStart(key, |key|);
    if EndsInOrdinal(key) then Finding(kind, file, key[..d - 1], ToInt(key[d..])) else Finding(kind, file, key, 1)
  }

  function ParseBody(body: string, note: string): Line {
    match Split3(body)
    case None => Bad
    case Some((kind, file, key)) => Entry(ParseKey(kind, file, Strip(key)), Strip(note))
  }

  function ParseLine(raw: string): Line {
    if Lstrip(raw) == "" || Lstrip(raw)[0] == '#' then Skip
    else
      match Find(raw, SEP)
      case None => ParseBody(raw, "")
      case Some(i) => ParseBody(raw[..i], raw[i + 4..])
  }

  // ------------------------------------------------------------------------
  // When a line survives being written and read back
  // ------------------------------------------------------------------------

  /** What the caller can check of a finding and its note before writing them. */
  ghost predicate LineSafe(f: Finding, note: string) {
    && IsWord(f.kind) && f.kind[0] != '#'
    && IsWord(f.file)
    && Key(f) != "" && Trimmed(Key(f))
    && (f.ordinal > 1 || (f.ordinal == 1 && !EndsInOrdinal(f.qualname)))
    && Trimmed(note)
    && !Has(Body(f) + (if note != "" then "  #" else ""), SEP)
  }

  lemma ParseKeyRoundTrip(f: Finding)
    requires f.ordinal > 1
    ensures ParseKey(f.kind, f.file, Key(f)) == f
  {
    var digits, key, d := Decimal(f.ordinal), Key(f), |f.qualname| + 1;
    assert key == f.qualname + ("@" + digits);
    assert key[d..] == digits && key[..d - 1] == f.qualname && key[d - 1] == '@';
    forall i | d <= i < |key| ensures IsDigit(key[i]) {
      assert key[i] == digits[i - d];
    }
    DigitsStartIs(key, |key|, d);
    DecimalRoundTrip(f.ordinal);
  }

  /** Reading a key never gives a finding whose own key is longer; it is shorter unless the key is kept. */
  lemma ParsedKeyIsNoLonger(kind: string, file: string, key: string)
    ensures var f := ParseKey(kind, file, key);
            && |Key(f)| <= |key|
            && (EndsInOrdinal(key) && f.ordinal <= 1 ==> |Key(f)| < |key|)
  {
    if EndsInOrdinal(key) {
      DecimalIsShortest(key[DigitsStart(key, |key|)..]);
    }
  }

  ghost predicate Words(f: Finding) {
    IsWord(f.kind) && IsWord(f.file)
  }

  /** The three parts of a line framed by `f`. */
  lemma Split3Framed(f: Finding, t: string)
    requires Words(f)
    ensures Split3(Framed(f, t)) == if Lstrip(t) == "" then None else Some((f.kind, f.file, Lstrip(t)))
  {
    FramedParts(f, t);
    Split3Line(Framed(f, t), f.kind, Pad(f), f.file, t);
  }

  lemma Split3Line(line: string, kind: string, pad: string, file: string, t: string)
    requires IsWord(kind) && pad != "" && AllSpace(pad) && IsWord(file)
    requires |line| == |kind| + |pad| + |file| + 2 + |t|
    requires line[..|kind|] == kind && line[|kind|..|kind| + |pad|] == pad
    requires line[|kind| + |pad|..|kind| + |pad| + |file|] == file && line[|kind| + |pad| + |file|..] == "  " + t
    ensures Split3(line) == if Lstrip(t) == "" then None else Some((kind, file, Lstrip(t)))
  {
    var d := |kind| + |pad| + |file|;
    assert line[d] == line[d..][0];
    LstripGap(t);
    Split3Is(line, |kind|, |kind| + |pad|, d);
  }

  lemma FramedParts(f: Finding, t: string)
    ensures var line, b := Framed(f, t), |f.kind|;
            var c := b + |Pad(f)|;
            var d := c + |f.file|;
            && |line| == d + 2 + |t| && Pad(f) != "" && AllSpace(Pad(f))
            && line[..b] == f.kind && line[b..c] == Pad(f) && line[c..d] == f.file && line[d..] == "  " + t
  {
  }

  lemma LstripGap(t: string)
    ensures Lstrip("  " + t) == Lstrip(t)
  {
    var gap, n := "  " + t, SkipSpaces(t, 0);
    forall j | 0 <= j < n + 2 ensures IsSpace(gap[j]) {
      assert j >= 2 ==> gap[j] == t[j - 2];
    }
    SkipSpacesIs(gap, 0, n + 2);
    assert gap[n + 2..] == t[n..];
  }

  lemma BodyReads(f: Finding, note: string)
    requires Words(f) && Key(f) != "" && Trimmed(Key(f)) && Trimmed(note)
    requires f.ordinal > 1 || (f.ordinal == 1 && !EndsInOrdinal(f.qualname))
    ensures ParseBody(Body(f), note) == Entry(f, note)
  {
    Split3Framed(f, Key(f));
    StripTrimmed(Key(f));
    StripTrimmed(note);
    if f.ordinal > 1 {
      ParseKeyRoundTrip(f);
    } else {
      assert Key(f) == f.qualname;
    }
  }

  lemma SafeLineReads(f: Finding, note: string)
    requires LineSafe(f, note)
    ensures ParseLine(RenderLine(f, note)) == Entry(f, note)
  {
    LineHasItsParts(f, note);
    ParseLineParts(RenderLine(f, note), Body(f), note);
    BodyReads(f, note);
  }

  /** `raw` is no comment, and its first separator, if it has one, sets `note` off from `body`. */
  ghost predicate Parts(raw: string, body: string, note: string) {
    && raw != "" && !IsSpace(raw[0]) && raw[0] != '#'
    && if note == "" then raw == body && Find(raw, SEP) == None
       else Find(raw, SEP) == Some(|body|) && |body| + 4 <= |raw| && raw[..|body|] == body && raw[|body| + 4..] == note
  }

  lemma ParseLineParts(raw: string, body: string, note: string)
    requires Parts(raw, body, note)
    ensures ParseLine(raw) == ParseBody(body, note)
  {
    assert SkipSpaces(raw, 0) == 0;
    assert Lstrip(raw) == raw;
    if note != "" {
      assert Find(raw, SEP).value == |body|;
    }
  }

  lemma LineHasItsParts(f: Finding, note: string)
    requires LineSafe(f, note)
    ensures Parts(RenderLine(f, note), Body(f), note)
  {
    FindsSeparator(f, note);
    BodyStarts(f);
    LineCuts(f, note);
  }

  lemma BodyStarts(f: Finding)
    requires f.kind != ""
    ensures Body(f) != "" && Body(f)[0] == f.kind[0]
  {
  }

  lemma LineCuts(f: Finding, note: string)
    ensures |Body(f)| <= |RenderLine(f, note)| && RenderLine(f, note)[..|Body(f)|] == Body(f)
    ensures note == "" ==> RenderLine(f, note) == Body(f)
    ensures note != "" ==> |RenderLine(f, note)| == |Body(f)| + 4 + |note| && RenderLine(f, note)[|Body(f)| + 4..] == note
  {
  }

  lemma AppendCuts(a: string, b: string, c: string)
    ensures (a + (b + c))[..|a|] == a && (a + (b + c))[|a| + |b|..] == c && (a + (b + c))[|a|..|a| + |b|] == b
  {
  }

  /** With no earlier separator, the one that was written is found. */
  lemma FindsSeparator(f: Finding, note: string)
    requires !Has(Body(f) + (if note != "" then "  #" else ""), SEP)
    ensures Find(RenderLine(f, note), SEP) == if note != "" then Some(|Body(f)|) else None
  {
    var line, body := RenderLine(f, note), Body(f);
    var start := body + if note != "" then "  #" else "";
    forall j | 0 <= j <= |start| - 4 ensures !OccursAt(line, SEP, j) {
      assert !OccursAt(start, SEP, j);
      assert line[j..j + 4] == start[j..j + 4];
    }
    if note != "" {
      assert line[|body|..|body| + 4] == SEP;
      assert OccursAt(line, SEP, |body|);
    }
  }
}

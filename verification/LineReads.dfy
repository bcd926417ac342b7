/** How any line of a baseline file reads, written by hand or not. */
module LineReads {
  import opened Prelude
  import opened Text
  import opened BaselineFile

  // ------------------------------------------------------------------------
  // Blanks and words
  // ------------------------------------------------------------------------

  ghost predicate BlankIn(s: string, i: nat, j: nat) {
    i <= j <= |s| && forall k :: i <= k < j ==> IsSpace(s[k])
  }

  ghost predicate WordIn(s: string, i: nat, j: nat) {
    i < j <= |s| && forall k :: i <= k < j ==> !IsSpace(s[k])
  }

  /** Cut at these places, s is perhaps blanks, a word, blanks, a word, blanks, and something that follows. */
  ghost predicate Cut(s: string, p: nat, q: nat, r: nat, n: nat, u: nat) {
    && BlankIn(s, 0, p) && WordIn(s, p, q)
    && q < r && BlankIn(s, q, r) && WordIn(s, r, n)
    && n < u < |s| && BlankIn(s, n, u) && !IsSpace(s[u])
  }

  /** Splitting gives the two words and what follows. */
  lemma SplitsInThree(s: string, p: nat, q: nat, r: nat, n: nat, u: nat)
    requires Cut(s, p, q, r, n, u)
    ensures Split3(s) == Some((s[p..q], s[r..n], s[u..]))
  {
    SkipSpacesIs(s, 0, p);
    WordEndIs(s, p, q);
    SkipSpacesIs(s, q, r);
    WordEndIs(s, r, n);
    SkipSpacesIs(s, n, u);
  }

  /** What does not split cannot be cut so. */
  lemma SplitsIff(s: string)
    ensures Split3(s).Some? <==> exists p, q, r, n, u :: Cut(s, p, q, r, n, u)
  {
    if Split3(s).Some? {
      var p := SkipSpaces(s, 0);
      var q := WordEnd(s, p);
      var r := SkipSpaces(s, q);
      var n := WordEnd(s, r);
      assert Cut(s, p, q, r, n, SkipSpaces(s, n));
    }
    if p, q, r, n, u :| Cut(s, p, q, r, n, u) {
      SplitsInThree(s, p, q, r, n, u);
    }
  }

  // ------------------------------------------------------------------------
  // Lines
  // ------------------------------------------------------------------------

  /** The first character at `k` that is not blank is a '#'. */
  ghost predicate CommentAt(raw: string, k: int) {
    0 <= k < |raw| && AllSpace(raw[..k]) && raw[k] == '#'
  }

  /** Blank lines and comments are skipped, and no others. */
  lemma SkippedIff(raw: string)
    ensures ParseLine(raw) == Skip <==> AllSpace(raw) || exists k :: CommentAt(raw, k)
  {
    var n := SkipSpaces(raw, 0);
    if n < |raw| {
      assert Lstrip(raw)[0] == raw[n];
      assert CommentAt(raw, n) <==> raw[n] == '#';
      forall k | CommentAt(raw, k) ensures k == n {
        assert forall j :: 0 <= j < k ==> raw[j] == raw[..k][j];
        HashIsNoSpace();
      }
    }
    if exists k :: CommentAt(raw, k) {
      HashIsNoSpace();
    }
  }

  lemma HashIsNoSpace()
    ensures !IsSpace('#')
  {
  }

  /** `body` is what stands before the first separator, and `note` what follows it, "" without one. */
  ghost predicate Divided(raw: string, body: string, note: string) {
    || (raw == body && note == "" && forall j :: !OccursAt(raw, "  # ", j))
    || (raw == body + "  # " + note && forall j :: j < |body| ==> !OccursAt(raw, "  # ", j))
  }

  lemma DividedIsFound(raw: string, body: string, note: string)
    requires Divided(raw, body, note)
    ensures match Find(raw, SEP)
            case None => raw == body && note == ""
            case Some(i) => i + 4 <= |raw| && raw[..i] == body && raw[i + 4..] == note
  {
    if raw == body + "  # " + note {
      assert raw[|body|..|body| + 4] == SEP;
      assert OccursAt(raw, SEP, |body|);
    }
  }

  /** A line that is not skipped reads by its parts, the note trimmed. */
  lemma LineReadsAs(raw: string, body: string, note: string)
    requires Divided(raw, body, note) && ParseLine(raw) != Skip
    ensures match Split3(body)
            case None => ParseLine(raw) == Bad
            case Some((kind, file, key)) => ParseLine(raw) == Entry(ParseKey(kind, file, Strip(key)), Strip(note))
  {
    DividedIsFound(raw, body, note);
    HashIsNoSpace();
  }

  /** What strips to `key`. */
  lemma StripsTo(a: string, key: string, b: string)
    requires AllSpace(a) && AllSpace(b) && Trimmed(key) && key != ""
    ensures Strip(a + (key + b)) == key
  {
    var s := a + (key + b);
    assert (key + b)[0] == key[0];
    assert s[|a|] == key[0];
    SkipSpacesIs(s, 0, |a|);
    assert Lstrip(s) == key + b;
    DropsTo(key, b);
    assert (key + b)[..|key|] == key;
  }

  lemma {:induction false} DropsTo(key: string, b: string)
    requires AllSpace(b) && Trimmed(key) && key != ""
    ensures DropSpaces(key + b, |key + b|) == |key|
  {
    var s, e := key + b, DropSpaces(key + b, |key + b|);
    assert s[|key| - 1] == key[|key| - 1];
    forall j | |key| <= j < |s| ensures IsSpace(s[j]) {
      assert s[j] == b[j - |key|];
    }
  }

  // ------------------------------------------------------------------------
  // Keys
  // ------------------------------------------------------------------------

  ghost predicate Digits(s: string) {
    s != "" && forall i :: 0 <= i < |s| ==> '0' <= s[i] <= '9'
  }

  /** A key of a name, '@' and digits is that name with their number; any other is a name with the number 1. */
  lemma KeyReads(kind: string, file: string, key: string)
    ensures forall name, digits :: key == name + "@" + digits && Digits(digits) ==> ParseKey(kind, file, key) == Finding(kind, file, name, ToInt(digits))
    ensures (forall name, digits :: Digits(digits) ==> key != name + "@" + digits) ==> ParseKey(kind, file, key) == Finding(kind, file, key, 1)
  {
    forall name, digits | key == name + "@" + digits && Digits(digits)
      ensures ParseKey(kind, file, key) == Finding(kind, file, name, ToInt(digits))
    {
      NumberedKey(kind, file, key, name, digits);
    }
    if EndsInOrdinal(key) {
      var d := DigitsStart(key, |key|);
      assert Digits(key[d..]) && key == key[..d - 1] + "@" + key[d..];
    }
  }

  lemma NumberedKey(kind: string, file: string, key: string, name: string, digits: string)
    requires key == name + "@" + digits && Digits(digits)
    ensures ParseKey(kind, file, key) == Finding(kind, file, name, ToInt(digits))
  {
    var d := |name| + 1;
    assert key[d - 1] == '@' && key[d..] == digits && key[..d - 1] == name;
    forall i | d <= i < |key| ensures IsDigit(key[i]) {
      assert key[i] == digits[i - d];
    }
    DigitsStartIs(key, |key|, d);
  }

  // ------------------------------------------------------------------------
  // Whole lines
  // ------------------------------------------------------------------------

  /** Any line of two words and more, the first not starting with '#', reads as that entry, however it is spaced. */
  lemma EntryReads(raw: string, body: string, note: string, p: nat, q: nat, r: nat, n: nat, u: nat)
    requires Divided(raw, body, note) && Cut(body, p, q, r, n, u) && body[p] != '#'
    ensures ParseLine(raw) == Entry(ParseKey(body[p..q], body[r..n], Strip(body[u..])), Strip(note))
  {
    NotSkipped(raw, body, note, p);
    LineReadsAs(raw, body, note);
    SplitsInThree(body, p, q, r, n, u);
  }

  lemma NotSkipped(raw: string, body: string, note: string, p: nat)
    requires Divided(raw, body, note) && BlankIn(body, 0, p) && p < |body| && !IsSpace(body[p]) && body[p] != '#'
    ensures ParseLine(raw) != Skip
  {
    assert forall j :: 0 <= j <= p ==> raw[j] == body[j];
    SkipSpacesIs(raw, 0, p);
    assert Lstrip(raw)[0] == raw[p];
  }

  /** A line is unreadable exactly when it is not skipped and what stands before its separator cannot be cut into two words and more. */
  lemma BadIff(raw: string, body: string, note: string)
    requires Divided(raw, body, note)
    ensures ParseLine(raw) == Bad <==> ParseLine(raw) != Skip && !exists p, q, r, n, u :: Cut(body, p, q, r, n, u)
  {
    SplitsIff(body);
    if ParseLine(raw) != Skip {
      LineReadsAs(raw, body, note);
    }
  }
}

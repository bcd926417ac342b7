/** The string operations of Python that the baseline file relies on. */
module Text {
  import opened Prelude

  /** Where `str.splitlines` breaks. */
  predicate IsLineBreak(c: char) {
    var n := c as int;
    10 <= n <= 13 || 0x1C <= n <= 0x1E || n == 0x85 || 0x2028 <= n <= 0x2029
  }

  /** What `str.split` and `str.strip` take for white space; every line break is. */
  predicate IsSpace(c: char) {
    var n := c as int;
    IsLineBreak(c) || n == 9 || 0x1F <= n <= 0x20 || n == 0xA0 || n == 0x1680 || 0x2000 <= n <= 0x200A
    || n == 0x202F || n == 0x205F || n == 0x3000
  }

  predicate IsDigit(c: char) {
    '0' <= c <= '9'
  }

  ghost predicate AllSpace(s: string) {
    forall i :: 0 <= i < |s| ==> IsSpace(s[i])
  }

  /** A non-empty run without white space. */
  ghost predicate IsWord(s: string) {
    s != "" && forall i :: 0 <= i < |s| ==> !IsSpace(s[i])
  }

  ghost predicate OneLine(s: string) {
    forall i :: 0 <= i < |s| ==> !IsLineBreak(s[i])
  }

  // ------------------------------------------------------------------------
  // Stripping
  // ------------------------------------------------------------------------

  /** The first position from `i` on that holds no white space. */
  function SkipSpaces(s: string, i: nat): (n: nat)
    requires i <= |s|
    ensures i <= n <= |s| && forall j :: i <= j < n ==> IsSpace(s[j])
    ensures n < |s| ==> !IsSpace(s[n])
    decreases |s| - i
  {
    if i == |s| || !IsSpace(s[i]) then i else SkipSpaces(s, i + 1)
  }

  /** The first position from `i` on that holds white space. */
  function WordEnd(s: string, i: nat): (n: nat)
    requires i <= |s|
    ensures i <= n <= |s| && forall j :: i <= j < n ==> !IsSpace(s[j])
    ensures n < |s| ==> IsSpace(s[n])
    decreases |s| - i
  {
    if i == |s| || IsSpace(s[i]) then i else WordEnd(s, i + 1)
  }

  /** The end of `s[..n]` without its trailing white space. */
  function DropSpaces(s: string, n: nat): (e: nat)
    requires n <= |s|
    ensures e <= n && forall j :: e <= j < n ==> IsSpace(s[j])
    ensures e > 0 ==> !IsSpace(s[e - 1])
  {
    if n == 0 || !IsSpace(s[n - 1]) then n else DropSpaces(s, n - 1)
  }

  function Lstrip(s: string): string {
    s[SkipSpaces(s, 0)..]
  }

  function Strip(s: string): string {
    var t := Lstrip(s);
    t[..DropSpaces(t, |t|)]
  }

  predicate Trimmed(s: string) {
    s != "" ==> !IsSpace(s[0]) && !IsSpace(s[|s| - 1])
  }

  lemma SkipSpacesIs(s: string, i: nat, n: nat)
    requires i <= n <= |s| && (forall j :: i <= j < n ==> IsSpace(s[j])) && (n < |s| ==> !IsSpace(s[n]))
    ensures SkipSpaces(s, i) == n
    decreases n - i
  {
  }

  lemma WordEndIs(s: string, i: nat, n: nat)
    requires i <= n <= |s| && (forall j :: i <= j < n ==> !IsSpace(s[j])) && (n < |s| ==> IsSpace(s[n]))
    ensures WordEnd(s, i) == n
    decreases n - i
  {
  }

  lemma StripTrims(s: string)
    ensures Trimmed(Strip(s)) && |Strip(s)| <= |Lstrip(s)| <= |s|
    ensures |Strip(s)| == |s| ==> Strip(s) == s
  {
  }

  lemma StripTrimmed(s: string)
    requires Trimmed(s)
    ensures Lstrip(s) == s == Strip(s)
  {
    assert SkipSpaces(s, 0) == 0;
    assert DropSpaces(s, |s|) == |s|;
  }

  // ------------------------------------------------------------------------
  // Words
  // ------------------------------------------------------------------------

  /** `s.split(None, 2)` when that gives three parts: two words and all that follows. */
  function Split3(s: string): Option<(string, string, string)> {
    var a := SkipSpaces(s, 0);
    var b := WordEnd(s, a);
    var c := SkipSpaces(s, b);
    var d := WordEnd(s, c);
    var e := SkipSpaces(s, d);
    if e == |s| then None else Some((s[a..b], s[c..d], s[e..]))
  }

  /** Two words, each set off by white space, and a remainder. */
  lemma Split3Is(s: string, b: nat, c: nat, d: nat)
    requires 0 < b < c < d < |s|
    requires IsWord(s[..b]) && AllSpace(s[b..c]) && IsWord(s[c..d]) && IsSpace(s[d])
    ensures Split3(s) == if Lstrip(s[d..]) == "" then None else Some((s[..b], s[c..d], Lstrip(s[d..])))
  {
    assert s[..b][0] == s[0];
    assert SkipSpaces(s, 0) == 0;
    assert s[b..c][0] == s[b];
    forall j | 0 <= j < b ensures !IsSpace(s[j]) { assert s[..b][j] == s[j]; }
    WordEndIs(s, 0, b);
    forall j | b <= j < c ensures IsSpace(s[j]) { assert s[b..c][j - b] == s[j]; }
    forall j | c <= j < d ensures !IsSpace(s[j]) { assert s[c..d][j - c] == s[j]; }
    SkipSpacesIs(s, b, c);
    WordEndIs(s, c, d);
    var t := s[d..];
    var e := SkipSpaces(t, 0);
    forall j | d <= j < d + e ensures IsSpace(s[j]) { assert t[j - d] == s[j]; }
    SkipSpacesIs(s, d, d + e);
    assert t[e..] == s[d + e..];
  }

  // ------------------------------------------------------------------------
  // Searching
  // ------------------------------------------------------------------------

  predicate OccursAt(s: string, sep: string, i: int) {
    0 <= i <= |s| - |sep| && s[i..i + |sep|] == sep
  }

  predicate Has(s: string, sep: string) {
    exists i :: 0 <= i <= |s| - |sep| && OccursAt(s, sep, i)
  }

  /** The first occurrence at or after `from`. */
  function Find(s: string, sep: string, from: nat := 0): (r: Option<nat>)
    requires from <= |s|
    ensures r.Some? ==> from <= r.value && OccursAt(s, sep, r.value)
                        && forall j :: from <= j < r.value ==> !OccursAt(s, sep, j)
    ensures r.None? ==> forall j :: from <= j ==> !OccursAt(s, sep, j)
    decreases |s| - from
  {
    if OccursAt(s, sep, from) then Some(from)
    else if from == |s| then None
    else Find(s, sep, from + 1)
  }

  // ------------------------------------------------------------------------
  // Lines
  // ------------------------------------------------------------------------

  /** Where the line that starts at `i` ends, terminator excluded. */
  function LineEnd(s: string, i: nat): (n: nat)
    requires i <= |s|
    ensures i <= n <= |s| && forall j :: i <= j < n ==> !IsLineBreak(s[j])
    ensures n < |s| ==> IsLineBreak(s[n])
    decreases |s| - i
  {
    if i == |s| || IsLineBreak(s[i]) then i else LineEnd(s, i + 1)
  }

  /** Where the next line starts; "\r\n" is one break. */
  function NextLine(s: string, i: nat): (m: nat)
    requires i <= |s|
    ensures i <= m <= |s| && (i < |s| ==> i < m)
  {
    var n := LineEnd(s, i);
    if n == |s| then n else if s[n] == '\r' && n + 1 < |s| && s[n + 1] == '\n' then n + 2 else n + 1
  }

  /** `s.splitlines()`, from position `i` on. */
  function SplitLines(s: string, i: nat := 0): seq<string>
    requires i <= |s|
    decreases |s| - i
  {
    if i == |s| then [] else [s[i..LineEnd(s, i)]] + SplitLines(s, NextLine(s, i))
  }

  lemma {:induction false} SplitGivesLines(s: string, i: nat)
    requires i <= |s|
    ensures forall l :: l in SplitLines(s, i) ==> OneLine(l)
    decreases |s| - i
  {
    if i == |s| {
    } else {
      SplitGivesLines(s, NextLine(s, i));
    }
  }

  lemma LineEndIs(s: string, i: nat, n: nat)
    requires i <= n <= |s| && (forall j :: i <= j < n ==> !IsLineBreak(s[j])) && (n < |s| ==> IsLineBreak(s[n]))
    ensures LineEnd(s, i) == n
    decreases n - i
  {
  }

  lemma NextLineSuffix(s: string, k: nat, i: nat)
    requires k <= i <= |s|
    ensures LineEnd(s[k..], i - k) == LineEnd(s, i) - k
    ensures NextLine(s[k..], i - k) == NextLine(s, i) - k
    ensures s[k..][i - k..LineEnd(s, i) - k] == s[i..LineEnd(s, i)]
  {
  }

  lemma SplitAtEnd(s: string)
    ensures SplitLines(s, |s|) == []
  {
  }

  /** The lines of a suffix. */
  lemma {:induction false} SplitSuffix(s: string, t: string, k: nat, i: nat)
    requires k <= i <= |s| && t == s[k..]
    ensures SplitLines(s, i) == SplitLines(t, i - k)
    decreases |s| - i
  {
    if i == |s| {
      SplitAtEnd(s);
      SplitAtEnd(t);
    } else {
      NextLineSuffix(s, k, i);
      SplitSuffix(s, t, k, NextLine(s, i));
      SplitUnfold(s, i);
      SplitUnfold(t, i - k);
    }
  }

  lemma SplitUnfold(s: string, i: nat)
    requires i < |s|
    ensures SplitLines(s, i) == [s[i..LineEnd(s, i)]] + SplitLines(s, NextLine(s, i))
  {
  }

  lemma NextLinePrefix(s: string, k: nat, i: nat)
    requires i < k <= |s| && s[k - 1] == '\n'
    ensures LineEnd(s[..k], i) == LineEnd(s, i) < k
    ensures NextLine(s[..k], i) == NextLine(s, i) <= k
    ensures s[..k][i..LineEnd(s, i)] == s[i..LineEnd(s, i)]
  {
    LineEndIs(s[..k], i, LineEnd(s, i));
  }

  /** A newline is a clean cut, whatever follows it. */
  lemma {:induction false} SplitPrefix(s: string, k: nat, i: nat)
    requires i <= k <= |s| && (i < k ==> s[k - 1] == '\n')
    ensures SplitLines(s, i) == SplitLines(s[..k], i) + SplitLines(s, k)
    decreases k - i
  {
    if i == k {
    } else {
      NextLinePrefix(s, k, i);
      SplitPrefix(s, k, NextLine(s, i));
      var line, m := [s[i..LineEnd(s, i)]], NextLine(s, i);
      Associative(line, SplitLines(s[..k], m), SplitLines(s, k));
    }
  }

  lemma Associative(a: seq<string>, b: seq<string>, c: seq<string>)
    ensures a + b + c == a + (b + c)
  {
  }

  lemma SplitAppend(a: string, b: string)
    requires a == "" || a[|a| - 1] == '\n'
    ensures SplitLines(a + b) == SplitLines(a) + SplitLines(b)
  {
    var s := a + b;
    assert s[..|a|] == a && s[|a|..] == b;
    SplitPrefix(s, |a|, 0);
    SplitSuffix(s, b, |a|, |a|);
  }

  lemma SplitOneLine(line: string)
    requires OneLine(line)
    ensures SplitLines(line + "\n") == [line]
  {
    LineEndIs(line + "\n", 0, |line|);
    assert (line + "\n")[0..|line|] == line;
  }

  // ------------------------------------------------------------------------
  // Decimal numbers
  // ------------------------------------------------------------------------

  function Decimal(n: nat): (s: string)
    ensures s != "" && forall i :: 0 <= i < |s| ==> IsDigit(s[i])
  {
    var last := ['0' + (n % 10) as char];
    if n < 10 then last else Decimal(n / 10) + last
  }

  function DigitValue(c: char): nat
    requires IsDigit(c)
  {
    c as int - '0' as int
  }

  function ToInt(s: string): nat
    requires forall i :: 0 <= i < |s| ==> IsDigit(s[i])
  {
    if s == "" then 0 else 10 * ToInt(s[..|s| - 1]) + DigitValue(s[|s| - 1])
  }

  lemma {:induction false} DecimalRoundTrip(n: nat)
    ensures ToInt(Decimal(n)) == n
  {
    if n < 10 {
    } else {
      DecimalRoundTrip(n / 10);
      assert Decimal(n)[..|Decimal(n)| - 1] == Decimal(n / 10);
    }
  }

  /** No numeral is shorter than the decimal one. */
  lemma {:induction false} DecimalIsShortest(s: string)
    requires s != "" && forall i :: 0 <= i < |s| ==> IsDigit(s[i])
    ensures |Decimal(ToInt(s))| <= |s|
  {
    var n := ToInt(s);
    if n < 10 {
    } else {
      var rest := s[..|s| - 1];
      assert n / 10 == ToInt(rest);
      DecimalIsShortest(rest);
    }
  }

  /** Where the run of digits at the end of `s[..n]` starts. */
  function DigitsStart(s: string, n: nat): (d: nat)
    requires n <= |s|
    ensures d <= n && forall i :: d <= i < n ==> IsDigit(s[i])
    ensures d > 0 ==> !IsDigit(s[d - 1])
  {
    if n == 0 || !IsDigit(s[n - 1]) then n else DigitsStart(s, n - 1)
  }

  lemma DigitsStartIs(s: string, n: nat, d: nat)
    requires d <= n <= |s| && (forall i :: d <= i < n ==> IsDigit(s[i])) && (d > 0 ==> !IsDigit(s[d - 1]))
    ensures DigitsStart(s, n) == d
    decreases n - d
  {
  }

  // ------------------------------------------------------------------------
  // Order
  // ------------------------------------------------------------------------

  /** Strings compare by their first different character. */
  predicate StrLess(a: string, b: string, i: nat := 0)
    requires i <= |a| && i <= |b|
    decreases |a| - i
  {
    i < |b| && (i == |a| || a[i] < b[i] || (a[i] == b[i] && StrLess(a, b, i + 1)))
  }

  lemma {:induction false} StrLessIsTransitive(a: string, b: string, c: string, i: nat)
    requires i <= |a| && i <= |b| && i <= |c| && StrLess(a, b, i) && StrLess(b, c, i)
    ensures StrLess(a, c, i)
    decreases |a| - i
  {
    if i < |a| && a[i] == b[i] == c[i] {
      StrLessIsTransitive(a, b, c, i + 1);
    }
  }

  lemma {:induction false} StrLessIsIrreflexive(a: string, i: nat)
    requires i <= |a|
    ensures !StrLess(a, a, i)
    decreases |a| - i
  {
    if i == |a| {
    } else {
      StrLessIsIrreflexive(a, i + 1);
    }
  }

  lemma {:induction false} StrLessIsTotal(a: string, b: string, i: nat)
    requires i <= |a| && i <= |b| && a[..i] == b[..i]
    ensures a == b || StrLess(a, b, i) || StrLess(b, a, i)
    decreases |a| - i
  {
    if i < |a| && i < |b| && a[i] == b[i] {
      assert a[..i + 1] == a[..i] + [a[i]] && b[..i + 1] == b[..i] + [b[i]];
      StrLessIsTotal(a, b, i + 1);
    } else if i == |a| == |b| {
      assert a == a[..i] && b == b[..i];
    }
  }

  lemma StrLessIsStrictOrder(a: string, b: string, c: string)
    ensures a != b ==> StrLess(a, b) || StrLess(b, a)
    ensures !(StrLess(a, b) && StrLess(b, a))
    ensures StrLess(a, b) && StrLess(b, c) ==> StrLess(a, c)
  {
    StrLessIsTotal(a, b, 0);
    StrLessIsIrreflexive(a, 0);
    if StrLess(a, b) && StrLess(b, a) {
      StrLessIsTransitive(a, b, a, 0);
    }
    if StrLess(a, b) && StrLess(b, c) {
      StrLessIsTransitive(a, b, c, 0);
    }
  }

  ghost predicate Ascending(order: seq<string>) {
    forall i, j :: 0 <= i < j < |order| ==> StrLess(order[i], order[j])
  }

  function InsertString(order: seq<string>, s: string): seq<string> {
    if order == [] || StrLess(s, order[0]) then [s] + order else [order[0]] + InsertString(order[1..], s)
  }

  lemma {:induction false} InsertStringHas(order: seq<string>, s: string, t: string)
    ensures t in InsertString(order, s) <==> t in order || t == s
  {
    if order == [] || StrLess(s, order[0]) {
    } else {
      InsertStringHas(order[1..], s, t);
    }
  }

  lemma {:induction false} InsertStringSorts(order: seq<string>, s: string)
    requires Ascending(order) && s !in order
    ensures Ascending(InsertString(order, s))
  {
    if order == [] {
    } else if StrLess(s, order[0]) {
      forall t | t in order ensures StrLess(s, t) {
        StrLessIsStrictOrder(s, order[0], t);
      }
    } else {
      InsertStringSorts(order[1..], s);
      var rest := InsertString(order[1..], s);
      forall t | t in rest ensures StrLess(order[0], t) {
        InsertStringHas(order[1..], s, t);
        StrLessIsStrictOrder(s, order[0], t);
      }
    }
  }

  /** Python's `sorted` on a set of strings. */
  method SortStrings(strings: set<string>) returns (order: seq<string>)
    ensures Ascending(order) && forall s :: s in order <==> s in strings
  {
    order := [];
    var todo := strings;
    while todo != {}
      invariant todo <= strings && Ascending(order)
      invariant forall s :: s in order <==> s in strings - todo
      decreases todo
    {
      var s := Choose(todo);
      InsertStringSorts(order, s);
      forall t ensures t in InsertString(order, s) <==> t in order || t == s {
        InsertStringHas(order, s, t);
      }
      order := InsertString(order, s);
      todo := todo - {s};
    }
  }
}

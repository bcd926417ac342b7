/**
 The comparison of a replay baseline with a fresh replay: which differences are
 reported, and when none is.
 */
module PlanDiff {
  import opened Prelude
  import opened Text

  /** A JSON value. `Num` also stands for true and false, which compare equal to 1 and 0. */
  datatype Json =
    | Null
    | Num(value: real)
    | Str(text: string)
    | List(items: seq<Json>)
    | Object(fields: map<string, Json>)

  /** A path of object keys; a report names it with dots. */
  type Path = seq<string>

  datatype Line =
    | Changed(path: Path, was: Json, now: Json)
    | Removed(path: Path, was: Json)
    | Added(path: Path, now: Json)

  // ------------------------------------------------------------------------
  // Two values
  // ------------------------------------------------------------------------

  predicate BothObjects(before: Json, after: Json) {
    before.Object? && after.Object?
  }

  /** Where the same keys lead in both values, as far as both have them. */
  ghost function Walk(v: Json, q: Path): Option<Json>
    decreases q
  {
    if q == [] then Some(v)
    else if v.Object? && q[0] in v.fields then Walk(v.fields[q[0]], q[1..])
    else None
  }

  /**
   What a reader expects of the report, position by position: the keys `q` lead into both
   values; there they differ and are not both objects, or one lacks the next key.
   */
  ghost predicate Differs(before: Json, after: Json, path: Path, q: Path, line: Line) {
    var a, b := Walk(before, q), Walk(after, q);
    && a.Some? && b.Some?
    && match line
       case Changed(at, was, now) =>
         at == path + q && a.value == was && b.value == now && was != now && !(was.Object? && now.Object?)
       case Removed(at, was) =>
         && a.value.Object? && b.value.Object?
         && exists k :: k in a.value.fields && k !in b.value.fields && at == path + q + [k] && was == a.value.fields[k]
       case Added(at, now) =>
         && a.value.Object? && b.value.Object?
         && exists k :: k !in a.value.fields && k in b.value.fields && at == path + q + [k] && now == b.value.fields[k]
  }

  /** What the recursion reports below `path`. */
  ghost predicate Reported(before: Json, after: Json, path: Path, line: Line)
    decreases before
  {
    before != after &&
    if BothObjects(before, after) then
      exists k :: k in before.fields.Keys + after.fields.Keys && ReportedAt(before, after, path, k, line)
    else
      line == Changed(path, before, after)
  }

  ghost predicate ReportedAt(before: Json, after: Json, path: Path, k: string, line: Line)
    requires BothObjects(before, after) && k in before.fields.Keys + after.fields.Keys
    decreases before, 0
  {
    if k !in after.fields then line == Removed(path + [k], before.fields[k])
    else if k !in before.fields then line == Added(path + [k], after.fields[k])
    else Reported(before.fields[k], after.fields[k], path + [k], line)
  }

  // The order of the report: by the keys, level by level.

  ghost predicate SplitsAt(p: Path, q: Path, n: int) {
    0 <= n < |p| && n < |q| && p[..n] == q[..n] && StrLess(p[n], q[n])
  }

  /** Where the paths part, `p` takes the smaller key. */
  ghost predicate PathBefore(p: Path, q: Path) {
    exists n :: SplitsAt(p, q, n)
  }

  ghost predicate InPathOrder(lines: seq<Line>) {
    forall i, j :: 0 <= i < j < |lines| ==> PathBefore(lines[i].path, lines[j].path)
  }

  lemma SamePrefix(p: Path, q: Path, n: int, m: int)
    requires 0 <= n < m <= |p| && m <= |q| && p[..m] == q[..m]
    ensures p[n] == q[n]
  {
    assert p[n] == p[..m][n] && q[n] == q[..m][n];
  }

  lemma SplitsOneWay(p: Path, q: Path, n: int, m: int)
    ensures !(SplitsAt(p, q, n) && SplitsAt(q, p, m))
  {
    if 0 <= n < |p| && n < |q| && 0 <= m < |p| && m < |q| {
      StrLessIsStrictOrder(p[n], q[n], p[n]);
      StrLessIsStrictOrder(p[m], q[m], p[m]);
      if n < m && p[..m] == q[..m] {
        SamePrefix(p, q, n, m);
      } else if m < n && p[..n] == q[..n] {
        SamePrefix(p, q, m, n);
      }
    }
  }

  lemma PathBeforeIsAsymmetric(p: Path, q: Path)
    ensures !(PathBefore(p, q) && PathBefore(q, p))
  {
    forall n, m ensures !(SplitsAt(p, q, n) && SplitsAt(q, p, m)) {
      SplitsOneWay(p, q, n, m);
    }
  }

  lemma {:induction false} ReportedBelow(before: Json, after: Json, path: Path, line: Line)
    requires Reported(before, after, path, line)
    ensures path <= line.path
    decreases before, 1
  {
    if BothObjects(before, after) {
      var k :| k in before.fields.Keys + after.fields.Keys && ReportedAt(before, after, path, k, line);
      ReportedBelowKey(before, after, path, k, line);
    }
  }

  lemma {:induction false} ReportedBelowKey(before: Json, after: Json, path: Path, k: string, line: Line)
    requires BothObjects(before, after) && k in before.fields.Keys + after.fields.Keys && ReportedAt(before, after, path, k, line)
    ensures path + [k] <= line.path
    decreases before, 0
  {
    if k in before.fields && k in after.fields {
      ReportedBelow(before.fields[k], after.fields[k], path + [k], line);
    }
  }

  /** The lines under one of the first `n` keys. */
  ghost predicate UnderKeys(before: Json, after: Json, path: Path, keys: seq<string>, n: nat, line: Line)
    requires BothObjects(before, after) && n <= |keys| && forall k :: k in keys ==> k in before.fields.Keys + after.fields.Keys
  {
    exists j :: 0 <= j < n && ReportedAt(before, after, path, keys[j], line)
  }

  /** Lines under a later key come after those under earlier ones. */
  lemma KeysInOrder(before: Json, after: Json, path: Path, keys: seq<string>, i: nat, lines: seq<Line>, more: seq<Line>)
    requires BothObjects(before, after) && i < |keys| && forall k :: k in keys ==> k in before.fields.Keys + after.fields.Keys
    requires Ascending(keys) && InPathOrder(lines) && InPathOrder(more)
    requires forall l :: l in lines ==> UnderKeys(before, after, path, keys, i, l)
    requires forall l :: l in more ==> ReportedAt(before, after, path, keys[i], l)
    ensures InPathOrder(lines + more)
  {
    forall l, m | l in lines && m in more ensures PathBefore(l.path, m.path) {
      var j :| 0 <= j < i && ReportedAt(before, after, path, keys[j], l);
      ReportedBelowKey(before, after, path, keys[j], l);
      ReportedBelowKey(before, after, path, keys[i], m);
      PartsAtKey(path, keys[j], keys[i], l.path, m.path);
    }
  }

  lemma PartsAtKey(path: Path, j: string, k: string, p: Path, q: Path)
    requires path + [j] <= p && path + [k] <= q && StrLess(j, k)
    ensures PathBefore(p, q)
  {
    assert (path + [j])[|path|] == j && (path + [k])[|path|] == k;
    assert p[..|path|] == (path + [j])[..|path|] == path && q[..|path|] == (path + [k])[..|path|] == path;
    assert SplitsAt(p, q, |path|);
  }

  method DiffValue(path: Path, before: Json, after: Json, out: seq<Line>) returns (r: seq<Line>)
    ensures out <= r && InPathOrder(r[|out|..])
    ensures forall line :: line in r[|out|..] <==> Reported(before, after, path, line)
    decreases before
  {
    r := out;
    if before == after {
      return;
    }
    if !BothObjects(before, after) {
      r := r + [Changed(path, before, after)];
      return;
    }
    var keys := SortStrings(before.fields.Keys + after.fields.Keys);
    ghost var lines: seq<Line> := [];
    for i := 0 to |keys|
      invariant r == out + lines && InPathOrder(lines)
      invariant forall line :: line in lines <==> UnderKeys(before, after, path, keys, i, line)
    {
      var next := DiffKey(path, before, after, keys[i], r);
      ghost var more := next[|r|..];
      KeysInOrder(before, after, path, keys, i, lines, more);
      MoreKeys(before, after, path, keys, i, lines, more);
      assert next == r + more == out + (lines + more);
      r, lines := next, lines + more;
    }
    AllKeys(before, after, path, keys, lines);
    assert r[|out|..] == lines;
  }

  lemma MoreKeys(before: Json, after: Json, path: Path, keys: seq<string>, i: nat, lines: seq<Line>, more: seq<Line>)
    requires BothObjects(before, after) && i < |keys| && forall k :: k in keys ==> k in before.fields.Keys + after.fields.Keys
    requires forall l :: l in lines <==> UnderKeys(before, after, path, keys, i, l)
    requires forall l :: l in more <==> ReportedAt(before, after, path, keys[i], l)
    ensures forall l :: l in lines + more <==> UnderKeys(before, after, path, keys, i + 1, l)
  {
    forall l ensures UnderKeys(before, after, path, keys, i + 1, l)
                <==> UnderKeys(before, after, path, keys, i, l) || ReportedAt(before, after, path, keys[i], l) {
    }
  }

  lemma AllKeys(before: Json, after: Json, path: Path, keys: seq<string>, lines: seq<Line>)
    requires BothObjects(before, after) && before != after && forall k :: k in keys <==> k in before.fields.Keys + after.fields.Keys
    requires forall l :: l in lines <==> UnderKeys(before, after, path, keys, |keys|, l)
    ensures forall l :: l in lines <==> Reported(before, after, path, l)
  {
    forall l ensures UnderKeys(before, after, path, keys, |keys|, l) <==> Reported(before, after, path, l) {
      if Reported(before, after, path, l) {
        var k :| k in before.fields.Keys + after.fields.Keys && ReportedAt(before, after, path, k, l);
        var j :| 0 <= j < |keys| && keys[j] == k;
      }
    }
  }

  /** The part of a comparison that one key of two objects makes. */
  method DiffKey(path: Path, before: Json, after: Json, k: string, out: seq<Line>) returns (r: seq<Line>)
    requires BothObjects(before, after) && k in before.fields.Keys + after.fields.Keys
    ensures out <= r && InPathOrder(r[|out|..])
    ensures forall line :: line in r[|out|..] <==> ReportedAt(before, after, path, k, line)
    decreases before, 0
  {
    if k !in after.fields {
      r := out + [Removed(path + [k], before.fields[k])];
    } else if k !in before.fields {
      r := out + [Added(path + [k], after.fields[k])];
    } else {
      r := DiffValue(path + [k], before.fields[k], after.fields[k], out);
    }
  }

  /** The recursion reports a line exactly when some position differs that way. */
  lemma ReportedIffDiffers(before: Json, after: Json, path: Path, line: Line)
    ensures Reported(before, after, path, line) <==> exists q :: Differs(before, after, path, q, line)
  {
    if Reported(before, after, path, line) {
      var q := PositionOf(before, after, path, line);
    }
    forall q | Differs(before, after, path, q, line) ensures Reported(before, after, path, line) {
      PositionIsReported(before, after, path, q, line);
    }
  }

  lemma {:induction false} PositionOf(before: Json, after: Json, path: Path, line: Line) returns (q: Path)
    requires Reported(before, after, path, line)
    ensures Differs(before, after, path, q, line)
    decreases before
  {
    q := [];
    if BothObjects(before, after) {
      var k :| k in before.fields.Keys + after.fields.Keys && ReportedAt(before, after, path, k, line);
      assert path + [] + [k] == path + [k];
      if k in before.fields && k in after.fields {
        var rest := PositionOf(before.fields[k], after.fields[k], path + [k], line);
        q := [k] + rest;
        assert q[1..] == rest && path + q == path + [k] + rest;
        Prefixed(before, after, path, k, rest, line);
      }
    } else {
      assert path + [] == path;
    }
  }

  /** Positions below a common key. */
  lemma Prefixed(before: Json, after: Json, path: Path, k: string, rest: Path, line: Line)
    requires BothObjects(before, after) && k in before.fields && k in after.fields
    ensures Differs(before, after, path, [k] + rest, line)
       <==> Differs(before.fields[k], after.fields[k], path + [k], rest, line)
  {
    var q := [k] + rest;
    assert q[1..] == rest && path + q == path + [k] + rest;
  }

  lemma {:induction false} PositionIsReported(before: Json, after: Json, path: Path, q: Path, line: Line)
    requires Differs(before, after, path, q, line)
    ensures Reported(before, after, path, line)
    decreases q
  {
    if q == [] {
      assert path + [] == path;
      if BothObjects(before, after) {
        TopIsReported(before, after, path, line);
      }
    } else {
      var k, rest := q[0], q[1..];
      assert q == [k] + rest;
      Prefixed(before, after, path, k, rest, line);
      PositionIsReported(before.fields[k], after.fields[k], path + [k], rest, line);
      assert ReportedAt(before, after, path, k, line);
    }
  }

  /** A key that only one of two objects has. */
  lemma TopIsReported(before: Json, after: Json, path: Path, line: Line)
    requires BothObjects(before, after) && Differs(before, after, path, [], line)
    ensures Reported(before, after, path, line)
  {
    assert path + [] == path;
    if line.Removed? {
      var k :| k in before.fields && k !in after.fields && line.path == path + [] + [k] && line.was == before.fields[k];
      assert ReportedAt(before, after, path, k, line);
    } else {
      var k :| k !in before.fields && k in after.fields && line.path == path + [] + [k] && line.now == after.fields[k];
      assert ReportedAt(before, after, path, k, line);
    }
  }

  /** Two values are reported on exactly when they differ. */
  lemma {:induction false} SomethingReported(before: Json, after: Json, path: Path)
    ensures (exists line :: Reported(before, after, path, line)) <==> before != after
    decreases before
  {
    if before == after {
    } else {
      if BothObjects(before, after) {
        assert before.fields != after.fields;
        if k :| k in before.fields && k !in after.fields {
          var line := Removed(path + [k], before.fields[k]);
          assert ReportedAt(before, after, path, k, line);
          assert Reported(before, after, path, line);
        } else if k :| k !in before.fields && k in after.fields {
          var line := Added(path + [k], after.fields[k]);
          assert ReportedAt(before, after, path, k, line);
          assert Reported(before, after, path, line);
        } else {
          var k :| k in before.fields && k in after.fields && before.fields[k] != after.fields[k];
          SomethingReported(before.fields[k], after.fields[k], path + [k]);
          var line :| Reported(before.fields[k], after.fields[k], path + [k], line);
          assert ReportedAt(before, after, path, k, line);
          assert Reported(before, after, path, line);
        }
      } else {
        assert Reported(before, after, path, Changed(path, before, after));
      }
    }
  }

  // ------------------------------------------------------------------------
  // Two documents
  // ------------------------------------------------------------------------

  /** One arm of a replay: its decision rows and its other entries. */
  datatype Arm = Arm(values: map<string, Json>, decisions: seq<seq<Json>>)

  /** The compared top-level entries, and the arms. */
  datatype Document = Document(header: map<string, Json>, arms: map<string, Arm>)

  const HEADER_KEYS := {"format", "capture", "decision_columns"}

  /** An absent entry reads as null. */
  function Get(m: map<string, Json>, k: string): Json {
    if k in m then m[k] else Null
  }

  datatype ArmLine =
    | Entry(line: Line)
    | SlotCounts(slotsBefore: nat, slotsAfter: nat)
    | Slot(index: nat, rowBefore: seq<Json>, rowAfter: seq<Json>)
    | SlotsDiffer(changed: nat)

  datatype DocLine =
    | Header(key: string, was: Json, now: Json)
    | ArmRemoved(name: string)
    | ArmAdded(name: string)
    | InArm(name: string, line: ArmLine)

  type Rows = seq<seq<Json>>

  /** How many of the first n rows differ. */
  function Changes(before: Rows, after: Rows, n: nat): nat
    requires n <= |before| && n <= |after|
  {
    if n == 0 then 0 else Changes(before, after, n - 1) + (if before[n - 1] != after[n - 1] then 1 else 0)
  }

  lemma {:induction false} ChangesIsPositive(before: Rows, after: Rows, n: nat)
    requires n <= |before| && n <= |after|
    ensures Changes(before, after, n) == 0 <==> forall i :: 0 <= i < n ==> before[i] == after[i]
  {
    if n == 0 {
    } else {
      ChangesIsPositive(before, after, n - 1);
    }
  }

  ghost predicate SlotLine(before: Rows, after: Rows, n: nat, l: ArmLine) {
    l.Slot? && l.index < n && l.index < |before| && l.index < |after|
    && l.rowBefore == before[l.index] && l.rowAfter == after[l.index] && l.rowBefore != l.rowAfter
  }

  /** The lines about the rows: their counts, every common row that differs, how many do. */
  ghost predicate RowLine(before: Rows, after: Rows, l: ArmLine) {
    var n := Min(|before|, |after|);
    match l
    case Entry(_) => false
    case SlotCounts(b, a) => b == |before| && a == |after| && b != a
    case Slot(_, _, _) => SlotLine(before, after, n, l)
    case SlotsDiffer(c) => c > 0 && c == Changes(before, after, n)
  }

  /** The order of an arm's lines: entries by path, the counts, the rows by number, how many changed. */
  ghost predicate ArmBefore(l: ArmLine, m: ArmLine) {
    || ArmRank(l) < ArmRank(m)
    || (l.Entry? && m.Entry? && PathBefore(l.line.path, m.line.path))
    || (l.Slot? && m.Slot? && l.index < m.index)
  }

  ghost function ArmRank(l: ArmLine): nat {
    match l
    case Entry(_) => 0
    case SlotCounts(_, _) => 1
    case Slot(_, _, _) => 2
    case SlotsDiffer(_) => 3
  }

  ghost predicate InArmOrder(lines: seq<ArmLine>) {
    forall i, j :: 0 <= i < j < |lines| ==> ArmBefore(lines[i], lines[j])
  }

  lemma ArmOrderJoins(lines: seq<ArmLine>, more: seq<ArmLine>)
    requires InArmOrder(lines) && InArmOrder(more)
    requires forall l, m :: l in lines && m in more ==> ArmBefore(l, m)
    ensures InArmOrder(lines + more)
  {
  }

  method DiffSlots(before: Rows, after: Rows) returns (lines: seq<ArmLine>, changed: nat)
    ensures InArmOrder(lines)
    ensures forall l :: l in lines <==> SlotLine(before, after, Min(|before|, |after|), l)
    ensures changed == Changes(before, after, Min(|before|, |after|))
  {
    lines, changed := [], 0;
    for i := 0 to Min(|before|, |after|)
      invariant InArmOrder(lines)
      invariant forall l :: l in lines <==> SlotLine(before, after, i, l)
      invariant changed == Changes(before, after, i)
    {
      if before[i] != after[i] {
        changed := changed + 1;
        ArmOrderJoins(lines, [Slot(i, before[i], after[i])]);
        lines := lines + [Slot(i, before[i], after[i])];
      }
    }
  }

  method DiffDecisions(before: Rows, after: Rows, out: seq<ArmLine>) returns (r: seq<ArmLine>)
    ensures out <= r && InArmOrder(r[|out|..])
    ensures forall l :: l in r[|out|..] <==> RowLine(before, after, l)
  {
    var lines := [];
    if |before| != |after| {
      lines := lines + [SlotCounts(|before|, |after|)];
    }
    var slots, changed := DiffSlots(before, after);
    ArmOrderJoins(lines, slots);
    lines := lines + slots;
    if changed > 0 {
      ArmOrderJoins(lines, [SlotsDiffer(changed)]);
      lines := lines + [SlotsDiffer(changed)];
    }
    r := out + lines;
    assert r[|out|..] == lines;
  }

  ghost predicate EntryLine(before: Arm, after: Arm, k: string, l: ArmLine) {
    l.Entry? && k in before.values.Keys + after.values.Keys && Reported(Get(before.values, k), Get(after.values, k), [k], l.line)
  }

  /** The lines about one arm that both documents have. */
  ghost predicate ArmReported(before: Arm, after: Arm, l: ArmLine) {
    (exists k :: EntryLine(before, after, k, l)) || RowLine(before.decisions, after.decisions, l)
  }

  method DiffEntry(before: Arm, after: Arm, k: string) returns (lines: seq<ArmLine>)
    requires k in before.values.Keys + after.values.Keys
    ensures InArmOrder(lines)
    ensures forall l :: l in lines <==> EntryLine(before, after, k, l)
  {
    var values := DiffValue([k], Get(before.values, k), Get(after.values, k), []);
    assert values[0..] == values;
    lines := seq(|values|, i requires 0 <= i < |values| => Entry(values[i]));
    forall l | EntryLine(before, after, k, l) ensures l in lines {
      var i :| 0 <= i < |values| && values[i] == l.line;
      assert lines[i] == l;
    }
  }

  ghost predicate EntryUnder(before: Arm, after: Arm, keys: seq<string>, n: nat, l: ArmLine)
    requires n <= |keys|
  {
    exists j :: 0 <= j < n && EntryLine(before, after, keys[j], l)
  }

  lemma EntriesInOrder(before: Arm, after: Arm, keys: seq<string>, i: nat, lines: seq<ArmLine>, more: seq<ArmLine>)
    requires i < |keys| && Ascending(keys) && InArmOrder(lines) && InArmOrder(more)
    requires forall l :: l in lines <==> EntryUnder(before, after, keys, i, l)
    requires forall l :: l in more <==> EntryLine(before, after, keys[i], l)
    ensures InArmOrder(lines + more)
    ensures forall l :: l in lines + more <==> EntryUnder(before, after, keys, i + 1, l)
  {
    forall l, m | l in lines && m in more ensures ArmBefore(l, m) {
      var j :| 0 <= j < i && EntryLine(before, after, keys[j], l);
      ReportedBelow(Get(before.values, keys[j]), Get(after.values, keys[j]), [keys[j]], l.line);
      ReportedBelow(Get(before.values, keys[i]), Get(after.values, keys[i]), [keys[i]], m.line);
      assert [] + [keys[j]] == [keys[j]] && [] + [keys[i]] == [keys[i]];
      PartsAtKey([], keys[j], keys[i], l.line.path, m.line.path);
    }
    forall l ensures EntryUnder(before, after, keys, i + 1, l) <==> EntryUnder(before, after, keys, i, l) || EntryLine(before, after, keys[i], l) {
    }
  }

  method DiffArm(before: Arm, after: Arm) returns (lines: seq<ArmLine>)
    ensures InArmOrder(lines)
    ensures forall l :: l in lines <==> ArmReported(before, after, l)
  {
    lines := [];
    var keys := SortStrings(before.values.Keys + after.values.Keys);
    for i := 0 to |keys|
      invariant InArmOrder(lines)
      invariant forall l :: l in lines <==> EntryUnder(before, after, keys, i, l)
    {
      var more := DiffEntry(before, after, keys[i]);
      EntriesInOrder(before, after, keys, i, lines, more);
      lines := lines + more;
    }
    forall l ensures EntryUnder(before, after, keys, |keys|, l) <==> exists k :: EntryLine(before, after, k, l) {
      if k :| EntryLine(before, after, k, l) {
        var j :| 0 <= j < |keys| && keys[j] == k;
      }
    }
    ghost var entries := lines;
    lines := DiffDecisions(before.decisions, after.decisions, lines);
    assert lines == entries + lines[|entries|..];
    ArmOrderJoins(entries, lines[|entries|..]);
  }

  /** The same entry, or an absent one against null or another absent one. */
  ghost predicate SameAt(a: map<string, Json>, b: map<string, Json>, k: string) {
    && (k in a && k in b ==> a[k] == b[k])
    && (k in a && k !in b ==> a[k] == Null)
    && (k !in a && k in b ==> b[k] == Null)
  }

  /** Equal as far as the comparison looks. */
  ghost predicate SameArm(a: Arm, b: Arm) {
    (forall k :: SameAt(a.values, b.values, k)) && a.decisions == b.decisions
  }

  lemma SameRows(before: Rows, after: Rows)
    ensures before == after <==> forall l :: !RowLine(before, after, l)
  {
    var n := Min(|before|, |after|);
    ChangesIsPositive(before, after, n);
    assert RowLine(before, after, SlotCounts(|before|, |after|)) <==> |before| != |after|;
    assert RowLine(before, after, SlotsDiffer(Changes(before, after, n))) <==> Changes(before, after, n) > 0;
  }

  lemma SameEntry(before: Arm, after: Arm, k: string)
    requires k in before.values.Keys + after.values.Keys
    ensures SameAt(before.values, after.values, k) <==> forall l :: !EntryLine(before, after, k, l)
  {
    SomethingReported(Get(before.values, k), Get(after.values, k), [k]);
    if line :| Reported(Get(before.values, k), Get(after.values, k), [k], line) {
      assert EntryLine(before, after, k, Entry(line));
    }
  }

  /** An arm draws a line exactly when an entry, an absent one reading as null, or a row changed. */
  lemma ArmIsSilent(before: Arm, after: Arm)
    ensures SameArm(before, after) <==> forall l :: !ArmReported(before, after, l)
  {
    SameRows(before.decisions, after.decisions);
    forall k | k in before.values.Keys + after.values.Keys
      ensures SameAt(before.values, after.values, k) <==> forall l :: !EntryLine(before, after, k, l)
    {
      SameEntry(before, after, k);
    }
    if SameArm(before, after) {
      assert forall l, k :: !EntryLine(before, after, k, l);
    } else if before.decisions != after.decisions {
      var l :| RowLine(before.decisions, after.decisions, l);
      assert ArmReported(before, after, l);
    } else {
      var k :| !SameAt(before.values, after.values, k);
      var l :| EntryLine(before, after, k, l);
      assert ArmReported(before, after, l);
    }
  }

  /** The lines of the whole report. */
  ghost predicate DocReported(expected: Document, actual: Document, l: DocLine) {
    match l
    case Header(k, was, now) =>
      && k in HEADER_KEYS && was != now
      && was == (if k in expected.header then expected.header[k] else Null)
      && now == (if k in actual.header then actual.header[k] else Null)
    case ArmRemoved(name) => name in expected.arms && name !in actual.arms
    case ArmAdded(name) => name !in expected.arms && name in actual.arms
    case InArm(name, line) =>
      name in expected.arms && name in actual.arms && ArmReported(expected.arms[name], actual.arms[name], line)
  }

  /** The order of the report: the header entries, then the arms by name. */
  ghost predicate DocBefore(l: DocLine, m: DocLine) {
    if l.Header? || m.Header? then l.Header? && (m.Header? ==> HeaderRank(l.key) < HeaderRank(m.key))
    else StrLess(l.name, m.name) || (l.name == m.name && l.InArm? && m.InArm? && ArmBefore(l.line, m.line))
  }

  ghost function HeaderRank(key: string): nat {
    if key == "format" then 0 else if key == "capture" then 1 else 2
  }

  ghost predicate InDocOrder(lines: seq<DocLine>) {
    forall i, j :: 0 <= i < j < |lines| ==> DocBefore(lines[i], lines[j])
  }

  lemma DocBeforeIsAsymmetric(l: DocLine, m: DocLine)
    ensures !(DocBefore(l, m) && DocBefore(m, l))
  {
    if !l.Header? && !m.Header? {
      StrLessIsStrictOrder(l.name, m.name, l.name);
      if l.InArm? && m.InArm? && l.line.Entry? && m.line.Entry? {
        PathBeforeIsAsymmetric(l.line.line.path, m.line.line.path);
      }
    }
  }

  /** Lines and order together leave one report; in particular no line occurs twice. */
  lemma {:induction false} ReportIsUnique(a: seq<DocLine>, b: seq<DocLine>)
    requires InDocOrder(a) && InDocOrder(b) && forall l :: l in a <==> l in b
    ensures a == b
  {
    assert (a != [] ==> a[0] in b) && (b != [] ==> b[0] in a);
    if a == [] || b == [] {
    } else {
      DocBeforeIsAsymmetric(a[0], b[0]);
      assert a[0] == b[0];
      OrderedTail(a);
      OrderedTail(b);
      ReportIsUnique(a[1..], b[1..]);
    }
  }

  lemma OrderedTail(a: seq<DocLine>)
    requires a != [] && InDocOrder(a)
    ensures InDocOrder(a[1..]) && forall l :: l in a[1..] <==> l in a && l != a[0]
  {
    assert a == [a[0]] + a[1..];
    DocBeforeIsAsymmetric(a[0], a[0]);
  }

  method DiffHeader(expected: Document, actual: Document) returns (out: seq<DocLine>)
    ensures InDocOrder(out)
    ensures forall l :: l in out <==> l.Header? && DocReported(expected, actual, l)
  {
    out := [];
    var keys := ["format", "capture", "decision_columns"];
    for i := 0 to |keys|
      invariant InDocOrder(out)
      invariant forall l :: l in out <==> l.Header? && l.key in keys[..i] && DocReported(expected, actual, l)
    {
      assert keys[..i + 1] == keys[..i] + [keys[i]];
      var was, now := Get(expected.header, keys[i]), Get(actual.header, keys[i]);
      if was != now {
        out := out + [Header(keys[i], was, now)];
      }
    }
    assert keys[..|keys|] == keys;
    assert forall k :: k in HEADER_KEYS ==> k == keys[0] || k == keys[1] || k == keys[2];
  }

  method DiffName(expected: Document, actual: Document, name: string) returns (lines: seq<DocLine>)
    requires name in expected.arms.Keys + actual.arms.Keys
    ensures InDocOrder(lines)
    ensures forall l :: l in lines <==> !l.Header? && l.name == name && DocReported(expected, actual, l)
  {
    if name !in actual.arms {
      lines := [ArmRemoved(name)];
    } else if name !in expected.arms {
      lines := [ArmAdded(name)];
    } else {
      var inside := DiffArm(expected.arms[name], actual.arms[name]);
      lines := seq(|inside|, i requires 0 <= i < |inside| => InArm(name, inside[i]));
      forall l: DocLine | l.InArm? && l.name == name && l.line in inside ensures l in lines {
        var i :| 0 <= i < |inside| && inside[i] == l.line;
        assert lines[i] == l;
      }
    }
  }

  method Diff(expected: Document, actual: Document) returns (out: seq<DocLine>)
    ensures InDocOrder(out)
    ensures forall l :: l in out <==> DocReported(expected, actual, l)
    ensures out == [] <==> Agree(expected, actual)
  {
    out := DiffHeader(expected, actual);
    var names := SortStrings(expected.arms.Keys + actual.arms.Keys);
    for i := 0 to |names|
      invariant InDocOrder(out)
      invariant forall l :: l in out <==> (l.Header? || l.name in names[..i]) && DocReported(expected, actual, l)
    {
      var lines := DiffName(expected, actual, names[i]);
      assert names[..i + 1] == names[..i] + [names[i]];
      out := out + lines;
    }
    assert names[..|names|] == names;
    ReportIsSilent(expected, actual);
    assert out != [] ==> out[0] in out;
  }

  /**
   The documents agree: on the three header entries and every arm entry, an absent one
   reading as null, on which arms there are and on their rows.
   */
  ghost predicate Agree(expected: Document, actual: Document) {
    && (forall k :: k in HEADER_KEYS ==> SameAt(expected.header, actual.header, k))
    && expected.arms.Keys == actual.arms.Keys
    && (forall name :: name in expected.arms && name in actual.arms ==> SameArm(expected.arms[name], actual.arms[name]))
  }

  /** Nothing is reported exactly when the documents agree. */
  lemma ReportIsSilent(expected: Document, actual: Document)
    ensures Agree(expected, actual) <==> forall l :: !DocReported(expected, actual, l)
  {
    forall name | name in expected.arms && name in actual.arms
      ensures SameArm(expected.arms[name], actual.arms[name]) <==> forall line :: !DocReported(expected, actual, InArm(name, line))
    {
      ArmIsSilent(expected.arms[name], actual.arms[name]);
      ArmLines(expected, actual, name);
    }
    HeaderIsSilent(expected, actual);
    NamesAreSilent(expected, actual);
  }

  lemma ArmLines(expected: Document, actual: Document, name: string)
    requires name in expected.arms && name in actual.arms
    ensures forall line :: DocReported(expected, actual, InArm(name, line)) <==> ArmReported(expected.arms[name], actual.arms[name], line)
  {
  }

  lemma HeaderIsSilent(expected: Document, actual: Document)
    ensures (forall k :: k in HEADER_KEYS ==> SameAt(expected.header, actual.header, k))
       <==> forall k, was, now :: !DocReported(expected, actual, Header(k, was, now))
  {
    forall k | k in HEADER_KEYS && Get(expected.header, k) != Get(actual.header, k)
      ensures DocReported(expected, actual, Header(k, Get(expected.header, k), Get(actual.header, k)))
    {
    }
  }

  lemma NamesAreSilent(expected: Document, actual: Document)
    ensures expected.arms.Keys == actual.arms.Keys
       <==> forall name :: !DocReported(expected, actual, ArmRemoved(name)) && !DocReported(expected, actual, ArmAdded(name))
  {
    forall name | name in expected.arms.Keys && name !in actual.arms.Keys ensures DocReported(expected, actual, ArmRemoved(name)) {
    }
    forall name | name !in expected.arms.Keys && name in actual.arms.Keys ensures DocReported(expected, actual, ArmAdded(name)) {
    }
  }
}

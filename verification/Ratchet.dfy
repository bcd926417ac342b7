/**
 The shrink-only ratchet: findings numbered per key, compared with the baseline,
 and the baseline rewritten by `--update`.
 */
module Ratchet {
  import opened Prelude
  import opened BaselineFile
  import opened BaselineText
  import opened BaselineOrder

  // ------------------------------------------------------------------------
  // Findings from detected symbols
  // ------------------------------------------------------------------------

  /** A detected symbol, without its line. */
  datatype Symbol = Symbol(kind: string, file: string, qualname: string)

  function Nth(s: Symbol, n: int): Finding {
    Finding(s.kind, s.file, s.qualname, n)
  }

  function SymbolOf(f: Finding): Symbol {
    Symbol(f.kind, f.file, f.qualname)
  }

  /** The first to the last of every symbol, as many as were detected. */
  ghost function Numbered(symbols: multiset<Symbol>): (fs: set<Finding>)
    ensures forall f: Finding :: f in fs <==> 1 <= f.ordinal <= symbols[SymbolOf(f)]
  {
    var fs := set s, n | s in symbols && 1 <= n <= symbols[s] :: Nth(s, n);
    forall f: Finding | 1 <= f.ordinal <= symbols[SymbolOf(f)] ensures f in fs {
      assert f == Nth(SymbolOf(f), f.ordinal);
    }
    fs
  }

  /** Numbers the symbols in the order they are met; only how many there are of each matters. */
  method NumberFindings(symbols: seq<Symbol>) returns (findings: set<Finding>)
    ensures findings == Numbered(multiset(symbols))
  {
    var seen: map<Symbol, nat> := map[];
    findings := {};
    for i := 0 to |symbols|
      invariant forall s :: multiset(symbols[..i])[s] == if s in seen then seen[s] else 0
      invariant findings == Numbered(multiset(symbols[..i]))
    {
      var s := symbols[i];
      assert symbols[..i + 1] == symbols[..i] + [s];
      OneMoreSymbol(multiset(symbols[..i]), s);
      seen := seen[s := (if s in seen then seen[s] else 0) + 1];
      findings := findings + {Nth(s, seen[s])};
    }
    assert symbols[..|symbols|] == symbols;
  }

  /** One more symbol of a key is exactly one new finding: the next ordinal of that key. */
  lemma OneMoreSymbol(symbols: multiset<Symbol>, s: Symbol)
    ensures Nth(s, symbols[s] + 1) !in Numbered(symbols)
    ensures Numbered(symbols + multiset{s}) == Numbered(symbols) + {Nth(s, symbols[s] + 1)}
  {
  }

  // ------------------------------------------------------------------------
  // One gate run
  // ------------------------------------------------------------------------

  function New(baseline: Entries, current: set<Finding>): set<Finding> {
    current - baseline.Keys
  }

  function Gone(baseline: Entries, current: set<Finding>): set<Finding> {
    baseline.Keys - current
  }

  /** The findings left by filters that look at a symbol, never at its ordinal: whitelist, census, conventions. */
  ghost function Current(symbols: multiset<Symbol>, reported: Symbol -> bool): set<Finding> {
    set f | f in Numbered(symbols) && reported(SymbolOf(f))
  }

  /** Against a baseline that matched, one more reported symbol is one new entry, one fewer is one gone entry. */
  lemma OneSymbolOneFinding(symbols: multiset<Symbol>, s: Symbol, reported: Symbol -> bool, baseline: Entries)
    ensures baseline.Keys == Current(symbols, reported) ==>
              && New(baseline, Current(symbols + multiset{s}, reported)) == (if reported(s) then {Nth(s, symbols[s] + 1)} else {})
              && Gone(baseline, Current(symbols + multiset{s}, reported)) == {}
    ensures baseline.Keys == Current(symbols + multiset{s}, reported) ==>
              && Gone(baseline, Current(symbols, reported)) == (if reported(s) then {Nth(s, symbols[s] + 1)} else {})
              && New(baseline, Current(symbols, reported)) == {}
  {
    OneMoreSymbol(symbols, s);
    var next := Nth(s, symbols[s] + 1);
    assert SymbolOf(next) == s;
    assert Current(symbols + multiset{s}, reported) == Current(symbols, reported) + if reported(s) then {next} else {};
  }

  // ------------------------------------------------------------------------
  // Updates
  // ------------------------------------------------------------------------

  function Updated(baseline: Entries, current: set<Finding>, additions: bool): Entries {
    (map f | f in baseline && f in current :: baseline[f])
    + if additions then map f | f in New(baseline, current) :: "" else map[]
  }

  /** `--update`: the new file's text, and the new findings it refused to add. */
  method Update(header: string, baseline: Entries, current: set<Finding>, additions: bool) returns (text: string, refused: seq<Finding>)
    ensures IsTextOf(text, header, Updated(baseline, current, additions))
    ensures Sorted(refused)
    ensures forall f :: f in refused <==> f in current && f !in baseline && !additions
  {
    var keep := map f | f in baseline && f in current :: baseline[f];
    var unlisted := SortFindings(New(baseline, current));
    refused := [];
    if additions {
      keep := keep + map f | f in New(baseline, current) :: "";
    } else {
      refused := unlisted;
      assert keep + map[] == keep;
    }
    text := RenderBaseline(header, keep);
  }

  /** What an update leaves: nothing gone; with additions nothing new either, without them the same findings are still new. */
  lemma UpdateSettles(baseline: Entries, current: set<Finding>, additions: bool)
    ensures var after := Updated(baseline, current, additions);
            && Gone(after, current) == {}
            && New(after, current) == (if additions then {} else New(baseline, current))
            && (additions ==> after.Keys == current)
            && (!additions ==> after.Keys == baseline.Keys - Gone(baseline, current))
            && (forall f :: f in after <==> f in current && (f in baseline || additions))
            && (forall f :: f in after ==> after[f] == if f in baseline then baseline[f] else "")
            && Updated(after, current, additions) == after
  {
  }

  /** A gate run followed by `--update`. */
  datatype Event = Event(current: set<Finding>, additions: bool)

  ghost function After(baseline: Entries, events: seq<Event>): Entries {
    if events == [] then baseline else
      var last := events[|events| - 1];
      Updated(After(baseline, events[..|events| - 1]), last.current, last.additions)
  }

  /** Found by every run from the `i`-th on. */
  ghost predicate Since(events: seq<Event>, i: nat, f: Finding) {
    forall j :: i <= j < |events| ==> f in events[j].current
  }

  /** A run that was allowed to add, from which on `f` was always found. */
  ghost predicate AddedAt(events: seq<Event>, i: int, f: Finding) {
    0 <= i < |events| && events[i].additions && Since(events, i, f)
  }

  /**
   The baseline after any sequence of updates: what was in it and has been found by
   every run since, and what a run with additions found and every later run found too.
   */
  lemma {:induction false} BaselineOverTime(baseline: Entries, events: seq<Event>, f: Finding)
    ensures f in After(baseline, events)
       <==> (f in baseline && Since(events, 0, f)) || exists i :: AddedAt(events, i, f)
    ensures f in baseline && Since(events, 0, f) ==> After(baseline, events)[f] == baseline[f]
  {
    if events == [] {
    } else {
      var past, last := events[..|events| - 1], events[|events| - 1];
      BaselineOverTime(baseline, past, f);
      SinceNext(past, last, f);
      assert past + [last] == events;
      if f in After(baseline, past) && f in last.current {
        if !(f in baseline && Since(past, 0, f)) {
          var i :| AddedAt(past, i, f);
          assert AddedAt(events, i, f);
        }
      }
      if last.additions && f in last.current {
        assert AddedAt(events, |past|, f);
      }
      forall i | AddedAt(events, i, f) ensures f in After(baseline, events) {
        if i < |past| {
          assert AddedAt(past, i, f);
        }
      }
    }
  }

  lemma SinceNext(past: seq<Event>, last: Event, f: Finding)
    ensures forall i: nat :: i <= |past| ==> (Since(past + [last], i, f) <==> Since(past, i, f) && f in last.current)
  {
    forall i: nat | i <= |past| ensures Since(past + [last], i, f) <==> Since(past, i, f) && f in last.current {
      if Since(past + [last], i, f) {
        assert (past + [last])[|past|] == last;
        forall j | i <= j < |past| ensures f in past[j].current {
          assert (past + [last])[j] == past[j];
        }
      }
    }
  }

  /** Without additions the baseline only ever shrinks, to what every run found. */
  lemma ShrinkOnly(baseline: Entries, events: seq<Event>)
    requires forall e :: e in events ==> !e.additions
    ensures After(baseline, events).Keys <= baseline.Keys
    ensures forall f :: f in After(baseline, events) <==> f in baseline && Since(events, 0, f)
    ensures forall f :: f in After(baseline, events) ==> After(baseline, events)[f] == baseline[f]
  {
  }

  // ------------------------------------------------------------------------
  // Through the file
  // ------------------------------------------------------------------------

  /**
   The next run reads back exactly what `--update` meant to leave if and only if
   every entry left is safe to write; updating again then changes nothing.
   */
  lemma UpdateThroughFile(header: string, baseline: Entries, current: set<Finding>, additions: bool, text: string)
    requires IsHeader(header) && IsTextOf(text, header, Updated(baseline, current, additions))
    ensures var after := Updated(baseline, current, additions);
            ParseText(text) == Ok(after) <==> forall f :: f in after ==> FileSafe(f, after[f])
    ensures ParseText(text) == Ok(Updated(baseline, current, additions)) ==>
              (forall again :: IsTextOf(again, header, Updated(ParseText(text).value, current, additions)) ==> again == text)
  {
    var after := Updated(baseline, current, additions);
    BaselineRoundTrip(header, after, text);
    UpdateSettles(baseline, current, additions);
    forall again | IsTextOf(again, header, after) ensures again == text {
      TextIsUnique(header, after, again, text);
    }
  }
}

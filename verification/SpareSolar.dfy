/**
 Spare solar over a window of the plan, and the first start of a load that fits it.
 */
module SpareSolar {
  import opened Prelude

  const SLOT: Time := 900_000_000   // 15 min

  /** One slot of the plan. Energies are for the whole slot. */
  datatype Decision = Decision(start: Time, minutes: int, exportKwh: real, solarKwh: real, consumptionKwh: real) {
    function End(): Time {
      start + minutes * MINUTE
    }
  }

  datatype Span = Span(start: Time, end: Time, kw: real) {
    predicate Contains(t: Time) {
      start <= t < end
    }
  }

  /** A slot's energy as power. */
  function Power(kwh: real, minutes: int): real
    requires minutes > 0
  {
    kwh * 60.0 / minutes as real
  }

  function SpareOf(d: Decision): Span
    requires d.minutes > 0
  {
    Span(d.start, d.End(), Power(MinReal(d.exportKwh, MaxReal(0.0, d.solarKwh - d.consumptionKwh)), d.minutes))
  }

  ghost predicate Usable(plan: seq<Decision>) {
    forall d :: d in plan ==> d.minutes > 0
  }

  /** The plan's slots as spans of spare power. */
  method SpareSpans(plan: seq<Decision>) returns (spans: seq<Span>)
    requires Usable(plan)
    ensures |spans| == |plan| && forall i :: 0 <= i < |plan| ==> spans[i] == SpareOf(plan[i])
  {
    spans := [];
    for i := 0 to |plan|
      invariant |spans| == i && forall j :: 0 <= j < i ==> spans[j] == SpareOf(plan[j])
    {
      assert plan[i] in plan;
      spans := spans + [SpareOf(plan[i])];
    }
  }

  // ------------------------------------------------------------------------
  // The lowest spare power over a window
  // ------------------------------------------------------------------------

  predicate Hits(s: Span, start: Time, end: Time) {
    s.start < end && s.end > start
  }

  function Overlap(s: Span, start: Time, end: Time): Time {
    if Hits(s, start, end) then Min(s.end, end) - Max(s.start, start) else 0
  }

  /** How much of the window the hit spans cover, added up. */
  function Covered(spans: seq<Span>, start: Time, end: Time): Time {
    if spans == [] then 0 else Covered(spans[..|spans| - 1], start, end) + Overlap(spans[|spans| - 1], start, end)
  }

  /** The least power among the hit spans, if any is hit. */
  function Lowest(spans: seq<Span>, start: Time, end: Time): Option<real> {
    if spans == [] then None else
      var before, last := Lowest(spans[..|spans| - 1], start, end), spans[|spans| - 1];
      if !Hits(last, start, end) then before
      else if before.None? then Some(last.kw)
      else Some(MinReal(before.value, last.kw))
  }

  function ExcessAt(spans: seq<Span>, start: Time, end: Time): Option<real> {
    if Covered(spans, start, end) == end - start then Lowest(spans, start, end) else None
  }

  ghost predicate Disjoint(spans: seq<Span>) {
    && (forall i :: 0 <= i < |spans| ==> spans[i].start < spans[i].end)
    && (forall i, j :: 0 <= i < j < |spans| ==> spans[i].end <= spans[j].start || spans[j].end <= spans[i].start)
  }

  ghost predicate CoveredAt(spans: seq<Span>, t: Time) {
    exists i :: 0 <= i < |spans| && spans[i].Contains(t)
  }

  /** How many spans contain the instant. */
  ghost function Count(spans: seq<Span>, t: Time): nat {
    if spans == [] then 0 else Count(spans[..|spans| - 1], t) + if spans[|spans| - 1].Contains(t) then 1 else 0
  }

  ghost function Total(spans: seq<Span>, start: Time, end: Time): nat
    requires start <= end
    decreases end - start
  {
    if start == end then 0 else Total(spans, start, end - 1) + Count(spans, end - 1)
  }

  lemma {:induction false} OneMoreInstant(spans: seq<Span>, start: Time, end: Time)
    requires start <= end && forall i :: 0 <= i < |spans| ==> spans[i].start < spans[i].end
    ensures Covered(spans, start, end + 1) == Covered(spans, start, end) + Count(spans, end)
  {
    if spans == [] {
    } else {
      OneMoreInstant(spans[..|spans| - 1], start, end);
    }
  }

  lemma {:induction false} EmptyWindow(spans: seq<Span>, start: Time)
    requires forall i :: 0 <= i < |spans| ==> spans[i].start < spans[i].end
    ensures Covered(spans, start, start) == 0
  {
    if spans == [] {
    } else {
      EmptyWindow(spans[..|spans| - 1], start);
    }
  }

  /** The added-up overlaps count every instant once for each span it lies in. */
  lemma {:induction false} CoveredIsTotal(spans: seq<Span>, start: Time, end: Time)
    requires start <= end && forall i :: 0 <= i < |spans| ==> spans[i].start < spans[i].end
    ensures Covered(spans, start, end) == Total(spans, start, end)
    decreases end - start
  {
    if start == end {
      EmptyWindow(spans, start);
    } else {
      CoveredIsTotal(spans, start, end - 1);
      OneMoreInstant(spans, start, end - 1);
    }
  }

  lemma {:induction false} CountOfDisjoint(spans: seq<Span>, t: Time)
    requires Disjoint(spans)
    ensures Count(spans, t) == if CoveredAt(spans, t) then 1 else 0
  {
    if spans == [] {
    } else {
      var past, last := spans[..|spans| - 1], spans[|spans| - 1];
      CountOfDisjoint(past, t);
      if CoveredAt(past, t) {
        var i :| 0 <= i < |past| && past[i].Contains(t);
        assert spans[i].Contains(t);
      }
      if last.Contains(t) {
        assert spans[|spans| - 1].Contains(t);
      }
    }
  }

  lemma {:induction false} FullIffEverywhere(spans: seq<Span>, start: Time, end: Time)
    requires start <= end && Disjoint(spans)
    ensures Total(spans, start, end) <= end - start
    ensures Total(spans, start, end) == end - start <==> forall t :: start <= t < end ==> CoveredAt(spans, t)
    decreases end - start
  {
    if start == end {
    } else {
      FullIffEverywhere(spans, start, end - 1);
      CountOfDisjoint(spans, end - 1);
    }
  }

  lemma {:induction false} LowestIsLeast(spans: seq<Span>, start: Time, end: Time)
    ensures Lowest(spans, start, end).Some? <==> exists i :: 0 <= i < |spans| && Hits(spans[i], start, end)
    ensures Lowest(spans, start, end).Some? ==>
              && (forall i :: 0 <= i < |spans| && Hits(spans[i], start, end) ==> Lowest(spans, start, end).value <= spans[i].kw)
              && (exists i :: 0 <= i < |spans| && Hits(spans[i], start, end) && Lowest(spans, start, end).value == spans[i].kw)
  {
    if spans == [] {
    } else {
      var past, last := spans[..|spans| - 1], |spans| - 1;
      LowestIsLeast(past, start, end);
      assert forall i :: 0 <= i < |past| ==> past[i] == spans[i];
      assert Hits(spans[last], start, end) <==> Hits(spans[|spans| - 1], start, end);
      if Lowest(past, start, end).Some? {
        var i :| 0 <= i < |past| && Hits(past[i], start, end) && Lowest(past, start, end).value == past[i].kw;
        assert Hits(spans[i], start, end);
      }
    }
  }

  /**
   Over disjoint spans there is a figure for a window exactly when every instant of it
   is covered, and the figure is the least power at any instant.
   */
  lemma ExcessIffCovered(spans: seq<Span>, start: Time, end: Time)
    requires start < end && Disjoint(spans)
    ensures ExcessAt(spans, start, end).Some? <==> forall t :: start <= t < end ==> CoveredAt(spans, t)
    ensures ExcessAt(spans, start, end).Some? ==>
              && (forall i, t :: 0 <= i < |spans| && start <= t < end && spans[i].Contains(t)
                                 ==> ExcessAt(spans, start, end).value <= spans[i].kw)
              && (exists i, t :: 0 <= i < |spans| && start <= t < end && spans[i].Contains(t)
                                 && ExcessAt(spans, start, end).value == spans[i].kw)
  {
    CoveredIsTotal(spans, start, end);
    FullIffEverywhere(spans, start, end);
    LowestIsLeast(spans, start, end);
    if Covered(spans, start, end) == end - start {
      assert CoveredAt(spans, start);
      var i :| 0 <= i < |spans| && spans[i].Contains(start);
      assert Hits(spans[i], start, end);
      var k :| 0 <= k < |spans| && Hits(spans[k], start, end) && Lowest(spans, start, end).value == spans[k].kw;
      assert spans[k].Contains(Max(spans[k].start, start));
    }
  }

  /** The same for an instant on the real line. */
  ghost predicate CoveredAtReal(spans: seq<Span>, r: real) {
    exists i :: 0 <= i < |spans| && spans[i].start as real <= r < spans[i].end as real
  }

  lemma RealIsFloor(spans: seq<Span>, r: real)
    ensures CoveredAtReal(spans, r) <==> CoveredAt(spans, r.Floor)
  {
  }

  /** Instants between two microseconds are no exception. */
  lemma RealInstants(spans: seq<Span>, start: Time, end: Time)
    ensures (forall t :: start <= t < end ==> CoveredAt(spans, t))
       <==> (forall r: real :: start as real <= r < end as real ==> CoveredAtReal(spans, r))
  {
    forall r: real ensures CoveredAtReal(spans, r) <==> CoveredAt(spans, r.Floor) {
      RealIsFloor(spans, r);
    }
    forall t ensures CoveredAtReal(spans, t as real) <==> CoveredAt(spans, t) {
      RealIsFloor(spans, t as real);
    }
    if forall r: real :: start as real <= r < end as real ==> CoveredAtReal(spans, r) {
      forall t | start <= t < end ensures CoveredAt(spans, t) {
        assert CoveredAtReal(spans, t as real);
      }
    }
  }

  // ------------------------------------------------------------------------
  // Slots that overlap
  // ------------------------------------------------------------------------

  /** How many instants of the window no span contains. */
  ghost function Missing(spans: seq<Span>, start: Time, end: Time): (n: nat)
    requires start <= end
    decreases end - start
  {
    if start == end then 0 else Missing(spans, start, end - 1) + if Count(spans, end - 1) == 0 then 1 else 0
  }

  /** How many times instants of the window are contained beyond the first. */
  ghost function Surplus(spans: seq<Span>, start: Time, end: Time): (n: nat)
    requires start <= end
    decreases end - start
  {
    if start == end then 0 else Surplus(spans, start, end - 1) + if Count(spans, end - 1) > 1 then Count(spans, end - 1) - 1 else 0
  }

  lemma {:induction false} TotalBalances(spans: seq<Span>, start: Time, end: Time)
    requires start <= end
    ensures Total(spans, start, end) + Missing(spans, start, end) == end - start + Surplus(spans, start, end)
    decreases end - start
  {
    if start == end {
    } else {
      TotalBalances(spans, start, end - 1);
    }
  }

  lemma {:induction false} CountedIsCovered(spans: seq<Span>, t: Time)
    ensures Count(spans, t) > 0 <==> CoveredAt(spans, t)
  {
    if spans == [] {
    } else {
      var past := spans[..|spans| - 1];
      CountedIsCovered(past, t);
      if CoveredAt(past, t) {
        var i :| 0 <= i < |past| && past[i].Contains(t);
        assert spans[i].Contains(t);
      }
      if spans[|spans| - 1].Contains(t) {
        assert spans[|spans| - 1].Contains(t);
      }
    }
  }

  lemma {:induction false} NothingMissing(spans: seq<Span>, start: Time, end: Time)
    requires start <= end
    ensures Missing(spans, start, end) == 0 <==> forall t :: start <= t < end ==> CoveredAt(spans, t)
    decreases end - start
  {
    if start == end {
    } else {
      NothingMissing(spans, start, end - 1);
      CountedIsCovered(spans, end - 1);
    }
  }

  /** A window that is covered for some time has a span that hits it. */
  lemma {:induction false} CoveredHasLowest(spans: seq<Span>, start: Time, end: Time)
    ensures Covered(spans, start, end) != 0 ==> Lowest(spans, start, end).Some?
  {
    if spans == [] {
    } else {
      CoveredHasLowest(spans[..|spans| - 1], start, end);
    }
  }

  /** There is a figure exactly when the instants covered more than once make up for those not covered. */
  lemma ExcessIffBalanced(spans: seq<Span>, start: Time, end: Time)
    requires start < end && forall i :: 0 <= i < |spans| ==> spans[i].start < spans[i].end
    ensures ExcessAt(spans, start, end).Some? <==> Surplus(spans, start, end) == Missing(spans, start, end)
  {
    CoveredIsTotal(spans, start, end);
    TotalBalances(spans, start, end);
    CoveredHasLowest(spans, start, end);
  }

  /** The test tells covered windows from others exactly when nothing is covered twice, or it is not by as much as is missing. */
  lemma RightIff(spans: seq<Span>, start: Time, end: Time)
    requires start < end && forall i :: 0 <= i < |spans| ==> spans[i].start < spans[i].end
    ensures (ExcessAt(spans, start, end).Some? <==> forall t :: start <= t < end ==> CoveredAt(spans, t))
       <==> (|| Surplus(spans, start, end) == 0
             || (Missing(spans, start, end) > 0 && Surplus(spans, start, end) != Missing(spans, start, end)))
  {
    ExcessIffBalanced(spans, start, end);
    NothingMissing(spans, start, end);
  }

  /** Without disjointness neither direction holds: doubled slots hide a gap, or hide full cover. */
  lemma OverlapsMislead(start: Time, half: Time, kw: real)
    requires half > 0
    ensures var s := Span(start, start + half, kw);
            && ExcessAt([s, s], start, start + 2 * half) == Some(kw)
            && !CoveredAt([s, s], start + half)
            && ExcessAt([s, s], start, start + half) == None
            && forall t :: start <= t < start + half ==> CoveredAt([s, s], t)
  {
    var s := Span(start, start + half, kw);
    assert [s, s][..1] == [s] && [s][..0] == [];
    assert Covered([s], start, start + half) == half;
    assert Covered([s], start, start + 2 * half) == half;
    assert Lowest([s], start, start + 2 * half) == Some(kw);
    forall t | start <= t < start + half ensures CoveredAt([s, s], t) {
      assert [s, s][0].Contains(t);
    }
  }
}

/** The start of a load: the first point of a 15-minute grid that fits spare solar, else the deadline. */
module StartPicker {
  import opened Prelude
  import opened SpareSolar

  type Excess = (Time, Time) -> Option<real>

  predicate Fits(excessAt: Excess, start: Time, duration: Time, loadKw: real) {
    var spare := excessAt(start, start + duration);
    spare.Some? && spare.value >= loadKw
  }

  /** `start` is a grid point no later than `latestStart` that fits, and no earlier grid point fits. */
  ghost predicate FirstFit(earliest: Time, latestStart: Time, duration: Time, loadKw: real, excessAt: Excess, start: Time) {
    exists k: nat :: start == earliest + k * SLOT && FirstFitAt(earliest, latestStart, duration, loadKw, excessAt, k)
  }

  ghost predicate FirstFitAt(earliest: Time, latestStart: Time, duration: Time, loadKw: real, excessAt: Excess, k: nat) {
    && earliest + k * SLOT <= latestStart
    && Fits(excessAt, earliest + k * SLOT, duration, loadKw)
    && (forall j: nat :: j < k ==> !Fits(excessAt, earliest + j * SLOT, duration, loadKw))
  }

  /** What `PickStart` answers: a start, and whether it is one that fits. */
  ghost predicate IsPick(earliest: Time, latestFinish: Time, duration: Time, loadKw: real, excessAt: Excess, start: Time, fits: bool) {
    var latestStart := latestFinish - duration;
    if fits then FirstFit(earliest, latestStart, duration, loadKw, excessAt, start)
    else start == latestStart
         && forall j: nat :: earliest + j * SLOT <= latestStart ==> !Fits(excessAt, earliest + j * SLOT, duration, loadKw)
  }

  method PickStart(earliest: Time, latestFinish: Time, duration: Time, loadKw: real, excessAt: Excess) returns (start: Time, fits: bool)
    ensures IsPick(earliest, latestFinish, duration, loadKw, excessAt, start, fits)
    ensures start + duration <= latestFinish
    ensures earliest + duration <= latestFinish ==> earliest <= start
  {
    var latestStart := latestFinish - duration;
    start := earliest;
    ghost var k: nat := 0;
    while start <= latestStart
      invariant start == earliest + k * SLOT
      invariant forall j: nat :: j < k ==> !Fits(excessAt, earliest + j * SLOT, duration, loadKw)
      decreases latestStart - start
    {
      if Fits(excessAt, start, duration, loadKw) {
        assert FirstFitAt(earliest, latestStart, duration, loadKw, excessAt, k);
        return start, true;
      }
      start := start + SLOT;
      k := k + 1;
    }
    return latestStart, false;
  }

  /** Two grid points at which a first fit is found are in the order of their numbers. */
  lemma FirstFitNumber(earliest: Time, latestStart: Time, duration: Time, loadKw: real, excessAt: Excess, start: Time) returns (k: nat)
    requires FirstFit(earliest, latestStart, duration, loadKw, excessAt, start)
    ensures start == earliest + k * SLOT && FirstFitAt(earliest, latestStart, duration, loadKw, excessAt, k)
  {
    k :| start == earliest + k * SLOT && FirstFitAt(earliest, latestStart, duration, loadKw, excessAt, k);
  }

  /** The answer is determined by its contract. */
  lemma PickIsUnique(earliest: Time, latestFinish: Time, duration: Time, loadKw: real, excessAt: Excess,
                     start: Time, fits: bool, other: Time, otherFits: bool)
    requires IsPick(earliest, latestFinish, duration, loadKw, excessAt, start, fits)
    requires IsPick(earliest, latestFinish, duration, loadKw, excessAt, other, otherFits)
    ensures start == other && fits == otherFits
  {
  }

  /** A smaller load never starts later. */
  lemma SmallerLoadNotLater(earliest: Time, latestFinish: Time, duration: Time, excessAt: Excess,
                            smallKw: real, small: Time, smallFits: bool, largeKw: real, large: Time, largeFits: bool)
    requires smallKw <= largeKw
    requires IsPick(earliest, latestFinish, duration, smallKw, excessAt, small, smallFits)
    requires IsPick(earliest, latestFinish, duration, largeKw, excessAt, large, largeFits)
    ensures small <= large
    ensures largeFits ==> smallFits
  {
  }

  /** An earlier deadline never gives a later start. */
  lemma EarlierDeadlineNotLater(earliest: Time, duration: Time, loadKw: real, excessAt: Excess,
                                soon: Time, first: Time, firstFits: bool, late: Time, second: Time, secondFits: bool)
    requires soon <= late
    requires IsPick(earliest, soon, duration, loadKw, excessAt, first, firstFits)
    requires IsPick(earliest, late, duration, loadKw, excessAt, second, secondFits)
    ensures first <= second
    ensures firstFits ==> secondFits && first == second
  {
  }

  // ------------------------------------------------------------------------
  // What "fits spare solar" promises
  // ------------------------------------------------------------------------

  ghost function ExcessOf(spans: seq<Span>): Excess {
    (start, end) => ExcessAt(spans, start, end)
  }

  ghost predicate IsPlanOf(spans: seq<Span>, plan: seq<Decision>) {
    Usable(plan) && |spans| == |plan| && forall i :: 0 <= i < |plan| ==> plan[i].minutes > 0 && spans[i] == SpareOf(plan[i])
  }

  /** Some slot of the plan contains t, exports at least `kw`, and has at least as much solar left after the house. */
  ghost predicate SpareAt(plan: seq<Decision>, t: Time, kw: real) {
    exists i :: 0 <= i < |plan| && SlotSpares(plan[i], t, kw)
  }

  ghost predicate SlotSpares(d: Decision, t: Time, kw: real) {
    && d.start <= t < d.start + d.minutes * 60_000_000
    && kw * d.minutes as real <= d.exportKwh * 60.0
    && kw * d.minutes as real <= (d.solarKwh - d.consumptionKwh) * 60.0
  }

  /** A load fits at a start exactly when at every instant of its run some slot has that much spare solar. */
  lemma FitsIff(plan: seq<Decision>, spans: seq<Span>, start: Time, duration: Time, loadKw: real)
    requires IsPlanOf(spans, plan) && Disjoint(spans) && duration > 0 && loadKw > 0.0
    ensures Fits(ExcessOf(spans), start, duration, loadKw) <==> forall t :: start <= t < start + duration ==> SpareAt(plan, t, loadKw)
  {
    if Fits(ExcessOf(spans), start, duration, loadKw) {
      forall t | start <= t < start + duration ensures SpareAt(plan, t, loadKw) {
        var i := SpanAt(spans, start, start + duration, t);
        SpareIff(plan[i], t, loadKw);
        assert SlotSpares(plan[i], t, loadKw);
      }
    }
    if forall t :: start <= t < start + duration ==> SpareAt(plan, t, loadKw) {
      SpareEverywhere(plan, spans, start, start + duration, loadKw);
    }
  }

  lemma SlotAt(plan: seq<Decision>, spans: seq<Span>, t: Time, loadKw: real) returns (i: nat)
    requires IsPlanOf(spans, plan) && loadKw > 0.0 && SpareAt(plan, t, loadKw)
    ensures i < |spans| && spans[i].Contains(t) && loadKw <= spans[i].kw
  {
    i :| 0 <= i < |plan| && SlotSpares(plan[i], t, loadKw);
    SpareIff(plan[i], t, loadKw);
  }

  lemma SpareEverywhere(plan: seq<Decision>, spans: seq<Span>, start: Time, end: Time, loadKw: real)
    requires IsPlanOf(spans, plan) && Disjoint(spans) && start < end && loadKw > 0.0
    requires forall t :: start <= t < end ==> SpareAt(plan, t, loadKw)
    ensures ExcessAt(spans, start, end).Some? && ExcessAt(spans, start, end).value >= loadKw
  {
    forall t | start <= t < end ensures CoveredAt(spans, t) {
      var i := SlotAt(plan, spans, t, loadKw);
    }
    ExcessIffCovered(spans, start, end);
    var i, t :| 0 <= i < |spans| && start <= t < end && spans[i].Contains(t) && ExcessAt(spans, start, end).value == spans[i].kw;
    var j := SlotAt(plan, spans, t, loadKw);
    assert i == j;
  }

  lemma SpanAt(spans: seq<Span>, start: Time, end: Time, t: Time) returns (i: nat)
    requires Disjoint(spans) && start <= t < end && ExcessAt(spans, start, end).Some?
    ensures i < |spans| && spans[i].Contains(t) && ExcessAt(spans, start, end).value <= spans[i].kw
  {
    ExcessIffCovered(spans, start, end);
    assert CoveredAt(spans, t);
    i :| 0 <= i < |spans| && spans[i].Contains(t);
  }

  lemma PowerIff(kwh: real, minutes: int, kw: real)
    requires minutes > 0
    ensures kw <= Power(kwh, minutes) <==> kw * minutes as real <= kwh * 60.0
  {
    var m := minutes as real;
    assert Power(kwh, minutes) * m == kwh * 60.0;
    if kw <= Power(kwh, minutes) {
      assert (Power(kwh, minutes) - kw) * m >= 0.0;
    } else {
      assert (kw - Power(kwh, minutes)) * m > 0.0;
    }
  }

  lemma SpareIff(d: Decision, t: Time, kw: real)
    requires d.minutes > 0 && kw > 0.0
    ensures SlotSpares(d, t, kw) <==> SpareOf(d).Contains(t) && kw <= SpareOf(d).kw
  {
    var left := d.solarKwh - d.consumptionKwh;
    PowerIff(MinReal(d.exportKwh, MaxReal(0.0, left)), d.minutes, kw);
    assert kw * d.minutes as real > 0.0;
  }

  /** A load that was told it fits has that much spare solar at every instant of its run. */
  lemma FitsSpareSolar(plan: seq<Decision>, spans: seq<Span>, earliest: Time, latestFinish: Time, duration: Time, loadKw: real, start: Time, t: Time)
    requires IsPlanOf(spans, plan) && Disjoint(spans)
    requires duration > 0 && loadKw > 0.0
    requires IsPick(earliest, latestFinish, duration, loadKw, ExcessOf(spans), start, true)
    requires start <= t < start + duration
    ensures SpareAt(plan, t, loadKw)
  {
    var k := FirstFitNumber(earliest, latestFinish - duration, duration, loadKw, ExcessOf(spans), start);
    FitsIff(plan, spans, start, duration, loadKw);
  }

  ghost predicate TooLittle(excessAt: Excess, t: Time, duration: Time, loadKw: real) {
    excessAt(t, t + duration).None? || excessAt(t, t + duration).value < loadKw
  }

  /** The answer in plain figures: on a grid of 15 minutes, at the first point with enough spare power, else at the deadline. */
  lemma PickMeans(earliest: Time, latestFinish: Time, duration: Time, loadKw: real, excessAt: Excess, start: Time, fits: bool)
    requires IsPick(earliest, latestFinish, duration, loadKw, excessAt, start, fits)
    ensures fits ==> earliest <= start <= latestFinish - duration && (start - earliest) % 900_000_000 == 0
    ensures fits ==> !TooLittle(excessAt, start, duration, loadKw)
    ensures !fits ==> start == latestFinish - duration
    ensures forall t :: earliest <= t <= latestFinish - duration && (fits ==> t < start) && (t - earliest) % 900_000_000 == 0 ==>
              TooLittle(excessAt, t, duration, loadKw)
  {
    if fits {
      var k := FirstFitNumber(earliest, latestFinish - duration, duration, loadKw, excessAt, start);
    }
    forall t | earliest <= t <= latestFinish - duration && (fits ==> t < start) && (t - earliest) % 900_000_000 == 0
      ensures TooLittle(excessAt, t, duration, loadKw)
    {
      var j := (t - earliest) / 900_000_000;
      assert t == earliest + j * SLOT;
      assert !Fits(excessAt, earliest + j * SLOT, duration, loadKw);
    }
  }
}

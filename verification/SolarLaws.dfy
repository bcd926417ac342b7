/**
 The backfill told from its ticks in plain figures: when a half hour is reported, with what
 energy under constant and under linear power, and with which boost flag.
 */
module SolarLaws {
  import opened Prelude
  import opened SolarBackfill
  import opened SolarRuns

  // ------------------------------------------------------------------------
  // Reading the ticks
  // ------------------------------------------------------------------------

  /** The newest tick with a tracker that came at least 36 s after the one before it. */
  ghost function NewestSample(ticks: seq<Tick>): Option<Sample> {
    if ticks == [] then None else
      var last, tick := NewestSample(ticks[..|ticks| - 1]), ticks[|ticks| - 1];
      if tick.tracked && (last.None? || tick.now - last.value.at >= 36_000_000) then Some(Sample(tick.now, tick.power)) else last
  }

  /** The i-th tick ends a stretch that starts at `from` and is not over 30 minutes long. */
  ghost predicate Closes(ticks: seq<Tick>, i: int, from: Sample) {
    && 0 <= i < |ticks| && ticks[i].tracked && NewestSample(ticks[..i]) == Some(from)
    && 36_000_000 <= ticks[i].now - from.at <= 1_800_000_000
  }

  /** How many of the instants [a, b) lie in half hour p. */
  ghost function InHalfHour(a: Time, b: Time, p: int): (n: nat)
    decreases b - a
  {
    if a >= b then 0 else InHalfHour(a, b - 1, p) + if p * 1_800_000_000 <= b - 1 < (p + 1) * 1_800_000_000 then 1 else 0
  }

  /** How much of half hour p the stretches cover. */
  ghost function Covered(ticks: seq<Tick>, p: int): Time {
    if ticks == [] then 0 else
      var n := |ticks| - 1;
      var last := NewestSample(ticks[..n]);
      Covered(ticks[..n], p)
      + if last.Some? && Closes(ticks, n, last.value) then InHalfHour(last.value.at, ticks[n].now, p) else 0
  }

  lemma {:induction false} OverlapCounts(iv: Interval, b: Time, p: int)
    requires iv.start <= b
    ensures InHalfHour(iv.start, b, p) == Overlap(iv.(end := b), p)
    decreases b - iv.start
  {
    if iv.start == b {
    } else {
      OverlapCounts(iv, b - 1, p);
    }
  }

  lemma {:induction false} SampleIsBaseline(ticks: seq<Tick>)
    ensures NewestSample(ticks) == Baseline(ticks)
  {
    if ticks == [] {
    } else {
      SampleIsBaseline(ticks[..|ticks| - 1]);
    }
  }

  /** One tick either closes a stretch or leaves the history as it is. */
  lemma HistoryNext(ticks: seq<Tick>)
    requires ticks != []
    ensures var n := |ticks| - 1;
            var last, before := NewestSample(ticks[..n]), Integrated(ticks[..n]);
            Integrated(ticks) == if last.Some? && Closes(ticks, n, last.value) then before + [Trapezoid(last.value, ticks[n])] else before
  {
    SampleIsBaseline(ticks[..|ticks| - 1]);
  }

  lemma TimeInMore(ivs: seq<Interval>, iv: Interval, p: int)
    ensures TimeIn(ivs + [iv], p) == TimeIn(ivs, p) + Overlap(iv, p)
  {
    assert (ivs + [iv])[..|ivs|] == ivs;
  }

  lemma {:induction false} CoveredIsTimeIn(ticks: seq<Tick>, p: int)
    ensures Covered(ticks, p) == TimeIn(Integrated(ticks), p)
  {
    if ticks == [] {
    } else {
      var n := |ticks| - 1;
      var last := NewestSample(ticks[..n]);
      CoveredIsTimeIn(ticks[..n], p);
      HistoryNext(ticks);
      if last.Some? && Closes(ticks, n, last.value) {
        var iv := Trapezoid(last.value, ticks[n]);
        TimeInMore(Integrated(ticks[..n]), iv, p);
        OverlapCounts(iv, iv.end, p);
      }
    }
  }

  // ------------------------------------------------------------------------
  // When a half hour is reported
  // ------------------------------------------------------------------------

  ghost predicate Reported(calls: seq<Backfill>, p: int) {
    exists c :: c in calls && c.period == p
  }

  /** The tracker is told of a half hour exactly when it is over by the newest sample and at least 21 minutes of it are covered. */
  lemma ReportedIff(ticks: seq<Tick>, calls: seq<Backfill>, p: int)
    requires SentAlong(ticks, calls)
    ensures Reported(calls, p)
       <==> && NewestSample(ticks).Some? && (p + 1) * 1_800_000_000 <= NewestSample(ticks).value.at
            && Covered(ticks, p) >= 1_260_000_000
  {
    ToldOnce(ticks, calls);
    RunIsItsHistory(ticks, p);
    SampleIsBaseline(ticks);
    CoveredIsTimeIn(ticks, p);
    var flushed := RunOf(ticks).flushed;
    if p in flushed && flushed[p].Recorded() {
      assert CallFor(p, flushed[p]) in calls;
    }
  }

  /** What a reported half hour carries. */
  lemma ReportedAs(ticks: seq<Tick>, calls: seq<Backfill>, c: Backfill)
    requires SentAlong(ticks, calls)
    ensures c in calls ==> c.kwh == EnergyIn(Integrated(ticks), c.period) && (c.boost <==> BoostIn(Integrated(ticks), c.period))
  {
    ToldOnce(ticks, calls);
    RunIsItsHistory(ticks, c.period);
  }

  // ------------------------------------------------------------------------
  // Its energy
  // ------------------------------------------------------------------------

  ghost predicate Constant(ticks: seq<Tick>, kw: real) {
    forall i :: 0 <= i < |ticks| ==> ticks[i].power == kw
  }

  lemma {:induction false} SampleIsConstant(ticks: seq<Tick>, kw: real)
    requires Constant(ticks, kw)
    ensures NewestSample(ticks).Some? ==> NewestSample(ticks).value.power == kw
  {
    if ticks == [] {
    } else {
      SampleIsConstant(ticks[..|ticks| - 1], kw);
    }
  }

  ghost function Hours(t: Time): real {
    t as real / 3_600_000_000.0
  }

  lemma ShareOfConstant(kw: real, overlap: real, length: real, h: real)
    requires length > 0.0 && h > 0.0
    ensures (((kw + kw) / 2.0) * (length / h)) * (overlap / length) == kw * (overlap / h)
  {
    var x, y := length / h, overlap / length;
    assert (kw + kw) / 2.0 == kw;
    assert x * y == overlap / h by {
      assert x * h == length && y * length == overlap;
      assert (x * y) * h == (x * h) * y;
    }
    assert (kw * x) * y == kw * (x * y);
  }

  /** Constant power over a time. */
  ghost predicate Earns(kwh: real, kw: real, t: Time) {
    kwh == kw * Hours(t)
  }

  lemma EarnsMore(kwh: real, kw: real, t: Time, more: real, u: Time, total: real)
    requires Earns(kwh, kw, t) && Earns(more, kw, u) && total == kwh + more
    ensures Earns(total, kw, t + u)
  {
    assert Hours(t + u) == Hours(t) + Hours(u);
  }

  lemma ShareEarns(from: Sample, tick: Tick, kw: real, p: int)
    requires from.power == kw == tick.power && from.at < tick.now
    ensures Earns(Share(Trapezoid(from, tick), p), kw, Overlap(Trapezoid(from, tick), p))
  {
    var iv := Trapezoid(from, tick);
    ShareOfConstant(kw, Overlap(iv, p) as real, (iv.end - iv.start) as real, HOUR as real);
  }

  lemma EnergyInMore(ivs: seq<Interval>, iv: Interval, p: int)
    requires forall i :: i in ivs ==> i.start < i.end
    requires iv.start < iv.end
    ensures EnergyIn(ivs + [iv], p) == EnergyIn(ivs, p) + Share(iv, p)
  {
    assert (ivs + [iv])[..|ivs|] == ivs;
  }

  lemma {:induction false} ConstantEnergy(ticks: seq<Tick>, kw: real, p: int)
    requires Constant(ticks, kw)
    ensures Earns(EnergyIn(Integrated(ticks), p), kw, Covered(ticks, p))
  {
    if ticks == [] {
    } else {
      var n := |ticks| - 1;
      var last := NewestSample(ticks[..n]);
      ConstantEnergy(ticks[..n], kw, p);
      SampleIsConstant(ticks[..n], kw);
      HistoryNext(ticks);
      if last.Some? && Closes(ticks, n, last.value) {
        ConstantNext(ticks[..n], last.value, ticks[n], kw, p);
      }
    }
  }

  lemma ConstantNext(past: seq<Tick>, from: Sample, tick: Tick, kw: real, p: int)
    requires Earns(EnergyIn(Integrated(past), p), kw, Covered(past, p))
    requires from.power == kw == tick.power && from.at < tick.now
    ensures Earns(EnergyIn(Integrated(past) + [Trapezoid(from, tick)], p), kw, Covered(past, p) + InHalfHour(from.at, tick.now, p))
  {
    var ivs, iv := Integrated(past), Trapezoid(from, tick);
    EnergyInMore(ivs, iv, p);
    OverlapCounts(iv, iv.end, p);
    ShareEarns(from, tick, kw, p);
    EarnsMore(EnergyIn(ivs, p), kw, Covered(past, p), Share(iv, p), Overlap(iv, p), EnergyIn(ivs + [iv], p));
  }

  /** At constant power a reported half hour gets the power times its covered hours. */
  lemma ConstantPower(ticks: seq<Tick>, calls: seq<Backfill>, c: Backfill, kw: real)
    requires SentAlong(ticks, calls) && Constant(ticks, kw)
    ensures c in calls ==> Earns(c.kwh, kw, Covered(ticks, c.period))
  {
    ReportedAs(ticks, calls, c);
    ConstantEnergy(ticks, kw, c.period);
  }

  // Power on a line: `slope` kW an hour, `base` kW at the epoch.

  ghost function Line(slope: real, base: real, t: Time): real {
    slope * Hours(t) + base
  }

  /** The area under the line up to t, counted from the epoch. */
  ghost function AreaTo(slope: real, base: real, t: Time): real {
    slope * (Hours(t) * Hours(t)) / 2.0 + base * Hours(t)
  }

  ghost predicate Linear(ticks: seq<Tick>, slope: real, base: real) {
    forall i :: 0 <= i < |ticks| ==> ticks[i].power == Line(slope, base, ticks[i].now)
  }

  /** The area under the line along the stretches. */
  ghost function Area(ticks: seq<Tick>, slope: real, base: real): real {
    if ticks == [] then 0.0 else
      var n := |ticks| - 1;
      var last := NewestSample(ticks[..n]);
      Area(ticks[..n], slope, base)
      + if last.Some? && Closes(ticks, n, last.value) then AreaTo(slope, base, ticks[n].now) - AreaTo(slope, base, last.value.at) else 0.0
  }

  lemma {:induction false} SampleIsOnLine(ticks: seq<Tick>, slope: real, base: real)
    requires Linear(ticks, slope, base)
    ensures NewestSample(ticks).Some? ==> NewestSample(ticks).value.power == Line(slope, base, NewestSample(ticks).value.at)
  {
    if ticks == [] {
    } else {
      SampleIsOnLine(ticks[..|ticks| - 1], slope, base);
    }
  }

  lemma TrapezoidIsArea(slope: real, base: real, x: real, y: real)
    ensures (((slope * x + base) + (slope * y + base)) / 2.0) * (y - x)
         == (slope * (y * y) / 2.0 + base * y) - (slope * (x * x) / 2.0 + base * x)
  {
    var a, b := slope * x, slope * y;
    assert (a + b) * (y - x) == a * y - a * x + b * y - b * x;
    assert a * y == b * x && a * x == slope * (x * x) && b * y == slope * (y * y);
    assert base * (y - x) == base * y - base * x;
  }

  lemma {:induction false} LinearTotal(ticks: seq<Tick>, slope: real, base: real)
    requires Linear(ticks, slope, base)
    ensures TotalEnergy(Integrated(ticks)) == Area(ticks, slope, base)
  {
    if ticks == [] {
    } else {
      var n := |ticks| - 1;
      var last, before := NewestSample(ticks[..n]), Integrated(ticks[..n]);
      LinearTotal(ticks[..n], slope, base);
      SampleIsOnLine(ticks[..n], slope, base);
      HistoryNext(ticks);
      if last.Some? && Closes(ticks, n, last.value) {
        var s, tick := last.value, ticks[n];
        LinearStretch(s, tick, slope, base);
        assert (before + [Trapezoid(s, tick)])[..|before|] == before;
      }
    }
  }

  lemma LinearStretch(s: Sample, tick: Tick, slope: real, base: real)
    requires s.power == Line(slope, base, s.at) && tick.power == Line(slope, base, tick.now)
    ensures Trapezoid(s, tick).kwh == AreaTo(slope, base, tick.now) - AreaTo(slope, base, s.at)
  {
    TrapezoidIsArea(slope, base, Hours(s.at), Hours(tick.now));
    assert (tick.now - s.at) as real / HOUR as real == Hours(tick.now) - Hours(s.at);
  }

  /** All stretches lie in the half hours [lo, hi). */
  ghost predicate StretchesIn(ticks: seq<Tick>, lo: int, hi: int) {
    lo <= hi && forall i, from :: Closes(ticks, i, from) ==> lo * 1_800_000_000 <= from.at && ticks[i].now <= hi * 1_800_000_000
  }

  lemma {:induction false} IntervalCloses(ticks: seq<Tick>, iv: Interval) returns (i: int, from: Sample)
    requires iv in Integrated(ticks)
    ensures Closes(ticks, i, from) && iv == Trapezoid(from, ticks[i])
  {
    var n := |ticks| - 1;
    HistoryNext(ticks);
    if iv in Integrated(ticks[..n]) {
      i, from := IntervalCloses(ticks[..n], iv);
      assert ticks[..n][..i] == ticks[..i];
    } else {
      i, from := n, NewestSample(ticks[..n]).value;
    }
  }

  /** Where power is linear in time, what is told, discarded and still open is the area under the line: both samples of a stretch weigh the same. */
  lemma LinearPower(ticks: seq<Tick>, slope: real, base: real, lo: int, hi: int)
    requires Linear(ticks, slope, base) && StretchesIn(ticks, lo, hi)
    ensures var run := RunOf(ticks);
            Sum(p => Backfilled(run, p), lo, hi) + Sum(p => Discarded(run, p), lo, hi) + Sum(p => Open(run, p), lo, hi)
            == Area(ticks, slope, base)
  {
    forall iv | iv in Integrated(ticks) ensures lo * PERIOD <= iv.start && iv.end <= hi * PERIOD {
      var i, from := IntervalCloses(ticks, iv);
    }
    EnergyIsConserved(ticks, lo, hi);
    LinearTotal(ticks, slope, base);
  }

  // ------------------------------------------------------------------------
  // Its flag
  // ------------------------------------------------------------------------

  /** The i-th tick, boosted, ends a stretch that reaches into half hour p. */
  ghost predicate BoostedBy(ticks: seq<Tick>, i: int, from: Sample, p: int) {
    Closes(ticks, i, from) && ticks[i].boost && InHalfHour(from.at, ticks[i].now, p) > 0
  }

  lemma {:induction false} CloserIsIntegrated(ticks: seq<Tick>, i: int, from: Sample)
    requires Closes(ticks, i, from)
    ensures Trapezoid(from, ticks[i]) in Integrated(ticks)
    decreases |ticks|
  {
    HistoryNext(ticks);
    var n := |ticks| - 1;
    if i == n {
    } else {
      assert ticks[..n][..i] == ticks[..i];
      CloserIsIntegrated(ticks[..n], i, from);
    }
  }

  /** A reported half hour is flagged exactly when some boosted tick ended a stretch that reaches into it. */
  lemma BoostedIff(ticks: seq<Tick>, calls: seq<Backfill>, c: Backfill)
    requires SentAlong(ticks, calls)
    ensures c in calls ==> (c.boost <==> exists i, from :: BoostedBy(ticks, i, from, c.period))
  {
    ReportedAs(ticks, calls, c);
    if iv :| iv in Integrated(ticks) && iv.boost && Touches(iv, c.period) {
      var i, from := IntervalCloses(ticks, iv);
      OverlapCounts(iv, iv.end, c.period);
      assert BoostedBy(ticks, i, from, c.period);
    }
    if i, from :| BoostedBy(ticks, i, from, c.period) {
      CloserIsIntegrated(ticks, i, from);
      OverlapCounts(Trapezoid(from, ticks[i]), ticks[i].now, c.period);
    }
  }
}

/**
 What the backfill did over a whole run of medium ticks, told from the ticks
 alone: which intervals were integrated, and where every kWh and second went.
 */
module SolarRuns {
  import opened Prelude
  import opened SolarBackfill

  // ------------------------------------------------------------------------
  // The history, read off the ticks
  // ------------------------------------------------------------------------

  predicate Accepted(last: Option<Sample>, tick: Tick) {
    tick.tracked && (last.None? || tick.now - last.value.at >= MIN_INTERVAL)
  }

  /** The sample the next interval starts from: the newest tick not too close to its predecessor. */
  ghost function Baseline(ticks: seq<Tick>): Option<Sample> {
    if ticks == [] then None else
      var last := Baseline(ticks[..|ticks| - 1]);
      var tick := ticks[|ticks| - 1];
      if Accepted(last, tick) then Some(Sample(tick.now, tick.power)) else last
  }

  /** The trapezoids of a run: gaps over MAX_INTEGRATION are skipped. */
  ghost function Integrated(ticks: seq<Tick>): (ivs: seq<Interval>)
    ensures forall iv :: iv in ivs ==> iv.start < iv.end
  {
    if ticks == [] then [] else
      var last := Baseline(ticks[..|ticks| - 1]);
      var tick := ticks[|ticks| - 1];
      var before := Integrated(ticks[..|ticks| - 1]);
      if tick.tracked && last.Some? && MIN_INTERVAL <= tick.now - last.value.at <= MAX_INTEGRATION
      then before + [Trapezoid(last.value, tick)]
      else before
  }

  ghost function EnergyIn(ivs: seq<Interval>, p: int): real
    requires forall iv :: iv in ivs ==> iv.start < iv.end
  {
    if ivs == [] then 0.0 else EnergyIn(ivs[..|ivs| - 1], p) + Share(ivs[|ivs| - 1], p)
  }

  ghost function TimeIn(ivs: seq<Interval>, p: int): (t: Time)
    ensures t >= 0
  {
    if ivs == [] then 0 else TimeIn(ivs[..|ivs| - 1], p) + Overlap(ivs[|ivs| - 1], p)
  }

  ghost predicate BoostIn(ivs: seq<Interval>, p: int) {
    exists iv :: iv in ivs && iv.boost && Touches(iv, p)
  }

  ghost function TotalEnergy(ivs: seq<Interval>): real {
    if ivs == [] then 0.0 else TotalEnergy(ivs[..|ivs| - 1]) + ivs[|ivs| - 1].kwh
  }

  ghost predicate EndedBy(p: int, last: Option<Sample>) {
    last.Some? && Ended(p, last.value.at)
  }

  // ------------------------------------------------------------------------
  // A run of the scheduler
  // ------------------------------------------------------------------------

  datatype Run = Run(state: State, flushed: map<int, Flush>)

  ghost function RunOf(ticks: seq<Tick>): Run {
    if ticks == [] then Run(INITIAL, map[]) else
      var before := RunOf(ticks[..|ticks| - 1]);
      var (state, gone) := Step(before.state, ticks[|ticks| - 1]);
      Run(state, before.flushed + gone)
  }

  /** The accumulators and the flushes hold, for half hour `p`, exactly what the history says. */
  ghost predicate LedgerAt(run: Run, ivs: seq<Interval>, last: Option<Sample>, p: int)
    requires forall iv :: iv in ivs ==> iv.start < iv.end
  {
    var open := TimeIn(ivs, p) > 0 && !EndedBy(p, last);
    && (p in run.state.energy <==> open)
    && (p in run.state.coverage <==> open)
    && (p in run.state.boost <==> open && BoostIn(ivs, p))
    && (open ==> run.state.energy[p] == EnergyIn(ivs, p) && run.state.coverage[p] == TimeIn(ivs, p))
    && (p in run.state.boost ==> run.state.boost[p])
    && (p in run.flushed <==> TimeIn(ivs, p) > 0 && EndedBy(p, last))
    && (p in run.flushed ==> run.flushed[p] == Flush(EnergyIn(ivs, p), TimeIn(ivs, p), BoostIn(ivs, p)))
  }

  lemma {:induction false} RunIsItsHistory(ticks: seq<Tick>, p: int)
    ensures RunOf(ticks).state.last == Baseline(ticks)
    ensures LedgerAt(RunOf(ticks), Integrated(ticks), Baseline(ticks), p)
  {
    if ticks == [] {
    } else {
      var past := ticks[..|ticks| - 1];
      RunIsItsHistory(past, p);
      CoverageFits(past, p);
      StepKeepsLedger(RunOf(past), Integrated(past), ticks[|ticks| - 1], p);
    }
  }

  lemma StepKeepsLedger(run: Run, ivs: seq<Interval>, tick: Tick, p: int)
    requires forall iv :: iv in ivs ==> iv.start < iv.end
    requires LedgerAt(run, ivs, run.state.last, p) && (run.state.last.None? ==> TimeIn(ivs, p) == 0)
    ensures var (state, gone) := Step(run.state, tick);
            LedgerAt(Run(state, run.flushed + gone),
                     if Accepts(run.state, tick) && tick.now - run.state.last.value.at <= MAX_INTEGRATION
                     then ivs + [Trapezoid(run.state.last.value, tick)] else ivs,
                     if Accepted(run.state.last, tick) then Some(Sample(tick.now, tick.power)) else run.state.last,
                     p)
  {
    if Accepts(run.state, tick) {
      AcceptKeepsLedger(run, ivs, tick, p);
    } else {
      assert run.flushed + map[] == run.flushed;
    }
  }

  /** A tick that moves the baseline. */
  lemma AcceptKeepsLedger(run: Run, ivs: seq<Interval>, tick: Tick, p: int)
    requires forall iv :: iv in ivs ==> iv.start < iv.end
    requires LedgerAt(run, ivs, run.state.last, p) && Accepts(run.state, tick)
    ensures var now := Some(Sample(tick.now, tick.power));
            var full := Integrate(run.state, tick).(last := now);
            var gone := Expired(full, tick.now);
            LedgerAt(Run(Without(full, gone.Keys), run.flushed + gone),
                     if tick.now - run.state.last.value.at <= MAX_INTEGRATION then ivs + [Trapezoid(run.state.last.value, tick)] else ivs,
                     now, p)
  {
    var last, now := run.state.last, Some(Sample(tick.now, tick.power));
    var full := Integrate(run.state, tick).(last := now);
    if tick.now - last.value.at <= MAX_INTEGRATION {
      var iv := Trapezoid(last.value, tick);
      IntegrateAt(run, ivs, last, iv, full, p);
      FlushAt(Run(full, run.flushed), ivs + [iv], last, now, p);
    } else {
      FlushAt(Run(full, run.flushed), ivs, last, now, p);
    }
  }

  /** Prorating one more interval moves the ledger from `ivs` to `ivs + [iv]`. */
  lemma IntegrateAt(run: Run, ivs: seq<Interval>, last: Option<Sample>, iv: Interval, full: State, p: int)
    requires forall i :: i in ivs ==> i.start < i.end
    requires last.Some? && iv.start == last.value.at < iv.end
    requires LedgerAt(run, ivs, last, p)
    requires full.energy == AddEnergy(run.state.energy, iv, Touched(iv))
    requires full.coverage == AddCoverage(run.state.coverage, iv, Touched(iv))
    requires full.boost == AddBoost(run.state.boost, iv, Touched(iv))
    ensures LedgerAt(Run(full, run.flushed), ivs + [iv], last, p)
  {
    assert (ivs + [iv])[..|ivs|] == ivs;
    BoostNext(ivs, iv, p);
    NoTimeNoEnergy(ivs, p);
    if EndedBy(p, last) {
      assert !Touches(iv, p);
    }
  }

  /** Advancing the baseline and flushing keeps the ledger. */
  lemma FlushAt(full: Run, ivs: seq<Interval>, last: Option<Sample>, now: Option<Sample>, p: int)
    requires forall i :: i in ivs ==> i.start < i.end
    requires LedgerAt(full, ivs, last, p)
    requires last.Some? && now.Some? && last.value.at <= now.value.at
    ensures var gone := Expired(full.state, now.value.at);
            LedgerAt(Run(Without(full.state, gone.Keys), full.flushed + gone), ivs, now, p)
  {
  }

  lemma BoostNext(ivs: seq<Interval>, iv: Interval, p: int)
    ensures BoostIn(ivs + [iv], p) <==> BoostIn(ivs, p) || (iv.boost && Touches(iv, p))
  {
  }

  lemma {:induction false} NoTimeNoEnergy(ivs: seq<Interval>, p: int)
    requires forall iv :: iv in ivs ==> iv.start < iv.end
    ensures TimeIn(ivs, p) == 0 ==> EnergyIn(ivs, p) == 0.0 && !BoostIn(ivs, p)
  {
    if ivs == [] {
    } else {
      var rest, iv := ivs[..|ivs| - 1], ivs[|ivs| - 1];
      NoTimeNoEnergy(rest, p);
      assert rest + [iv] == ivs;
      BoostNext(rest, iv, p);
    }
  }

  // ------------------------------------------------------------------------
  // Attribution
  // ------------------------------------------------------------------------

  /** Integrated intervals follow one another: none starts before an earlier one ended. */
  lemma {:induction false} IntervalsDoNotOverlap(ticks: seq<Tick>)
    ensures var ivs := Integrated(ticks);
            && (forall iv :: iv in ivs ==> Baseline(ticks).Some? && iv.end <= Baseline(ticks).value.at)
            && (forall i, j :: 0 <= i < j < |ivs| ==> ivs[i].end <= ivs[j].start)
  {
    if ticks == [] {
    } else {
      IntervalsDoNotOverlap(ticks[..|ticks| - 1]);
    }
  }

  /** A half hour is never covered for longer than it lasts, nor beyond the newest sample. */
  lemma {:induction false} CoverageFits(ticks: seq<Tick>, p: int)
    ensures 0 <= TimeIn(Integrated(ticks), p) <= PERIOD
    ensures Baseline(ticks).Some? ==>
              TimeIn(Integrated(ticks), p) <= Max(0, Min(Baseline(ticks).value.at, (p + 1) * PERIOD) - p * PERIOD)
    ensures Baseline(ticks).None? ==> Integrated(ticks) == []
  {
    if ticks == [] {
    } else {
      var past := ticks[..|ticks| - 1];
      CoverageFits(past, p);
      var ivs := Integrated(past);
      if |Integrated(ticks)| > |ivs| {
        assert Integrated(ticks)[..|ivs|] == ivs;
      }
    }
  }

  /** After every run the only half hour that can be open is the one the newest sample falls in. */
  lemma AtMostOneOpen(ticks: seq<Tick>, p: int)
    requires p in RunOf(ticks).state.energy
    ensures Baseline(ticks).Some? && p == Baseline(ticks).value.at / PERIOD
    ensures RunOf(ticks).state.coverage.Keys == RunOf(ticks).state.energy.Keys == {p}
    ensures RunOf(ticks).state.boost.Keys <= {p}
  {
    forall q ensures q in RunOf(ticks).state.energy <==> q in RunOf(ticks).state.coverage
      ensures q in RunOf(ticks).state.boost ==> q in RunOf(ticks).state.energy
      ensures q in RunOf(ticks).state.energy ==> Baseline(ticks).Some? && q == Baseline(ticks).value.at / PERIOD
    {
      RunIsItsHistory(ticks, q);
      CoverageFits(ticks, q);
    }
  }

  /**
   No half hour is flushed twice, and one that was flushed is never accumulated
   again: whatever the next tick brings touches only half hours not flushed so far.
   */
  lemma FlushedOnce(ticks: seq<Tick>, next: Tick, p: int)
    ensures p in RunOf(ticks).flushed ==>
              && p !in Step(RunOf(ticks).state, next).1
              && p !in Step(RunOf(ticks).state, next).0.energy
              && p in RunOf(ticks + [next]).flushed
              && RunOf(ticks + [next]).flushed[p] == RunOf(ticks).flushed[p]
  {
    assert (ticks + [next])[..|ticks|] == ticks;
    RunIsItsHistory(ticks, p);
    var run, last := RunOf(ticks), Baseline(ticks);
    if p in run.flushed && Accepts(run.state, next) {
      assert !Touches(Trapezoid(last.value, next), p);
      assert p !in Integrate(run.state, next).energy;
    }
  }

  /** What the tracker was told about a half hour is its whole integrated energy, and says boost exactly when one did. */
  lemma RecordedMeansCovered(ticks: seq<Tick>, p: int)
    ensures var ivs, flushed := Integrated(ticks), RunOf(ticks).flushed;
            p in flushed && flushed[p].Recorded() ==>
              && MIN_COVERAGE <= TimeIn(ivs, p) <= PERIOD
              && flushed[p].kwh == EnergyIn(ivs, p)
              && (flushed[p].boost <==> exists iv :: iv in ivs && iv.boost && Touches(iv, p))
  {
    RunIsItsHistory(ticks, p);
    CoverageFits(ticks, p);
  }

  // ------------------------------------------------------------------------
  // What the tracker is told
  // ------------------------------------------------------------------------

  /** `calls` are what the tracker is sent, tick by tick. */
  ghost predicate SentAlong(ticks: seq<Tick>, calls: seq<Backfill>)
    decreases |ticks|
  {
    if ticks == [] then calls == [] else
      exists cut :: 0 <= cut <= |calls| && SentAt(ticks, calls, cut) && SentAlong(ticks[..|ticks| - 1], calls[..cut])
  }

  /** The calls from `cut` on are those of the last tick. */
  ghost predicate SentAt(ticks: seq<Tick>, calls: seq<Backfill>, cut: nat)
    requires ticks != [] && cut <= |calls|
  {
    var gone := Step(RunOf(ticks[..|ticks| - 1]).state, ticks[|ticks| - 1]).1;
    Lists(calls[cut..], gone, gone.Keys)
  }

  lemma ListsJoin(a: seq<Backfill>, b: seq<Backfill>, before: map<int, Flush>, gone: map<int, Flush>)
    requires Lists(a, before, before.Keys) && Lists(b, gone, gone.Keys) && before.Keys !! gone.Keys
    ensures Lists(a + b, before + gone, (before + gone).Keys)
  {
    assert forall p :: p in before ==> (before + gone)[p] == before[p];
    forall i, j | 0 <= i < j < |a + b| ensures (a + b)[i].period != (a + b)[j].period {
      if i < |a| <= j {
        assert a[i] in a && b[j - |a|] in b;
      }
    }
  }

  /** Over a whole run the tracker is told of every recorded half hour exactly once, and of nothing else. */
  lemma {:induction false} ToldOnce(ticks: seq<Tick>, calls: seq<Backfill>)
    requires SentAlong(ticks, calls)
    ensures Lists(calls, RunOf(ticks).flushed, RunOf(ticks).flushed.Keys)
    decreases |ticks|
  {
    if ticks == [] {
    } else {
      var past, last := ticks[..|ticks| - 1], ticks[|ticks| - 1];
      var cut :| 0 <= cut <= |calls| && SentAt(ticks, calls, cut) && SentAlong(past, calls[..cut]);
      ToldOnce(past, calls[..cut]);
      var before, gone := RunOf(past).flushed, Step(RunOf(past).state, last).1;
      forall p | p in before ensures p !in gone {
        FlushedOnce(past, last, p);
      }
      ListsJoin(calls[..cut], calls[cut..], before, gone);
      assert calls[..cut] + calls[cut..] == calls;
    }
  }

  /** The scheduler over a whole run, from its construction. */
  method RunTicks(ticks: seq<Tick>) returns (calls: seq<Backfill>)
    ensures SentAlong(ticks, calls)
    ensures Lists(calls, RunOf(ticks).flushed, RunOf(ticks).flushed.Keys)
  {
    var scheduler := new TickScheduler();
    calls := [];
    for i := 0 to |ticks|
      invariant SentAlong(ticks[..i], calls)
      invariant scheduler.Fields() == RunOf(ticks[..i]).state
      invariant fresh(scheduler)
    {
      assert ticks[..i + 1][..i] == ticks[..i];
      var more, _ := scheduler.BackfillSolarActual(ticks[i]);
      SentNext(ticks[..i], ticks[i], calls, more);
      assert ticks[..i] + [ticks[i]] == ticks[..i + 1];
      calls := calls + more;
    }
    assert ticks[..|ticks|] == ticks;
    ToldOnce(ticks, calls);
  }

  lemma SentNext(past: seq<Tick>, tick: Tick, calls: seq<Backfill>, more: seq<Backfill>)
    requires SentAlong(past, calls)
    requires Lists(more, Step(RunOf(past).state, tick).1, Step(RunOf(past).state, tick).1.Keys)
    ensures SentAlong(past + [tick], calls + more)
  {
    var ticks, all := past + [tick], calls + more;
    assert ticks[..|past|] == past && all[..|calls|] == calls && all[|calls|..] == more;
    assert SentAt(ticks, all, |calls|);
  }

  // ------------------------------------------------------------------------
  // Conservation
  // ------------------------------------------------------------------------

  ghost function Backfilled(run: Run, p: int): real {
    if p in run.flushed && run.flushed[p].Recorded() then run.flushed[p].kwh else 0.0
  }

  ghost function Discarded(run: Run, p: int): real {
    if p in run.flushed && !run.flushed[p].Recorded() then run.flushed[p].kwh else 0.0
  }

  ghost function Open(run: Run, p: int): real {
    EnergyAt(run.state.energy, p)
  }

  /** Every half hour that an integrated interval reaches lies in [lo, hi). */
  ghost predicate Within(ivs: seq<Interval>, lo: int, hi: int) {
    lo <= hi && forall iv :: iv in ivs ==> lo * PERIOD <= iv.start && iv.end <= hi * PERIOD
  }

  /** All energy integrated is backfilled, discarded or still open: nothing is lost or counted twice. */
  lemma EnergyIsConserved(ticks: seq<Tick>, lo: int, hi: int)
    requires Within(Integrated(ticks), lo, hi)
    ensures var run := RunOf(ticks);
            Sum(p => Backfilled(run, p), lo, hi) + Sum(p => Discarded(run, p), lo, hi) + Sum(p => Open(run, p), lo, hi)
            == TotalEnergy(Integrated(ticks))
  {
    var run, ivs := RunOf(ticks), Integrated(ticks);
    var b, d, o := p => Backfilled(run, p), p => Discarded(run, p), p => Open(run, p);
    var bd, all := p => Backfilled(run, p) + Discarded(run, p), EnergyOver(ivs);
    forall p | lo <= p < hi ensures all(p) == bd(p) + o(p) {
      RunIsItsHistory(ticks, p);
      NoTimeNoEnergy(ivs, p);
    }
    SumOfTwo(b, d, bd, lo, hi);
    SumOfTwo(bd, o, all, lo, hi);
    PeriodsSumToIntervals(ivs, lo, hi);
  }

  ghost function EnergyOver(ivs: seq<Interval>): int -> real
    requires forall iv :: iv in ivs ==> iv.start < iv.end
  {
    p => EnergyIn(ivs, p)
  }

  lemma {:induction false} PeriodsSumToIntervals(ivs: seq<Interval>, lo: int, hi: int)
    requires forall iv :: iv in ivs ==> iv.start < iv.end
    requires Within(ivs, lo, hi)
    ensures Sum(EnergyOver(ivs), lo, hi) == TotalEnergy(ivs)
  {
    if ivs == [] {
      SumOfZero(EnergyOver(ivs), lo, hi);
    } else {
      var rest, iv := ivs[..|ivs| - 1], ivs[|ivs| - 1];
      PeriodsSumToIntervals(rest, lo, hi);
      SharesSumToInterval(iv, lo, hi);
      SumOfTwo(EnergyOver(rest), SharesOf(iv), EnergyOver(ivs), lo, hi);
    }
  }

  lemma {:induction false} SumOfZero(f: int -> real, lo: int, hi: int)
    requires lo <= hi && forall p :: f(p) == 0.0
    ensures Sum(f, lo, hi) == 0.0
    decreases hi - lo
  {
    if lo == hi {
    } else {
      SumOfZero(f, lo, hi - 1);
    }
  }

  ghost function SharesOf(iv: Interval): int -> real
    requires iv.start < iv.end
  {
    p => Share(iv, p)
  }

  /** The half-hour overlaps of an interval add up to the interval. */
  lemma SharesSumToInterval(iv: Interval, lo: int, hi: int)
    requires iv.start < iv.end && lo * PERIOD <= iv.start && iv.end <= hi * PERIOD && lo <= hi
    ensures Sum(SharesOf(iv), lo, hi) == iv.kwh
  {
    SharesUpTo(iv, lo, hi);
    assert Elapsed(iv, hi) == iv.end - iv.start;
    WholeFraction(iv.kwh, (iv.end - iv.start) as real);
  }

  lemma WholeFraction(kwh: real, whole: real)
    requires whole > 0.0
    ensures Fraction(kwh, whole, whole) == kwh
  {
    assert whole / whole == 1.0;
  }

  ghost function Elapsed(iv: Interval, h: int): Time {
    Max(0, Min(iv.end, h * PERIOD) - iv.start)
  }

  lemma {:induction false} SharesUpTo(iv: Interval, lo: int, h: int)
    requires iv.start < iv.end && lo * PERIOD <= iv.start && lo <= h
    ensures Sum(SharesOf(iv), lo, h) == Fraction(iv.kwh, Elapsed(iv, h) as real, (iv.end - iv.start) as real)
    decreases h - lo
  {
    if lo == h {
    } else {
      SharesUpTo(iv, lo, h - 1);
      assert Elapsed(iv, h) == Elapsed(iv, h - 1) + Overlap(iv, h - 1);
      SplitShare(iv.kwh, Elapsed(iv, h - 1) as real, Overlap(iv, h - 1) as real, (iv.end - iv.start) as real);
    }
  }

  ghost function Fraction(kwh: real, part: real, whole: real): real
    requires whole > 0.0
  {
    kwh * (part / whole)
  }

  lemma SplitShare(kwh: real, a: real, b: real, length: real)
    requires length > 0.0
    ensures Fraction(kwh, a, length) + Fraction(kwh, b, length) == Fraction(kwh, a + b, length)
  {
    assert a / length + b / length == (a + b) / length;
  }

  // ------------------------------------------------------------------------
  // The energy told
  // ------------------------------------------------------------------------

  ghost function EnergyTold(calls: seq<Backfill>): real {
    if calls == [] then 0.0 else EnergyTold(calls[..|calls| - 1]) + calls[|calls| - 1].kwh
  }

  /** The energy told of half hour p. */
  ghost function ToldOf(calls: seq<Backfill>, p: int): real {
    if calls == [] then 0.0 else
      ToldOf(calls[..|calls| - 1], p) + if calls[|calls| - 1].period == p then calls[|calls| - 1].kwh else 0.0
  }

  lemma {:induction false} OnlyOneCall(calls: seq<Backfill>, p: int, i: int)
    requires forall j, k :: 0 <= j < k < |calls| ==> calls[j].period != calls[k].period
    requires forall j :: 0 <= j < |calls| && calls[j].period == p ==> j == i
    ensures ToldOf(calls, p) == if 0 <= i < |calls| && calls[i].period == p then calls[i].kwh else 0.0
  {
    if calls == [] {
    } else {
      OnlyOneCall(calls[..|calls| - 1], p, i);
    }
  }

  lemma ToldIsBackfilled(run: Run, calls: seq<Backfill>, p: int)
    requires Lists(calls, run.flushed, run.flushed.Keys)
    ensures ToldOf(calls, p) == Backfilled(run, p)
  {
    if i :| 0 <= i < |calls| && calls[i].period == p {
      assert calls[i] in calls;
      OnlyOneCall(calls, p, i);
    } else {
      OnlyOneCall(calls, p, -1);
      assert forall c :: c in calls ==> c.period != p;
    }
  }

  ghost function Single(call: Backfill): int -> real {
    p => if call.period == p then call.kwh else 0.0
  }

  ghost function Told(calls: seq<Backfill>): int -> real {
    p => ToldOf(calls, p)
  }

  lemma {:induction false} SumOfSingle(call: Backfill, lo: int, hi: int)
    requires lo <= hi
    ensures Sum(Single(call), lo, hi) == if lo <= call.period < hi then call.kwh else 0.0
    decreases hi - lo
  {
    if lo == hi {
    } else {
      SumOfSingle(call, lo, hi - 1);
    }
  }

  lemma {:induction false} ToldSums(calls: seq<Backfill>, lo: int, hi: int)
    requires lo <= hi && forall c :: c in calls ==> lo <= c.period < hi
    ensures Sum(Told(calls), lo, hi) == EnergyTold(calls)
  {
    if calls == [] {
      SumOfZero(Told(calls), lo, hi);
    } else {
      var past, last := calls[..|calls| - 1], calls[|calls| - 1];
      ToldSums(past, lo, hi);
      SumOfSingle(last, lo, hi);
      SumOfTwo(Told(past), Single(last), Told(calls), lo, hi);
    }
  }

  /** The energies the tracker is told over a run add up to what was backfilled. */
  lemma TrackerGetsBackfilled(ticks: seq<Tick>, calls: seq<Backfill>, lo: int, hi: int)
    requires SentAlong(ticks, calls) && lo <= hi && forall c :: c in calls ==> lo <= c.period < hi
    ensures EnergyTold(calls) == Sum(p => Backfilled(RunOf(ticks), p), lo, hi)
  {
    var run := RunOf(ticks);
    ToldOnce(ticks, calls);
    ToldSums(calls, lo, hi);
    forall p ensures ToldOf(calls, p) == Backfilled(run, p) {
      ToldIsBackfilled(run, calls, p);
    }
    SameSum(Told(calls), p => Backfilled(run, p), lo, hi);
  }

  lemma {:induction false} SameSum(f: int -> real, g: int -> real, lo: int, hi: int)
    requires lo <= hi && forall p :: f(p) == g(p)
    ensures Sum(f, lo, hi) == Sum(g, lo, hi)
    decreases hi - lo
  {
    if lo == hi {
    } else {
      SameSum(f, g, lo, hi - 1);
    }
  }
}

/**
 The solar energy backfill of the medium tick: power samples taken at irregular
 instants are integrated by trapezoids, prorated over wall-clock half hours and
 handed to the accuracy tracker once a half hour is over.
 */
module SolarBackfill {
  import opened Prelude

  const PERIOD: Time := 1_800_000_000            // 30 min
  const MIN_INTERVAL: Time := 36_000_000         // 0.01 h
  const MAX_INTEGRATION: Time := 1_800_000_000   // 1800 s
  const MIN_COVERAGE: Time := 1_260_000_000      // 0.7 * 1800 s

  /** What one medium tick reads: the clock, the solar power (kW), the boost flag, and whether there is a tracker. */
  datatype Tick = Tick(now: Time, power: real, boost: bool, tracked: bool)

  /** One integrated trapezoid. */
  datatype Interval = Interval(start: Time, end: Time, kwh: real, boost: bool)

  datatype Sample = Sample(at: Time, power: real)

  /** A half hour leaving the accumulators; it reaches the tracker only if `Recorded`. */
  datatype Flush = Flush(kwh: real, coverage: Time, boost: bool) {
    predicate Recorded() {
      coverage >= MIN_COVERAGE
    }
  }

  /** A call `tracker.backfill_actual(period, kwh, is_boost)`. */
  datatype Backfill = Backfill(period: int, kwh: real, boost: bool)

  // Half hours are numbered from the epoch: half hour p is [p * PERIOD, (p + 1) * PERIOD).

  predicate Ended(p: int, now: Time) {
    (p + 1) * PERIOD <= now
  }

  function Overlap(iv: Interval, p: int): Time {
    Max(0, Min(iv.end, (p + 1) * PERIOD) - Max(iv.start, p * PERIOD))
  }

  predicate Touches(iv: Interval, p: int) {
    Overlap(iv, p) > 0
  }

  function Share(iv: Interval, p: int): real
    requires iv.start < iv.end
  {
    iv.kwh * (Overlap(iv, p) as real / (iv.end - iv.start) as real)
  }

  function Trapezoid(from: Sample, tick: Tick): Interval {
    Interval(from.at, tick.now,
             ((from.power + tick.power) / 2.0) * ((tick.now - from.at) as real / HOUR as real),
             tick.boost)
  }

  // ------------------------------------------------------------------------
  // The scheduler's fields as a value, and one medium tick
  // ------------------------------------------------------------------------

  datatype State = State(
    last: Option<Sample>,
    energy: map<int, real>,
    coverage: map<int, Time>,
    boost: map<int, bool>)

  const INITIAL := State(None, map[], map[], map[])

  function Touched(iv: Interval): (touched: set<int>)
    ensures forall p :: p in touched <==> Touches(iv, p)
  {
    set p | iv.start / PERIOD <= p <= iv.end / PERIOD && Touches(iv, p)
  }

  function EnergyAt(energy: map<int, real>, p: int): real {
    if p in energy then energy[p] else 0.0
  }

  function CoverageAt(coverage: map<int, Time>, p: int): Time {
    if p in coverage then coverage[p] else 0
  }

  function AddEnergy(energy: map<int, real>, iv: Interval, hit: set<int>): map<int, real>
    requires iv.start < iv.end
  {
    map p | p in energy.Keys + hit :: EnergyAt(energy, p) + if p in hit then Share(iv, p) else 0.0
  }

  function AddCoverage(coverage: map<int, Time>, iv: Interval, hit: set<int>): map<int, Time> {
    map p | p in coverage.Keys + hit :: CoverageAt(coverage, p) + if p in hit then Overlap(iv, p) else 0
  }

  function AddBoost(boost: map<int, bool>, iv: Interval, hit: set<int>): map<int, bool> {
    boost + if iv.boost then map p | p in hit :: true else map[]
  }

  /** The accumulators after prorating `iv` over the half hours in `hit`. */
  function Prorate(s: State, iv: Interval, hit: set<int>): State
    requires iv.start < iv.end
  {
    s.(energy := AddEnergy(s.energy, iv, hit),
       coverage := AddCoverage(s.coverage, iv, hit),
       boost := AddBoost(s.boost, iv, hit))
  }

  /** The accumulators after one half hour received its part of an interval. */
  function AddPart(s: State, p: int, kwh: real, overlap: Time, boosted: bool): State {
    s.(energy := s.energy[p := EnergyAt(s.energy, p) + kwh],
       coverage := s.coverage[p := CoverageAt(s.coverage, p) + overlap],
       boost := if boosted then s.boost[p := true] else s.boost)
  }

  function FlushOf(s: State, p: int): Flush
    requires p in s.energy
  {
    Flush(s.energy[p], CoverageAt(s.coverage, p), if p in s.boost then s.boost[p] else false)
  }

  /** The half hours that leave at `now`. */
  function Expired(s: State, now: Time): map<int, Flush> {
    map p | p in s.energy && Ended(p, now) :: FlushOf(s, p)
  }

  function Without(s: State, gone: set<int>): State {
    s.(energy := s.energy - gone, coverage := s.coverage - gone, boost := s.boost - gone)
  }

  predicate Accepts(s: State, tick: Tick) {
    tick.tracked && s.last.Some? && tick.now - s.last.value.at >= MIN_INTERVAL
  }

  function Integrate(s: State, tick: Tick): State
    requires Accepts(s, tick)
  {
    if tick.now - s.last.value.at <= MAX_INTEGRATION then
      var iv := Trapezoid(s.last.value, tick);
      Prorate(s, iv, Touched(iv))
    else
      s
  }

  /** One medium tick: the new fields and what was flushed. */
  function Step(s: State, tick: Tick): (State, map<int, Flush>) {
    if tick.tracked && s.last.None? then
      (s.(last := Some(Sample(tick.now, tick.power))), map[])
    else if !Accepts(s, tick) then
      (s, map[])
    else
      var full := Integrate(s, tick).(last := Some(Sample(tick.now, tick.power)));
      (Without(full, Expired(full, tick.now).Keys), Expired(full, tick.now))
  }

  function CallFor(p: int, flush: Flush): Backfill {
    Backfill(p, flush.kwh, flush.boost)
  }

  /** `calls` holds one tracker call for each recorded half hour among `done`, in any order. */
  ghost predicate Lists(calls: seq<Backfill>, gone: map<int, Flush>, done: set<int>) {
    && (forall i, j :: 0 <= i < j < |calls| ==> calls[i].period != calls[j].period)
    && (forall c :: c in calls ==> c.period in done)
    && (forall c :: c in calls ==> c.period in gone && gone[c.period].Recorded() && c == CallFor(c.period, gone[c.period]))
    && (forall p :: p in done && p in gone && gone[p].Recorded() ==> CallFor(p, gone[p]) in calls)
  }

  class TickScheduler {
    var last: Option<Sample>
    var energy: map<int, real>
    var coverage: map<int, Time>
    var boost: map<int, bool>

    ghost function Fields(): State
      reads this
    {
      State(last, energy, coverage, boost)
    }

    constructor ()
      ensures Fields() == INITIAL
    {
      last, energy, coverage, boost := None, map[], map[], map[];
    }

    /** One medium tick: what the tracker is sent, and whether it is then told to evict its stale forecasts. */
    method BackfillSolarActual(tick: Tick) returns (calls: seq<Backfill>, evicts: bool)
      modifies this
      ensures evicts <==> Accepts(old(Fields()), tick)
      ensures Fields() == Step(old(Fields()), tick).0
      ensures Lists(calls, Step(old(Fields()), tick).1, Step(old(Fields()), tick).1.Keys)
    {
      calls, evicts := [], false;
      if !tick.tracked {
        return;
      }
      if last.None? {
        last := Some(Sample(tick.now, tick.power));
        return;
      }
      if tick.now - last.value.at < MIN_INTERVAL {
        return;
      }
      if tick.now - last.value.at <= MAX_INTEGRATION {
        ProrateInterval(Trapezoid(last.value, tick));
      }
      last := Some(Sample(tick.now, tick.power));
      calls := FlushCompletedPeriods(tick.now);
      evicts := true;
    }

    method ProrateInterval(iv: Interval)
      requires iv.start < iv.end
      modifies this
      ensures Fields() == Prorate(old(Fields()), iv, Touched(iv))
    {
      ghost var s0 := Fields();
      ghost var hit: set<int> := {};
      var p := iv.start / PERIOD;
      ProrateNothing(s0, iv);
      while p * PERIOD < iv.end
        invariant iv.start / PERIOD <= p
        invariant forall q :: q in hit <==> q < p && Touches(iv, q)
        invariant Fields() == Prorate(s0, iv, hit)
        decreases iv.end - p * PERIOD
      {
        var overlap := Min(iv.end, (p + 1) * PERIOD) - Max(iv.start, p * PERIOD);
        if overlap > 0 {
          ProrateNext(s0, iv, hit, p);
          ProrateInto(iv, p, overlap);
          hit := hit + {p};
        }
        p := p + 1;
      }
      assert hit == Touched(iv);
    }

    method ProrateInto(iv: Interval, p: int, overlap: Time)
      requires iv.start < iv.end && overlap == Overlap(iv, p)
      modifies this
      ensures Fields() == AddPart(old(Fields()), p, Share(iv, p), Overlap(iv, p), iv.boost)
    {
      var kwh := iv.kwh * (overlap as real / (iv.end - iv.start) as real);
      assert kwh == Share(iv, p);
      Accumulate(p, kwh, overlap, iv.boost);
    }

    method Accumulate(p: int, kwh: real, overlap: Time, boosted: bool)
      modifies this
      ensures Fields() == AddPart(old(Fields()), p, kwh, overlap, boosted)
    {
      energy := energy[p := EnergyAt(energy, p) + kwh];
      coverage := coverage[p := CoverageAt(coverage, p) + overlap];
      if boosted {
        boost := boost[p := true];
      }
    }

    method FlushCompletedPeriods(now: Time) returns (calls: seq<Backfill>)
      modifies this
      ensures Fields() == Without(old(Fields()), Expired(old(Fields()), now).Keys)
      ensures Lists(calls, Expired(old(Fields()), now), Expired(old(Fields()), now).Keys)
    {
      calls := [];
      ghost var s0 := Fields();
      ghost var all := Expired(s0, now);
      ghost var done: set<int> := {};
      var keys := energy.Keys;
      while keys != {}
        invariant keys <= s0.energy.Keys
        invariant done == all.Keys - keys
        invariant Fields() == Without(s0, done)
        invariant Lists(calls, all, done)
        decreases keys
      {
        var key := Choose(keys);
        keys := keys - {key};
        if Ended(key, now) {
          WithoutNext(s0, done, key);
          var flush := Pop(key);
          ListsNext(calls, all, done, key);
          if flush.coverage >= MIN_COVERAGE {
            calls := calls + [Backfill(key, flush.kwh, flush.boost)];
          }
          done := done + {key};
        }
      }
    }

    /** Takes one half hour out of the three accumulators. */
    method Pop(key: int) returns (flush: Flush)
      requires key in energy
      modifies this
      ensures flush == FlushOf(old(Fields()), key)
      ensures Fields() == Without(old(Fields()), {key})
    {
      flush := Flush(energy[key], CoverageAt(coverage, key), if key in boost then boost[key] else false);
      energy, coverage, boost := energy - {key}, coverage - {key}, boost - {key};
    }
  }

  lemma WithoutNext(s: State, done: set<int>, p: int)
    requires p in s.energy && p !in done
    ensures p in Without(s, done).energy && FlushOf(Without(s, done), p) == FlushOf(s, p)
    ensures Without(Without(s, done), {p}) == Without(s, done + {p})
  {
  }

  lemma ListsNext(calls: seq<Backfill>, gone: map<int, Flush>, done: set<int>, p: int)
    requires Lists(calls, gone, done) && p in gone && p !in done
    ensures Lists(if gone[p].Recorded() then calls + [CallFor(p, gone[p])] else calls, gone, done + {p})
  {
  }

  lemma ProrateNothing(s: State, iv: Interval)
    requires iv.start < iv.end
    ensures Prorate(s, iv, {}) == s
  {
  }

  lemma ProrateNext(s: State, iv: Interval, hit: set<int>, p: int)
    requires iv.start < iv.end && p !in hit
    ensures Prorate(s, iv, hit + {p}) == AddPart(Prorate(s, iv, hit), p, Share(iv, p), Overlap(iv, p), iv.boost)
  {
    AddEnergyNext(s.energy, iv, hit, p);
    AddCoverageNext(s.coverage, iv, hit, p);
    AddBoostNext(s.boost, iv, hit, p);
  }

  lemma AddEnergyNext(energy: map<int, real>, iv: Interval, hit: set<int>, p: int)
    requires iv.start < iv.end && p !in hit
    ensures var now := AddEnergy(energy, iv, hit);
            AddEnergy(energy, iv, hit + {p}) == now[p := EnergyAt(now, p) + Share(iv, p)]
  {
  }

  lemma AddCoverageNext(coverage: map<int, Time>, iv: Interval, hit: set<int>, p: int)
    requires p !in hit
    ensures var now := AddCoverage(coverage, iv, hit);
            AddCoverage(coverage, iv, hit + {p}) == now[p := CoverageAt(now, p) + Overlap(iv, p)]
  {
  }

  lemma AddBoostNext(boost: map<int, bool>, iv: Interval, hit: set<int>, p: int)
    ensures var now := AddBoost(boost, iv, hit);
            AddBoost(boost, iv, hit + {p}) == if iv.boost then now[p := true] else now
  {
  }
}

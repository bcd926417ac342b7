/** What one evaluation does to the entry record, with the clock read off as day, second and microsecond. */
module EntryLaws {
  import opened Prelude
  import opened EntryLatch

  /** Day `t` runs from midnight to midnight. */
  lemma DayIs(t: Time, day: int)
    ensures DayOf(t) == day <==> day * 86_400_000_000 <= t < (day + 1) * 86_400_000_000
  {
  }

  /** The clock reads `day`, `seconds` after midnight, and a part of a second. */
  ghost predicate Reads(t: Time, day: int, seconds: int, micros: int) {
    && t == day * 86_400_000_000 + seconds * 1_000_000 + micros
    && 0 <= seconds < 86_400 && 0 <= micros < 1_000_000
  }

  lemma ClockReads(t: Time, day: int, seconds: int, micros: int)
    requires Reads(t, day, seconds, micros)
    ensures DayOf(t) == day && TimeOfDay(t) == seconds * 1_000_000
  {
    var tod := seconds * 1_000_000 + micros;
    DayIs(t, day);
    assert t % DAY == tod && tod % SECOND == micros;
  }

  /** In the window by the whole second, less than five minutes into it by the microsecond, with a reading, and not yet recorded that day. */
  ghost predicate Records(cfg: Config, d: Data, tick: Tick, day: int, seconds: int, micros: int) {
    && cfg.dwStart <= seconds * 1_000_000 < cfg.dwEnd
    && seconds * 1_000_000 + micros - cfg.dwStart < 300_000_000
    && tick.soc.Some? && d.date != Some(day)
  }

  /** How far `soc` falls short of `target`: nothing at or above it. */
  ghost predicate ShortBy(target: real, soc: real, short: real) {
    short >= 0.0 && (soc <= target ==> soc + short == target) && (soc >= target ==> short == 0.0)
  }

  /** The record is what this very evaluation read. */
  ghost predicate RecordedFrom(e: Data, tick: Tick, day: int)
    requires tick.soc.Some?
  {
    && e.soc == tick.soc && e.at == Some(tick.now) && e.target == Some(tick.target) && e.date == Some(day)
    && e.shortfall.Some? && ShortBy(tick.target, tick.soc.value, e.shortfall.value)
  }

  /** The record is the one of before. */
  ghost predicate SameRecord(e: Data, d: Data) {
    e.soc == d.soc && e.at == d.at && e.target == d.target && e.shortfall == d.shortfall && e.date == d.date
  }

  ghost predicate NoRecord(e: Data) {
    e.soc == None && e.at == None && e.target == None && e.shortfall == None && e.date == None
  }

  /**
   An evaluation records what it reads under exactly those conditions; otherwise it keeps
   the record of a day already begun, or of that day, and drops any other.
   */
  lemma EvaluatedAs(cfg: Config, d: Data, tick: Tick, day: int, seconds: int, micros: int)
    requires Reads(tick.now, day, seconds, micros)
    ensures Evaluate(cfg, d, tick).lastReset == Some(day)
    ensures Evaluate(cfg, d, tick).targetReached == (d.targetReached && d.lastReset == Some(day))
    ensures Records(cfg, d, tick, day, seconds, micros) ==> RecordedFrom(Evaluate(cfg, d, tick), tick, day)
    ensures !Records(cfg, d, tick, day, seconds, micros)
        ==> if d.lastReset == Some(day) || d.date == Some(day) then SameRecord(Evaluate(cfg, d, tick), d)
            else NoRecord(Evaluate(cfg, d, tick))
  {
    ClockReads(tick.now, day, seconds, micros);
  }
}

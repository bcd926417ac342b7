/**
 The once-per-day record of the state of charge at which the demand window was
 entered: captured by evaluations, cleared on a new day, carried over restarts.
 */
module EntryLatch {
  import opened Prelude

  const GRACE: Time := 300_000_000   // 5 min

  /** The configured window, as times of day in whole seconds. */
  datatype Config = Config(dwStart: Time, dwEnd: Time)

  // Times are local; a day is numbered from the epoch.

  function DayOf(t: Time): int {
    t / DAY
  }

  /** The time of day without its microseconds. */
  function TimeOfDay(t: Time): Time {
    var tod := t % DAY;
    tod - tod % SECOND
  }

  /** One evaluation: the clock, what a fresh read of the state of charge gives, and the target. */
  datatype Tick = Tick(now: Time, soc: Option<real>, target: real)

  datatype Entry = Entry(soc: real, at: Time, target: real, shortfall: real, date: int)

  /** The fields of the coordinator's data that the latch uses. */
  datatype Data = Data(
    targetReached: bool,
    lastReset: Option<int>,
    soc: Option<real>,
    at: Option<Time>,
    target: Option<real>,
    shortfall: Option<real>,
    date: Option<int>)
  {
    function Cleared(): Data {
      this.(soc := None, at := None, target := None, shortfall := None, date := None)
    }

    function With(e: Entry): Data {
      this.(soc := Some(e.soc), at := Some(e.at), target := Some(e.target), shortfall := Some(e.shortfall), date := Some(e.date))
    }

    ghost predicate Blank() {
      soc.None? && at.None? && target.None? && shortfall.None? && date.None?
    }

    predicate Whole() {
      soc.Some? && at.Some? && target.Some? && shortfall.Some? && date.Some?
    }

    /** The record as one value, if it is whole. */
    function Record(): Option<Entry> {
      if Whole() then Some(Entry(soc.value, at.value, target.value, shortfall.value, date.value)) else None
    }
  }

  const NEW := Data(false, None, None, None, None, None, None)

  predicate InDemandWindow(cfg: Config, now: Time) {
    cfg.dwStart <= TimeOfDay(now) < cfg.dwEnd
  }

  function SinceStart(cfg: Config, now: Time): Time {
    now - (DayOf(now) * DAY + cfg.dwStart)
  }

  /** An evaluation that can be the entry: in the window, within the grace, with a reading. */
  predicate Qualifies(cfg: Config, tick: Tick) {
    InDemandWindow(cfg, tick.now) && SinceStart(cfg, tick.now) < GRACE && tick.soc.Some?
  }

  function EntryOf(tick: Tick): Entry
    requires tick.soc.Some?
  {
    Entry(tick.soc.value, tick.now, tick.target, MaxReal(0.0, tick.target - tick.soc.value), DayOf(tick.now))
  }

  function Reset(d: Data, today: int): Data {
    if d.lastReset == Some(today) then d else
      var e := d.(targetReached := false, lastReset := Some(today));
      if e.date == Some(today) then e else e.Cleared()
  }

  function Capture(cfg: Config, d: Data, tick: Tick): Data {
    if d.date != Some(DayOf(tick.now)) && Qualifies(cfg, tick) then d.With(EntryOf(tick)) else d
  }

  function Evaluate(cfg: Config, d: Data, tick: Tick): Data {
    Capture(cfg, Reset(d, DayOf(tick.now)), tick)
  }

  class ComputationEngine {
    const cfg: Config
    var targetReached: bool
    var lastReset: Option<int>
    var soc: Option<real>
    var at: Option<Time>
    var target: Option<real>
    var shortfall: Option<real>
    var date: Option<int>

    function Fields(): Data
      reads this
    {
      Data(targetReached, lastReset, soc, at, target, shortfall, date)
    }

    constructor (cfg: Config)
      ensures this.cfg == cfg && Fields() == NEW
    {
      this.cfg := cfg;
      targetReached, lastReset := false, None;
      soc, at, target, shortfall, date := None, None, None, None, None;
    }

    method ResetDailyPrechargeLatch(today: int)
      modifies this
      ensures Fields() == Reset(old(Fields()), today)
    {
      if lastReset != Some(today) {
        targetReached := false;
        lastReset := Some(today);
        if date != Some(today) {
          soc, at, target, shortfall, date := None, None, None, None, None;
        }
      }
    }

    method CaptureDwEntryActual(tick: Tick)
      modifies this
      ensures Fields() == Capture(cfg, old(Fields()), tick)
    {
      if !InDemandWindow(cfg, tick.now) {
        return;
      }
      var today := DayOf(tick.now);
      if date == Some(today) {
        return;
      }
      var dwStartAt := today * DAY + cfg.dwStart;
      if tick.now - dwStartAt >= GRACE {
        return;
      }
      if tick.soc.None? {
        return;
      }
      var short := MaxReal(0.0, tick.target - tick.soc.value);
      soc, at, target, shortfall, date := tick.soc, Some(tick.now), Some(tick.target), Some(short), Some(today);
    }

    method ComputeDerivedValues(tick: Tick)
      modifies this
      ensures Fields() == Evaluate(cfg, old(Fields()), tick)
    {
      ResetDailyPrechargeLatch(DayOf(tick.now));
      CaptureDwEntryActual(tick);
    }
  }

  // ------------------------------------------------------------------------
  // Without restarts: the record is the first qualifying evaluation of the day
  // ------------------------------------------------------------------------

  ghost function AfterTicks(cfg: Config, ticks: seq<Tick>): Data {
    if ticks == [] then NEW else Evaluate(cfg, AfterTicks(cfg, ticks[..|ticks| - 1]), ticks[|ticks| - 1])
  }

  /** Where the last unbroken run of evaluations on one day starts. */
  ghost function LastDayStart(ticks: seq<Tick>): (k: nat)
    requires ticks != []
    ensures k < |ticks| && forall i :: k <= i < |ticks| ==> DayOf(ticks[i].now) == DayOf(ticks[|ticks| - 1].now)
    ensures k > 0 ==> DayOf(ticks[k - 1].now) != DayOf(ticks[|ticks| - 1].now)
  {
    var n := |ticks|;
    if n == 1 || DayOf(ticks[n - 2].now) != DayOf(ticks[n - 1].now) then n - 1 else LastDayStart(ticks[..n - 1])
  }

  /** The first qualifying evaluation at or after `k`. */
  ghost predicate FirstQualifying(cfg: Config, ticks: seq<Tick>, k: nat, i: int) {
    k <= i < |ticks| && Qualifies(cfg, ticks[i]) && forall j :: k <= j < i ==> !Qualifies(cfg, ticks[j])
  }

  /** `d` holds the record of the first qualifying evaluation from `k` on, and none if there is none. */
  ghost predicate HoldsFirst(cfg: Config, ticks: seq<Tick>, k: nat, d: Data) {
    && (forall i :: FirstQualifying(cfg, ticks, k, i) ==> d.Record() == Some(EntryOf(ticks[i])))
    && ((forall i :: k <= i < |ticks| ==> !Qualifies(cfg, ticks[i])) ==> d.Blank())
  }

  /** After any evaluations over any days the record is that of the first qualifying one of the last day, or blank. */
  lemma {:induction false} RecordIsFirstOfDay(cfg: Config, ticks: seq<Tick>)
    requires ticks != []
    ensures AfterTicks(cfg, ticks).lastReset == Some(DayOf(ticks[|ticks| - 1].now))
    ensures HoldsFirst(cfg, ticks, LastDayStart(ticks), AfterTicks(cfg, ticks))
  {
    var n := |ticks|;
    var past, tick := ticks[..n - 1], ticks[n - 1];
    assert past + [tick] == ticks;
    if n == 1 {
      NewDay(cfg, past, tick, NEW);
    } else {
      var d := AfterTicks(cfg, past);
      RecordIsFirstOfDay(cfg, past);
      if DayOf(ticks[n - 2].now) == DayOf(tick.now) {
        SameDayNext(cfg, past, tick, LastDayStart(past), d);
      } else {
        DatedThatDay(cfg, past, LastDayStart(past), d);
        NewDay(cfg, past, tick, d);
      }
    }
  }

  /** The first evaluation of a day clears what an earlier day left. */
  lemma NewDay(cfg: Config, past: seq<Tick>, tick: Tick, d: Data)
    requires d.lastReset != Some(DayOf(tick.now)) && d.date != Some(DayOf(tick.now))
    ensures Evaluate(cfg, d, tick).lastReset == Some(DayOf(tick.now))
    ensures HoldsFirst(cfg, past + [tick], |past|, Evaluate(cfg, d, tick))
  {
    var ticks := past + [tick];
    assert ticks[|past|] == tick;
    if Qualifies(cfg, tick) {
      assert Evaluate(cfg, d, tick).Record() == Some(EntryOf(tick));
    }
  }

  /** What the past left is blank or dated on the past's last day. */
  lemma DatedThatDay(cfg: Config, past: seq<Tick>, k: nat, d: Data)
    requires past != [] && k == LastDayStart(past) && HoldsFirst(cfg, past, k, d)
    ensures d.date.None? || d.date == Some(DayOf(past[|past| - 1].now))
  {
    if i :| k <= i < |past| && Qualifies(cfg, past[i]) {
      var f := FirstFrom(cfg, past, k, i);
      assert d.Record() == Some(EntryOf(past[f]));
    }
  }

  lemma {:induction false} FirstFrom(cfg: Config, ticks: seq<Tick>, k: nat, i: int) returns (f: int)
    requires k <= i < |ticks| && Qualifies(cfg, ticks[i])
    ensures FirstQualifying(cfg, ticks, k, f)
    decreases i - k
  {
    if Qualifies(cfg, ticks[k]) {
      f := k;
    } else {
      f := FirstFrom(cfg, ticks, k + 1, i);
    }
  }

  /** A later evaluation of the same day adds a record only if there is none. */
  lemma SameDayNext(cfg: Config, past: seq<Tick>, tick: Tick, k: nat, d: Data)
    requires k < |past| && (forall i :: k <= i < |past| ==> DayOf(past[i].now) == DayOf(tick.now))
    requires d.lastReset == Some(DayOf(tick.now)) && HoldsFirst(cfg, past, k, d)
    ensures Evaluate(cfg, d, tick).lastReset == d.lastReset
    ensures HoldsFirst(cfg, past + [tick], k, Evaluate(cfg, d, tick))
  {
    var ticks := past + [tick];
    assert forall i :: 0 <= i < |past| ==> ticks[i] == past[i];
    if i :| k <= i < |past| && Qualifies(cfg, past[i]) {
      var f := FirstFrom(cfg, past, k, i);
      assert d.Record() == Some(EntryOf(past[f]));
      forall j | FirstQualifying(cfg, ticks, k, j) ensures j == f {
        assert Qualifies(cfg, ticks[f]);
      }
    } else {
      assert ticks[|past|] == tick;
    }
  }

  // ------------------------------------------------------------------------
  // Restarts
  // ------------------------------------------------------------------------

  predicate InRange(e: Entry) {
    0.0 <= e.soc <= 100.0 && 0.0 <= e.target <= 100.0 && 0.0 <= e.shortfall <= 100.0
  }

  /** What is on disk: the date of the day's totals, and the record if there was a whole one. */
  datatype Snapshot = Snapshot(date: int, record: Option<Entry>)

  function TakeSnapshot(d: Data, totalsDate: int): Snapshot {
    Snapshot(totalsDate, d.Record())
  }

  /** A fresh start: today's totals bring back today's record, if every value in it is valid. */
  function Restore(disk: Option<Snapshot>, today: int): Data {
    if disk.None? || disk.value.date != today || disk.value.record.None? then NEW else
      var e := disk.value.record.value;
      if InRange(e) && DayOf(e.at) == e.date && e.date == today then NEW.With(e) else NEW
  }

  datatype Event =
    | Evaluation(tick: Tick)
    | Save(totalsDate: int)      // every five minutes, and on a clean stop
    | Restart(now: Time)         // whatever was last saved is what comes back

  datatype World = World(data: Data, disk: Option<Snapshot>)

  function Apply(cfg: Config, w: World, e: Event): World {
    match e
    case Evaluation(tick) => w.(data := Evaluate(cfg, w.data, tick))
    case Save(totalsDate) => w.(disk := Some(TakeSnapshot(w.data, totalsDate)))
    case Restart(now) => w.(data := Restore(w.disk, DayOf(now)))
  }

  ghost function After(cfg: Config, w: World, events: seq<Event>): World {
    if events == [] then w else Apply(cfg, After(cfg, w, events[..|events| - 1]), events[|events| - 1])
  }

  const START := World(NEW, None)

  /** A genuine entry: taken in the window, within the grace, on the day it is dated. */
  ghost predicate Genuine(cfg: Config, e: Entry) {
    && e.date == DayOf(e.at)
    && InDemandWindow(cfg, e.at)
    && SinceStart(cfg, e.at) < GRACE
    && e.shortfall == MaxReal(0.0, e.target - e.soc)
  }

  ghost predicate GoodData(cfg: Config, d: Data) {
    d.Blank() || (d.Whole() && Genuine(cfg, d.Record().value))
  }

  ghost predicate Good(cfg: Config, w: World) {
    GoodData(cfg, w.data) && (w.disk.Some? && w.disk.value.record.Some? ==> Genuine(cfg, w.disk.value.record.value))
  }

  ghost predicate LatchedOn(d: Data, today: int) {
    d.Blank() || d.date == Some(today)
  }

  /** After a reset the record is blank or dated today, provided an earlier reset left it so. */
  lemma EvaluateLatches(cfg: Config, d: Data, tick: Tick)
    requires GoodData(cfg, d) && (d.lastReset.Some? ==> LatchedOn(d, d.lastReset.value))
    ensures var e := Evaluate(cfg, d, tick);
            GoodData(cfg, e) && e.lastReset == Some(DayOf(tick.now)) && LatchedOn(e, DayOf(tick.now))
  {
  }

  lemma {:induction false} RunsAreGood(cfg: Config, events: seq<Event>)
    ensures var w := After(cfg, START, events);
            Good(cfg, w) && (w.data.lastReset.Some? ==> LatchedOn(w.data, w.data.lastReset.value))
  {
    if events == [] {
    } else {
      var past, e := events[..|events| - 1], events[|events| - 1];
      RunsAreGood(cfg, past);
      if e.Evaluation? {
        EvaluateLatches(cfg, After(cfg, START, past).data, e.tick);
      }
    }
  }

  /**
   After every evaluation of every run, over any days and with saves, restarts and crashes
   anywhere: the five fields are all blank, or all set, dated today, taken no more than
   five minutes into today's window, with the shortfall of the values they hold.
   */
  lemma AfterEvaluation(cfg: Config, events: seq<Event>, tick: Tick)
    ensures var d := After(cfg, START, events + [Evaluation(tick)]).data;
            d == d.(soc := None, at := None, target := None, shortfall := None, date := None)
            || (&& d.soc.Some? && d.at.Some? && d.target.Some? && d.shortfall.Some? && d.date == Some(DayOf(tick.now))
                && DayOf(d.at.value) == DayOf(tick.now)
                && cfg.dwStart <= TimeOfDay(d.at.value) < cfg.dwEnd
                && SinceStart(cfg, d.at.value) < 300_000_000
                && d.shortfall.value == MaxReal(0.0, d.target.value - d.soc.value))
  {
    RunsAreGood(cfg, events);
    assert (events + [Evaluation(tick)])[..|events|] == events;
    EvaluateLatches(cfg, After(cfg, START, events).data, tick);
  }

  /**
   A restart brings a record back exactly when it is on disk under today's totals, dated and
   taken today, with every value a percentage; otherwise it brings back a blank one.
   */
  lemma RestartKeepsRecord(cfg: Config, w: World, now: Time, e: Entry)
    ensures var today, d := DayOf(now), Apply(cfg, w, Restart(now)).data;
            && (d.Record() == Some(e) <==> && w.disk == Some(Snapshot(today, Some(e))) && e.date == today == DayOf(e.at)
                                           && 0.0 <= e.soc <= 100.0 && 0.0 <= e.target <= 100.0 && 0.0 <= e.shortfall <= 100.0)
            && (d.Record().None? ==> d == NEW)
            && d.lastReset.None? && !d.targetReached
  {
  }

  /** The disk holds the record, under today's totals. */
  ghost predicate Backed(w: World, e: Entry, today: int) {
    w.disk == Some(Snapshot(today, Some(e)))
  }

  /** An event of day `today`; a save may still carry another day's totals. */
  ghost predicate OnDay(e: Event, today: int) {
    match e
    case Evaluation(tick) => DayOf(tick.now) == today
    case Save(_) => true
    case Restart(now) => DayOf(now) == today
  }

  ghost predicate AllOnDay(events: seq<Event>, today: int) {
    forall i :: 0 <= i < |events| ==> OnDay(events[i], today)
  }

  /** The newest save carried today's totals; without any save, as it was before. */
  ghost predicate SavedToday(before: bool, events: seq<Event>, today: int) {
    if events == [] then before
    else if events[|events| - 1].Save? then events[|events| - 1].totalsDate == today
    else SavedToday(before, events[..|events| - 1], today)
  }

  /** The record is `e` at every moment of the run. */
  ghost predicate HeldThroughout(cfg: Config, w: World, events: seq<Event>, e: Entry) {
    forall k :: 0 <= k <= |events| ==> HeldAt(cfg, w, events, e, k)
  }

  ghost predicate HeldAt(cfg: Config, w: World, events: seq<Event>, e: Entry, k: int)
    requires 0 <= k <= |events|
  {
    After(cfg, w, events[..k]).data.Record() == Some(e)
  }

  /** Every restart finds a record in range, and one that was saved under today's totals. */
  ghost predicate RestartsFindIt(backed: bool, events: seq<Event>, e: Entry, today: int) {
    forall i :: 0 <= i < |events| && events[i].Restart? ==> InRange(e) && SavedToday(backed, events[..i], today)
  }

  lemma {:induction false} DiskFollowsSaves(cfg: Config, w: World, events: seq<Event>, e: Entry, today: int)
    requires HeldThroughout(cfg, w, events, e)
    ensures Backed(After(cfg, w, events), e, today) <==> SavedToday(Backed(w, e, today), events, today)
  {
    if events == [] {
    } else {
      var past := events[..|events| - 1];
      HeldBefore(cfg, w, events, e);
      DiskFollowsSaves(cfg, w, past, e, today);
      assert past[..|past|] == past;
    }
  }

  lemma HeldBefore(cfg: Config, w: World, events: seq<Event>, e: Entry)
    requires events != []
    ensures HeldThroughout(cfg, w, events, e)
       <==> HeldThroughout(cfg, w, events[..|events| - 1], e) && After(cfg, w, events).data.Record() == Some(e)
  {
    var past := events[..|events| - 1];
    HeldAtEnd(cfg, w, events, e);
    forall k | 0 <= k <= |past| ensures HeldAt(cfg, w, past, e, k) <==> HeldAt(cfg, w, events, e, k) {
      HeldAtPrefix(cfg, w, events, e, k);
    }
  }

  lemma HeldAtEnd(cfg: Config, w: World, events: seq<Event>, e: Entry)
    ensures HeldAt(cfg, w, events, e, |events|) <==> After(cfg, w, events).data.Record() == Some(e)
  {
    assert events[..|events|] == events;
  }

  lemma HeldAtPrefix(cfg: Config, w: World, events: seq<Event>, e: Entry, k: int)
    requires 0 <= k < |events|
    ensures HeldAt(cfg, w, events[..|events| - 1], e, k) <==> HeldAt(cfg, w, events, e, k)
  {
    assert events[..|events| - 1][..k] == events[..k];
  }

  lemma RestartsBefore(backed: bool, events: seq<Event>, e: Entry, today: int)
    requires events != []
    ensures RestartsFindIt(backed, events, e, today)
       <==> && RestartsFindIt(backed, events[..|events| - 1], e, today)
            && (events[|events| - 1].Restart? ==> InRange(e) && SavedToday(backed, events[..|events| - 1], today))
  {
    var past := events[..|events| - 1];
    assert forall i :: 0 <= i < |past| ==> past[..i] == events[..i] && past[i] == events[i];
  }

  /**
   Over any evaluations, saves, restarts and crashes of its day, a record stays what it is
   exactly when every restart finds it valid and saved since under today's totals.
   */
  lemma {:induction false} RecordIsHeld(cfg: Config, w: World, events: seq<Event>, e: Entry, today: int)
    requires w.data.Record() == Some(e) && e.date == today == DayOf(e.at) && AllOnDay(events, today)
    ensures HeldThroughout(cfg, w, events, e) <==> RestartsFindIt(Backed(w, e, today), events, e, today)
  {
    if events == [] {
    } else {
      var past, last := events[..|events| - 1], events[|events| - 1];
      RecordIsHeld(cfg, w, past, e, today);
      HeldBefore(cfg, w, events, e);
      RestartsBefore(Backed(w, e, today), events, e, today);
      if HeldThroughout(cfg, w, past, e) {
        DiskFollowsSaves(cfg, w, past, e, today);
        HeldAtEnd(cfg, w, past, e);
        HeldNext(cfg, After(cfg, w, past), last, e, today);
      }
    }
  }

  lemma HeldNext(cfg: Config, w: World, event: Event, e: Entry, today: int)
    requires w.data.Record() == Some(e) && e.date == today == DayOf(e.at) && OnDay(event, today)
    ensures Apply(cfg, w, event).data.Record() == Some(e) <==> (event.Restart? ==> InRange(e) && Backed(w, e, today))
  {
  }

  /** Evaluations and saves alone always keep it. */
  lemma RecordIsHeldUntilRestart(cfg: Config, w: World, events: seq<Event>, e: Entry, today: int)
    requires w.data.Record() == Some(e) && e.date == today == DayOf(e.at) && AllOnDay(events, today)
    requires forall i :: 0 <= i < |events| ==> !events[i].Restart?
    ensures HeldThroughout(cfg, w, events, e)
  {
    RecordIsHeld(cfg, w, events, e, today);
  }

  /**
   A crash between the capture and the next save loses the record, although today's totals
   are on disk, and an evaluation still within the grace captures another one.
   */
  lemma CrashRecaptures(cfg: Config, first: Tick, second: Tick)
    requires Qualifies(cfg, first) && Qualifies(cfg, second) && DayOf(first.now) == DayOf(second.now)
    ensures var events := [Save(DayOf(first.now)), Evaluation(first), Restart(second.now), Evaluation(second)];
            && After(cfg, START, events[..2]).data.Record() == Some(EntryOf(first))
            && After(cfg, START, events[..3]).data == NEW
            && After(cfg, START, events).data.Record() == Some(EntryOf(second))
  {
    var events := [Save(DayOf(first.now)), Evaluation(first), Restart(second.now), Evaluation(second)];
    assert events[..4] == events && events[..0] == [];
    forall k | 0 < k <= 4 ensures After(cfg, START, events[..k]) == Apply(cfg, After(cfg, START, events[..k - 1]), events[k - 1]) {
      assert events[..k][..k - 1] == events[..k - 1];
    }
    assert After(cfg, START, events[..1]).disk == Some(Snapshot(DayOf(first.now), None));
  }
}

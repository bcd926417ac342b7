/** The store of booked loads: booking, cancelling, reporting and pruning. */
module Bookings {
  import opened Prelude
  import opened StartPicker

  datatype Booking = Booking(
    id: string,
    name: string,
    durationMin: int,
    startAt: Time,
    finishBy: Time,
    estKwh: real,
    status: string,
    reason: string)

  type Store = map<string, Booking>

  /** The statuses that may follow one by a report. */
  function NextStatus(status: string): set<string> {
    if status == "booked" then {"started", "done"}
    else if status == "started" then {"done"}
    else {}
  }

  predicate Active(status: string) {
    NextStatus(status) != {}
  }

  function Live(store: Store, now: Time): Store {
    map k | k in store && store[k].finishBy >= now :: store[k]
  }

  // ------------------------------------------------------------------------
  // What each operation does to the store
  // ------------------------------------------------------------------------

  function Added(store: Store, b: Booking, now: Time): Store {
    Live(store[b.id := b], now)
  }

  /** By id when a non-empty one is given, else by name. */
  predicate IsMeant(b: Booking, id: Option<string>, name: Option<string>) {
    Active(b.status) && if id.Some? && id.value != "" then b.id == id.value else name == Some(b.name)
  }

  function Meant(store: Store, id: Option<string>, name: Option<string>): set<string> {
    set k | k in store && IsMeant(store[k], id, name)
  }

  lemma MeantBy(store: Store, id: Option<string>, name: Option<string>)
    ensures (id.None? || id.value == "") && name.Some? ==>
              Meant(store, id, name) == set k | k in store && store[k].status in {"booked", "started"} && store[k].name == name.value
    ensures id.Some? && id.value != "" ==>
              Meant(store, id, name) == set k | k in store && store[k].status in {"booked", "started"} && store[k].id == id.value
    ensures (id.None? || id.value == "") && name.None? ==> Meant(store, id, name) == {}
  {
    assert forall status :: Active(status) <==> status in {"booked", "started"} by {
      assert "started" in NextStatus("booked") && "done" in NextStatus("started");
    }
  }

  function Marked(store: Store, keys: set<string>): Store {
    map k | k in store :: if k in keys then store[k].(status := "cancelled") else store[k]
  }

  function Cancelled(store: Store, id: Option<string>, name: Option<string>, now: Time): Store {
    var keys := Meant(store, id, name);
    if keys == {} then store else Live(Marked(store, keys), now)
  }

  predicate CanReport(store: Store, id: string, status: string) {
    id in store && status in NextStatus(store[id].status)
  }

  function Reported(store: Store, id: string, status: string, now: Time): Store
    requires CanReport(store, id, status)
  {
    Live(store[id := store[id].(status := status)], now)
  }

  datatype Refusal = NoEnergy | WindowTooShort | NothingNamed | UnknownBooking | CannotBecome

  /** The request of one booking, its energy already worked out. */
  datatype Request = Request(name: string, durationMin: int, earliestStart: Time, latestFinish: Time, kwh: real, now: Time) {
    function Earliest(): Time {
      Max(earliestStart, now)
    }

    function Duration(): Time {
      durationMin * MINUTE
    }

    function LoadKw(): real
      requires durationMin > 0
    {
      kwh * 60.0 / durationMin as real
    }

    function Refused(): Option<Refusal> {
      if durationMin <= 0 || kwh <= 0.0 then Some(NoEnergy)
      else if latestFinish - Earliest() < Duration() then Some(WindowTooShort)
      else None
    }
  }

  /** What the plan evaluation answered: a start if it found one, and why. A failed evaluation has none. */
  datatype Choice = Choice(start: Option<Time>, why: string)

  function PickReason(fits: bool): string {
    if fits then "fits spare solar" else "no spare-solar window; latest start to meet the deadline"
  }

  /** The plan's start if it found one, else the picked one. */
  ghost function PlacedAt(choice: Option<Choice>, picked: Time): Time {
    if choice.Some? && choice.value.start.Some? then choice.value.start.value else picked
  }

  ghost function ReasonFor(choice: Option<Choice>, fits: bool): string {
    var picked := if fits then "fits spare solar" else "no spare-solar window; latest start to meet the deadline";
    match choice
    case None => picked
    case Some(c) => if c.start.Some? then c.why else c.why + "; " + picked
  }

  /** The nearest whole number of hundredths; halfway to the even one. */
  function Hundredths(x: real): int {
    var n := (x * 100.0).Floor;
    var part := x * 100.0 - n as real;
    if part < 0.5 || (part == 0.5 && n % 2 == 0) then n else n + 1
  }

  function Round2(x: real): (r: real)
    ensures -0.005 <= r - x <= 0.005
  {
    Hundredths(x) as real / 100.0
  }

  /** No two-digit number is nearer. */
  lemma Round2IsNearest(x: real, n: int)
    ensures var r, m := Round2(x), n as real / 100.0;
            (if r >= x then r - x else x - r) <= (if m >= x then m - x else x - m)
  {
    var f := (x * 100.0).Floor;
    assert n <= f || n >= f + 1;
  }

  /** Halfway between two hundredths the even one is taken. */
  lemma Round2Ties(x: real, n: int)
    requires x * 100.0 == n as real + 0.5
    ensures Round2(x) == (if n % 2 == 0 then n else n + 1) as real / 100.0
  {
    assert (x * 100.0).Floor == n;
  }

  function Readable(raw: map<string, Option<Booking>>): Store {
    map k | k in raw && raw[k].Some? :: raw[k].value
  }

  /** The energy asked for: given outright, or as power over the run. */
  function EnergyOf(durationMin: int, estKwh: Option<real>, estKw: Option<real>): real {
    if estKwh.Some? then estKwh.value
    else (if estKw.Some? then estKw.value else 0.0) * (durationMin as real / 60.0)
  }

  /** Energy given outright is taken as it is; power is taken over the run's hours; without either there is none. */
  lemma EnergyAsked(durationMin: int, estKwh: Option<real>, estKw: Option<real>)
    ensures estKwh.Some? ==> EnergyOf(durationMin, estKwh, estKw) == estKwh.value
    ensures estKwh.None? && estKw.Some? ==> EnergyOf(durationMin, estKwh, estKw) * 60.0 == estKw.value * durationMin as real
    ensures estKwh.None? && estKw.None? ==> EnergyOf(durationMin, estKwh, estKw) == 0.0
  {
  }

  /** A load given as power is placed with that power. */
  lemma PowerIsKept(req: Request, kw: real)
    requires req.durationMin > 0 && req.kwh == EnergyOf(req.durationMin, None, Some(kw))
    ensures req.LoadKw() == kw
  {
    var d := req.durationMin as real;
    assert kw * (d / 60.0) * 60.0 == kw * d;
    assert kw * d / d == kw;
  }

  /**
   The start and reason of a booking: the plan's, or those of the start picked within the
   window for a load that draws its energy evenly over the run.
   */
  ghost predicate Placement(req: Request, excessAt: Excess, choice: Option<Choice>, start: Time, reason: string) {
    exists picked, fits, loadKw :: PlacedFor(req, excessAt, choice, start, reason, picked, fits, loadKw)
  }

  ghost predicate PlacedFor(req: Request, excessAt: Excess, choice: Option<Choice>, start: Time, reason: string,
                            picked: Time, fits: bool, loadKw: real) {
    && IsPick(if req.earliestStart >= req.now then req.earliestStart else req.now, req.latestFinish,
              req.durationMin * 60_000_000, loadKw, excessAt, picked, fits)
    && loadKw * req.durationMin as real == req.kwh * 60.0
    && req.now <= picked && req.earliestStart <= picked && picked + req.durationMin * 60_000_000 <= req.latestFinish
    && start == PlacedAt(choice, picked) && reason == ReasonFor(choice, fits)
  }

  lemma EnergyOverTime(req: Request)
    requires req.durationMin > 0
    ensures req.LoadKw() * req.durationMin as real == req.kwh * 60.0
  {
  }

  /** Exactly `hits` are cancelled, or dropped as due; the others stay as they are, or are dropped as due once anything is saved. */
  ghost predicate CancelsExactly(before: Store, after: Store, now: Time, hits: set<string>, r: Result<nat, Refusal>) {
    && r == Ok(|hits|)
    && (forall k :: k in after ==> k in before && after[k] == if k in hits then before[k].(status := "cancelled") else before[k])
    && (forall k :: k in before ==> (k !in after <==> hits != {} && before[k].finishBy < now))
  }

  class BookingStore {
    var bookings: Store
    var saved: Store   // what was last handed to storage

    constructor ()
      ensures bookings == map[] && saved == map[]
    {
      bookings, saved := map[], map[];
    }

    /** Takes over the stored bookings; an entry without its keys or a deadline is None, and dropped. */
    method Load(raw: map<string, Option<Booking>>, now: Time)
      modifies this`bookings
      ensures bookings == Live(Readable(raw), now)
      ensures forall k :: k in bookings <==> k in raw && raw[k].Some? && raw[k].value.finishBy >= now
      ensures forall k :: k in bookings ==> raw[k] == Some(bookings[k])
    {
      bookings := Readable(raw);
      Prune(now);
    }

    method Prune(now: Time)
      modifies this`bookings
      ensures bookings == Live(old(bookings), now)
    {
      bookings := Live(bookings, now);
    }

    /** Drops exactly the bookings whose deadline has passed, then saves. */
    method Commit(now: Time)
      modifies this
      ensures bookings == saved == Live(old(bookings), now)
      ensures forall k :: k in bookings <==> k in old(bookings) && old(bookings)[k].finishBy >= now
      ensures forall k :: k in bookings ==> bookings[k] == old(bookings)[k]
    {
      Prune(now);
      saved := bookings;
    }

    /**
     Books a load. `id` is the fresh id drawn for it; `choice` is what the plan evaluation
     answered, if there was one to ask.
     */
    method Book(req: Request, id: string, excessAt: Excess, choice: Option<Choice>) returns (r: Result<Booking, Refusal>)
      requires id !in bookings
      modifies this
      ensures r == Err(NoEnergy) <==> req.durationMin <= 0 || req.kwh <= 0.0
      ensures r == Err(WindowTooShort)
         <==> && req.durationMin > 0 && req.kwh > 0.0
              && req.latestFinish - (if req.earliestStart >= req.now then req.earliestStart else req.now) < req.durationMin * 60_000_000
      ensures r.Err? <==> req.Refused().Some?
      ensures r.Err? ==> r.error == req.Refused().value && bookings == old(bookings) && saved == old(saved)
      ensures r.Ok? ==>
                && bookings == saved == Added(old(bookings), r.value, req.now)
                && r.value.id == id && r.value.status == "booked" && r.value.finishBy == req.latestFinish
                && r.value.name == req.name && r.value.durationMin == req.durationMin && r.value.estKwh == Round2(req.kwh)
                && id in bookings && bookings[id] == r.value
      ensures r.Ok? ==> Placement(req, excessAt, choice, r.value.startAt, r.value.reason)
    {
      if req.Refused().Some? {
        return Err(req.Refused().value);
      }
      EnergyOverTime(req);
      var picked, fits := PickStart(req.Earliest(), req.latestFinish, req.Duration(), req.LoadKw(), excessAt);
      var start, reason := picked, PickReason(fits);
      if choice.Some? {
        if choice.value.start.Some? {
          start, reason := choice.value.start.value, choice.value.why;
        } else {
          reason := choice.value.why + "; " + reason;
        }
      }
      assert PlacedFor(req, excessAt, choice, start, reason, picked, fits, req.LoadKw());
      var booking := Booking(id, req.name, req.durationMin, start, req.latestFinish, Round2(req.kwh), "booked", reason);
      Add(booking, req.now);
      r := Ok(booking);
    }

    method Add(b: Booking, now: Time)
      requires b.id !in bookings
      modifies this
      ensures bookings == saved == Added(old(bookings), b, now)
    {
      bookings := bookings[b.id := b];
      Commit(now);
    }

    method Cancel(now: Time, id: Option<string>, name: Option<string>) returns (r: Result<nat, Refusal>)
      modifies this
      ensures (id.None? || id.value == "") && name.Some? ==>
                CancelsExactly(old(bookings), bookings, now,
                               (set k | k in old(bookings) && old(bookings)[k].status in {"booked", "started"} && old(bookings)[k].name == name.value), r)
      ensures id.Some? && id.value != "" ==>
                CancelsExactly(old(bookings), bookings, now,
                               (set k | k in old(bookings) && old(bookings)[k].status in {"booked", "started"} && old(bookings)[k].id == id.value), r)
      ensures id == Some("") && name.None? ==> CancelsExactly(old(bookings), bookings, now, {}, r)
      ensures id.None? && name.None? ==> r == Err(NothingNamed) && bookings == old(bookings) && saved == old(saved)
      ensures !(id.None? && name.None?) ==>
                && r == Ok(|Meant(old(bookings), id, name)|)
                && bookings == Cancelled(old(bookings), id, name, now)
                && saved == if Meant(old(bookings), id, name) == {} then old(saved) else bookings
    {
      if id.None? && name.None? {
        return Err(NothingNamed);
      }
      var hits := Meant(bookings, id, name);
      MeantBy(bookings, id, name);
      if hits != {} {
        MarkCancelled(hits);
        Commit(now);
      }
      r := Ok(|hits|);
    }

    method MarkCancelled(hits: set<string>)
      requires hits <= bookings.Keys
      modifies this`bookings
      ensures bookings == Marked(old(bookings), hits)
    {
      ghost var done: set<string> := {};
      var todo := hits;
      assert Marked(bookings, {}) == bookings;
      while todo != {}
        invariant done + todo == hits && done !! todo
        invariant bookings == Marked(old(bookings), done)
        decreases todo
      {
        var k := Choose(todo);
        MarkOneMore(old(bookings), done, k);
        bookings := bookings[k := bookings[k].(status := "cancelled")];
        todo, done := todo - {k}, done + {k};
      }
    }

    method Report(id: string, status: string, now: Time) returns (r: Result<Booking, Refusal>)
      modifies this
      ensures r.Ok? <==> CanReport(old(bookings), id, status)
      ensures r.Ok? <==> && id in old(bookings)
                         && (|| (old(bookings)[id].status == "booked" && status in {"started", "done"})
                             || (old(bookings)[id].status == "started" && status == "done"))
      ensures r.Ok? ==> bookings == saved == Reported(old(bookings), id, status, now)
                        && r.value == old(bookings)[id].(status := status)
      ensures r.Err? ==> r.error == (if id in old(bookings) then CannotBecome else UnknownBooking)
                         && bookings == old(bookings) && saved == old(saved)
    {
      if id !in bookings {
        return Err(UnknownBooking);
      }
      if status !in NextStatus(bookings[id].status) {
        return Err(CannotBecome);
      }
      var booking := bookings[id].(status := status);
      bookings := bookings[id := booking];
      Commit(now);
      r := Ok(booking);
    }
  }

  lemma MarkOneMore(store: Store, done: set<string>, k: string)
    requires k in store && k !in done
    ensures Marked(store, done + {k}) == Marked(store, done)[k := Marked(store, done)[k].(status := "cancelled")]
  {
  }
}

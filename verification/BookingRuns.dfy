/**
 Concurrent use of the booking store. Coroutines interleave at their awaits: a booking
 waits for the placement lock, reads its snapshot of the store when it gets it, and adds
 its load after an await during which cancels and reports may run.
 */
module BookingRuns {
  import opened Prelude
  import opened Bookings

  /** How far a call of `async_book` has got. `seen` are the bookings its chooser was given. */
  datatype Job =
    | Waiting(req: Request)
    | Placing(req: Request, seen: set<string>)
    | Saving(id: string)
    | Over

  datatype World = World(bookings: Store, used: set<string>, holder: Option<nat>, jobs: map<nat, Job>)

  datatype Event =
    | Arrive(p: nat, req: Request)
    | Acquire(p: nat)                                          // takes the lock and reads the snapshot
    | Place(p: nat, id: string, start: Time, reason: string)       // adds the load under a fresh id, prunes, starts saving
    | Finish(p: nat)                                           // saved; releases the lock
    | Abort(p: nat)                                            // ends by an exception, releasing the lock if held
    | CancelStep(now: Time, byId: Option<string>, byName: Option<string>)
    | ReportStep(id: string, status: string, now: Time)

  ghost predicate InLock(job: Job) {
    job.Placing? || job.Saving?
  }

  ghost predicate Enabled(w: World, e: Event) {
    match e
    case Arrive(p, req) => p !in w.jobs && req.Refused().None?
    case Acquire(p) => p in w.jobs && w.jobs[p].Waiting? && w.holder.None?
    case Place(p, id, _, _) => p in w.jobs && w.jobs[p].Placing? && id !in w.used
    case Finish(p) => p in w.jobs && w.jobs[p].Saving?
    case Abort(p) => p in w.jobs && !w.jobs[p].Over?
    case CancelStep(_, _, _) => true
    case ReportStep(id, status, _) => CanReport(w.bookings, id, status)
  }

  ghost function NewBooking(req: Request, id: string, start: Time, reason: string): Booking {
    Booking(id, req.name, req.durationMin, start, req.latestFinish, Round2(req.kwh), "booked", reason)
  }

  ghost function Release(w: World, p: nat): World {
    w.(jobs := w.jobs[p := Over], holder := if w.holder == Some(p) then None else w.holder)
  }

  ghost function Apply(w: World, e: Event): World
    requires Enabled(w, e)
  {
    match e
    case Arrive(p, req) => w.(jobs := w.jobs[p := Waiting(req)])
    case Acquire(p) =>
      var req := w.jobs[p].req;
      w.(holder := Some(p), jobs := w.jobs[p := Placing(req, Live(w.bookings, req.now).Keys)])
    case Place(p, id, start, reason) =>
      var req := w.jobs[p].req;
      w.(bookings := Added(w.bookings, NewBooking(req, id, start, reason), req.now),
         used := w.used + {id},
         jobs := w.jobs[p := Saving(id)])
    case Finish(p) => Release(w, p)
    case Abort(p) => Release(w, p)
    case CancelStep(now, id, name) => w.(bookings := Cancelled(w.bookings, id, name, now))
    case ReportStep(id, status, now) => w.(bookings := Reported(w.bookings, id, status, now))
  }

  ghost predicate IsRun(w: World, events: seq<Event>)
    decreases |events|, 0
  {
    events == [] || (IsRun(w, events[..|events| - 1])
                     && Enabled(After(w, events[..|events| - 1]), events[|events| - 1]))
  }

  ghost function After(w: World, events: seq<Event>): World
    requires IsRun(w, events)
    decreases |events|, 1
  {
    if events == [] then w else Apply(After(w, events[..|events| - 1]), events[|events| - 1])
  }

  /** A store just loaded, nobody waiting. */
  ghost predicate IsStart(w: World) {
    && (forall k :: k in w.bookings ==> w.bookings[k].id == k && k in w.used)
    && w.holder.None? && w.jobs == map[]
  }

  // ------------------------------------------------------------------------
  // Placement is serial and informed
  // ------------------------------------------------------------------------

  ghost predicate Inv(w: World) {
    && (forall k :: k in w.bookings ==> w.bookings[k].id == k && k in w.used)
    && (forall p :: p in w.jobs && InLock(w.jobs[p]) ==> w.holder == Some(p))
    && (forall p :: p in w.jobs && w.jobs[p].Placing? ==> Informed(w, p))
    && (forall p :: p in w.jobs && (w.jobs[p].Waiting? || w.jobs[p].Placing?) ==> w.jobs[p].req.Refused().None?)
  }

  /** Everything in the store that was live when `p` read it is in what `p` read. */
  ghost predicate Informed(w: World, p: nat)
    requires p in w.jobs && w.jobs[p].Placing?
  {
    forall k :: k in w.bookings && w.bookings[k].finishBy >= w.jobs[p].req.now ==> k in w.jobs[p].seen
  }

  /** No step but a placement brings in a booking, and none moves a deadline. */
  lemma StepOnlyDrops(w: World, e: Event, k: string)
    requires Enabled(w, e) && k in Apply(w, e).bookings && !(e.Place? && e.id == k)
    requires forall j :: j in w.bookings ==> w.bookings[j].id == j
    ensures k in w.bookings && Apply(w, e).bookings[k].finishBy == w.bookings[k].finishBy
    ensures Apply(w, e).bookings[k].id == w.bookings[k].id
  {
  }

  lemma StepKeepsInv(w: World, e: Event)
    requires Inv(w) && Enabled(w, e)
    ensures Inv(Apply(w, e))
  {
    var after := Apply(w, e);
    forall k | k in after.bookings ensures after.bookings[k].id == k && k in after.used {
      if !(e.Place? && e.id == k) {
        StepOnlyDrops(w, e, k);
      }
    }
    forall p | p in after.jobs && after.jobs[p].Placing? ensures Informed(after, p) {
      forall k | k in after.bookings && after.bookings[k].finishBy >= after.jobs[p].req.now
        ensures k in after.jobs[p].seen
      {
        if !e.Place? {
          StepOnlyDrops(w, e, k);
        }
      }
    }
  }

  lemma {:induction false} RunKeepsInv(w: World, events: seq<Event>)
    requires Inv(w) && IsRun(w, events)
    ensures Inv(After(w, events))
    decreases |events|
  {
    if events == [] {
    } else {
      RunKeepsInv(w, events[..|events| - 1]);
      StepKeepsInv(After(w, events[..|events| - 1]), events[|events| - 1]);
    }
  }

  /**
   However the calls interleave, when a booking is placed its chooser had been given every
   booking in the store that was live at its `now`, and nobody else is inside the lock.
   */
  lemma PlacedWithFullView(start: World, events: seq<Event>, place: Event)
    requires IsStart(start) && IsRun(start, events)
    requires place.Place? && Enabled(After(start, events), place)
    ensures var w := After(start, events);
            && (forall k :: k in w.bookings && w.bookings[k].finishBy >= w.jobs[place.p].req.now ==> k in w.jobs[place.p].seen)
            && (forall q :: q in w.jobs && q != place.p ==> w.jobs[q].Waiting? || w.jobs[q].Over?)
  {
    RunKeepsInv(start, events);
    assert Informed(After(start, events), place.p);
  }

  /** The placed booking is the one that was asked for, and survives the commit that adds it. */
  lemma PlacedIsKept(w: World, place: Event)
    requires Inv(w) && Enabled(w, place) && place.Place?
    ensures var req, after := w.jobs[place.p].req, Apply(w, place);
            && place.id in after.bookings
            && after.bookings[place.id]
            == Booking(place.id, req.name, req.durationMin, place.start, req.latestFinish, Round2(req.kwh), "booked", place.reason)
            && (forall k :: k in after.bookings && k != place.id ==> k in w.bookings && after.bookings[k] == w.bookings[k])
  {
  }

  /** A booking that a cancellation is about: active, and of the id given, or of the name where no id is. */
  ghost predicate IsAbout(b: Booking, id: Option<string>, name: Option<string>) {
    && (b.status == "booked" || b.status == "started")
    && if id.None? || id.value == "" then name == Some(b.name) else id == Some(b.id)
  }

  /** Cancellations and reports change the status of what they are about, and nothing else. */
  lemma OnlyStatusChanges(w: World, e: Event, k: string)
    requires Enabled(w, e) && (e.CancelStep? || e.ReportStep?) && k in Apply(w, e).bookings
    ensures k in w.bookings && Apply(w, e).bookings[k] == w.bookings[k].(status := Apply(w, e).bookings[k].status)
    ensures e.CancelStep? ==>
              Apply(w, e).bookings[k].status == if IsAbout(w.bookings[k], e.byId, e.byName) then "cancelled" else w.bookings[k].status
    ensures e.ReportStep? ==> Apply(w, e).bookings[k].status == if k == e.id then e.status else w.bookings[k].status
  {
    if e.CancelStep? {
      MeantBy(w.bookings, e.byId, e.byName);
      var hits := Meant(w.bookings, e.byId, e.byName);
      assert k in hits <==> IsAbout(w.bookings[k], e.byId, e.byName);
    }
  }

  // ------------------------------------------------------------------------
  // Pruning is final
  // ------------------------------------------------------------------------

  /** A booking leaves the store only by a commit after its deadline, and then for good. */
  lemma DroppedOnlyWhenDue(w: World, e: Event, k: string)
    requires Inv(w) && Enabled(w, e) && k in w.bookings && k !in Apply(w, e).bookings
    ensures match e
            case Place(p, _, _, _) => w.bookings[k].finishBy < w.jobs[p].req.now
            case CancelStep(now, _, _) => w.bookings[k].finishBy < now
            case ReportStep(_, _, now) => w.bookings[k].finishBy < now
            case _ => false
  {
  }

  lemma {:induction false} DroppedNeverReturns(w: World, events: seq<Event>, k: string)
    requires Inv(w) && IsRun(w, events) && k in w.used && k !in w.bookings
    ensures k !in After(w, events).bookings && k in After(w, events).used
    decreases |events|
  {
    if events == [] {
    } else {
      var past, e := events[..|events| - 1], events[|events| - 1];
      DroppedNeverReturns(w, past, k);
      RunKeepsInv(w, past);
      if k in After(w, events).bookings {
        StepOnlyDrops(After(w, past), e, k);
      }
    }
  }

  // ------------------------------------------------------------------------
  // Status only moves forward
  // ------------------------------------------------------------------------

  ghost function Rank(status: string): nat {
    if status == "booked" then 0 else if status == "started" then 1 else 2
  }

  /** A step changes a status, if it does, in one of five ways. */
  lemma StepMovesForward(w: World, e: Event, k: string)
    requires Inv(w) && Enabled(w, e) && k in w.bookings && k in Apply(w, e).bookings
    ensures var from, to := w.bookings[k].status, Apply(w, e).bookings[k].status;
            || from == to
            || (from == "booked" && to in {"started", "done", "cancelled"})
            || (from == "started" && to in {"done", "cancelled"})
  {
  }

  /** How many steps of a run changed the status of booking `k`. */
  ghost function Changes(w: World, events: seq<Event>, k: string): nat
    requires IsRun(w, events)
    decreases |events|
  {
    if events == [] then 0 else
      var before, after := After(w, events[..|events| - 1]).bookings, After(w, events).bookings;
      Changes(w, events[..|events| - 1], k)
      + if k in before && k in after && before[k].status != after[k].status then 1 else 0
  }

  /**
   Over any run a booking changes status at most twice, and not at all once it is done or
   cancelled: each change uses up part of the way that is left.
   */
  lemma {:induction false} FewChanges(w: World, events: seq<Event>, k: string)
    requires Inv(w) && IsRun(w, events) && k in w.bookings
    ensures var from, after := Rank(w.bookings[k].status), After(w, events).bookings;
            from + Changes(w, events, k) <= if k in after then Rank(after[k].status) else 2
    ensures k in After(w, events).used
    decreases |events|
  {
    if events == [] {
    } else {
      var past, e := events[..|events| - 1], events[|events| - 1];
      FewChanges(w, past, k);
      RunKeepsInv(w, past);
      var before := After(w, past);
      if k in before.bookings && k in Apply(before, e).bookings {
        StepMovesForward(before, e, k);
      } else if k !in before.bookings && k in Apply(before, e).bookings {
        StepOnlyDrops(before, e, k);
      }
    }
  }

  /** Done and cancelled are final. */
  lemma TerminalStays(w: World, events: seq<Event>, k: string)
    requires Inv(w) && IsRun(w, events) && k in w.bookings && !Active(w.bookings[k].status)
    requires k in After(w, events).bookings
    ensures After(w, events).bookings[k].status == w.bookings[k].status
    ensures Changes(w, events, k) == 0
    decreases |events|
  {
    FewChanges(w, events, k);
    if events == [] {
    } else {
      var past, e := events[..|events| - 1], events[|events| - 1];
      RunKeepsInv(w, past);
      FewChanges(w, past, k);
      StepOnlyDrops(After(w, past), e, k);
      TerminalStays(w, past, k);
      StepMovesForward(After(w, past), e, k);
    }
  }

  // ------------------------------------------------------------------------
  // Nobody is shut out
  // ------------------------------------------------------------------------

  /** An acceptable request can always be made, a call that waits can always get on or give up, and loads can always be cancelled. */
  lemma CallsGoOn(w: World, p: nat, req: Request, now: Time, id: Option<string>, name: Option<string>)
    requires Inv(w)
    ensures p !in w.jobs && req.durationMin > 0 && req.kwh > 0.0
            && req.latestFinish - (if req.earliestStart >= req.now then req.earliestStart else req.now) >= req.durationMin * 60_000_000
        ==> Enabled(w, Arrive(p, req))
    ensures p in w.jobs && w.jobs[p].Waiting? && w.holder.None? ==> Enabled(w, Acquire(p))
    ensures p in w.jobs && !w.jobs[p].Over? ==> Enabled(w, Abort(p))
    ensures p in w.jobs && !w.jobs[p].Over? ==> Apply(w, Abort(p)).jobs[p].Over? && Apply(w, Abort(p)).holder != Some(p)
    ensures Enabled(w, CancelStep(now, id, name))
  {
  }

  /** A call that waits while the lock is free can place its load under any fresh id, save it and leave the lock free. */
  lemma WaiterFinishes(w: World, p: nat, id: string, start: Time, reason: string)
    requires Inv(w) && p in w.jobs && w.jobs[p].Waiting? && w.holder.None? && id !in w.used
    ensures var events := [Acquire(p), Place(p, id, start, reason), Finish(p)];
            && IsRun(w, events)
            && After(w, events).holder.None? && After(w, events).jobs[p].Over?
            && id in After(w, events).bookings && After(w, events).bookings[id].startAt == start
  {
    var acquire, place, finish := Acquire(p), Place(p, id, start, reason), Finish(p);
    RunNext(w, [], acquire);
    RunNext(w, [acquire], place);
    RunNext(w, [acquire, place], finish);
    assert [] + [acquire] == [acquire] && [acquire] + [place] == [acquire, place];
    assert [acquire, place] + [finish] == [acquire, place, finish];
  }

  lemma RunNext(w: World, past: seq<Event>, e: Event)
    requires IsRun(w, past) && Enabled(After(w, past), e)
    ensures IsRun(w, past + [e]) && After(w, past + [e]) == Apply(After(w, past), e)
  {
    assert (past + [e])[..|past|] == past;
  }
}

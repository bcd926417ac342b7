/**
 Has Home Assistant restarted? A backwards windowed search of the logbook, the
 log's first timestamp as a second source, and the polling loop that waits.
 */
module RestartWatch {
  import opened Prelude

  const LOGBOOK_WINDOW: Time := 21_600_000_000        // 6 h
  const LOGBOOK_LIMIT: Time := 1_209_600_000_000      // 14 days
  const RESTART_POLL: Time := 3_000_000               // 3 s

  // ------------------------------------------------------------------------
  // The logbook
  // ------------------------------------------------------------------------

  /** A logbook entry; `Unreadable` is one without a usable time. */
  datatype Entry = Unreadable | At(time: Time, started: bool)

  /** What one request for a window gives: None when it fails or is no list. */
  type Fetch = (Time, Time) -> Option<seq<Entry>>

  datatype Answer = Yes | No | CannotTell

  predicate Counts(e: Entry, epoch: Time) {
    e.At? && e.time >= epoch
  }

  ghost predicate Reports(entries: seq<Entry>, epoch: Time) {
    exists e :: e in entries && e.At? && e.time >= epoch && e.started
  }

  ghost predicate Records(entries: seq<Entry>, epoch: Time) {
    exists e :: e in entries && e.At? && e.time >= epoch
  }

  /** The windows of the search, newest first: `k`-th window of [epoch, now]. */
  function WindowEnd(epoch: Time, now: Time, k: nat): Time {
    Max(now - k * LOGBOOK_WINDOW, epoch)
  }

  /** How many windows [epoch, now] takes. */
  function WindowCount(epoch: Time, now: Time): nat {
    if now <= epoch then 0 else (now - epoch + LOGBOOK_WINDOW - 1) / LOGBOOK_WINDOW
  }

  function Read(fetch: Fetch, epoch: Time, now: Time, k: nat): Option<seq<Entry>> {
    fetch(WindowEnd(epoch, now, k + 1), WindowEnd(epoch, now, k))
  }

  ghost predicate ReadsStart(fetch: Fetch, epoch: Time, now: Time, k: nat) {
    Read(fetch, epoch, now, k).Some? && Reports(Read(fetch, epoch, now, k).value, epoch)
  }

  /** Read, with nothing that reports a start. */
  ghost predicate ReadsNoStart(fetch: Fetch, epoch: Time, now: Time, k: nat) {
    Read(fetch, epoch, now, k).Some? && !ReadsStart(fetch, epoch, now, k)
  }

  ghost predicate ReadsRecording(fetch: Fetch, epoch: Time, now: Time, k: nat) {
    Read(fetch, epoch, now, k).Some? && Records(Read(fetch, epoch, now, k).value, epoch)
  }

  /** A window reports a start, and every newer one was read and did not. */
  ghost predicate FoundIn(fetch: Fetch, epoch: Time, now: Time, k: nat) {
    && k < WindowCount(epoch, now) && ReadsStart(fetch, epoch, now, k)
    && forall j: nat :: j < k ==> ReadsNoStart(fetch, epoch, now, j)
  }

  /** Scans one window's entries. */
  method ScanEntries(entries: seq<Entry>, epoch: Time) returns (found: bool, recording: bool)
    ensures found <==> Reports(entries, epoch)
    ensures !found ==> (recording <==> Records(entries, epoch))
  {
    recording := false;
    for i := 0 to |entries|
      invariant forall j :: 0 <= j < i ==> !(Counts(entries[j], epoch) && entries[j].started)
      invariant recording <==> exists j :: 0 <= j < i && Counts(entries[j], epoch)
    {
      if Counts(entries[i], epoch) {
        if entries[i].started {
          return true, recording;
        }
        recording := true;
      }
    }
    found := false;
  }

  /** Every window was read and reports no start. */
  ghost predicate NoStartAnywhere(fetch: Fetch, epoch: Time, now: Time) {
    forall k: nat :: k < WindowCount(epoch, now) ==> ReadsNoStart(fetch, epoch, now, k)
  }

  ghost predicate FoundSomewhere(fetch: Fetch, epoch: Time, now: Time) {
    exists k: nat :: FoundIn(fetch, epoch, now, k)
  }

  /** Some entry at or after the epoch shows that the logbook was recording. */
  ghost predicate WasRecording(fetch: Fetch, epoch: Time, now: Time) {
    exists k: nat :: k < WindowCount(epoch, now) && ReadsRecording(fetch, epoch, now, k)
  }

  /** A window that cannot be read, or reports a start, settles the search. */
  lemma SearchSettled(fetch: Fetch, epoch: Time, now: Time, k: nat)
    requires k < WindowCount(epoch, now) && !ReadsNoStart(fetch, epoch, now, k)
    requires forall j: nat :: j < k ==> ReadsNoStart(fetch, epoch, now, j)
    ensures !NoStartAnywhere(fetch, epoch, now)
    ensures FoundSomewhere(fetch, epoch, now) <==> ReadsStart(fetch, epoch, now, k)
  {
    if ReadsStart(fetch, epoch, now, k) {
      assert FoundIn(fetch, epoch, now, k);
    }
    if FoundSomewhere(fetch, epoch, now) {
      var j: nat :| FoundIn(fetch, epoch, now, j);
      assert j < k ==> ReadsNoStart(fetch, epoch, now, j);
      assert k < j ==> ReadsNoStart(fetch, epoch, now, k);
    }
  }

  lemma NothingFound(fetch: Fetch, epoch: Time, now: Time)
    requires NoStartAnywhere(fetch, epoch, now)
    ensures !FoundSomewhere(fetch, epoch, now)
  {
    forall k: nat ensures !FoundIn(fetch, epoch, now, k) {
      assert k < WindowCount(epoch, now) ==> ReadsNoStart(fetch, epoch, now, k);
    }
  }

  /** The search is over exactly when all windows have been read. */
  lemma WindowsLeft(epoch: Time, now: Time, k: nat)
    requires k <= WindowCount(epoch, now) && epoch < now
    ensures WindowEnd(epoch, now, k) > epoch <==> k < WindowCount(epoch, now)
    ensures WindowEnd(epoch, now, k + 1) == Max(WindowEnd(epoch, now, k) - LOGBOOK_WINDOW, epoch)
    ensures now - epoch <= LOGBOOK_LIMIT ==> WindowCount(epoch, now) <= 56
  {
  }

  method LogbookStartedSince(epoch: Time, now: Time, fetch: Fetch) returns (answer: Answer, ghost requests: nat)
    ensures IsLogbookAnswer(answer, epoch, now, fetch)
    ensures requests <= WindowCount(epoch, now) && requests <= 56
  {
    requests := 0;
    if now - epoch > LOGBOOK_LIMIT {
      return CannotTell, requests;
    }
    var recording, end := false, now;
    while end > epoch
      invariant end == if now <= epoch then now else WindowEnd(epoch, now, requests)
      invariant requests <= WindowCount(epoch, now)
      invariant forall j: nat :: j < requests ==> ReadsNoStart(fetch, epoch, now, j)
      invariant recording <==> exists j: nat :: j < requests && ReadsRecording(fetch, epoch, now, j)
      decreases end - epoch
    {
      WindowsLeft(epoch, now, requests);
      ghost var k := requests;
      var start := Max(end - LOGBOOK_WINDOW, epoch);
      var entries := fetch(start, end);
      assert entries == Read(fetch, epoch, now, k);
      requests := requests + 1;
      if entries.None? {
        SearchSettled(fetch, epoch, now, k);
        return CannotTell, requests;
      }
      var found, seen := ScanEntries(entries.value, epoch);
      if found {
        SearchSettled(fetch, epoch, now, k);
        return Yes, requests;
      }
      assert ReadsNoStart(fetch, epoch, now, k) && (seen <==> ReadsRecording(fetch, epoch, now, k));
      recording := recording || seen;
      end := start;
    }
    if epoch < now {
      WindowsLeft(epoch, now, requests);
    }
    NothingFound(fetch, epoch, now);
    answer := if recording then No else CannotTell;
  }

  /** What the search answers, within its limit: a start, none with proof of recording, or neither. */
  ghost predicate IsLogbookAnswer(answer: Answer, epoch: Time, now: Time, fetch: Fetch) {
    && (answer == Yes <==> now - epoch <= 1_209_600_000_000 && FoundSomewhere(fetch, epoch, now))
    && (answer == No <==> now - epoch <= 1_209_600_000_000 && NoStartAnywhere(fetch, epoch, now) && WasRecording(fetch, epoch, now))
  }

  /** The windows tile [epoch, now]: each starts where the next older ends, none is longer than 6 h, at most 56 are needed. */
  lemma WindowsTile(epoch: Time, now: Time, t: Time)
    requires epoch <= t < now
    ensures exists k: nat :: k < WindowCount(epoch, now) && WindowEnd(epoch, now, k + 1) <= t < WindowEnd(epoch, now, k)
    ensures WindowEnd(epoch, now, 0) == now && WindowEnd(epoch, now, WindowCount(epoch, now)) == epoch
    ensures forall k: nat :: k < WindowCount(epoch, now) ==>
              0 < WindowEnd(epoch, now, k) - WindowEnd(epoch, now, k + 1) <= 21_600_000_000
    ensures now - epoch <= 1_209_600_000_000 ==> WindowCount(epoch, now) <= 56
  {
    var k := (now - t - 1) / LOGBOOK_WINDOW;
    assert k < WindowCount(epoch, now) && WindowEnd(epoch, now, k + 1) <= t < WindowEnd(epoch, now, k);
  }

  /** `fetch` returns, for every window, exactly what the log holds in it. */
  ghost predicate Faithful(fetch: Fetch, log: seq<Entry>) {
    forall a, b :: a < b ==> fetch(a, b).Some? && forall e :: e in fetch(a, b).value && e.At? <==> e in log && e.At? && a <= e.time < b
  }

  ghost predicate StartedIn(log: seq<Entry>, epoch: Time, now: Time) {
    exists e :: e in log && e.At? && e.started && epoch <= e.time < now
  }

  ghost predicate AnyIn(log: seq<Entry>, epoch: Time, now: Time) {
    exists e :: e in log && e.At? && epoch <= e.time < now
  }

  /** Against a faithful logbook the search finds a start exactly when there is one, and reads everything otherwise. */
  lemma FaithfulSearch(epoch: Time, now: Time, fetch: Fetch, log: seq<Entry>)
    requires Faithful(fetch, log)
    ensures FoundSomewhere(fetch, epoch, now) <==> StartedIn(log, epoch, now)
    ensures NoStartAnywhere(fetch, epoch, now) <==> !StartedIn(log, epoch, now)
    ensures WasRecording(fetch, epoch, now) <==> AnyIn(log, epoch, now)
  {
    forall k: nat | k < WindowCount(epoch, now)
      ensures ReadsStart(fetch, epoch, now, k) || ReadsNoStart(fetch, epoch, now, k)
      ensures ReadsStart(fetch, epoch, now, k) ==> StartedIn(log, epoch, now)
      ensures ReadsRecording(fetch, epoch, now, k) ==> AnyIn(log, epoch, now)
    {
      WindowIsFaithful(epoch, now, fetch, log, k);
    }
    if StartedIn(log, epoch, now) {
      StartIsRead(epoch, now, fetch, log);
    } else {
      NothingFound(fetch, epoch, now);
    }
    if AnyIn(log, epoch, now) {
      var e :| e in log && e.At? && epoch <= e.time < now;
      var k := WindowHolding(epoch, now, fetch, log, e);
      assert ReadsRecording(fetch, epoch, now, k);
    }
  }

  lemma StartIsRead(epoch: Time, now: Time, fetch: Fetch, log: seq<Entry>)
    requires Faithful(fetch, log) && StartedIn(log, epoch, now)
    ensures FoundSomewhere(fetch, epoch, now) && !NoStartAnywhere(fetch, epoch, now)
  {
    var e :| e in log && e.At? && e.started && epoch <= e.time < now;
    var k := WindowHolding(epoch, now, fetch, log, e);
    forall j: nat | j < WindowCount(epoch, now) ensures Read(fetch, epoch, now, j).Some? {
      WindowIsFaithful(epoch, now, fetch, log, j);
    }
    assert Reports(Read(fetch, epoch, now, k).value, epoch);
    assert !ReadsNoStart(fetch, epoch, now, k);
    FirstStart(fetch, epoch, now, k);
  }

  lemma WindowIsFaithful(epoch: Time, now: Time, fetch: Fetch, log: seq<Entry>, k: nat)
    requires Faithful(fetch, log) && k < WindowCount(epoch, now)
    ensures Read(fetch, epoch, now, k).Some?
    ensures ReadsStart(fetch, epoch, now, k) ==> StartedIn(log, epoch, now)
    ensures ReadsRecording(fetch, epoch, now, k) ==> AnyIn(log, epoch, now)
  {
  }

  lemma WindowHolding(epoch: Time, now: Time, fetch: Fetch, log: seq<Entry>, e: Entry) returns (k: nat)
    requires Faithful(fetch, log) && e in log && e.At? && epoch <= e.time < now
    ensures k < WindowCount(epoch, now) && Read(fetch, epoch, now, k).Some? && e in Read(fetch, epoch, now, k).value
  {
    WindowsTile(epoch, now, e.time);
    k :| k < WindowCount(epoch, now) && WindowEnd(epoch, now, k + 1) <= e.time < WindowEnd(epoch, now, k);
    assert fetch(WindowEnd(epoch, now, k + 1), WindowEnd(epoch, now, k)).Some?;
  }

  /** The newest window that reports a start is where the search stops. */
  lemma {:induction false} FirstStart(fetch: Fetch, epoch: Time, now: Time, k: nat)
    requires k < WindowCount(epoch, now) && ReadsStart(fetch, epoch, now, k)
    requires forall j: nat :: j < WindowCount(epoch, now) ==> Read(fetch, epoch, now, j).Some?
    ensures FoundSomewhere(fetch, epoch, now)
    decreases k
  {
    if j: nat :| j < k && ReadsStart(fetch, epoch, now, j) {
      FirstStart(fetch, epoch, now, j);
    } else {
      assert FoundIn(fetch, epoch, now, k);
    }
  }

  // ------------------------------------------------------------------------
  // Two sources
  // ------------------------------------------------------------------------

  /** The first line of the log that carries a time; the log is truncated at every restart. */
  function LogRestartTime(lines: seq<Option<Time>>): Option<Time> {
    if lines == [] then None else if lines[0].Some? then lines[0] else LogRestartTime(lines[1..])
  }

  /** Line `i` carries the time `t`, and no line before it carries one. */
  ghost predicate FirstTime(lines: seq<Option<Time>>, i: int, t: Time) {
    0 <= i < |lines| && lines[i] == Some(t) && forall j :: 0 <= j < i ==> lines[j] == None
  }

  /** The logged time is that of the first line carrying one; there is none exactly when no line carries one. */
  lemma {:induction false} LoggedIsFirst(lines: seq<Option<Time>>)
    ensures LogRestartTime(lines) == None <==> forall j :: 0 <= j < |lines| ==> lines[j] == None
    ensures forall t :: LogRestartTime(lines) == Some(t) <==> exists i :: FirstTime(lines, i, t)
  {
    if lines == [] || lines[0].Some? {
      forall t ensures LogRestartTime(lines) == Some(t) <==> exists i :: FirstTime(lines, i, t) {
        assert lines != [] && lines[0] == Some(t) ==> FirstTime(lines, 0, t);
      }
    } else {
      var rest := lines[1..];
      LoggedIsFirst(rest);
      assert forall i :: 0 <= i < |rest| ==> rest[i] == lines[i + 1];
      forall t ensures LogRestartTime(lines) == Some(t) <==> exists i :: FirstTime(lines, i, t) {
        FirstTimeNext(lines, t);
      }
    }
  }

  lemma FirstTimeNext(lines: seq<Option<Time>>, t: Time)
    requires lines != [] && lines[0].None?
    ensures (exists i :: FirstTime(lines, i, t)) <==> (exists i :: FirstTime(lines[1..], i, t))
  {
    if i :| FirstTime(lines, i, t) {
      assert FirstTime(lines[1..], i - 1, t);
    }
    if i :| FirstTime(lines[1..], i, t) {
      assert forall j :: 0 < j <= i ==> lines[j] == lines[1..][j - 1];
      assert FirstTime(lines, i + 1, t);
    }
  }

  /** The logbook search, within its limit, meets a start at or after the epoch. */
  ghost predicate LogbookReports(epoch: Time, now: Time, fetch: Fetch) {
    now - epoch <= 1_209_600_000_000 && FoundSomewhere(fetch, epoch, now)
  }

  /** The logbook search, within its limit, reads everything, meets no start, and sees that something was recorded. */
  ghost predicate LogbookDenies(epoch: Time, now: Time, fetch: Fetch) {
    now - epoch <= 1_209_600_000_000 && NoStartAnywhere(fetch, epoch, now) && WasRecording(fetch, epoch, now)
  }

  /** The first time in the log is at or after the epoch. */
  ghost predicate LogReports(epoch: Time, log: Option<seq<Option<Time>>>) {
    log.Some? && exists i, t :: FirstTime(log.value, i, t) && t >= epoch
  }

  /** The first time in the log is before the epoch. */
  ghost predicate LogDenies(epoch: Time, log: Option<seq<Option<Time>>>) {
    log.Some? && exists i, t :: FirstTime(log.value, i, t) && t < epoch
  }

  /** "Yes": the logbook says so, or it is silent and the log says so. "No": the logbook says so undisputed, or it is silent and the log says so. */
  ghost predicate IsAnswer(answer: Answer, epoch: Time, now: Time, fetch: Fetch, log: Option<seq<Option<Time>>>) {
    && (answer == Yes <==> || LogbookReports(epoch, now, fetch)
                           || (!LogbookDenies(epoch, now, fetch) && LogReports(epoch, log)))
    && (answer == No <==> && !LogbookReports(epoch, now, fetch) && !LogReports(epoch, log)
                          && (LogbookDenies(epoch, now, fetch) || LogDenies(epoch, log)))
  }

  /** `log` is None when it cannot be fetched. */
  method HaStartedSince(epoch: Time, now: Time, fetch: Fetch, log: Option<seq<Option<Time>>>) returns (answer: Answer)
    ensures IsAnswer(answer, epoch, now, fetch, log)
  {
    var verdict, _ := LogbookStartedSince(epoch, now, fetch);
    if verdict == Yes {
      FoundIsNotDenied(epoch, now, fetch);
      return Yes;
    }
    var logged := if log.None? then None else LogRestartTime(log.value);
    if log.Some? {
      LoggedIsFirst(log.value);
    }
    assert LogReports(epoch, log) <==> logged.Some? && logged.value >= epoch;
    assert LogDenies(epoch, log) <==> logged.Some? && logged.value < epoch;
    var loggedAfter := if logged.None? then None else Some(logged.value >= epoch);
    if verdict == No {
      FoundIsNotDenied(epoch, now, fetch);
      return if loggedAfter == Some(true) then CannotTell else No;
    }
    answer := if loggedAfter.None? then CannotTell else if loggedAfter.value then Yes else No;
  }

  lemma FoundIsNotDenied(epoch: Time, now: Time, fetch: Fetch)
    ensures !(LogbookReports(epoch, now, fetch) && LogbookDenies(epoch, now, fetch))
  {
    if NoStartAnywhere(fetch, epoch, now) {
      NothingFound(fetch, epoch, now);
    }
  }

  /** "Yes" needs a source that reports such a start; "no" needs that none does and one says so; a disagreement is no verdict. */
  lemma AnswerNeedsSource(epoch: Time, now: Time, fetch: Fetch, log: Option<seq<Option<Time>>>, answer: Answer)
    requires IsAnswer(answer, epoch, now, fetch, log)
    ensures answer == Yes ==> LogbookReports(epoch, now, fetch) || LogReports(epoch, log)
    ensures answer == No ==> !LogbookReports(epoch, now, fetch) && !LogReports(epoch, log)
    ensures answer == No ==> LogbookDenies(epoch, now, fetch) || LogDenies(epoch, log)
    ensures LogbookDenies(epoch, now, fetch) && LogReports(epoch, log) ==> answer == CannotTell
  {
    FoundIsNotDenied(epoch, now, fetch);
  }

  /** With a faithful logbook at most 14 days back: "yes" is the truth of it, or the log's word where it holds nothing at all; "no" holds once something was recorded and the log agrees. */
  lemma FaithfulAnswer(epoch: Time, now: Time, fetch: Fetch, book: seq<Entry>, log: Option<seq<Option<Time>>>, answer: Answer)
    requires IsAnswer(answer, epoch, now, fetch, log) && Faithful(fetch, book) && now - epoch <= 1_209_600_000_000
    ensures answer == Yes <==> StartedIn(book, epoch, now) || (!AnyIn(book, epoch, now) && LogReports(epoch, log))
    ensures AnyIn(book, epoch, now) && !LogReports(epoch, log) ==> answer == if StartedIn(book, epoch, now) then Yes else No
  {
    FaithfulSearch(epoch, now, fetch, book);
  }

  // ------------------------------------------------------------------------
  // Waiting
  // ------------------------------------------------------------------------

  datatype Outcome = Restarted | StartTimeUnknown | NoRestart(wentDown: bool)

  /** What the polls see: the clock when the `i`-th poll is due, whether the API is up, and what `HaStartedSince` then answers. */
  datatype Polls = Polls(clock: nat -> Time, up: nat -> bool, answer: nat -> Answer)

  /** Every sleep takes at least the poll interval. */
  ghost predicate ClockAdvances(polls: Polls) {
    forall i: nat :: polls.clock(i + 1) >= polls.clock(i) + 3_000_000
  }

  /** The API was down at some poll before the `n`-th. */
  ghost predicate DownBefore(polls: Polls, n: nat) {
    exists i: nat :: i < n && !polls.up(i)
  }

  /** An up-poll counts if the API never went down, or had gone down before it. */
  ghost predicate Counted(polls: Polls, n: nat, i: nat) {
    i < n && polls.up(i) && (DownBefore(polls, n) ==> DownBefore(polls, i))
  }

  ghost predicate SomeCounted(polls: Polls, n: nat, answer: Answer) {
    exists i: nat :: Counted(polls, n, i) && polls.answer(i) == answer
  }

  /** The verdict on the first `n` polls, none of which saw a restart. */
  ghost function VerdictOf(polls: Polls, n: nat): Outcome {
    if SomeCounted(polls, n, CannotTell) && !SomeCounted(polls, n, No) then StartTimeUnknown
    else NoRestart(DownBefore(polls, n))
  }

  ghost predicate SeesRestart(polls: Polls, i: nat) {
    polls.up(i) && polls.answer(i) == Yes
  }

  /** The deadline passes between the last of `n` polls and the next one. */
  ghost predicate EndsAfter(polls: Polls, deadline: Time, n: nat) {
    polls.clock(n) >= deadline && forall i: nat :: i < n ==> polls.clock(i) < deadline
  }

  /** What the wait ends with after `polled` polls. */
  ghost predicate IsOutcome(polls: Polls, deadline: Time, outcome: Outcome, polled: nat) {
    && (outcome == Restarted <==> exists i: nat :: polls.clock(i) < deadline && SeesRestart(polls, i))
    && (outcome == Restarted ==> polled > 0 && SeesRestart(polls, polled - 1))
    && (outcome != Restarted ==> EndsAfter(polls, deadline, polled) && outcome == VerdictOf(polls, polled))
  }

  /**
   Polls until a restart is seen or the deadline passes. `polled` is how many polls were
   made: a bounded number, since every sleep takes time.
   */
  method WaitRestart(polls: Polls, begun: Time, timeout: Time) returns (outcome: Outcome, polled: nat)
    requires ClockAdvances(polls) && begun <= polls.clock(0)
    ensures IsOutcome(polls, begun + timeout, outcome, polled)
    ensures polled > 0 ==> (polled - 1) * 3_000_000 < timeout
  {
    var deadline := begun + timeout;
    var seenDown, definiteNo, inconclusive := false, false, false;
    polled := 0;
    while polls.clock(polled) < deadline
      invariant polls.clock(polled) >= begun + polled * RESTART_POLL
      invariant polled > 0 ==> (polled - 1) * RESTART_POLL < timeout
      invariant forall j: nat :: j < polled ==> polls.clock(j) < deadline && !SeesRestart(polls, j)
      invariant seenDown <==> DownBefore(polls, polled)
      invariant definiteNo <==> SomeCounted(polls, polled, No)
      invariant inconclusive <==> SomeCounted(polls, polled, CannotTell)
      decreases deadline - polls.clock(polled)
    {
      OnePoll(polls, polled, No);
      OnePoll(polls, polled, CannotTell);
      if !polls.up(polled) {
        if !seenDown {
          definiteNo, inconclusive := false, false;
        }
        seenDown := true;
      } else {
        var restarted := polls.answer(polled);
        if restarted == Yes {
          assert SeesRestart(polls, polled);
          return Restarted, polled + 1;
        }
        if restarted == CannotTell {
          inconclusive := true;
        } else {
          definiteNo := true;
        }
      }
      polled := polled + 1;
    }
    NoLaterPoll(polls, deadline, polled);
    outcome := if inconclusive && !definiteNo then StartTimeUnknown else NoRestart(seenDown);
  }

  /** The clock does not come back before the deadline. */
  lemma NoLaterPoll(polls: Polls, deadline: Time, n: nat)
    requires ClockAdvances(polls) && polls.clock(n) >= deadline
    ensures forall i: nat :: i >= n ==> polls.clock(i) >= deadline
  {
    forall i: nat | i >= n ensures polls.clock(i) >= deadline {
      ClockKeepsOn(polls, deadline, n, i);
    }
  }

  lemma {:induction false} ClockKeepsOn(polls: Polls, deadline: Time, n: nat, i: nat)
    requires ClockAdvances(polls) && polls.clock(n) >= deadline && n <= i
    ensures polls.clock(i) >= deadline
    decreases i
  {
    if n == i {
    } else {
      ClockKeepsOn(polls, deadline, n, i - 1);
      assert polls.clock(i - 1 + 1) >= polls.clock(i - 1);
    }
  }

  /** What one more poll does to the answers that count. */
  lemma OnePoll(polls: Polls, n: nat, answer: Answer)
    ensures DownBefore(polls, n + 1) <==> DownBefore(polls, n) || !polls.up(n)
    ensures polls.up(n) ==> (SomeCounted(polls, n + 1, answer) <==> SomeCounted(polls, n, answer) || polls.answer(n) == answer)
    ensures !polls.up(n) && DownBefore(polls, n) ==> (SomeCounted(polls, n + 1, answer) <==> SomeCounted(polls, n, answer))
    ensures !polls.up(n) && !DownBefore(polls, n) ==> !SomeCounted(polls, n + 1, answer)
  {
  }

  /** If the API never goes down, the wait ends with the start time unknown exactly when it polls at all and every poll is inconclusive. */
  lemma UnknownWithoutDown(polls: Polls, deadline: Time, outcome: Outcome, polled: nat)
    requires ClockAdvances(polls) && IsOutcome(polls, deadline, outcome, polled)
    requires forall i: nat :: polls.clock(i) < deadline ==> polls.up(i)
    ensures outcome == StartTimeUnknown
       <==> polls.clock(0) < deadline && forall i: nat :: polls.clock(i) < deadline ==> polls.answer(i) == CannotTell
  {
    if outcome != Restarted {
      NoLaterPoll(polls, deadline, polled);
      assert !DownBefore(polls, polled);
      assert forall i: nat :: Counted(polls, polled, i) <==> i < polled;
      assert forall i: nat :: polls.clock(i) < deadline <==> i < polled;
      if SomeCounted(polls, polled, CannotTell) && !SomeCounted(polls, polled, No) {
        forall i: nat | i < polled ensures polls.answer(i) == CannotTell {
          assert !SeesRestart(polls, i) && Counted(polls, polled, i);
        }
      }
      if polled > 0 && forall i: nat :: i < polled ==> polls.answer(i) == CannotTell {
        assert Counted(polls, polled, 0);
      }
    }
  }

  // The polls' answers are those of `HaStartedSince` at that moment.

  /** What the sources give at the i-th poll: the host's clock, the logbook, and the log. */
  datatype Sources = Sources(now: nat -> Time, fetch: nat -> Fetch, log: nat -> Option<seq<Option<Time>>>)

  ghost predicate Asked(polls: Polls, deadline: Time, epoch: Time, sources: Sources) {
    forall i: nat :: polls.clock(i) < deadline && polls.up(i) ==> IsAnswer(polls.answer(i), epoch, sources.now(i), sources.fetch(i), sources.log(i))
  }

  /** At every up-poll before the deadline the logbook is faithful, and the epoch within its limit. */
  ghost predicate FaithfulUntil(polls: Polls, deadline: Time, epoch: Time, sources: Sources, book: nat -> seq<Entry>) {
    forall i: nat :: polls.clock(i) < deadline && polls.up(i) ==>
      Faithful(sources.fetch(i), book(i)) && sources.now(i) - epoch <= 1_209_600_000_000
  }

  /** The logbook holds a start at the i-th poll, or nothing at all while the log starts after the epoch. */
  ghost predicate ShowsStart(epoch: Time, sources: Sources, book: nat -> seq<Entry>, i: nat) {
    || StartedIn(book(i), epoch, sources.now(i))
    || (!AnyIn(book(i), epoch, sources.now(i)) && LogReports(epoch, sources.log(i)))
  }

  /**
   With a faithful logbook, the wait sees a restart exactly when, at some up-poll before the
   deadline, a start is on record, or nothing at all is and the log starts late enough.
   */
  lemma RestartIsSeen(polls: Polls, deadline: Time, epoch: Time, sources: Sources, book: nat -> seq<Entry>)
    requires Asked(polls, deadline, epoch, sources) && FaithfulUntil(polls, deadline, epoch, sources, book)
    ensures (exists i: nat :: polls.clock(i) < deadline && SeesRestart(polls, i))
       <==> (exists i: nat :: polls.clock(i) < deadline && polls.up(i) && ShowsStart(epoch, sources, book, i))
  {
    forall i: nat | polls.clock(i) < deadline && polls.up(i)
      ensures SeesRestart(polls, i) <==> ShowsStart(epoch, sources, book, i)
    {
      FaithfulAnswer(epoch, sources.now(i), sources.fetch(i), book(i), sources.log(i), polls.answer(i));
    }
  }
}

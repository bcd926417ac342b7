/**
 The rolling tracker of synthetic price slots: a pruned and capped window of samples,
 and a verdict that flips only after three evaluations in a row.
 */
module SlotHealth {
  import opened Prelude

  const WINDOW: Time := 3_600_000_000   // 60 min
  const MAX_SAMPLES := 240
  const MIN_SAMPLES_FOR_RATE := 6
  const CONSECUTIVE_TO_DEGRADE := 3
  const CONSECUTIVE_TO_CLEAR := 3
  const STARTUP_CHECK_EVALUATIONS := 3

  datatype Sample = Sample(at: Time, synthetic: bool)

  function Recent(samples: seq<Sample>, cutoff: Time): seq<Sample> {
    if samples == [] then [] else
      (if samples[0].at >= cutoff then [samples[0]] else []) + Recent(samples[1..], cutoff)
  }

  function Newest(samples: seq<Sample>): seq<Sample> {
    if |samples| > MAX_SAMPLES then samples[|samples| - MAX_SAMPLES..] else samples
  }

  function SyntheticCount(samples: seq<Sample>): (n: nat)
    ensures n <= |samples|
  {
    if samples == [] then 0 else (if samples[0].synthetic then 1 else 0) + SyntheticCount(samples[1..])
  }

  function Rate(samples: seq<Sample>): real {
    if samples == [] then 0.0 else SyntheticCount(samples) as real / |samples| as real
  }

  /** Enough samples, at least half of them synthetic. */
  predicate Above(samples: seq<Sample>) {
    |samples| >= MIN_SAMPLES_FOR_RATE && Rate(samples) >= 0.5
  }

  datatype State = State(
    samples: seq<Sample>,
    consecutiveAbove: nat,
    consecutiveBelow: nat,
    degraded: bool,
    evaluations: nat,
    coveringSlotSeen: bool)

  const FRESH := State([], 0, 0, false, 0, false)

  function NextSamples(samples: seq<Sample>, x: Sample): seq<Sample> {
    Newest(Recent(samples + [x], x.at - WINDOW))
  }

  function Record(s: State, x: Sample): State {
    var samples := NextSamples(s.samples, x);
    var above, below := if Above(samples) then s.consecutiveAbove + 1 else 0, if Above(samples) then 0 else s.consecutiveBelow + 1;
    State(samples, above, below, Verdict(s.degraded, above, below), s.evaluations + 1, s.coveringSlotSeen || !x.synthetic)
  }

  function Verdict(degraded: bool, above: nat, below: nat): bool {
    if degraded then below < CONSECUTIVE_TO_CLEAR else above >= CONSECUTIVE_TO_DEGRADE
  }

  predicate WarningDue(s: State) {
    s.evaluations >= STARTUP_CHECK_EVALUATIONS && !s.coveringSlotSeen
  }

  class SyntheticSlotHealth {
    var samples: seq<Sample>
    var consecutiveAbove: nat
    var consecutiveBelow: nat
    var degraded: bool
    var evaluations: nat
    var coveringSlotSeen: bool
    var startupWarningLogged: bool

    function Fields(): State
      reads this
    {
      State(samples, consecutiveAbove, consecutiveBelow, degraded, evaluations, coveringSlotSeen)
    }

    constructor ()
      ensures Fields() == FRESH && !startupWarningLogged
    {
      samples, consecutiveAbove, consecutiveBelow := [], 0, 0;
      degraded, evaluations, coveringSlotSeen, startupWarningLogged := false, 0, false, false;
    }

    method RecordSample(isSynthetic: bool, now: Time)
      modifies this
      ensures Fields() == Record(old(Fields()), Sample(now, isSynthetic))
      ensures startupWarningLogged == old(startupWarningLogged)
    {
      Remember(Sample(now, isSynthetic));
      evaluations := evaluations + 1;
      if !isSynthetic {
        coveringSlotSeen := true;
      }
      Judge();
    }

    /** Appends, prunes and caps. */
    method Remember(x: Sample)
      modifies this`samples
      ensures samples == NextSamples(old(samples), x)
    {
      samples := samples + [x];
      var cutoff := x.at - WINDOW;
      samples := Recent(samples, cutoff);
      if |samples| > MAX_SAMPLES {
        samples := samples[|samples| - MAX_SAMPLES..];
      }
    }

    /** Extends one streak, ends the other, and flips the verdict after three in a row. */
    method Judge()
      modifies this`consecutiveAbove, this`consecutiveBelow, this`degraded
      ensures consecutiveAbove == if Above(samples) then old(consecutiveAbove) + 1 else 0
      ensures consecutiveBelow == if Above(samples) then 0 else old(consecutiveBelow) + 1
      ensures degraded == Verdict(old(degraded), consecutiveAbove, consecutiveBelow)
    {
      if |samples| >= MIN_SAMPLES_FOR_RATE && Rate(samples) >= 0.5 {
        consecutiveAbove := consecutiveAbove + 1;
        consecutiveBelow := 0;
      } else {
        consecutiveBelow := consecutiveBelow + 1;
        consecutiveAbove := 0;
      }
      if !degraded && consecutiveAbove >= CONSECUTIVE_TO_DEGRADE {
        degraded := true;
      } else if degraded && consecutiveBelow >= CONSECUTIVE_TO_CLEAR {
        degraded := false;
      }
    }

    predicate NeedsStartupWarning()
      reads this
      ensures NeedsStartupWarning() <==> WarningDue(Fields()) && !startupWarningLogged
    {
      evaluations >= STARTUP_CHECK_EVALUATIONS && !coveringSlotSeen && !startupWarningLogged
    }
  }

  // ------------------------------------------------------------------------
  // Whole histories
  // ------------------------------------------------------------------------

  ghost function RunOf(history: seq<Sample>): State {
    if history == [] then FRESH else Record(RunOf(history[..|history| - 1]), history[|history| - 1])
  }

  ghost predicate ClockRuns(history: seq<Sample>) {
    forall i, j :: 0 <= i < j < |history| ==> history[i].at <= history[j].at
  }

  /** The last 240 of all samples ever recorded that are no older than 60 minutes. */
  ghost function Window(history: seq<Sample>): seq<Sample> {
    if history == [] then [] else
      var recent := Recent(history, history[|history| - 1].at - 3_600_000_000);
      if |recent| > 240 then recent[|recent| - 240..] else recent
  }

  /** In a history in the order of time, the recent samples start here. */
  ghost function First(history: seq<Sample>, cutoff: Time, from: nat := 0): (k: nat)
    requires from <= |history|
    ensures from <= k <= |history| && (forall i :: from <= i < k ==> history[i].at < cutoff)
    ensures k < |history| ==> history[k].at >= cutoff
    decreases |history| - from
  {
    if from == |history| || history[from].at >= cutoff then from else First(history, cutoff, from + 1)
  }

  lemma {:induction false} AllRecent(samples: seq<Sample>, cutoff: Time)
    requires forall i :: 0 <= i < |samples| ==> samples[i].at >= cutoff
    ensures Recent(samples, cutoff) == samples
  {
    if samples == [] {
    } else {
      AllRecent(samples[1..], cutoff);
    }
  }

  lemma {:induction false} RecentIsSuffix(samples: seq<Sample>, cutoff: Time, k: nat)
    requires k <= |samples| && (forall i :: 0 <= i < k ==> samples[i].at < cutoff)
    requires forall i :: k <= i < |samples| ==> samples[i].at >= cutoff
    ensures Recent(samples, cutoff) == samples[k..]
  {
    if k == 0 {
      AllRecent(samples, cutoff);
    } else {
      RecentIsSuffix(samples[1..], cutoff, k - 1);
      assert samples[1..][k - 1..] == samples[k..];
    }
  }

  /** Where the window of a history starts. */
  ghost function WindowStart(history: seq<Sample>): nat
    requires history != []
  {
    Max(First(history, history[|history| - 1].at - WINDOW), |history| - MAX_SAMPLES)
  }

  lemma RecentOfSuffix(history: seq<Sample>, k: nat, cutoff: Time)
    requires ClockRuns(history) && k <= |history|
    ensures Recent(history[k..], cutoff) == history[Max(k, First(history, cutoff))..]
  {
    var j := Max(k, First(history, cutoff));
    RecentIsSuffix(history[k..], cutoff, j - k);
    assert history[k..][j - k..] == history[j..];
  }

  lemma NewestOfSuffix(history: seq<Sample>, j: nat)
    requires j <= |history|
    ensures Newest(history[j..]) == history[Max(j, |history| - MAX_SAMPLES)..]
  {
  }

  lemma SuffixWindow(history: seq<Sample>, k: nat)
    requires history != [] && ClockRuns(history) && k <= WindowStart(history)
    ensures Newest(Recent(history[k..], history[|history| - 1].at - WINDOW)) == history[WindowStart(history)..]
  {
    var cutoff := history[|history| - 1].at - WINDOW;
    RecentOfSuffix(history, k, cutoff);
    NewestOfSuffix(history, Max(k, First(history, cutoff)));
  }

  lemma WindowIsSuffix(history: seq<Sample>)
    requires history != [] && ClockRuns(history)
    ensures Window(history) == history[WindowStart(history)..]
  {
    SuffixWindow(history, 0);
    assert history[0..] == history;
  }

  /** The incremental window is the window of the whole history. */
  lemma {:induction false} WindowIsHistory(history: seq<Sample>)
    requires ClockRuns(history)
    ensures RunOf(history).samples == Window(history)
  {
    if history == [] {
    } else {
      var past := history[..|history| - 1];
      PastRuns(history, past);
      WindowIsHistory(past);
      WindowIsSuffix(history);
      if past == [] {
        WindowGrows(history, past, 0);
      } else {
        WindowIsSuffix(past);
        StartsNoEarlier(history, past);
        WindowGrows(history, past, WindowStart(past));
      }
    }
  }

  lemma PastRuns(history: seq<Sample>, past: seq<Sample>)
    requires ClockRuns(history) && past <= history
    ensures ClockRuns(past)
  {
  }

  lemma WindowGrows(history: seq<Sample>, past: seq<Sample>, k: nat)
    requires history != [] && past == history[..|history| - 1] && ClockRuns(history)
    requires k <= |past| && k <= WindowStart(history)
    ensures NextSamples(past[k..], history[|past|]) == history[WindowStart(history)..]
  {
    assert past[k..] + [history[|past|]] == history[k..];
    SuffixWindow(history, k);
  }

  lemma StartsNoEarlier(history: seq<Sample>, past: seq<Sample>)
    requires past != [] && |history| == |past| + 1 && past == history[..|past|] && ClockRuns(history)
    ensures WindowStart(past) <= WindowStart(history)
  {
  }

  lemma OneRecord(a: Sample)
    ensures RunOf([a]).samples == [a]
  {
    assert [a][..0] == [] && RunOf([]).samples == [] && [] + [a] == [a];
    AllRecent([a], a.at - WINDOW);
  }

  lemma SecondPushesOutFirst(a: Sample, b: Sample)
    requires b.at - a.at > WINDOW
    ensures RunOf([a, b]).samples == [b]
  {
    assert [a, b][..1] == [a];
    OneRecord(a);
    RecentIsSuffix([a, b], b.at - WINDOW, 1);
    assert [a] + [b] == [a, b] && [a, b][1..] == [b];
  }

  lemma ThirdKeepsSecond(a: Sample, b: Sample, c: Sample)
    requires b.at - a.at > WINDOW && b.at >= c.at - WINDOW
    ensures RunOf([a, b, c]).samples == [b, c]
  {
    SecondPushesOutFirst(a, b);
    assert [a, b, c][..2] == [a, b];
    AllRecent([b, c], c.at - WINDOW);
    assert [b] + [c] == [b, c];
  }

  /** A clock that steps back can break this: `b` pushes `a` out, and back at `c` it is due again. */
  lemma ClockMustRun(a: Sample, b: Sample, c: Sample)
    requires b.at - a.at > WINDOW && c.at - WINDOW <= a.at
    ensures RunOf([a, b, c]).samples == [b, c] && Window([a, b, c]) == [a, b, c]
  {
    ThirdKeepsSecond(a, b, c);
    AllRecent([a, b, c], c.at - WINDOW);
  }

  // Any clock: a sample stays until a record finds it too old, or behind too many others.

  /** No record from the sample's own to the `j`-th is more than the window after it. */
  ghost predicate AliveAt(history: seq<Sample>, k: nat, j: nat)
    requires k <= j < |history|
  {
    forall m :: k <= m <= j ==> history[k].at >= history[m].at - 3_600_000_000
  }

  /** How many samples from the `from`-th to the `j`-th are alive at the `j`-th record. */
  ghost function CountAlive(history: seq<Sample>, from: nat, j: nat): nat
    requires j < |history|
    decreases j + 1 - from
  {
    if from > j then 0 else (if AliveAt(history, from, j) then 1 else 0) + CountAlive(history, from + 1, j)
  }

  /** At every record since, the sample was alive and fewer than 240 newer ones were. */
  ghost predicate Retained(history: seq<Sample>, i: nat)
    requires i < |history|
  {
    forall j :: i <= j < |history| ==> RetainedAt(history, i, j)
  }

  ghost predicate RetainedAt(history: seq<Sample>, i: nat, j: nat)
    requires i <= j < |history|
  {
    AliveAt(history, i, j) && CountAlive(history, i + 1, j) < 240
  }

  ghost function Kept(history: seq<Sample>, from: nat := 0): seq<Sample>
    requires from <= |history|
    decreases |history| - from
  {
    if from == |history| then [] else (if Retained(history, from) then [history[from]] else []) + Kept(history, from + 1)
  }

  lemma AliveBefore(past: seq<Sample>, x: Sample, k: nat, j: nat)
    requires k <= j < |past|
    ensures AliveAt(past + [x], k, j) <==> AliveAt(past, k, j)
    ensures AliveAt(past + [x], k, |past|) <==> AliveAt(past, k, |past| - 1) && past[k].at >= x.at - WINDOW
  {
    var history := past + [x];
    assert history[|past|] == x && forall m :: 0 <= m < |past| ==> history[m] == past[m];
  }

  lemma {:induction false} CountBefore(past: seq<Sample>, x: Sample, from: nat, j: nat)
    requires j < |past|
    ensures CountAlive(past + [x], from, j) == CountAlive(past, from, j)
    decreases j + 1 - from
  {
    if from > j {
    } else {
      AliveBefore(past, x, from, j);
      CountBefore(past, x, from + 1, j);
    }
  }

  lemma RetainedBefore(past: seq<Sample>, x: Sample, i: nat, j: nat)
    requires i <= j < |past|
    ensures RetainedAt(past + [x], i, j) <==> RetainedAt(past, i, j)
  {
    AliveBefore(past, x, i, j);
    CountBefore(past, x, i + 1, j);
  }

  lemma RetainedThen(past: seq<Sample>, x: Sample, i: nat)
    requires i < |past|
    ensures Retained(past + [x], i) <==> Retained(past, i) && RetainedAt(past + [x], i, |past|)
  {
    forall j | i <= j < |past| ensures RetainedAt(past + [x], i, j) <==> RetainedAt(past, i, j) {
      RetainedBefore(past, x, i, j);
    }
  }

  /** One more record retains what was retained, is still recent, and is not behind 240 others. */
  lemma RetainedNext(past: seq<Sample>, x: Sample, i: nat)
    requires i < |past|
    ensures Retained(past + [x], i)
       <==> Retained(past, i) && past[i].at >= x.at - WINDOW && CountAlive(past + [x], i + 1, |past|) < MAX_SAMPLES
  {
    RetainedThen(past, x, i);
    AliveBefore(past, x, i, |past| - 1);
    assert Retained(past, i) ==> RetainedAt(past, i, |past| - 1);
  }

  lemma {:induction false} CountShrinks(history: seq<Sample>, from: nat, k: nat, j: nat)
    requires from <= k && j < |history|
    ensures CountAlive(history, k, j) <= CountAlive(history, from, j)
    decreases k
  {
    if from == k {
    } else {
      CountShrinks(history, from, k - 1, j);
    }
  }

  /** What is newer than a retained sample and alive is retained too. */
  lemma NewerAreRetained(history: seq<Sample>, i: nat, k: nat)
    requires i < k < |history| && Retained(history, i) && AliveAt(history, k, |history| - 1)
    ensures Retained(history, k)
  {
    forall j | k <= j < |history| ensures RetainedAt(history, k, j) {
      assert RetainedAt(history, i, j);
      CountShrinks(history, i + 1, k + 1, j);
    }
  }

  /** What the record `x` leaves of the samples kept so far from the `from`-th on, before the cap. */
  ghost function Left(past: seq<Sample>, x: Sample, from: nat): seq<Sample>
    requires from <= |past|
  {
    Recent(Kept(past, from) + [x], x.at - WINDOW)
  }

  lemma LeftNext(past: seq<Sample>, x: Sample, from: nat)
    requires from < |past|
    ensures Left(past, x, from)
         == (if Retained(past, from) && past[from].at >= x.at - WINDOW then [past[from]] else []) + Left(past, x, from + 1)
  {
    RecentNext(past[from], Retained(past, from), Kept(past, from + 1), x);
  }

  lemma LeftAtEnd(past: seq<Sample>, x: Sample)
    ensures Left(past, x, |past|) == [x]
  {
    assert [] + [x] == [x];
    AllRecent([x], x.at - WINDOW);
  }

  lemma RecentNext(s: Sample, kept: bool, later: seq<Sample>, x: Sample)
    ensures Recent((if kept then [s] else []) + later + [x], x.at - WINDOW)
         == (if kept && s.at >= x.at - WINDOW then [s] else []) + Recent(later + [x], x.at - WINDOW)
  {
    var all := (if kept then [s] else []) + later + [x];
    if kept {
      assert all[1..] == later + [x];
    } else {
      assert all == later + [x];
    }
  }

  /** Behind a retained sample, what is alive is left. */
  lemma AliveIsLeft(past: seq<Sample>, x: Sample, i: nat, k: nat)
    requires i < k < |past| && Retained(past, i)
    ensures AliveAt(past + [x], k, |past|) <==> Retained(past, k) && past[k].at >= x.at - WINDOW
  {
    AliveBefore(past, x, k, |past| - 1);
    if AliveAt(past, k, |past| - 1) {
      NewerAreRetained(past, i, k);
    }
    assert Retained(past, k) ==> RetainedAt(past, k, |past| - 1);
  }

  lemma {:induction false} LeftIsAlive(past: seq<Sample>, x: Sample, i: nat, from: nat)
    requires i < from <= |past| && Retained(past, i)
    ensures |Left(past, x, from)| == CountAlive(past + [x], from, |past|)
    decreases |past| - from
  {
    var history := past + [x];
    if from == |past| {
      LeftAtEnd(past, x);
      assert AliveAt(history, from, from) && CountAlive(history, from + 1, from) == 0;
    } else {
      LeftIsAlive(past, x, i, from + 1);
      LeftNext(past, x, from);
      AliveIsLeft(past, x, i, from);
    }
  }

  lemma DropFirst(s: Sample, later: seq<Sample>, n: nat)
    requires n <= |later|
    ensures ([s] + later)[n + 1..] == later[n..]
  {
  }

  lemma NewestOfMore(s: Sample, later: seq<Sample>)
    ensures Newest([s] + later) == if |later| < MAX_SAMPLES then [s] + later else Newest(later)
  {
    if |later| >= MAX_SAMPLES {
      DropFirst(s, later, |later| - MAX_SAMPLES);
    }
  }

  /** The cap drops a sample exactly when it is behind 240 others. */
  lemma NewestNext(s: Sample, isLeft: bool, isKept: bool, later: seq<Sample>)
    requires isKept <==> isLeft && |later| < MAX_SAMPLES
    ensures Newest((if isLeft then [s] else []) + later) == (if isKept then [s] else []) + Newest(later)
  {
    if isLeft {
      NewestOfMore(s, later);
      assert !isKept ==> [] + Newest(later) == Newest(later);
    } else {
      assert [] + later == later && [] + Newest(later) == Newest(later);
    }
  }

  lemma {:induction false} KeptNext(past: seq<Sample>, x: Sample, from: nat)
    requires from <= |past|
    ensures Kept(past + [x], from) == Newest(Left(past, x, from))
    decreases |past| - from
  {
    if from == |past| {
      LeftAtEnd(past, x);
      LastIsKept(past, x);
    } else {
      KeptNext(past, x, from + 1);
      KeptStays(past, x, from);
      var isLeft, isKept := Retained(past, from) && past[from].at >= x.at - WINDOW, Retained(past + [x], from);
      var later := Left(past, x, from + 1);
      NewestNext(past[from], isLeft, isKept, later);
      assert Left(past, x, from) == (if isLeft then [past[from]] else []) + later by {
        LeftNext(past, x, from);
      }
      assert Kept(past + [x], from) == (if isKept then [past[from]] else []) + Kept(past + [x], from + 1) by {
        KeptStep(past + [x], from);
      }
    }
  }

  /** A sample that is left after a record stays if fewer than 240 are left behind it. */
  lemma KeptStays(past: seq<Sample>, x: Sample, i: nat)
    requires i < |past|
    ensures Retained(past + [x], i)
       <==> Retained(past, i) && past[i].at >= x.at - WINDOW && |Left(past, x, i + 1)| < MAX_SAMPLES
  {
    RetainedNext(past, x, i);
    if Retained(past, i) {
      LeftIsAlive(past, x, i, i + 1);
    }
  }

  lemma KeptStep(history: seq<Sample>, from: nat)
    requires from < |history|
    ensures Kept(history, from) == (if Retained(history, from) then [history[from]] else []) + Kept(history, from + 1)
  {
  }

  lemma LastIsKept(past: seq<Sample>, x: Sample)
    ensures Kept(past + [x], |past|) == [x]
  {
    var history, n := past + [x], |past|;
    assert AliveAt(history, n, n) && CountAlive(history, n + 1, n) == 0;
    assert RetainedAt(history, n, n) && Retained(history, n);
    assert Kept(history, n + 1) == [];
  }

  /** Whatever the clock does and however many records there are: the window holds exactly the retained samples. */
  lemma {:induction false} WindowIsRetained(history: seq<Sample>)
    ensures RunOf(history).samples == Kept(history)
  {
    if history == [] {
    } else {
      var past, x := history[..|history| - 1], history[|history| - 1];
      WindowIsRetained(past);
      KeptNext(past, x, 0);
      assert past + [x] == history;
      assert RunOf(history).samples == NextSamples(RunOf(past).samples, x);
    }
  }

  // ------------------------------------------------------------------------
  // When the window is the history's
  // ------------------------------------------------------------------------

  /** The samples from the `from`-th on that are recent at the last record. */
  ghost function RecentAfter(history: seq<Sample>, from: nat): seq<Sample>
    requires history != [] && from <= |history|
  {
    Recent(history[from..], history[|history| - 1].at - WINDOW)
  }

  ghost predicate IsRecent(history: seq<Sample>, i: nat)
    requires i < |history|
  {
    history[i].at >= history[|history| - 1].at - 3_600_000_000
  }

  /** The sample belongs to the history's window: it is recent, and fewer than 240 newer ones are. */
  ghost predicate Due(history: seq<Sample>, i: nat)
    requires i < |history|
  {
    IsRecent(history, i) && |RecentAfter(history, i + 1)| < 240
  }

  ghost predicate DueAreRetained(history: seq<Sample>, from: nat) {
    forall i :: from <= i < |history| && Due(history, i) ==> Retained(history, i)
  }

  lemma RecentAfterNext(history: seq<Sample>, from: nat)
    requires from < |history|
    ensures RecentAfter(history, from) == (if IsRecent(history, from) then [history[from]] else []) + RecentAfter(history, from + 1)
  {
    assert history[from..][1..] == history[from + 1..];
  }

  lemma RetainedIsRecent(history: seq<Sample>, i: nat)
    requires i < |history| && Retained(history, i)
    ensures IsRecent(history, i) && AliveAt(history, i, |history| - 1) && CountAlive(history, i + 1, |history| - 1) < MAX_SAMPLES
  {
    assert RetainedAt(history, i, |history| - 1);
  }

  lemma {:induction false} KeptAreAlive(history: seq<Sample>, from: nat)
    requires history != [] && from <= |history|
    ensures |Kept(history, from)| <= CountAlive(history, from, |history| - 1)
    decreases |history| - from
  {
    if from == |history| {
    } else {
      KeptAreAlive(history, from + 1);
      KeptStep(history, from);
      if Retained(history, from) {
        RetainedIsRecent(history, from);
      }
    }
  }

  /** With every due sample retained, what is kept is the newest of what is recent. */
  lemma {:induction false} KeptIfRetained(history: seq<Sample>, from: nat)
    requires history != [] && from <= |history| && DueAreRetained(history, from)
    ensures Kept(history, from) == Newest(RecentAfter(history, from))
    decreases |history| - from
  {
    if from == |history| {
    } else {
      var later := RecentAfter(history, from + 1);
      KeptIfRetained(history, from + 1);
      KeptAreAlive(history, from + 1);
      assert |Newest(later)| == if |later| > MAX_SAMPLES then MAX_SAMPLES else |later|;
      if Retained(history, from) {
        RetainedIsRecent(history, from);
      }
      NewestNext(history[from], IsRecent(history, from), Retained(history, from), later);
      KeptStep(history, from);
      RecentAfterNext(history, from);
    }
  }

  ghost predicate EndsWith(a: seq<Sample>, b: seq<Sample>) {
    |b| <= |a| && a[|a| - |b|..] == b
  }

  lemma MoreEndsWith(s: Sample, more: bool, a: seq<Sample>, b: seq<Sample>)
    requires EndsWith(a, b)
    ensures EndsWith((if more then [s] else []) + a, b)
  {
    var all := (if more then [s] else []) + a;
    assert all[|all| - |b|..] == a[|a| - |b|..];
  }

  lemma {:induction false} RecentEndsWith(history: seq<Sample>, from: nat, i: nat)
    requires history != [] && from <= i <= |history|
    ensures EndsWith(RecentAfter(history, from), RecentAfter(history, i))
    decreases i - from
  {
    if from == i {
    } else {
      RecentEndsWith(history, from + 1, i);
      RecentAfterNext(history, from);
      MoreEndsWith(history[from], IsRecent(history, from), RecentAfter(history, from + 1), RecentAfter(history, i));
    }
  }

  /** The last sample kept before the i-th. */
  lemma {:induction false} LastKeptBefore(history: seq<Sample>, from: nat, i: nat) returns (k: nat)
    requires from <= i <= |history| && |Kept(history, from)| > |Kept(history, i)|
    ensures k < i && Retained(history, k)
    ensures Kept(history, from)[|Kept(history, from)| - |Kept(history, i)| - 1] == history[k]
    decreases i - from
  {
    KeptStep(history, from);
    if |Kept(history, from + 1)| > |Kept(history, i)| {
      k := LastKeptBefore(history, from + 1, i);
    } else {
      KeptShrinks(history, from + 1, i);
      k := from;
    }
  }

  lemma {:induction false} KeptShrinks(history: seq<Sample>, from: nat, i: nat)
    requires from <= i <= |history|
    ensures |Kept(history, i)| <= |Kept(history, from)|
    decreases i - from
  {
    if from == i {
    } else {
      KeptShrinks(history, from + 1, i);
      KeptStep(history, from);
    }
  }

  lemma NewestEndsWith(a: seq<Sample>, b: seq<Sample>)
    requires EndsWith(a, b) && |b| <= MAX_SAMPLES
    ensures EndsWith(Newest(a), b)
  {
    var n := Newest(a);
    assert n[|n| - |b|..] == a[|a| - |b|..];
  }

  /** An equal sample that was retained earlier would have kept this one alive. */
  lemma EqualIsRetained(history: seq<Sample>, k: nat, i: nat)
    requires k < i < |history| && Retained(history, k) && history[k] == history[i]
    ensures Retained(history, i)
  {
    RetainedIsRecent(history, k);
    NewerAreRetained(history, k, i);
  }

  /** The last due sample that was not retained is missing from the window: nothing equal stands in its place. */
  lemma MissedIsMissing(history: seq<Sample>, i: nat)
    requires i < |history| && Due(history, i) && !Retained(history, i) && DueAreRetained(history, i + 1)
    ensures Kept(history) != Newest(RecentAfter(history, 0))
  {
    var all, kept, later := Newest(RecentAfter(history, 0)), Kept(history), RecentAfter(history, i + 1);
    KeptIfRetained(history, i + 1);
    KeptStep(history, i);
    RecentAfterNext(history, i);
    assert Kept(history, i) == later && RecentAfter(history, i) == [history[i]] + later;
    RecentEndsWith(history, 0, i);
    NewestEndsWith(RecentAfter(history, 0), [history[i]] + later);
    assert all[|all| - |later| - 1] == history[i] by {
      assert all[|all| - |later| - 1..][0] == history[i];
    }
    if |kept| > |later| {
      var k := LastKeptBefore(history, 0, i);
      if history[k] == history[i] {
        EqualIsRetained(history, k, i);
      }
    }
  }

  lemma {:induction false} LastMissed(history: seq<Sample>, from: nat) returns (i: nat)
    requires from <= |history| && !DueAreRetained(history, from)
    ensures i < |history| && Due(history, i) && !Retained(history, i) && DueAreRetained(history, i + 1)
    decreases |history| - from
  {
    if DueAreRetained(history, from + 1) {
      i := from;
    } else {
      i := LastMissed(history, from + 1);
    }
  }

  /** Whatever the clock does and however many records there are: the window is the history's exactly when every due sample was retained. */
  lemma WindowIsHistoryIff(history: seq<Sample>)
    requires history != []
    ensures RunOf(history).samples == Window(history) <==> DueAreRetained(history, 0)
  {
    WindowIsRetained(history);
    assert history[0..] == history;
    assert Window(history) == Newest(RecentAfter(history, 0));
    if DueAreRetained(history, 0) {
      KeptIfRetained(history, 0);
    } else {
      var i := LastMissed(history, 0);
      MissedIsMissing(history, i);
    }
  }

  /** Up to 240 records every recent sample is due, and one was retained exactly when no later record is more than the window after it. */
  lemma FewRecords(history: seq<Sample>, i: nat)
    requires i < |history| <= 240
    ensures Retained(history, i) <==> AliveAt(history, i, |history| - 1)
    ensures Due(history, i) <==> IsRecent(history, i)
  {
    forall j | i <= j < |history| && AliveAt(history, i, |history| - 1) ensures RetainedAt(history, i, j) {
      CountIsBounded(history, i + 1, j);
    }
    assert Retained(history, i) ==> RetainedAt(history, i, |history| - 1);
    RecentIsShorter(history[i + 1..], history[|history| - 1].at - WINDOW);
  }

  lemma {:induction false} CountIsBounded(history: seq<Sample>, from: nat, j: nat)
    requires j < |history| && from <= j + 1
    ensures CountAlive(history, from, j) <= j + 1 - from
    decreases j + 1 - from
  {
    if from > j {
    } else {
      CountIsBounded(history, from + 1, j);
    }
  }

  // ------------------------------------------------------------------------
  // The verdict
  // ------------------------------------------------------------------------

  /** What each record of a history read: at or above the threshold, or not. */
  ghost function Readings(history: seq<Sample>): (v: seq<bool>)
    ensures |v| == |history|
  {
    if history == [] then [] else Readings(history[..|history| - 1]) + [Above(RunOf(history).samples)]
  }

  lemma {:induction false} ReadingsOfPast(history: seq<Sample>, k: nat)
    requires k <= |history|
    ensures Readings(history[..k]) == Readings(history)[..k]
    decreases |history|
  {
    if k < |history| {
      var past := history[..|history| - 1];
      ReadingsOfPast(past, k);
      assert past[..k] == history[..k];
      assert Readings(history)[..k] == Readings(past)[..k];
    } else {
      assert history[..k] == history;
    }
  }

  /** How many readings at the end agree with `above`. */
  ghost function Trailing(v: seq<bool>, above: bool): (n: nat)
    ensures n <= |v|
  {
    if v == [] || v[|v| - 1] != above then 0 else 1 + Trailing(v[..|v| - 1], above)
  }

  /** Three readings in a row, the last being the `i`-th, agree on `above`. */
  ghost predicate Streak(v: seq<bool>, i: int, above: bool) {
    2 <= i < |v| && v[i] == v[i - 1] == v[i - 2] == above
  }

  /** The most recent streak of three ends with the `i`-th reading and says above. */
  ghost predicate LastStreakAbove(v: seq<bool>, i: int) {
    Streak(v, i, true) && forall j :: i < j < |v| ==> !Streak(v, j, false)
  }

  lemma TrailingIsStreak(v: seq<bool>, above: bool)
    ensures Trailing(v, above) >= 3 <==> Streak(v, |v| - 1, above)
  {
    if |v| >= 3 {
      var w, u := v[..|v| - 1], v[..|v| - 2];
      assert w[..|w| - 1] == u;
      assert w[|w| - 1] == v[|v| - 2] && u[|u| - 1] == v[|v| - 3];
      assert Trailing(v, above) == if v[|v| - 1] == above then 1 + Trailing(w, above) else 0;
      assert Trailing(w, above) == if v[|v| - 2] == above then 1 + Trailing(u, above) else 0;
      assert Trailing(u, above) >= 1 <==> v[|v| - 3] == above;
    }
  }

  /** The counters are the streaks at the end; after a record exactly one of them is zero. */
  lemma {:induction false} CountersAreStreaks(history: seq<Sample>)
    ensures RunOf(history).consecutiveAbove == Trailing(Readings(history), true)
    ensures RunOf(history).consecutiveBelow == Trailing(Readings(history), false)
    ensures history != [] ==> (RunOf(history).consecutiveAbove == 0 <==> RunOf(history).consecutiveBelow != 0)
  {
    if history == [] {
    } else {
      var past := history[..|history| - 1];
      CountersAreStreaks(past);
      var v := Readings(history);
      assert v[..|v| - 1] == Readings(past);
    }
  }

  /** What one record makes of the verdict. */
  lemma VerdictNext(history: seq<Sample>)
    requires history != []
    ensures var v, before := Readings(history), RunOf(history[..|history| - 1]).degraded;
            RunOf(history).degraded <==> Streak(v, |v| - 1, true) || (before && !Streak(v, |v| - 1, false))
  {
    var v := Readings(history);
    CountersAreStreaks(history);
    TrailingIsStreak(v, true);
    TrailingIsStreak(v, false);
    var s, t := RunOf(history[..|history| - 1]), RunOf(history);
    assert t.degraded == Verdict(s.degraded, t.consecutiveAbove, t.consecutiveBelow);
  }

  /** `degraded` is the direction of the most recent streak of three, and false before there is one. */
  lemma {:induction false} DegradedIsLastStreak(history: seq<Sample>)
    ensures RunOf(history).degraded <==> exists i :: LastStreakAbove(Readings(history), i)
  {
    if history == [] {
    } else {
      var past := history[..|history| - 1];
      DegradedIsLastStreak(past);
      VerdictNext(history);
      ReadingsNext(history, past);
      LastStreakNext(Readings(past), Readings(history));
    }
  }

  lemma ReadingsNext(history: seq<Sample>, past: seq<Sample>)
    requires history != [] && past == history[..|history| - 1]
    ensures |Readings(history)| == |Readings(past)| + 1 && Readings(history)[..|past|] == Readings(past)
  {
  }

  /** One more reading sets the direction if it ends a streak, and keeps it otherwise. */
  lemma LastStreakNext(past: seq<bool>, v: seq<bool>)
    requires |v| == |past| + 1 && v[..|past|] == past
    ensures (exists i :: LastStreakAbove(v, i))
       <==> Streak(v, |past|, true) || ((exists i :: LastStreakAbove(past, i)) && !Streak(v, |past|, false))
  {
    assert forall i :: 0 <= i < |past| ==> v[i] == past[i];
    assert forall i, b :: i < |past| ==> (Streak(v, i, b) <==> Streak(past, i, b));
    if Streak(v, |past|, true) {
      assert LastStreakAbove(v, |past|);
    } else {
      if i :| LastStreakAbove(v, i) {
        assert !Streak(v, |past|, false);
        assert LastStreakAbove(past, i);
      }
      if i :| LastStreakAbove(past, i) && !Streak(v, |past|, false) {
        assert LastStreakAbove(v, i);
      }
    }
  }

  /** The record that changed the verdict. */
  ghost predicate FlipsAt(history: seq<Sample>, i: int) {
    0 <= i < |history| && RunOf(history[..i + 1]).degraded != RunOf(history[..i]).degraded
  }

  /** A flip ends a streak of three of the new direction. */
  lemma FlipEndsStreak(history: seq<Sample>, i: int)
    requires FlipsAt(history, i)
    ensures Streak(Readings(history), i, RunOf(history[..i + 1]).degraded)
  {
    var upTo := history[..i + 1];
    assert upTo[..i] == history[..i];
    VerdictNext(upTo);
    ReadingsOfPast(history, i + 1);
  }

  /** The verdicts along a history; the first is the one before any record. */
  ghost function Verdicts(history: seq<Sample>): (d: seq<bool>)
    ensures |d| == |history| + 1
    ensures forall i :: 0 <= i <= |history| ==> d[i] == RunOf(history[..i]).degraded
  {
    seq(|history| + 1, i requires 0 <= i <= |history| => RunOf(history[..i]).degraded)
  }

  ghost predicate Turns(d: seq<bool>, k: int) {
    0 <= k < |d| - 1 && d[k + 1] != d[k]
  }

  /** Directions that turn only where a streak of the new one ends turn rarely. */
  lemma TurnsAreApart(v: seq<bool>, d: seq<bool>, i: int, j: int)
    requires |d| == |v| + 1 && forall k :: Turns(d, k) ==> Streak(v, k, d[k + 1])
    requires Turns(d, i) && Turns(d, j) && i < j
    ensures j - i >= 3
  {
    var k := i + 1;
    while k < j && !Turns(d, k)
      invariant i < k <= j
      invariant d[k] == d[i + 1]
    {
      k := k + 1;
    }
    assert Turns(d, k);
    assert Streak(v, i, d[i + 1]) && Streak(v, k, d[k + 1]);
  }

  lemma TurnEndsStreak(history: seq<Sample>, i: int)
    requires Turns(Verdicts(history), i)
    ensures Streak(Readings(history), i, Verdicts(history)[i + 1])
  {
    assert FlipsAt(history, i);
    FlipEndsStreak(history, i);
  }

  /** Two flips are at least three records apart. */
  lemma FlipsAreApart(history: seq<Sample>, i: int, j: int)
    requires Turns(Verdicts(history), i) && Turns(Verdicts(history), j) && i < j
    ensures j - i >= 3
  {
    var v, d := Readings(history), Verdicts(history);
    forall k | Turns(d, k) ensures Streak(v, k, d[k + 1]) {
      TurnEndsStreak(history, k);
    }
    TurnsAreApart(v, d, i, j);
  }

  lemma {:induction false} FewSamples(history: seq<Sample>)
    ensures |RunOf(history).samples| <= |history|
  {
    if history == [] {
    } else {
      var past, x := history[..|history| - 1], history[|history| - 1];
      FewSamples(past);
      RecentIsShorter(RunOf(past).samples + [x], x.at - WINDOW);
    }
  }

  lemma {:induction false} RecentIsShorter(samples: seq<Sample>, cutoff: Time)
    ensures |Recent(samples, cutoff)| <= |samples|
  {
    if samples == [] {
    } else {
      RecentIsShorter(samples[1..], cutoff);
    }
  }

  lemma {:induction false} NotAboveBeforeSixth(history: seq<Sample>, i: nat)
    requires i < |history| && i < 5
    ensures !Readings(history)[i]
    decreases |history|
  {
    if i < |history| - 1 {
      NotAboveBeforeSixth(history[..|history| - 1], i);
    } else {
      FewSamples(history);
    }
  }

  /** Six samples and then three agreeing readings: never degraded before the eighth record. */
  lemma {:induction false} NotBeforeEighth(history: seq<Sample>)
    requires |history| < 8
    ensures !RunOf(history).degraded
  {
    DegradedIsLastStreak(history);
    forall i ensures !LastStreakAbove(Readings(history), i) {
      if 2 <= i < |history| {
        NotAboveBeforeSixth(history, i - 2);
      }
    }
  }

  /** The startup warning is due exactly when three evaluations passed and every one was synthetic. */
  lemma StartupWarningDue(history: seq<Sample>)
    ensures WarningDue(RunOf(history)) <==> |history| >= 3 && forall x :: x in history ==> x.synthetic
  {
    CountsOfHistory(history);
  }

  lemma {:induction false} CountsOfHistory(history: seq<Sample>)
    ensures RunOf(history).evaluations == |history|
    ensures RunOf(history).coveringSlotSeen <==> exists x :: x in history && !x.synthetic
  {
    if history == [] {
    } else {
      var past, x := history[..|history| - 1], history[|history| - 1];
      CountsOfHistory(past);
      assert history == past + [x];
    }
  }
}

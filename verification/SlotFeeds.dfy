/** Which samples the slot health counts, and what it makes of whole feeds. */
module SlotFeeds {
  import opened Prelude
  import opened SlotHealth

  ghost function SyntheticAt(samples: seq<Sample>): set<int> {
    set i | 0 <= i < |samples| && samples[i].synthetic
  }

  lemma {:induction false} CountLast(samples: seq<Sample>)
    requires samples != []
    ensures SyntheticCount(samples) == SyntheticCount(samples[..|samples| - 1]) + if samples[|samples| - 1].synthetic then 1 else 0
  {
    if |samples| == 1 {
      assert samples[..0] == [] && samples[1..] == [];
    } else {
      var rest := samples[1..];
      CountLast(rest);
      assert samples[..|samples| - 1][1..] == rest[..|rest| - 1];
    }
  }

  lemma SyntheticAtLast(samples: seq<Sample>)
    requires samples != []
    ensures var n := |samples| - 1;
            |SyntheticAt(samples)| == |SyntheticAt(samples[..n])| + if samples[n].synthetic then 1 else 0
  {
    var n := |samples| - 1;
    assert SyntheticAt(samples) == SyntheticAt(samples[..n]) + if samples[n].synthetic then {n} else {};
  }

  lemma {:induction false} CountIsCardinality(samples: seq<Sample>)
    ensures SyntheticCount(samples) == |SyntheticAt(samples)|
  {
    if samples == [] {
    } else {
      var n := |samples| - 1;
      CountIsCardinality(samples[..n]);
      CountLast(samples);
      SyntheticAtLast(samples);
    }
  }

  /** The rate is the synthetic share, 0 of an empty window. */
  lemma {:induction false} RateIsShare(samples: seq<Sample>)
    ensures Rate(samples) * |samples| as real == |SyntheticAt(samples)| as real && (samples == [] ==> Rate(samples) == 0.0)
  {
    CountIsCardinality(samples);
  }

  /** A window reads above exactly when it has six samples and at least half of them are synthetic. */
  lemma {:induction false} AboveIff(samples: seq<Sample>)
    ensures Above(samples) <==> |samples| >= 6 && 2 * |SyntheticAt(samples)| >= |samples|
  {
    CountIsCardinality(samples);
    if samples != [] {
      HalfIff(|SyntheticAt(samples)|, |samples|);
    }
  }

  lemma HalfIff(k: nat, n: nat)
    requires n > 0
    ensures k as real / n as real >= 0.5 <==> 2 * k >= n
  {
    var q := k as real / n as real;
    assert q * n as real == k as real;
  }

  lemma {:induction false} RecentOnly(samples: seq<Sample>, cutoff: Time)
    ensures forall x :: x in Recent(samples, cutoff) ==> x in samples
  {
    if samples == [] {
    } else {
      RecentOnly(samples[1..], cutoff);
    }
  }

  lemma {:induction false} SamplesAreRecorded(history: seq<Sample>)
    ensures forall x :: x in RunOf(history).samples ==> x in history
  {
    if history == [] {
    } else {
      var past, x := history[..|history| - 1], history[|history| - 1];
      SamplesAreRecorded(past);
      var all := RunOf(past).samples + [x];
      RecentOnly(all, x.at - WINDOW);
      NewestIsPart(Recent(all, x.at - WINDOW));
      assert RunOf(history).samples == Newest(Recent(all, x.at - WINDOW));
      assert forall y :: y in all ==> y in history;
    }
  }

  /** A feed without a synthetic sample is never degraded. */
  lemma {:induction false} RealIsHealthy(history: seq<Sample>)
    requires forall x :: x in history ==> !x.synthetic
    ensures !RunOf(history).degraded
  {
    if history == [] {
    } else {
      RealIsHealthy(history[..|history| - 1]);
      NoSyntheticReading(history);
      CountersAreStreaks(history);
      VerdictNext(history);
    }
  }

  lemma {:induction false} NoSyntheticReading(history: seq<Sample>)
    requires history != [] && forall x :: x in history ==> !x.synthetic
    ensures !Readings(history)[|history| - 1]
  {
    SamplesAreRecorded(history);
    AboveIff(RunOf(history).samples);
    assert SyntheticAt(RunOf(history).samples) == {};
  }

  lemma {:induction false} AllCount(samples: seq<Sample>)
    requires forall x :: x in samples ==> x.synthetic
    ensures SyntheticCount(samples) == |samples|
  {
    if samples == [] {
    } else {
      AllCount(samples[1..]);
    }
  }

  lemma {:induction false} SyntheticIsAbove(samples: seq<Sample>)
    requires |samples| >= 6 && forall x :: x in samples ==> x.synthetic
    ensures Above(samples)
  {
    AllCount(samples);
    CountIsCardinality(samples);
    AboveIff(samples);
  }

  /** All records lie within 60 minutes. */
  ghost predicate Close(history: seq<Sample>) {
    forall i, j :: 0 <= i < |history| && 0 <= j < |history| ==> history[i].at >= history[j].at - 3_600_000_000
  }

  lemma NewestOfPast(past: seq<Sample>, x: Sample)
    ensures Newest(Newest(past) + [x]) == Newest(past + [x])
  {
    var n := |past| - MAX_SAMPLES;
    if n > 0 {
      assert Newest(past) + [x] == (past + [x])[n..];
      assert (past + [x])[n..][1..] == (past + [x])[n + 1..];
    }
  }

  lemma NewestIsPart(past: seq<Sample>)
    ensures |Newest(past)| == Min(|past|, 240) && forall x :: x in Newest(past) ==> x in past
  {
  }

  lemma CloseNext(past: seq<Sample>, x: Sample)
    requires Close(past + [x])
    ensures NextSamples(Newest(past), x) == Newest(past + [x])
  {
    var all := Newest(past) + [x];
    NewestIsPart(past);
    forall i | 0 <= i < |all| ensures all[i].at >= x.at - WINDOW {
      assert all[i] in past + [x];
      assert (past + [x])[|past|] == x;
    }
    AllRecent(all, x.at - WINDOW);
    NewestOfPast(past, x);
  }

  lemma {:induction false} CloseIsKept(history: seq<Sample>)
    requires Close(history)
    ensures RunOf(history).samples == Newest(history)
  {
    if history == [] {
    } else {
      var n := |history| - 1;
      var past, x := history[..n], history[n];
      assert past + [x] == history;
      CloseIsKept(past);
      CloseNext(past, x);
    }
  }

  lemma {:induction false} LastReading(history: seq<Sample>)
    requires |history| >= 6 && Close(history) && forall x :: x in history ==> x.synthetic
    ensures Readings(history)[|history| - 1]
  {
    CloseIsKept(history);
    NewestIsPart(history);
    SyntheticIsAbove(RunOf(history).samples);
  }

  lemma {:induction false} SyntheticReading(history: seq<Sample>, k: nat)
    requires 5 <= k < |history| && Close(history) && forall x :: x in history ==> x.synthetic
    ensures Readings(history)[k]
  {
    LastReading(history[..k + 1]);
    ReadingsOfPast(history, k + 1);
  }

  /** A feed of synthetic samples only is degraded from its eighth record within 60 minutes on. */
  lemma {:induction false} SyntheticIsDegraded(history: seq<Sample>)
    requires |history| >= 8 && Close(history) && forall x :: x in history ==> x.synthetic
    ensures RunOf(history).degraded
  {
    var n, v := |history|, Readings(history);
    SyntheticReading(history, n - 1);
    SyntheticReading(history, n - 2);
    SyntheticReading(history, n - 3);
    assert LastStreakAbove(v, n - 1);
    DegradedIsLastStreak(history);
  }
}

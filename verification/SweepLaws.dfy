/** What the sweep's steps and totals are, in terms of the recorded samples. */
module SweepLaws {
  import opened Prelude
  import opened DataSweep

  // ------------------------------------------------------------------------
  // The value held
  // ------------------------------------------------------------------------

  /** `v` is the value of the newest sample at or before t, None if there is none. */
  ghost predicate Holds(s: Series, t: real, v: Option<real>) {
    if v.None? then forall j :: 0 <= j < |s| ==> s[j].at > t
    else exists i :: HoldsAt(s, t, i) && s[i].value == v.value
  }

  /** Sample `i` is at or before t, and every one after it is later. */
  ghost predicate HoldsAt(s: Series, t: real, i: int) {
    0 <= i < |s| && s[i].at <= t && forall j :: i < j < |s| ==> s[j].at > t
  }

  lemma {:induction false} ScanHolds(s: Series, t: real, n: nat)
    requires n <= |s| && forall j :: n <= j < |s| ==> s[j].at > t
    ensures Holds(s, t, LastBefore(s, t, n))
  {
    if n == 0 {
    } else if s[n - 1].at <= t {
      assert HoldsAt(s, t, n - 1);
    } else {
      ScanHolds(s, t, n - 1);
    }
  }

  /** A search of samples in order of time gives exactly the value they hold. */
  lemma HeldIff(s: Series, t: real, v: Option<real>)
    requires forall i, j :: 0 <= i < j < |s| ==> s[i].at <= s[j].at
    ensures v == Held(s, t) <==> Holds(s, t, v)
  {
    HeldIsLast(s, t);
    ScanHolds(s, t, |s|);
    HoldsOne(s, t, v, Held(s, t));
  }

  lemma HoldsOne(s: Series, t: real, v: Option<real>, w: Option<real>)
    requires Holds(s, t, w)
    ensures Holds(s, t, v) <==> v == w
  {
    if v.Some? && w.Some? && Holds(s, t, v) {
      var i :| HoldsAt(s, t, i) && s[i].value == v.value;
      var j :| HoldsAt(s, t, j) && s[j].value == w.value;
      assert i == j;
    }
  }

  // ------------------------------------------------------------------------
  // One step
  // ------------------------------------------------------------------------

  /** Drawing `kw` for `step` seconds gives y.energy kWh, at its price. */
  ghost predicate Draws(y: Buy, kw: real, step: nat, price: real) {
    y.energy * 3600.0 == kw * step as real && y.price == price && y.cost == y.energy * price
  }

  lemma HoursOf(kw: real, step: nat)
    ensures kw * Hours(step) * 3600.0 == kw * step as real
  {
    assert Hours(step) * 3600.0 == step as real;
  }

  /** A step imports exactly when power flows in and the price is known. */
  lemma StepImports(f: Feeds, t: real)
    ensures var kw, price, y := Held(f.power, t), Held(f.price, t), Import(f, t);
            && (y.Some? <==> kw.Some? && kw.value > 0.0 && price.Some?)
            && (y.Some? ==> Draws(y.value, kw.value, f.step, price.value))
  {
    HoursOf(Or0(Held(f.power, t)), f.step);
  }

  /** A step exports exactly when power flows out and the import price is known; it earns the feed-in price, nothing without one. */
  lemma StepExports(f: Feeds, t: real)
    ensures var kw, price, earns, y := Held(f.power, t), Held(f.price, t), Held(f.feedIn, t), Export(f, t);
            && (y.Some? <==> kw.Some? && kw.value < 0.0 && price.Some?)
            && (y.Some? ==> Draws(y.value, -kw.value, f.step, if earns.Some? then earns.value else 0.0))
  {
    HoursOf(-Or0(Held(f.power, t)), f.step);
  }

  /** A step charges exactly when the battery power is below the limit and the price is known; unknown power is 0. */
  lemma StepCharges(d: Day, i: nat)
    ensures var kw, price, y := Held(d.battery, d.start + i as real), Held(d.price, d.start + i as real), Charge(d, i);
            && (y.Some? <==> (if kw.Some? then kw.value else 0.0) < d.chargeKw && price.Some?)
            && (y.Some? ==> Draws(y.value, if kw.Some? then -kw.value else 0.0, d.step, price.value))
  {
    HoursOf(-Or0(Held(d.battery, d.start + i as real)), d.step);
  }

  // ------------------------------------------------------------------------
  // All steps
  // ------------------------------------------------------------------------

  lemma NextStep(k: nat, step: nat)
    ensures (k + 1) * step == step + k * step
    ensures k > 0 ==> k * step == step + (k - 1) * step
  {
  }

  /** The k-th instant from t on is before `last`, and imports y. */
  ghost predicate ImportsAt(f: Feeds, t: real, last: real, k: nat, y: Buy) {
    var instant := t + (k * f.step) as real;
    instant < last && Import(f, instant) == Some(y)
  }

  ghost predicate ImportsSometime(f: Feeds, t: real, last: real, y: Buy) {
    exists k: nat :: ImportsAt(f, t, last, k, y)
  }

  lemma ImportsLater(f: Feeds, t: real, last: real, y: Buy)
    requires f.step > 0
    ensures ImportsSometime(f, t, last, y)
       <==> (t < last && Import(f, t) == Some(y)) || ImportsSometime(f, t + f.step as real, last, y)
  {
    var next := t + f.step as real;
    if k: nat :| ImportsAt(f, t, last, k, y) {
      NextStep(k, f.step);
      assert k > 0 ==> ImportsAt(f, next, last, k - 1, y);
    }
    if t < last && Import(f, t) == Some(y) {
      assert ImportsAt(f, t, last, 0, y);
    }
    if k: nat :| ImportsAt(f, next, last, k, y) {
      NextStep(k, f.step);
      assert ImportsAt(f, t, last, k + 1, y);
    }
  }

  lemma NoStepLeft(f: Feeds, t: real, last: real, y: Buy)
    requires t >= last
    ensures !ImportsSometime(f, t, last, y)
  {
  }

  /** The imports are those of every `step` seconds from the first sample up to the last one. */
  lemma {:induction false} ImportsIff(f: Feeds, t: real, last: real, y: Buy)
    requires f.step > 0
    ensures y in ImportsFrom(f, t, last) <==> ImportsSometime(f, t, last, y)
    decreases last - t
  {
    if t >= last {
      NoStepLeft(f, t, last, y);
    } else {
      ImportsIff(f, t + f.step as real, last, y);
      ImportsLater(f, t, last, y);
    }
  }

  /** The k-th step from the i-th second on is within the day, and charges y while the clock shows h. */
  ghost predicate ChargesAt(d: Day, i: nat, k: nat, h: int, y: Buy) {
    var second := i + k * d.step;
    second < 86_400 && Charge(d, second) == Some(y) && d.hourOf(d.start + second as real) == h
  }

  ghost predicate ChargesSometime(d: Day, i: nat, h: int) {
    exists k: nat, y :: ChargesAt(d, i, k, h, y)
  }

  lemma ChargesLater(d: Day, i: nat, h: int)
    ensures ChargesSometime(d, i, h)
       <==> (i < 86_400 && Charge(d, i).Some? && d.hourOf(d.start + i as real) == h) || ChargesSometime(d, i + d.step, h)
  {
    var next := i + d.step;
    if k: nat, y :| ChargesAt(d, i, k, h, y) {
      NextStep(k, d.step);
      assert k > 0 ==> ChargesAt(d, next, k - 1, h, y);
    }
    if i < 86_400 && Charge(d, i).Some? && d.hourOf(d.start + i as real) == h {
      assert ChargesAt(d, i, 0, h, Charge(d, i).value);
    }
    if k: nat, y :| ChargesAt(d, next, k, h, y) {
      NextStep(k, d.step);
      assert ChargesAt(d, i, k + 1, h, y);
    }
  }

  /** An hour is charged in exactly when one of the day's 86400 seconds that is a step charges in it. */
  lemma {:induction false} ChargesInIff(d: Day, h: int, i: nat)
    requires d.step > 0
    ensures ChargesIn(d, h, i) <==> ChargesSometime(d, i, h)
    decreases 86_400 - i
  {
    ChargesLater(d, i, h);
    if i >= 86_400 {
      assert forall k: nat, y :: !ChargesAt(d, i, k, h, y);
    } else {
      ChargesInIff(d, h, i + d.step);
    }
  }

  // ------------------------------------------------------------------------
  // Totals
  // ------------------------------------------------------------------------

  /** The figures reported: means by energy and by step, and their ratio, each 0 where there is nothing to divide by. */
  lemma CaptureMeans(imports: seq<Buy>, exports: seq<Buy>)
    ensures var c := CaptureOf(imports, exports);
            && c.importKwh == Energy(imports) && c.exportKwh == Energy(exports) && c.exportRevenue == Cost(exports)
            && (if c.importKwh > 0.0 then c.avgPaid * c.importKwh == Cost(imports) else c.avgPaid == 0.0)
            && (if imports != [] then c.windowAvg * |imports| as real == Prices(imports) else c.windowAvg == 0.0)
            && (if c.windowAvg > 0.0 then c.ratio * c.windowAvg == c.avgPaid else c.ratio == 0.0)
  {
    var c := CaptureOf(imports, exports);
    Divided(Cost(imports), c.importKwh);
    Divided(Prices(imports), |imports| as real);
    Divided(c.avgPaid, c.windowAvg);
  }

  lemma Divided(a: real, b: real)
    ensures b > 0.0 ==> (a / b) * b == a
  {
  }

  /** The day's prices are those held at the start of each of its 24 hours. */
  lemma PricesByTheHour(d: Day)
    ensures |HourlyPrices(d)| == 24 && forall h :: 0 <= h < 24 ==> HourlyPrices(d)[h] == Held(d.price, d.start + (h * 3_600) as real)
  {
  }
}

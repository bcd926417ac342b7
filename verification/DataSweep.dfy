/**
 The sweep over recorded series: the value a series held at an instant, what imports cost
 against the prices seen while importing, and when a day's charging took place.
 */
module DataSweep {
  import opened Prelude
  import DayPrices

  /** A recorded state; instants are seconds. */
  datatype Sample = Sample(at: real, value: real)

  type Series = seq<Sample>

  ghost predicate Sorted(s: Series) {
    forall i, j :: 0 <= i < j < |s| ==> s[i].at <= s[j].at
  }

  // ------------------------------------------------------------------------
  // The value held at an instant
  // ------------------------------------------------------------------------

  /** Read from the end: the last sample at or before t. */
  function ValueAt(s: Series, t: real): Option<real> {
    LastBefore(s, t, |s|)
  }

  function LastBefore(s: Series, t: real, n: nat): Option<real>
    requires n <= |s|
  {
    if n == 0 then None else if s[n - 1].at <= t then Some(s[n - 1].value) else LastBefore(s, t, n - 1)
  }

  lemma {:induction false} LaterSamplesDoNotCount(s: Series, t: real, k: nat, n: nat)
    requires k <= n <= |s| && (forall i :: k <= i < n ==> s[i].at > t)
    ensures LastBefore(s, t, n) == LastBefore(s, t, k)
  {
    if k == n {
    } else {
      LaterSamplesDoNotCount(s, t, k, n - 1);
    }
  }

  /** What halving [lo, hi] finds, `v` so far, in samples of any order. */
  function Search(s: Series, t: real, lo: int, hi: int, v: Option<real>): Option<real>
    requires 0 <= lo <= hi + 1 <= |s|
    decreases hi - lo
  {
    if lo > hi then v else
      var mid := (lo + hi) / 2;
      if s[mid].at <= t then Search(s, t, mid + 1, hi, Some(s[mid].value)) else Search(s, t, lo, mid - 1, v)
  }

  function Held(s: Series, t: real): Option<real> {
    Search(s, t, 0, |s| - 1, None)
  }

  ghost predicate AllLater(s: Series, t: real, k: int) {
    forall i :: k <= i < |s| && 0 <= i ==> s[i].at > t
  }

  lemma LaterIsLater(s: Series, t: real, k: nat)
    requires Sorted(s) && k < |s| && s[k].at > t
    ensures AllLater(s, t, k)
  {
  }

  /** What the search knows: the sample before `lo`, if there is one, is at or before t. */
  ghost predicate Found(s: Series, t: real, lo: int, v: Option<real>)
    requires 0 <= lo <= |s|
  {
    if lo == 0 then v == None else s[lo - 1].at <= t && v == Some(s[lo - 1].value)
  }

  lemma FoundIsLast(s: Series, t: real, lo: int, v: Option<real>)
    requires 0 <= lo <= |s| && Found(s, t, lo, v) && AllLater(s, t, lo)
    ensures v == ValueAt(s, t)
  {
    LaterSamplesDoNotCount(s, t, lo, |s|);
  }

  /** The bounds and the value between which one step leaves the search. */
  lemma SearchStep(s: Series, t: real, lo: int, hi: int, v: Option<real>) returns (lo': int, hi': int, v': Option<real>)
    requires Sorted(s) && 0 <= lo <= hi < |s| && Found(s, t, lo, v) && AllLater(s, t, hi + 1)
    ensures 0 <= lo' <= hi' + 1 <= |s| && hi' - lo' < hi - lo
    ensures Found(s, t, lo', v') && AllLater(s, t, hi' + 1)
    ensures Search(s, t, lo, hi, v) == Search(s, t, lo', hi', v')
  {
    var mid := (lo + hi) / 2;
    if s[mid].at <= t {
      lo', hi', v' := mid + 1, hi, Some(s[mid].value);
    } else {
      LaterIsLater(s, t, mid);
      lo', hi', v' := lo, mid - 1, v;
    }
  }

  lemma {:induction false} SearchFindsLast(s: Series, t: real, lo: int, hi: int, v: Option<real>)
    requires Sorted(s) && 0 <= lo <= hi + 1 <= |s| && Found(s, t, lo, v) && AllLater(s, t, hi + 1)
    ensures Search(s, t, lo, hi, v) == ValueAt(s, t)
    decreases hi + 1 - lo
  {
    if lo > hi {
      FoundIsLast(s, t, lo, v);
    } else {
      var lo', hi', v' := SearchStep(s, t, lo, hi, v);
      SearchFindsLast(s, t, lo', hi', v');
    }
  }

  /** On sorted samples the search finds the last one at or before t. */
  lemma HeldIsLast(s: Series, t: real)
    requires Sorted(s)
    ensures Held(s, t) == ValueAt(s, t)
  {
    SearchFindsLast(s, t, 0, |s| - 1, None);
  }

  method StepValue(s: Series, t: real) returns (v: Option<real>)
    ensures v == Held(s, t)
    ensures Sorted(s) ==> v == ValueAt(s, t)
    ensures v.Some? ==> exists i :: 0 <= i < |s| && s[i].at <= t && v.value == s[i].value
  {
    var lo, hi := 0, |s| - 1;
    v := None;
    while lo <= hi
      invariant 0 <= lo <= hi + 1 <= |s|
      invariant Search(s, t, lo, hi, v) == Held(s, t)
      invariant v.Some? ==> exists i :: 0 <= i < |s| && s[i].at <= t && v.value == s[i].value
      decreases hi - lo
    {
      var mid := (lo + hi) / 2;
      if s[mid].at <= t {
        v := Some(s[mid].value);
        lo := mid + 1;
      } else {
        hi := mid - 1;
      }
    }
    if Sorted(s) {
      HeldIsLast(s, t);
    }
  }

  // ------------------------------------------------------------------------
  // Energy bought at a price
  // ------------------------------------------------------------------------

  /** Energy drawn over one step, its price, and what it cost. */
  datatype Buy = Buy(energy: real, price: real, cost: real)

  function Bought(energy: real, price: real): Buy {
    Buy(energy, price, energy * price)
  }

  function Energy(b: seq<Buy>): real {
    if b == [] then 0.0 else b[0].energy + Energy(b[1..])
  }

  function Cost(b: seq<Buy>): real {
    if b == [] then 0.0 else b[0].cost + Cost(b[1..])
  }

  function Prices(b: seq<Buy>): real {
    if b == [] then 0.0 else b[0].price + Prices(b[1..])
  }

  /** Some energy at its price. */
  ghost predicate Fair(y: Buy) {
    y.energy > 0.0 && y.cost == y.energy * y.price
  }

  ghost predicate AllFair(b: seq<Buy>) {
    forall i :: 0 <= i < |b| ==> Fair(b[i])
  }

  ghost predicate PricesIn(b: seq<Buy>, low: real, high: real) {
    forall i :: 0 <= i < |b| ==> low <= b[i].price <= high
  }

  ghost predicate Between(weight: real, total: real, low: real, high: real) {
    low * weight <= total <= high * weight
  }

  lemma BetweenNext(weight: real, total: real, low: real, high: real, w: real, p: real, weight': real, total': real)
    requires Between(weight, total, low, high) && w > 0.0 && low <= p <= high
    requires weight' == w + weight && total' == w * p + total
    ensures Between(weight', total', low, high)
  {
    assert w * low <= w * p <= w * high;
    assert low * (w + weight) == w * low + low * weight;
    assert high * (w + weight) == w * high + high * weight;
  }

  lemma {:induction false} CostLiesBetween(b: seq<Buy>, low: real, high: real)
    requires AllFair(b) && PricesIn(b, low, high)
    ensures Between(Energy(b), Cost(b), low, high)
  {
    if b == [] {
    } else {
      CostLiesBetween(b[1..], low, high);
      assert Fair(b[0]);
      BetweenNext(Energy(b[1..]), Cost(b[1..]), low, high, b[0].energy, b[0].price, Energy(b), Cost(b));
    }
  }

  lemma {:induction false} PricesLieBetween(b: seq<Buy>, low: real, high: real)
    requires PricesIn(b, low, high)
    ensures Between(|b| as real, Prices(b), low, high)
  {
    if b == [] {
    } else {
      PricesLieBetween(b[1..], low, high);
      BetweenNext(|b[1..]| as real, Prices(b[1..]), low, high, 1.0, b[0].price, |b| as real, Prices(b));
    }
  }

  lemma {:induction false} EnergyIsPositive(b: seq<Buy>)
    requires AllFair(b)
    ensures Energy(b) >= 0.0 && (Energy(b) > 0.0 <==> b != [])
  {
    if b == [] {
    } else {
      assert Fair(b[0]);
      EnergyIsPositive(b[1..]);
    }
  }

  lemma QuotientBetween(total: real, weight: real, low: real, high: real)
    requires weight > 0.0 && Between(weight, total, low, high)
    ensures low <= total / weight <= high
  {
    var q := total / weight;
    assert q * weight == total;
  }

  function AveragePaid(b: seq<Buy>): real {
    if Energy(b) > 0.0 then Cost(b) / Energy(b) else 0.0
  }

  function AveragePrice(b: seq<Buy>): real {
    if b != [] then Prices(b) / |b| as real else 0.0
  }

  /** The price paid per unit, and the plain mean price, lie within the prices seen while buying. */
  lemma AveragePaidIsSeen(b: seq<Buy>, low: real, high: real)
    requires b != [] && (forall i :: 0 <= i < |b| ==> b[i].energy > 0.0 && b[i].cost == b[i].energy * b[i].price)
    requires forall i :: 0 <= i < |b| ==> low <= b[i].price <= high
    ensures low <= AveragePaid(b) <= high && low <= AveragePrice(b) <= high
  {
    EnergyIsPositive(b);
    CostLiesBetween(b, low, high);
    QuotientBetween(Cost(b), Energy(b), low, high);
    PricesLieBetween(b, low, high);
    QuotientBetween(Prices(b), |b| as real, low, high);
  }

  /** More was drawn at i than at j, and more cheaply. */
  ghost predicate CheaperAndMore(b: seq<Buy>, i: int, j: int) {
    0 <= i < |b| && 0 <= j < |b| && b[i].energy > b[j].energy && b[i].price < b[j].price
  }

  ghost predicate Bargain(b: seq<Buy>) {
    exists i, j :: CheaperAndMore(b, i, j)
  }

  /** Totals of some purchases: how many, what they cost, their energy and the sum of their prices. */
  datatype Totals = Totals(n: real, cost: real, energy: real, prices: real)

  function TotalsOf(b: seq<Buy>): Totals {
    Totals(|b| as real, Cost(b), Energy(b), Prices(b))
  }

  function With(t: Totals, y: Buy): Totals {
    Totals(t.n + 1.0, y.cost + t.cost, y.energy + t.energy, y.price + t.prices)
  }

  lemma TotalsNext(b: seq<Buy>)
    requires b != []
    ensures TotalsOf(b) == With(TotalsOf(b[1..]), b[0])
  {
  }

  /**
   c adds up, over the purchases with these totals, how far each is from x in energy times
   how far it is in price.
   */
  ghost predicate Couples(t: Totals, x: Buy, c: real) {
    c == t.cost - x.price * t.energy - x.energy * t.prices + t.n * x.cost
  }

  /** Units cost no less than the mean price. */
  ghost predicate Dear(t: Totals) {
    t.n * t.cost >= t.energy * t.prices
  }

  ghost function Gap(y: Buy, x: Buy): real {
    (y.energy - x.energy) * (y.price - x.price)
  }

  lemma ProductOfSums(a: real, b: real, c: real, d: real)
    ensures (a + b) * (c + d) == a * c + a * d + b * c + b * d
  {
    assert (a + b) * (c + d) == a * (c + d) + b * (c + d);
  }

  lemma CouplesNext(t: Totals, x: Buy, c: real, y: Buy)
    requires Couples(t, x, c) && Fair(x) && Fair(y)
    ensures Couples(With(t, y), x, Gap(y, x) + c)
  {
    assert (t.n + 1.0) * x.cost == t.n * x.cost + x.cost;
    assert Gap(y, x) == y.cost - x.price * y.energy - x.energy * y.price + x.cost;
    assert x.price * (y.energy + t.energy) == x.price * y.energy + x.price * t.energy;
    assert x.energy * (y.price + t.prices) == x.energy * y.price + x.energy * t.prices;
  }

  lemma DearNext(t: Totals, x: Buy, c: real)
    requires Dear(t) && Couples(t, x, c) && c >= 0.0 && Fair(x)
    ensures Dear(With(t, x))
  {
    var count, weight := (t.n + 1.0) * (x.cost + t.cost), (x.energy + t.energy) * (x.price + t.prices);
    ProductOfSums(t.n, 1.0, x.cost, t.cost);
    ProductOfSums(x.energy, t.energy, x.price, t.prices);
    assert t.energy * x.price == x.price * t.energy;
    assert count - weight == c + (t.n * t.cost - t.energy * t.prices);
    assert With(t, x).n * With(t, x).cost == count && With(t, x).energy * With(t, x).prices == weight;
  }

  lemma GapIsPositive(y: Buy, x: Buy)
    requires !(y.energy > x.energy && y.price < x.price) && !(x.energy > y.energy && x.price < y.price)
    ensures Gap(y, x) >= 0.0
  {
    var u, v := y.energy - x.energy, y.price - x.price;
    if u > 0.0 {
      assert v >= 0.0;
    } else if u < 0.0 {
      assert v <= 0.0;
      assert (-u) * (-v) >= 0.0;
    }
  }

  lemma {:induction false} CouplingIsPositive(b: seq<Buy>, x: Buy) returns (c: real)
    requires AllFair(b) && Fair(x) && forall i :: 0 <= i < |b| ==> Gap(b[i], x) >= 0.0
    ensures c >= 0.0 && Couples(TotalsOf(b), x, c)
  {
    if b == [] {
      c := 0.0;
    } else {
      assert Fair(b[0]);
      c := CouplingIsPositive(b[1..], x);
      CouplesNext(TotalsOf(b[1..]), x, c, b[0]);
      TotalsNext(b);
      c := Gap(b[0], x) + c;
    }
  }

  lemma BargainInRest(b: seq<Buy>)
    requires b != [] && Bargain(b[1..])
    ensures Bargain(b)
  {
    var i, j :| CheaperAndMore(b[1..], i, j);
    assert CheaperAndMore(b, i + 1, j + 1);
  }

  lemma NoBargainWithFirst(b: seq<Buy>)
    requires b != [] && !Bargain(b)
    ensures forall i :: 0 <= i < |b[1..]| ==> Gap(b[1..][i], b[0]) >= 0.0
  {
    forall i | 0 <= i < |b[1..]| ensures Gap(b[1..][i], b[0]) >= 0.0 {
      assert b[1..][i] == b[i + 1];
      assert !CheaperAndMore(b, i + 1, 0) && !CheaperAndMore(b, 0, i + 1);
      GapIsPositive(b[i + 1], b[0]);
    }
  }

  /** When no purchase is both larger and cheaper than another, units cost no less than the mean price. */
  lemma {:induction false} NoBargains(b: seq<Buy>)
    requires AllFair(b) && !Bargain(b)
    ensures Dear(TotalsOf(b))
  {
    if b == [] {
    } else {
      if Bargain(b[1..]) {
        BargainInRest(b);
      }
      NoBargains(b[1..]);
      NoBargainWithFirst(b);
      assert Fair(b[0]);
      var c := CouplingIsPositive(b[1..], b[0]);
      DearNext(TotalsOf(b[1..]), b[0], c);
      TotalsNext(b);
    }
  }

  lemma CrossMultiply(cost: real, energy: real, prices: real, n: real)
    requires energy > 0.0 && n > 0.0 && n * cost >= energy * prices
    ensures cost / energy >= prices / n
  {
    var a, m := cost / energy, prices / n;
    assert a * energy == cost && m * n == prices;
    assert n * (a * energy) == (n * energy) * a && energy * (m * n) == (n * energy) * m;
    Cancel(n * energy, a, m);
  }

  lemma Cancel(k: real, a: real, m: real)
    requires k > 0.0 && k * a >= k * m
    ensures a >= m
  {
  }

  lemma QuotientAtLeastOne(a: real, m: real)
    requires a >= m > 0.0
    ensures a / m >= 1.0
  {
    assert (a / m) * m == a;
  }

  function CaptureRatio(b: seq<Buy>): real {
    if AveragePrice(b) > 0.0 then AveragePaid(b) / AveragePrice(b) else 0.0
  }

  /** Whatever the signs of the prices: without a bargain the average paid is at least the mean price. */
  lemma PaidWithoutBargain(b: seq<Buy>)
    requires AllFair(b) && !Bargain(b)
    ensures AveragePaid(b) >= AveragePrice(b)
  {
    NoBargains(b);
    EnergyIsPositive(b);
    if b == [] {
    } else {
      CrossMultiply(Cost(b), Energy(b), Prices(b), |b| as real);
    }
  }

  /** A ratio below one says that less was paid than the mean price, unless that mean is not positive. */
  lemma RatioBelowOne(b: seq<Buy>)
    ensures CaptureRatio(b) < 1.0 <==> AveragePrice(b) <= 0.0 || AveragePaid(b) < AveragePrice(b)
  {
    var a, m := AveragePaid(b), AveragePrice(b);
    if m > 0.0 {
      assert (a / m) * m == a;
      if a >= m {
        QuotientAtLeastOne(a, m);
      }
    }
  }

  /** A ratio below one gives away a bargain exactly when the mean price is positive, or there is a bargain anyway. */
  lemma RatioTellsIff(b: seq<Buy>)
    requires AllFair(b)
    ensures (CaptureRatio(b) < 1.0 ==> Bargain(b)) <==> AveragePrice(b) > 0.0 || Bargain(b)
  {
    RatioBelowOne(b);
    if !Bargain(b) {
      PaidWithoutBargain(b);
    }
  }

  /** When imports cost nothing or are paid for, the ratio is zero whatever was drawn, as for a single step. */
  lemma RatioOfFreePower(energy: real, price: real)
    requires energy > 0.0 && price <= 0.0
    ensures var b := [Bought(energy, price)];
            AllFair(b) && CaptureRatio(b) == 0.0 && !Bargain(b)
  {
    var b := [Bought(energy, price)];
    assert Prices(b) == price + Prices(b[1..]);
    assert AveragePrice(b) == price;
  }

  // ------------------------------------------------------------------------
  // Price capture
  // ------------------------------------------------------------------------

  /** A series holds nothing before its first sample. */
  function Or0(v: Option<real>): real {
    if v.Some? then v.value else 0.0
  }

  /** The recorded feeds, and the step in seconds at which they are read. */
  datatype Feeds = Feeds(power: Series, price: Series, feedIn: Series, step: nat)

  /** What one step imports; without a known price it is skipped. */
  function Importing(f: Feeds, p: real, pr: Option<real>): Option<Buy> {
    if pr.Some? && p > 0.0 then Some(Bought(p * Hours(f.step), pr.value)) else None
  }

  /** What one step exports; without a feed-in price it earns nothing. */
  function Exporting(f: Feeds, p: real, pr: Option<real>, fir: Option<real>): Option<Buy> {
    if pr.Some? && p < 0.0 then Some(Bought(-p * Hours(f.step), Or0(fir))) else None
  }

  function Import(f: Feeds, t: real): Option<Buy> {
    Importing(f, Or0(Held(f.power, t)), Held(f.price, t))
  }

  function Export(f: Feeds, t: real): Option<Buy> {
    Exporting(f, Or0(Held(f.power, t)), Held(f.price, t), Held(f.feedIn, t))
  }

  function Present(b: Option<Buy>): seq<Buy> {
    if b.Some? then [b.value] else []
  }

  /** Everything imported between t and the last sample. */
  function ImportsFrom(f: Feeds, t: real, last: real): seq<Buy>
    requires f.step > 0
    decreases last - t
  {
    if t >= last then [] else Present(Import(f, t)) + ImportsFrom(f, t + f.step as real, last)
  }

  function ExportsFrom(f: Feeds, t: real, last: real): seq<Buy>
    requires f.step > 0
    decreases last - t
  {
    if t >= last then [] else Present(Export(f, t)) + ExportsFrom(f, t + f.step as real, last)
  }

  function Hours(step: nat): real {
    step as real / 3600.0
  }

  lemma ImportIsFair(f: Feeds, t: real)
    requires f.step > 0
    ensures AllFair(Present(Import(f, t)))
  {
    assert Hours(f.step) > 0.0;
  }

  lemma {:induction false} ImportsAreFair(f: Feeds, t: real, last: real)
    requires f.step > 0
    ensures AllFair(ImportsFrom(f, t, last))
    decreases last - t
  {
    if t >= last {
    } else {
      ImportsAreFair(f, t + f.step as real, last);
      ImportIsFair(f, t);
    }
  }

  datatype Capture = Capture(
    importKwh: real, exportKwh: real, avgPaid: real, windowAvg: real, ratio: real, exportRevenue: real)

  lemma FirstOf(y: Option<Buy>, rest: seq<Buy>)
    ensures y.None? ==> Present(y) + rest == rest
    ensures y.Some? ==> Energy(Present(y) + rest) == y.value.energy + Energy(rest)
    ensures y.Some? ==> Cost(Present(y) + rest) == y.value.cost + Cost(rest)
    ensures y.Some? ==> Prices(Present(y) + rest) == y.value.price + Prices(rest)
  {
  }

  /** Running totals: energy, cost, sum of prices, count. */
  datatype Sums = Sums(energy: real, cost: real, prices: real, count: nat)

  /** The running totals and the purchases still to come make up all of them. */
  ghost predicate SoFar(s: Sums, todo: seq<Buy>, all: seq<Buy>) {
    && s.energy + Energy(todo) == Energy(all) && s.cost + Cost(todo) == Cost(all)
    && s.prices + Prices(todo) == Prices(all) && s.count + |todo| == |all|
  }

  function Added(s: Sums, y: Buy): Sums {
    Sums(s.energy + y.energy, s.cost + y.cost, s.prices + y.price, s.count + 1)
  }

  lemma AddedSoFar(s: Sums, y: Option<Buy>, rest: seq<Buy>, all: seq<Buy>)
    requires SoFar(s, Present(y) + rest, all)
    ensures SoFar(if y.Some? then Added(s, y.value) else s, rest, all)
  {
    FirstOf(y, rest);
  }

  /** What the loop does at the instant t. */
  method Meter(f: Feeds, t: real, imports: Sums, exports: Sums) returns (i: Sums, x: Sums)
    ensures i == if Import(f, t).Some? then Added(imports, Import(f, t).value) else imports
    ensures x == if Export(f, t).Some? then Added(exports, Export(f, t).value) else exports
  {
    i, x := imports, exports;
    var held := StepValue(f.power, t);
    var p := Or0(held);
    var pr := StepValue(f.price, t);
    var fir := StepValue(f.feedIn, t);
    if pr.Some? {
      if p > 0.0 {
        i := Added(i, Bought(p * Hours(f.step), pr.value));
      } else if p < 0.0 {
        x := Added(x, Bought(-p * Hours(f.step), Or0(fir)));
      }
    }
  }

  /** Totals after the instants before t, out of all from the instant `first` on. */
  ghost predicate ReadUpTo(f: Feeds, t: real, first: real, last: real, i: Sums, x: Sums)
    requires f.step > 0
  {
    && SoFar(i, ImportsFrom(f, t, last), ImportsFrom(f, first, last))
    && SoFar(x, ExportsFrom(f, t, last), ExportsFrom(f, first, last))
  }

  lemma ReadNext(f: Feeds, t: real, first: real, last: real, i: Sums, x: Sums)
    requires f.step > 0 && t < last && ReadUpTo(f, t, first, last, i, x)
    ensures var b, s := Import(f, t), Export(f, t);
            ReadUpTo(f, t + f.step as real, first, last, if b.Some? then Added(i, b.value) else i, if s.Some? then Added(x, s.value) else x)
  {
    AddedSoFar(i, Import(f, t), ImportsFrom(f, t + f.step as real, last), ImportsFrom(f, first, last));
    AddedSoFar(x, Export(f, t), ExportsFrom(f, t + f.step as real, last), ExportsFrom(f, first, last));
  }

  function Summary(i: Sums, x: Sums): Capture {
    var avgPaid := if i.energy > 0.0 then i.cost / i.energy else 0.0;
    var windowAvg := if i.count > 0 then i.prices / i.count as real else 0.0;
    Capture(i.energy, x.energy, avgPaid, windowAvg, if windowAvg > 0.0 then avgPaid / windowAvg else 0.0, x.cost)
  }

  lemma SummaryIsCapture(i: Sums, x: Sums, imports: seq<Buy>, exports: seq<Buy>)
    requires SoFar(i, [], imports) && SoFar(x, [], exports)
    ensures Summary(i, x) == CaptureOf(imports, exports)
  {
  }

  function CaptureOf(imports: seq<Buy>, exports: seq<Buy>): Capture {
    Capture(Energy(imports), Energy(exports), AveragePaid(imports), AveragePrice(imports), CaptureRatio(imports), Cost(exports))
  }

  method PriceCapture(f: Feeds) returns (r: Capture)
    requires f.step > 0
    ensures f.power == [] ==> r == Capture(0.0, 0.0, 0.0, 0.0, 0.0, 0.0)
    ensures f.power != [] ==>
              var first, last := f.power[0].at, f.power[|f.power| - 1].at;
              r == CaptureOf(ImportsFrom(f, first, last), ExportsFrom(f, first, last))
  {
    if f.power == [] {
      return Capture(0.0, 0.0, 0.0, 0.0, 0.0, 0.0);
    }
    var i, x := Sums(0.0, 0.0, 0.0, 0), Sums(0.0, 0.0, 0.0, 0);
    var t, first, last := f.power[0].at, f.power[0].at, f.power[|f.power| - 1].at;
    while t < last
      invariant ReadUpTo(f, t, first, last, i, x)
      decreases last - t
    {
      ReadNext(f, t, first, last, i, x);
      i, x := Meter(f, t, i, x);
      t := t + f.step as real;
    }
    SummaryIsCapture(i, x, ImportsFrom(f, first, last), ExportsFrom(f, first, last));
    r := Summary(i, x);
  }

  /** The average paid lies between the least and the greatest price seen while importing. */
  lemma CaptureIsSeen(f: Feeds, t: real, last: real, low: real, high: real)
    requires f.step > 0 && ImportsFrom(f, t, last) != [] && PricesIn(ImportsFrom(f, t, last), low, high)
    ensures Energy(ImportsFrom(f, t, last)) > 0.0 && low <= AveragePaid(ImportsFrom(f, t, last)) <= high
  {
    var b := ImportsFrom(f, t, last);
    ImportsAreFair(f, t, last);
    EnergyIsPositive(b);
    AveragePaidIsSeen(b, low, high);
  }

  /**
   While the mean price is positive, a capture ratio below one means the imports were loaded
   into cheaper moments: at some step more was imported than at another, and more cheaply.
   Otherwise the ratio is zero and says nothing.
   */
  lemma ImportsWereLoaded(f: Feeds, t: real, last: real)
    requires f.step > 0
    ensures var b := ImportsFrom(f, t, last);
            && (CaptureRatio(b) < 1.0 ==> Bargain(b) || AveragePrice(b) <= 0.0)
            && (AveragePrice(b) <= 0.0 ==> CaptureRatio(b) == 0.0)
  {
    ImportsAreFair(f, t, last);
    RatioTellsIff(ImportsFrom(f, t, last));
  }

  // ------------------------------------------------------------------------
  // A day's charging
  // ------------------------------------------------------------------------

  const DAY_SECONDS := 86400

  /** The hour of the local clock. */
  type Hour = h: int | 0 <= h < 24

  /** The day's series and limits. Negative battery power charges. */
  datatype Day = Day(battery: Series, price: Series, start: real, hourOf: real -> Hour, step: nat, chargeKw: real)

  function Charging(d: Day, bp: real, pr: Option<real>): Option<Buy> {
    if bp < d.chargeKw && pr.Some? then Some(Bought(-bp * Hours(d.step), pr.value)) else None
  }

  function Charge(d: Day, i: nat): Option<Buy> {
    var t := d.start + i as real;
    Charging(d, Or0(Held(d.battery, t)), Held(d.price, t))
  }

  function ChargesFrom(d: Day, i: nat): seq<Buy>
    requires d.step > 0
    decreases DAY_SECONDS - i
  {
    if i >= DAY_SECONDS then [] else
      (if Charge(d, i).Some? then [Charge(d, i).value] else []) + ChargesFrom(d, i + d.step)
  }

  /** The energy charged from the i-th second on while the clock showed hour h. */
  function HourEnergy(d: Day, h: int, i: nat): real
    requires d.step > 0
    decreases DAY_SECONDS - i
  {
    if i >= DAY_SECONDS then 0.0 else
      (if Charge(d, i).Some? && d.hourOf(d.start + i as real) == h then Charge(d, i).value.energy else 0.0) + HourEnergy(d, h, i + d.step)
  }

  function HoursTotal(d: Day, hours: nat, i: nat): real
    requires d.step > 0
  {
    if hours == 0 then 0.0 else HoursTotal(d, hours - 1, i) + HourEnergy(d, hours - 1, i)
  }

  lemma {:induction false} HoursTotalNext(d: Day, hours: nat, i: nat)
    requires d.step > 0 && i < DAY_SECONDS
    ensures HoursTotal(d, hours, i) == HoursTotal(d, hours, i + d.step)
              + (if Charge(d, i).Some? && d.hourOf(d.start + i as real) < hours then Charge(d, i).value.energy else 0.0)
  {
    if hours == 0 {
    } else {
      HoursTotalNext(d, hours - 1, i);
    }
  }

  lemma {:induction false} NothingAfterTheDay(d: Day, hours: nat, i: nat)
    requires d.step > 0 && i >= DAY_SECONDS
    ensures HoursTotal(d, hours, i) == 0.0
  {
    if hours == 0 {
    } else {
      NothingAfterTheDay(d, hours - 1, i);
    }
  }

  /** The energies of the 24 hours sum to all that was charged. */
  lemma {:induction false} HoursSumToCharged(d: Day, i: nat)
    requires d.step > 0
    ensures HoursTotal(d, 24, i) == Energy(ChargesFrom(d, i))
    decreases DAY_SECONDS - i
  {
    if i >= DAY_SECONDS {
      NothingAfterTheDay(d, 24, i);
    } else {
      HoursSumToCharged(d, i + d.step);
      HoursTotalNext(d, 24, i);
      ChargesNext(d, i);
    }
  }

  lemma ChargesNext(d: Day, i: nat)
    requires d.step > 0 && i < DAY_SECONDS
    ensures var c, rest := Charge(d, i), ChargesFrom(d, i + d.step);
            && Energy(ChargesFrom(d, i)) == Energy(rest) + (if c.Some? then c.value.energy else 0.0)
            && Cost(ChargesFrom(d, i)) == Cost(rest) + (if c.Some? then c.value.cost else 0.0)
  {
    var c, rest := Charge(d, i), ChargesFrom(d, i + d.step);
    if c.Some? {
      assert ChargesFrom(d, i) == [c.value] + rest;
      assert ([c.value] + rest)[1..] == rest;
    } else {
      assert ChargesFrom(d, i) == rest;
    }
  }

  lemma {:induction false} ChargesAreFair(d: Day, i: nat)
    requires d.step > 0 && d.chargeKw <= 0.0
    ensures AllFair(ChargesFrom(d, i))
    decreases DAY_SECONDS - i
  {
    if i >= DAY_SECONDS {
    } else {
      ChargesAreFair(d, i + d.step);
      ChargeIsFair(d, i);
    }
  }

  lemma ChargeIsFair(d: Day, i: nat)
    requires d.step > 0 && d.chargeKw <= 0.0
    ensures Charge(d, i).Some? ==> Fair(Charge(d, i).value)
  {
    assert Hours(d.step) > 0.0;
  }

  /** A day's average paid lies between the least and the greatest price seen while charging. */
  lemma DayPriceIsSeen(d: Day, low: real, high: real)
    requires d.step > 0 && d.chargeKw <= 0.0
    requires ChargesFrom(d, 0) != [] && PricesIn(ChargesFrom(d, 0), low, high)
    ensures Energy(ChargesFrom(d, 0)) > 0.0 && low <= AveragePaid(ChargesFrom(d, 0)) <= high
  {
    ChargesAreFair(d, 0);
    EnergyIsPositive(ChargesFrom(d, 0));
    AveragePaidIsSeen(ChargesFrom(d, 0), low, high);
  }

  /** Some step from the i-th second on charges while the clock shows hour h. */
  predicate ChargesIn(d: Day, h: int, i: nat)
    requires d.step > 0
    decreases DAY_SECONDS - i
  {
    i < DAY_SECONDS && ((Charge(d, i).Some? && d.hourOf(d.start + i as real) == h) || ChargesIn(d, h, i + d.step))
  }

  /** What each hour got so far and what it still gets make up all it gets. */
  ghost predicate HoursSoFar(d: Day, perHour: map<Hour, real>, i: nat)
    requires d.step > 0
  {
    && (forall h: Hour :: (if h in perHour then perHour[h] else 0.0) + HourEnergy(d, h, i) == HourEnergy(d, h, 0))
    && (forall h: Hour :: h in perHour || ChargesIn(d, h, i) <==> ChargesIn(d, h, 0))
  }

  method AddToHour(d: Day, perHour: map<Hour, real>, i: nat, e: real) returns (r: map<Hour, real>)
    requires d.step > 0 && i < DAY_SECONDS && HoursSoFar(d, perHour, i)
    requires Charge(d, i).Some? && e == Charge(d, i).value.energy
    ensures HoursSoFar(d, r, i + d.step)
  {
    var hour := d.hourOf(d.start + i as real);
    r := perHour[hour := (if hour in perHour then perHour[hour] else 0.0) + e];
  }

  lemma NoCharge(d: Day, perHour: map<Hour, real>, i: nat)
    requires d.step > 0 && i < DAY_SECONDS && HoursSoFar(d, perHour, i) && Charge(d, i).None?
    ensures HoursSoFar(d, perHour, i + d.step)
  {
  }

  ghost predicate PaidSoFar(d: Day, charged: real, paid: real, i: nat)
    requires d.step > 0
  {
    && charged + Energy(ChargesFrom(d, i)) == Energy(ChargesFrom(d, 0))
    && paid + Cost(ChargesFrom(d, i)) == Cost(ChargesFrom(d, 0))
  }

  lemma PaidNext(d: Day, charged: real, paid: real, i: nat)
    requires d.step > 0 && i < DAY_SECONDS && PaidSoFar(d, charged, paid, i)
    ensures var c := Charge(d, i);
            if c.Some? then PaidSoFar(d, charged + c.value.energy, paid + c.value.cost, i + d.step)
            else PaidSoFar(d, charged, paid, i + d.step)
  {
    ChargesNext(d, i);
  }

  /** What the loop does at the i-th second. */
  method ChargeAt(d: Day, i: nat) returns (c: Option<Buy>)
    ensures c == Charge(d, i)
  {
    var held := StepValue(d.battery, d.start + i as real);
    var pr := StepValue(d.price, d.start + i as real);
    c := Charging(d, Or0(held), pr);
  }

  /** What the price feed held at the start of each hour of the day. */
  function HourlyPrices(d: Day): seq<Option<real>> {
    seq(24, h requires 0 <= h < 24 => Held(d.price, d.start + (h * 3600) as real))
  }

  method ReadHourly(d: Day) returns (hourly: seq<Option<real>>)
    ensures hourly == HourlyPrices(d)
  {
    hourly := [];
    for h := 0 to 24
      invariant hourly == HourlyPrices(d)[..h]
    {
      var p := StepValue(d.price, d.start + (h * 3600) as real);
      assert HourlyPrices(d)[..h + 1] == HourlyPrices(d)[..h] + [HourlyPrices(d)[h]];
      hourly := hourly + [p];
    }
  }

  method ChargeTiming(d: Day, bulkKwh: real) returns (t: Timing)
    requires d.step > 0
    ensures t.charged == Energy(ChargesFrom(d, 0)) == HoursTotal(d, 24, 0)
    ensures t.avgPaid == if t.charged > 0.0 then Some(AveragePaid(ChargesFrom(d, 0))) else None
    ensures forall h: Hour :: h in t.bulk <==> ChargesIn(d, h, 0) && HourEnergy(d, h, 0) > bulkKwh
    ensures forall h: Hour :: h in t.bulk ==> t.bulk[h] == HourEnergy(d, h, 0)
    ensures DayPrices.AreCheapest(HourlyPrices(d), t.cheapest)
    ensures DayPrices.IsLeast(HourlyPrices(d), t.least) && DayPrices.IsGreatest(HourlyPrices(d), t.greatest)
  {
    var hourly := ReadHourly(d);
    var charged, paid, perHour := Accumulate(d);
    HoursSumToCharged(d, 0);
    var bulk := map h: Hour | h in perHour && perHour[h] > bulkKwh :: perHour[h];
    var cheapest, least, greatest := DayPrices.Summarise(hourly);
    t := Timing(charged, if charged > 0.0 then Some(paid / charged) else None, bulk, cheapest, least, greatest);
  }

  datatype Timing = Timing(
    charged: real,
    avgPaid: Option<real>,
    bulk: map<Hour, real>,
    cheapest: seq<int>,
    least: Option<real>,
    greatest: Option<real>)

  /** The loop over the steps of the day. */
  method Accumulate(d: Day) returns (charged: real, paid: real, perHour: map<Hour, real>)
    requires d.step > 0
    ensures charged == Energy(ChargesFrom(d, 0)) && paid == Cost(ChargesFrom(d, 0))
    ensures forall h: Hour :: h in perHour <==> ChargesIn(d, h, 0)
    ensures forall h: Hour :: h in perHour ==> perHour[h] == HourEnergy(d, h, 0)
  {
    charged, paid, perHour := 0.0, 0.0, map[];
    var i := 0;
    while i < DAY_SECONDS
      invariant PaidSoFar(d, charged, paid, i) && HoursSoFar(d, perHour, i)
      decreases DAY_SECONDS - i
    {
      PaidNext(d, charged, paid, i);
      var c := ChargeAt(d, i);
      if c.Some? {
        charged := charged + c.value.energy;
        paid := paid + c.value.cost;
        perHour := AddToHour(d, perHour, i, c.value.energy);
      } else {
        NoCharge(d, perHour, i);
      }
      i := i + d.step;
    }
  }
}

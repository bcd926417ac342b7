/** A day's prices hour by hour: the cheapest hours, and the least and the greatest price. */
module DayPrices {
  import opened Prelude

  type Hourly = seq<Option<real>>

  ghost predicate Priced(hourly: Hourly, h: int) {
    0 <= h < |hourly| && hourly[h].Some?
  }

  /** Cheaper, or as cheap and earlier. */
  ghost predicate Precedes(hourly: Hourly, g: int, h: int) {
    && Priced(hourly, g) && Priced(hourly, h)
    && (hourly[g].value < hourly[h].value || (hourly[g].value == hourly[h].value && g < h))
  }

  ghost predicate InPriceOrder(hourly: Hourly, order: seq<int>) {
    forall i, j :: 0 <= i < j < |order| ==> Precedes(hourly, order[i], order[j])
  }

  ghost predicate AllBefore(hourly: Hourly, order: seq<int>, h: int) {
    forall g :: g in order ==> Priced(hourly, g) && g < h
  }

  /** Where a later hour goes: behind every hour that is no dearer. */
  method Place(hourly: Hourly, order: seq<int>, h: int) returns (k: nat)
    requires InPriceOrder(hourly, order) && Priced(hourly, h) && AllBefore(hourly, order, h)
    ensures k <= |order|
    ensures forall i :: 0 <= i < k ==> Precedes(hourly, order[i], h)
    ensures forall i :: k <= i < |order| ==> Precedes(hourly, h, order[i])
  {
    k := 0;
    while k < |order|
      invariant k <= |order|
      invariant forall i :: 0 <= i < k ==> Precedes(hourly, order[i], h)
    {
      assert order[k] in order;
      if hourly[order[k]].value > hourly[h].value {
        break;
      }
      k := k + 1;
    }
    forall i | k <= i < |order| ensures Precedes(hourly, h, order[i]) {
      assert order[i] in order && (i > k ==> Precedes(hourly, order[k], order[i]));
    }
  }

  lemma Inserted(hourly: Hourly, order: seq<int>, h: int, k: nat)
    requires InPriceOrder(hourly, order) && k <= |order|
    requires forall i :: 0 <= i < k ==> Precedes(hourly, order[i], h)
    requires forall i :: k <= i < |order| ==> Precedes(hourly, h, order[i])
    ensures InPriceOrder(hourly, order[..k] + [h] + order[k..])
    ensures forall g :: g in order[..k] + [h] + order[k..] <==> g in order || g == h
  {
    assert order == order[..k] + order[k..];
  }

  /** All priced hours, cheapest first. */
  method SortHours(hourly: Hourly) returns (order: seq<int>)
    ensures InPriceOrder(hourly, order)
    ensures forall h :: h in order <==> Priced(hourly, h)
  {
    order := [];
    for h := 0 to |hourly|
      invariant InPriceOrder(hourly, order)
      invariant forall g :: g in order <==> g < h && Priced(hourly, g)
    {
      if hourly[h].Some? {
        var k := Place(hourly, order, h);
        Inserted(hourly, order, h, k);
        order := order[..k] + [h] + order[k..];
      }
    }
  }

  ghost predicate IsLeast(hourly: Hourly, price: Option<real>) {
    && (price.None? ==> forall h :: !Priced(hourly, h))
    && (price.Some? ==> exists h :: Priced(hourly, h) && hourly[h] == price)
    && (price.Some? ==> forall h :: Priced(hourly, h) ==> price.value <= hourly[h].value)
  }

  ghost predicate IsGreatest(hourly: Hourly, price: Option<real>) {
    && (price.None? ==> forall h :: !Priced(hourly, h))
    && (price.Some? ==> exists h :: Priced(hourly, h) && hourly[h] == price)
    && (price.Some? ==> forall h :: Priced(hourly, h) ==> price.value >= hourly[h].value)
  }

  /** No priced hour that is left out comes before one that is listed, and fewer than three are listed only if there are no more. */
  ghost predicate AreCheapest(hourly: Hourly, cheapest: seq<int>) {
    && |cheapest| <= 3 && InPriceOrder(hourly, cheapest)
    && (forall h :: h in cheapest ==> Priced(hourly, h))
    && (forall h :: Priced(hourly, h) && h !in cheapest ==> |cheapest| == 3 && Precedes(hourly, cheapest[2], h))
  }

  method Summarise(hourly: Hourly) returns (cheapest: seq<int>, least: Option<real>, greatest: Option<real>)
    ensures AreCheapest(hourly, cheapest) && IsLeast(hourly, least) && IsGreatest(hourly, greatest)
  {
    var order := SortHours(hourly);
    FirstThree(hourly, order);
    cheapest := order[..Min(3, |order|)];
    if order == [] {
      least, greatest := None, None;
    } else {
      Ends(hourly, order);
      least, greatest := hourly[order[0]], hourly[order[|order| - 1]];
    }
  }

  lemma FirstThree(hourly: Hourly, order: seq<int>)
    requires InPriceOrder(hourly, order) && forall h :: h in order <==> Priced(hourly, h)
    ensures AreCheapest(hourly, order[..Min(3, |order|)])
  {
    var cheapest := order[..Min(3, |order|)];
    assert forall i :: 0 <= i < |cheapest| ==> order[i] in cheapest;
    forall h | Priced(hourly, h) && h !in cheapest ensures |cheapest| == 3 && Precedes(hourly, cheapest[2], h) {
      var i :| 0 <= i < |order| && order[i] == h;
    }
  }

  lemma Ends(hourly: Hourly, order: seq<int>)
    requires order != [] && InPriceOrder(hourly, order) && forall h :: h in order <==> Priced(hourly, h)
    ensures Priced(hourly, order[0]) && Priced(hourly, order[|order| - 1])
    ensures IsLeast(hourly, hourly[order[0]]) && IsGreatest(hourly, hourly[order[|order| - 1]])
  {
    assert order[0] in order && order[|order| - 1] in order;
    forall h | Priced(hourly, h) ensures hourly[order[0]].value <= hourly[h].value <= hourly[order[|order| - 1]].value {
      var i :| 0 <= i < |order| && order[i] == h;
    }
  }
}

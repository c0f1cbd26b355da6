/** Unit prices by currency and region, progressive tiers and volume bands. Amounts are real
    numbers. */
module TierPricing {
  import opened Wrappers

  datatype PricingError =
    | BadCurrency | NoRegion | NoCurrency | Negative | NotNumeric | NoBand | BadInterval | CustomOverage | Unsupported | NoOption

  /** A price by currency; when there are regional prices, they take precedence. */
  datatype Point = Point(prices: map<string, real>, regional: map<string, map<string, real>>)

  datatype Market = Market(currency: string, region: string)

  /** Three upper-case letters. */
  predicate IsCurrency(code: string) {
    |code| == 3 && forall i | 0 <= i < 3 :: 'A' <= code[i] <= 'Z'
  }

  function NotNegative(x: real): Result<real, PricingError> {
    if x < 0.0 then Failure(Negative) else Success(x)
  }

  function Resolve(p: Point, m: Market): (r: Result<real, PricingError>)
    ensures r.Success? ==> r.value >= 0.0
  {
    if !IsCurrency(m.currency) then Failure(BadCurrency)
    else if p.regional != map[] then
      if m.region == "" || m.region !in p.regional then Failure(NoRegion)
      else if m.currency !in p.regional[m.region] then Failure(NoCurrency)
      else NotNegative(p.regional[m.region][m.currency])
    else if m.currency !in p.prices then Failure(NoCurrency)
    else NotNegative(p.prices[m.currency])
  }

  /** A price per unit up to a bound; without a bound it has no end. */
  datatype Tier = Tier(upTo: Option<real>, point: Point)

  function Min(a: real, b: real): real {
    if a <= b then a else b
  }

  function Max(a: real, b: real): real {
    if a >= b then a else b
  }

  function Cost(units: real, price: real): real {
    units * price
  }

  // ---------- the loop ----------

  /** The units that the tier takes from what remains. */
  function Take(t: Tier, lower: real, remaining: real): real {
    match t.upTo
    case None => remaining
    case Some(bound) => Min(remaining, Max(bound - lower, 0.0))
  }

  function NextLower(t: Tier, lower: real): real {
    match t.upTo
    case None => lower
    case Some(bound) => if bound == 0.0 then lower else bound
  }

  /** What the remaining units cost in the remaining tiers. A tier that takes nothing does not
      need a price. */
  function Charge(tiers: seq<Tier>, lower: real, remaining: real, m: Market): Result<real, PricingError> {
    if tiers == [] || remaining <= 0.0 then Success(0.0)
    else
      var t, taken := tiers[0], Take(tiers[0], lower, remaining);
      if taken <= 0.0 then Charge(tiers[1..], NextLower(t, lower), remaining, m)
      else
        match Resolve(t.point, m)
        case Failure(e) => Failure(e)
        case Success(price) =>
          if t.upTo.None? then Success(Cost(taken, price))
          else
            match Charge(tiers[1..], t.upTo.value, remaining - taken, m)
            case Failure(e) => Failure(e)
            case Success(rest) => Success(Cost(taken, price) + rest)
  }

  function Plus(total: real, r: Result<real, PricingError>): Result<real, PricingError> {
    match r
    case Failure(e) => Failure(e)
    case Success(x) => Success(total + x)
  }

  lemma {:induction false} ChargeFirst(tiers: seq<Tier>, lower: real, remaining: real, m: Market)
    requires tiers != [] && remaining > 0.0
    ensures var t, taken := tiers[0], Take(tiers[0], lower, remaining);
            var price := Resolve(t.point, m);
            Charge(tiers, lower, remaining, m)
            == if taken <= 0.0 then Charge(tiers[1..], NextLower(t, lower), remaining, m)
               else if price.Failure? then price
               else if t.upTo.None? then Success(Cost(taken, price.value))
               else Plus(Cost(taken, price.value), Charge(tiers[1..], t.upTo.value, remaining - taken, m))
  {
    hide Resolve, Cost;
  }

  lemma PlusTwice(a: real, b: real, r: Result<real, PricingError>)
    ensures Plus(a, Plus(b, r)) == Plus(a + b, r)
  {
  }

  method CalcProgressiveTiers(qty: real, tiers: seq<Tier>, m: Market) returns (r: Result<real, PricingError>)
    ensures r == Charge(tiers, 0.0, qty, m)
  {
    hide Resolve, Cost;
    var remaining, lower, total := qty, 0.0, 0.0;
    var i := 0;
    ghost var whole := Charge(tiers, 0.0, qty, m);
    assert tiers[0..] == tiers;
    while i < |tiers|
      invariant 0 <= i <= |tiers|
      invariant whole == Plus(total, Charge(tiers[i..], lower, remaining, m))
    {
      if remaining <= 0.0 {
        break;
      }
      assert tiers[i..][1..] == tiers[i + 1..];
      ChargeFirst(tiers[i..], lower, remaining, m);
      var tier := tiers[i];
      var taken := remaining;
      if tier.upTo.Some? {
        taken := Min(taken, Max(tier.upTo.value - lower, 0.0));
      }
      i := i + 1;
      if taken <= 0.0 {
        lower := if tier.upTo.Some? && tier.upTo.value != 0.0 then tier.upTo.value else lower;
        continue;
      }
      var price := Resolve(tier.point, m);
      if price.Failure? {
        return price;
      }
      var cost := Cost(taken, price.value);
      if tier.upTo.Some? {
        PlusTwice(total, cost, Charge(tiers[i..], tier.upTo.value, remaining - taken, m));
      }
      total := total + cost;
      remaining := remaining - taken;
      if tier.upTo.None? {
        break;
      }
      lower := tier.upTo.value;
    }
    return Success(total);
  }

  // ---------- what the loop charges ----------

  function Price(p: Point, m: Market): (x: real)
    ensures x >= 0.0
  {
    if Resolve(p, m).Success? then Resolve(p, m).value else 0.0
  }

  function UpTo(q: real, bound: Option<real>): real {
    match bound
    case None => q
    case Some(u) => Min(q, u)
  }

  /** Each tier's price times its share of the quantity: what lies between its own bound and
      the bound before it. */
  function TierSum(tiers: seq<Tier>, lower: real, q: real, m: Market): real {
    if tiers == [] then 0.0
    else
      var t := tiers[0];
      Cost(UpTo(q, t.upTo) - Min(q, lower), Price(t.point, m))
      + if t.upTo.None? then 0.0 else TierSum(tiers[1..], t.upTo.value, q, m)
  }

  function Bounds(tiers: seq<Tier>): seq<Option<real>> {
    if tiers == [] then [] else [tiers[0].upTo] + Bounds(tiers[1..])
  }

  /** Capped at the quantity, the bounds do not decrease up to the first tier without one; how
      they go on beyond the quantity does not matter. */
  predicate IsOrdered(bounds: seq<Option<real>>, lower: real, q: real) {
    bounds == [] || bounds[0].None?
    || (Min(q, lower) <= Min(q, bounds[0].value) && IsOrdered(bounds[1..], bounds[0].value, q))
  }

  /** Every tier with a share of the quantity has a price. */
  predicate SharesArePriced(tiers: seq<Tier>, lower: real, q: real, m: Market) {
    tiers == []
    || var t := tiers[0];
       && (UpTo(q, t.upTo) > Min(q, lower) ==> Resolve(t.point, m).Success?)
       && (t.upTo.None? || SharesArePriced(tiers[1..], t.upTo.value, q, m))
  }

  lemma CostOfNothing(price: real)
    ensures Cost(0.0, price) == 0.0
  {
  }

  lemma {:induction false} NothingBelow(tiers: seq<Tier>, lower: real, q: real, m: Market)
    requires IsOrdered(Bounds(tiers), lower, q) && q <= lower
    ensures TierSum(tiers, lower, q, m) == 0.0 && SharesArePriced(tiers, lower, q, m)
  {
    hide Resolve, Cost;
    if tiers != [] {
      CostOfNothing(Price(tiers[0].point, m));
      if tiers[0].upTo.Some? { NothingBelow(tiers[1..], tiers[0].upTo.value, q, m); }
    }
  }

  lemma {:induction false} SumFirst(tiers: seq<Tier>, lower: real, q: real, m: Market)
    requires tiers != []
    ensures var t := tiers[0];
            var share := UpTo(q, t.upTo) - Min(q, lower);
            && TierSum(tiers, lower, q, m)
               == Cost(share, Price(t.point, m)) + (if t.upTo.None? then 0.0 else TierSum(tiers[1..], t.upTo.value, q, m))
            && (SharesArePriced(tiers, lower, q, m)
                <==> (share > 0.0 ==> Resolve(t.point, m).Success?)
                     && (t.upTo.None? || SharesArePriced(tiers[1..], t.upTo.value, q, m)))
  {
    hide Resolve, Cost, Price;
  }

  /** What the loop takes from a tier is its share. */
  lemma TakeIsShare(t: Tier, lower: real, q: real)
    requires lower < q && (t.upTo.Some? ==> Min(q, lower) <= Min(q, t.upTo.value))
    ensures 0.0 <= Take(t, lower, q - lower) == UpTo(q, t.upTo) - Min(q, lower)
    ensures t.upTo.Some? && Take(t, lower, q - lower) <= 0.0 ==> t.upTo.value == lower && NextLower(t, lower) == lower
    ensures t.upTo.Some? && Take(t, lower, q - lower) > 0.0 ==>
              q - lower - Take(t, lower, q - lower) == if t.upTo.value < q then q - t.upTo.value else 0.0
    ensures t.upTo.None? ==> Take(t, lower, q - lower) > 0.0
  {
  }

  lemma {:induction false} OrderedFirst(tiers: seq<Tier>, lower: real, q: real)
    requires IsOrdered(Bounds(tiers), lower, q) && tiers != [] && tiers[0].upTo.Some?
    ensures Min(q, lower) <= Min(q, tiers[0].upTo.value) && IsOrdered(Bounds(tiers[1..]), tiers[0].upTo.value, q)
  {
  }

  /** With bounds in order up to the quantity the loop succeeds exactly when every tier with a
      share has a price, and then charges the sum over the tiers. */
  lemma {:induction false} ChargeIsSum(tiers: seq<Tier>, lower: real, q: real, m: Market)
    requires IsOrdered(Bounds(tiers), lower, q)
    ensures Charge(tiers, lower, q - lower, m).Success? <==> SharesArePriced(tiers, lower, q, m)
    ensures Charge(tiers, lower, q - lower, m).Success? ==>
              Charge(tiers, lower, q - lower, m) == Success(TierSum(tiers, lower, q, m))
  {
    hide Resolve, Cost, Take, NextLower, TierSum, SharesArePriced, IsOrdered, Charge, UpTo;
    if q <= lower || tiers == [] {
      NothingCharged(tiers, lower, q, m);
    } else {
      var t := tiers[0];
      ChargeFirst(tiers, lower, q - lower, m);
      SumFirst(tiers, lower, q, m);
      if t.upTo.Some? {
        OrderedFirst(tiers, lower, q);
        ChargeIsSum(tiers[1..], t.upTo.value, q, m);
        if q <= t.upTo.value { NothingCharged(tiers[1..], t.upTo.value, q, m); }
        EndOfCharge(tiers[1..], t.upTo.value, m);
      }
      TakeIsShare(t, lower, q);
      CostOfNothing(Price(t.point, m));
    }
  }

  lemma {:induction false} NothingCharged(tiers: seq<Tier>, lower: real, q: real, m: Market)
    requires IsOrdered(Bounds(tiers), lower, q) && (q <= lower || tiers == [])
    ensures Charge(tiers, lower, q - lower, m) == Success(0.0)
    ensures TierSum(tiers, lower, q, m) == 0.0 && SharesArePriced(tiers, lower, q, m)
  {
    hide IsOrdered, Bounds, Resolve, Take;
    if q <= lower { NothingBelow(tiers, lower, q, m); }
  }

  lemma {:induction false} EndOfCharge(tiers: seq<Tier>, lower: real, m: Market)
    ensures Charge(tiers, lower, 0.0, m) == Success(0.0)
  {
  }

  lemma {:induction false} ChargeNotNegative(tiers: seq<Tier>, lower: real, remaining: real, m: Market)
    ensures Charge(tiers, lower, remaining, m).Success? ==> Charge(tiers, lower, remaining, m).value >= 0.0
  {
    hide Resolve, Cost;
    if tiers != [] && remaining > 0.0 {
      var t, taken := tiers[0], Take(tiers[0], lower, remaining);
      ChargeFirst(tiers, lower, remaining, m);
      ChargeNotNegative(tiers[1..], NextLower(t, lower), remaining, m);
      if taken > 0.0 && Resolve(t.point, m).Success? {
        CostNotNegative(taken, Resolve(t.point, m).value);
        if t.upTo.Some? { ChargeNotNegative(tiers[1..], t.upTo.value, remaining - taken, m); }
      }
    }
  }

  predicate AllPriced(tiers: seq<Tier>, m: Market) {
    forall i | 0 <= i < |tiers| :: Resolve(tiers[i].point, m).Success?
  }

  lemma {:induction false} AllSharesPriced(tiers: seq<Tier>, lower: real, q: real, m: Market)
    requires AllPriced(tiers, m)
    ensures SharesArePriced(tiers, lower, q, m)
  {
    hide Resolve;
    if tiers != [] && tiers[0].upTo.Some? {
      assert forall i | 0 <= i < |tiers| - 1 :: tiers[1..][i] == tiers[i + 1];
      AllSharesPriced(tiers[1..], tiers[0].upTo.value, q, m);
    }
  }

  function PointOf(price: real, m: Market): Point {
    Point(map[m.currency := price], map[])
  }

  lemma PointHasPrice(price: real, m: Market)
    requires IsCurrency(m.currency) && price >= 0.0
    ensures Resolve(PointOf(price, m), m) == Success(price) && Price(PointOf(price, m), m) == price
  {
  }

  /** Tiers with these bounds that cost nothing. */
  function Free(bounds: seq<Option<real>>, m: Market): seq<Tier> {
    if bounds == [] then [] else [Tier(bounds[0], PointOf(0.0, m))] + Free(bounds[1..], m)
  }

  lemma {:induction false} FreeMeans(bounds: seq<Option<real>>, lower: real, q: real, m: Market)
    requires IsCurrency(m.currency)
    ensures Bounds(Free(bounds, m)) == bounds && AllPriced(Free(bounds, m), m)
    ensures TierSum(Free(bounds, m), lower, q, m) == 0.0
  {
    hide Resolve, PointOf;
    if bounds != [] {
      PointHasPrice(0.0, m);
      var rest := Free(bounds[1..], m);
      assert Free(bounds, m)[1..] == rest;
      FreeMeans(bounds[1..], if bounds[0].Some? then bounds[0].value else lower, q, m);
    }
  }

  /** Where a capped bound falls below its predecessor, a price on that tier alone makes the sum
      negative. */
  lemma {:induction false} NegativeSum(bounds: seq<Option<real>>, lower: real, q: real, m: Market) returns (tiers: seq<Tier>)
    requires IsCurrency(m.currency) && !IsOrdered(bounds, lower, q)
    ensures Bounds(tiers) == bounds && AllPriced(tiers, m) && TierSum(tiers, lower, q, m) < 0.0
  {
    hide Resolve, PointOf;
    var u := bounds[0].value;
    PointHasPrice(0.0, m);
    PointHasPrice(1.0, m);
    var rest;
    if Min(q, u) < Min(q, lower) {
      rest := Free(bounds[1..], m);
      FreeMeans(bounds[1..], u, q, m);
      tiers := [Tier(bounds[0], PointOf(1.0, m))] + rest;
    } else {
      rest := NegativeSum(bounds[1..], u, q, m);
      tiers := [Tier(bounds[0], PointOf(0.0, m))] + rest;
    }
    assert tiers[1..] == rest;
  }

  /** For these bounds and this quantity the charge is the sum over the tiers, whatever the
      prices, if and only if the bounds are in order up to the quantity. */
  lemma SumIsExact(bounds: seq<Option<real>>, q: real, m: Market)
    requires IsCurrency(m.currency)
    ensures (forall tiers | Bounds(tiers) == bounds && AllPriced(tiers, m) ::
               Charge(tiers, 0.0, q, m) == Success(TierSum(tiers, 0.0, q, m)))
       <==> IsOrdered(bounds, 0.0, q)
  {
    hide *;
    if IsOrdered(bounds, 0.0, q) {
      forall tiers | Bounds(tiers) == bounds && AllPriced(tiers, m)
        ensures Charge(tiers, 0.0, q, m) == Success(TierSum(tiers, 0.0, q, m))
      {
        ChargeIsSum(tiers, 0.0, q, m);
        AllSharesPriced(tiers, 0.0, q, m);
        assert q - 0.0 == q;
      }
    } else {
      var tiers := NegativeSum(bounds, 0.0, q, m);
      ChargeNotNegative(tiers, 0.0, q, m);
    }
  }

  predicate PricesUpTo(tiers: seq<Tier>, m: Market, top: real) {
    forall i | 0 <= i < |tiers| :: Price(tiers[i].point, m) <= top
  }

  lemma CostBounds(x: real, y: real, price: real, top: real)
    requires x <= y && 0.0 <= price <= top
    ensures Cost(x, price) <= Cost(y, price) <= Cost(x, price) + Cost(y - x, top)
  {
    assert (y - x) * price <= (y - x) * top;
    assert 0.0 <= (y - x) * price;
    assert y * price == x * price + (y - x) * price;
  }

  lemma CostAdds(x: real, y: real, price: real)
    ensures Cost(x + y, price) == Cost(x, price) + Cost(y, price)
  {
  }

  lemma {:induction false} SumBounds(tiers: seq<Tier>, lower: real, q: real, r: real, m: Market, top: real)
    requires IsOrdered(Bounds(tiers), lower, r) && q <= r && PricesUpTo(tiers, m, top) && 0.0 <= top
    ensures TierSum(tiers, lower, q, m) <= TierSum(tiers, lower, r, m)
    ensures TierSum(tiers, lower, r, m)
         <= TierSum(tiers, lower, q, m) + Cost((r - Min(r, lower)) - (q - Min(q, lower)), top)
  {
    hide Resolve, Cost;
    var width := (r - Min(r, lower)) - (q - Min(q, lower));
    if tiers == [] {
      CostBounds(0.0, width, 0.0, top);
      CostOfNothing(0.0);
      CostOfNothing(top);
      CostNotNegative(width, top);
    } else {
      var t := tiers[0];
      var x, y := UpTo(q, t.upTo) - Min(q, lower), UpTo(r, t.upTo) - Min(r, lower);
      assert PricesUpTo(tiers[1..], m, top) by {
        assert forall i | 0 <= i < |tiers| - 1 :: tiers[1..][i] == tiers[i + 1];
      }
      assert x <= y;
      CostBounds(x, y, Price(t.point, m), top);
      if t.upTo.Some? {
        var u := t.upTo.value;
        SumBounds(tiers[1..], u, q, r, m, top);
        CostAdds(y - x, (r - Min(r, u)) - (q - Min(q, u)), top);
      }
    }
  }

  lemma CostNotNegative(x: real, top: real)
    requires 0.0 <= x && 0.0 <= top
    ensures 0.0 <= Cost(x, top)
  {
  }

  lemma {:induction false} FewerUnits(tiers: seq<Tier>, lower: real, q: real, r: real, m: Market)
    requires IsOrdered(Bounds(tiers), lower, r) && q <= r
    ensures IsOrdered(Bounds(tiers), lower, q)
    ensures SharesArePriced(tiers, lower, r, m) ==> SharesArePriced(tiers, lower, q, m)
  {
    hide Resolve;
    if tiers != [] && tiers[0].upTo.Some? {
      FewerUnits(tiers[1..], tiers[0].upTo.value, q, r, m);
    }
  }

  /** A charge that succeeds also succeeds for fewer units; more units never cost less, and each
      further unit costs at most the highest price. */
  lemma MoreCostsMore(tiers: seq<Tier>, q: real, r: real, m: Market, top: real)
    requires IsOrdered(Bounds(tiers), 0.0, r) && 0.0 <= q <= r && PricesUpTo(tiers, m, top) && 0.0 <= top
    requires Charge(tiers, 0.0, r, m).Success?
    ensures Charge(tiers, 0.0, q, m).Success?
    ensures Charge(tiers, 0.0, q, m).value <= Charge(tiers, 0.0, r, m).value
    ensures Charge(tiers, 0.0, r, m).value <= Charge(tiers, 0.0, q, m).value + Cost(r - q, top)
  {
    hide Charge, TierSum, IsOrdered, Bounds, Resolve, Cost, SharesArePriced;
    FewerUnits(tiers, 0.0, q, r, m);
    assert r - 0.0 == r && q - 0.0 == q;
    ChargeIsSum(tiers, 0.0, q, m);
    ChargeIsSum(tiers, 0.0, r, m);
    SumBounds(tiers, 0.0, q, r, m, top);
    assert (r - Min(r, 0.0)) - (q - Min(q, 0.0)) == r - q;
  }

  /** The bound of the last tier, when all have one. */
  function LastBound(tiers: seq<Tier>, lower: real): Option<real> {
    if tiers == [] then Some(lower)
    else if tiers[0].upTo.None? then None
    else LastBound(tiers[1..], tiers[0].upTo.value)
  }

  lemma {:induction false} SumStops(tiers: seq<Tier>, lower: real, q: real, m: Market)
    requires IsOrdered(Bounds(tiers), lower, q) && LastBound(tiers, lower).Some? && LastBound(tiers, lower).value < q
    ensures lower <= LastBound(tiers, lower).value
    ensures TierSum(tiers, lower, q, m) == TierSum(tiers, lower, LastBound(tiers, lower).value, m)
    ensures SharesArePriced(tiers, lower, q, m) <==> SharesArePriced(tiers, lower, LastBound(tiers, lower).value, m)
  {
    hide Resolve, Cost;
    if tiers != [] {
      SumStops(tiers[1..], tiers[0].upTo.value, q, m);
    }
  }

  /** Beyond the last bound the charge, or its failure, is the one at that bound. */
  lemma {:induction false} ChargeStops(tiers: seq<Tier>, lower: real, q: real, r: real, m: Market)
    requires IsOrdered(Bounds(tiers), lower, q) && LastBound(tiers, lower).Some? && LastBound(tiers, lower).value == r < q
    ensures lower <= r
    ensures Charge(tiers, lower, q - lower, m) == Charge(tiers, lower, r - lower, m)
  {
    hide Resolve, Cost, TierSum, SharesArePriced;
    SumStops(tiers, lower, q, m);
    if tiers != [] {
      var t, u := tiers[0], tiers[0].upTo.value;
      SumStops(tiers[1..], u, q, m);
      ChargeStops(tiers[1..], u, q, r, m);
      ChargeFirst(tiers, lower, q - lower, m);
      if r > lower {
        ChargeFirst(tiers, lower, r - lower, m);
      }
    }
  }

  /** Units beyond the last bound are free. */
  lemma BeyondLastBound(tiers: seq<Tier>, q: real, m: Market)
    requires IsOrdered(Bounds(tiers), 0.0, q) && LastBound(tiers, 0.0).Some? && LastBound(tiers, 0.0).value <= q
    ensures Charge(tiers, 0.0, q, m) == Charge(tiers, 0.0, LastBound(tiers, 0.0).value, m)
  {
    hide Charge, IsOrdered, Bounds, LastBound;
    var r := LastBound(tiers, 0.0).value;
    if r < q {
      ChargeStops(tiers, 0.0, q, r, m);
      assert q - 0.0 == q && r - 0.0 == r;
    }
  }

  /** Nothing after a tier without a bound is looked at, whatever the order of the bounds. */
  lemma {:induction false} UnboundedTierEnds(front: seq<Tier>, last: Tier, back: seq<Tier>, lower: real, remaining: real, m: Market)
    requires last.upTo.None?
    ensures Charge(front + [last] + back, lower, remaining, m) == Charge(front + [last], lower, remaining, m)
    decreases |front|
  {
    hide Resolve, Cost;
    if front == [] {
      assert front + [last] + back == [last] + back && front + [last] == [last];
      if remaining > 0.0 {
        ChargeFirst([last] + back, lower, remaining, m);
        ChargeFirst([last], lower, remaining, m);
      }
    } else {
      var t, rest := front[0], front[1..];
      assert (front + [last] + back)[1..] == rest + [last] + back && (front + [last])[1..] == rest + [last];
      if remaining > 0.0 {
        var taken := Take(t, lower, remaining);
        ChargeFirst(front + [last] + back, lower, remaining, m);
        ChargeFirst(front + [last], lower, remaining, m);
        UnboundedTierEnds(rest, last, back, NextLower(t, lower), remaining, m);
        if t.upTo.Some? { UnboundedTierEnds(rest, last, back, t.upTo.value, remaining - taken, m); }
      }
    }
  }

  /** Out of order the sum over the tiers is not what is charged: a bound below its predecessor
      moves the lower end back. */
  lemma UnorderedDiffers(m: Market, one: Point, two: Point, three: Point)
    requires Resolve(one, m) == Success(1.0) && Resolve(two, m) == Success(2.0) && Resolve(three, m) == Success(3.0)
    ensures var tiers := [Tier(Some(10.0), one), Tier(Some(5.0), two), Tier(Some(12.0), three)];
            Charge(tiers, 0.0, 20.0, m) == Success(31.0) && TierSum(tiers, 0.0, 20.0, m) == 21.0
  {
    hide Resolve;
    var tiers := [Tier(Some(10.0), one), Tier(Some(5.0), two), Tier(Some(12.0), three)];
    var rest := [Tier(Some(5.0), two), Tier(Some(12.0), three)];
    var last := [Tier(Some(12.0), three)];
    assert tiers[1..] == rest && rest[1..] == last && last[1..] == [];
    assert Charge(last, 5.0, 10.0, m) == Success(21.0);
    assert Charge(rest, 10.0, 10.0, m) == Success(21.0);
    assert TierSum(last, 5.0, 20.0, m) == 21.0;
    assert TierSum(rest, 10.0, 20.0, m) == 11.0;
  }

  // ---------- volume bands ----------

  predicate Covers(band: Tier, qty: real) {
    band.upTo.None? || qty <= band.upTo.value
  }

  /** The first band that reaches up to the quantity gives the price of all its units. */
  method CalcVolumeBands(qty: real, bands: seq<Tier>, m: Market) returns (r: Result<real, PricingError>)
    ensures r == VolumeCharge(qty, bands, m)
  {
    for i := 0 to |bands|
      invariant VolumeCharge(qty, bands, m) == VolumeCharge(qty, bands[i..], m)
    {
      assert bands[i..][1..] == bands[i + 1..];
      if bands[i].upTo.None? || qty <= bands[i].upTo.value {
        var price := Resolve(bands[i].point, m);
        if price.Failure? {
          return price;
        }
        return Success(Cost(qty, price.value));
      }
    }
    return Failure(NoBand);
  }

  function VolumeCharge(qty: real, bands: seq<Tier>, m: Market): Result<real, PricingError> {
    if bands == [] then Failure(NoBand)
    else if Covers(bands[0], qty) then
      match Resolve(bands[0].point, m)
      case Failure(e) => Failure(e)
      case Success(price) => Success(Cost(qty, price))
    else VolumeCharge(qty, bands[1..], m)
  }

  function FirstCovering(qty: real, bands: seq<Tier>): (k: nat)
    ensures k <= |bands| && (k < |bands| ==> Covers(bands[k], qty))
    ensures forall i | 0 <= i < k :: !Covers(bands[i], qty)
  {
    if bands == [] || Covers(bands[0], qty) then 0
    else
      var k := 1 + FirstCovering(qty, bands[1..]);
      assert forall i | 0 < i < k :: bands[i] == bands[1..][i - 1];
      k
  }

  /** All units are charged at the price of the one band that covers the quantity while no
      earlier one does; without such a band there is no price. */
  lemma {:induction false} VolumeMeans(qty: real, bands: seq<Tier>, m: Market)
    ensures var k := FirstCovering(qty, bands);
            if k == |bands| then VolumeCharge(qty, bands, m) == Failure(NoBand)
            else if Resolve(bands[k].point, m).Failure? then VolumeCharge(qty, bands, m) == Resolve(bands[k].point, m)
            else VolumeCharge(qty, bands, m) == Success(Cost(qty, Price(bands[k].point, m)))
  {
    hide Resolve, Cost, Covers;
    if bands != [] && !Covers(bands[0], qty) {
      VolumeMeans(qty, bands[1..], m);
    }
  }
}

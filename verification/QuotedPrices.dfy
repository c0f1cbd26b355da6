/** What a quote charges, by the kind of its price blocks. */
module QuotedPrices {
  import opened Quote
  import opened Sequences
  import opened TierPricing
  import opened Wrappers

  // ---------- unit prices ----------

  /** The price of a point in a market: with regional prices the one of the market's region,
      whatever the other prices are, and otherwise the one of its currency in any region. */
  lemma RegionalPriceFirst(p: Point, m: Market, others: map<string, real>, region: string)
    ensures p.regional != map[] ==> Resolve(p, m) == Resolve(p.(prices := others), m)
    ensures p.regional == map[] ==> Resolve(p, m) == Resolve(p, m.(region := region))
    ensures p.regional != map[] && Resolve(p, m).Success? ==>
              m.region != "" && m.region in p.regional && m.currency in p.regional[m.region]
              && Resolve(p, m).value == p.regional[m.region][m.currency]
    ensures Resolve(p, m).Success? ==> |m.currency| == 3 && forall c | c in m.currency :: 'A' <= c <= 'Z'
    ensures p.regional == map[] && Resolve(p, m).Success? ==>
              m.currency in p.prices && Resolve(p, m).value == p.prices[m.currency]
    ensures p.regional != map[] && IsCurrency(m.currency) && m.region != "" && m.region in p.regional
            && m.currency in p.regional[m.region] ==>
              (Resolve(p, m).Success? <==> p.regional[m.region][m.currency] >= 0.0)
    ensures p.regional == map[] && IsCurrency(m.currency) && m.currency in p.prices ==>
              (Resolve(p, m).Success? <==> p.prices[m.currency] >= 0.0)
  {
  }

  /** Bounds in order: none below zero or below an earlier one. */
  predicate AreAscending(tiers: seq<Tier>) {
    && (forall i | 0 <= i < |tiers| && tiers[i].upTo.Some? :: tiers[i].upTo.value >= 0.0)
    && forall i, j | 0 <= i < j < |tiers| && tiers[i].upTo.Some? && tiers[j].upTo.Some? ::
         tiers[i].upTo.value <= tiers[j].upTo.value
  }

  lemma {:induction false} AscendingIsOrdered(tiers: seq<Tier>, lower: real, q: real)
    requires AreAscending(tiers)
    requires forall i | 0 <= i < |tiers| && tiers[i].upTo.Some? :: lower <= tiers[i].upTo.value
    ensures IsOrdered(Bounds(tiers), lower, q)
  {
    if tiers != [] && tiers[0].upTo.Some? {
      var rest := tiers[1..];
      assert forall i | 0 <= i < |rest| :: rest[i] == tiers[i + 1];
      AscendingIsOrdered(rest, tiers[0].upTo.value, q);
    }
  }

  /** Tier k is the one in which the units between q and r lie. */
  predicate LiesIn(tiers: seq<Tier>, k: nat, q: real, r: real)
    requires k < |tiers|
  {
    && q <= r
    && (tiers[k].upTo.Some? ==> r <= tiers[k].upTo.value)
    && forall i | 0 <= i < k :: tiers[i].upTo.Some? && tiers[i].upTo.value <= q
  }

  lemma {:induction false} SumGrows(tiers: seq<Tier>, lower: real, k: nat, q: real, r: real, m: Market)
    requires k < |tiers| && LiesIn(tiers, k, q, r) && lower <= q && IsOrdered(Bounds(tiers), lower, r)
    ensures TierSum(tiers, lower, r, m) - TierSum(tiers, lower, q, m) == (r - q) * Price(tiers[k].point, m)
  {
    hide Price, Bounds, IsOrdered, TierSum;
    SumFirst(tiers, lower, q, m);
    SumFirst(tiers, lower, r, m);
    FewerUnits(tiers, lower, q, r, m);
    var t, rest, price := tiers[0], tiers[1..], Price(tiers[0].point, m);
    if t.upTo.Some? {
      OrderedFirst(tiers, lower, r);
      OrderedFirst(tiers, lower, q);
    }
    if k > 0 {
      assert forall i | 0 <= i < k - 1 :: rest[i] == tiers[i + 1];
      SumGrows(rest, t.upTo.value, k - 1, q, r, m);
    } else {
      if t.upTo.Some? {
        NothingCharged(rest, t.upTo.value, q, m);
        NothingCharged(rest, t.upTo.value, r, m);
      }
      assert (r - lower) * price - (q - lower) * price == (r - q) * price;
    }
  }

  /** With ascending bounds every unit costs the price of the tier it lies in, and no unit costs
      nothing. */
  lemma UnitPrice(tiers: seq<Tier>, k: nat, q: real, r: real, m: Market)
    requires k < |tiers| && LiesIn(tiers, k, q, r) && 0.0 <= q && AreAscending(tiers) && AllPriced(tiers, m)
    ensures Charge(tiers, 0.0, 0.0, m) == Success(0.0)
    ensures Resolve(tiers[k].point, m).Success? && Charge(tiers, 0.0, q, m).Success? && Charge(tiers, 0.0, r, m).Success?
    ensures Charge(tiers, 0.0, r, m).value - Charge(tiers, 0.0, q, m).value == (r - q) * Resolve(tiers[k].point, m).value
  {
    hide Charge, TierSum, IsOrdered, Bounds, SharesArePriced, AreAscending, Resolve;
    assert forall i | 0 <= i < |tiers| && tiers[i].upTo.Some? :: 0.0 <= tiers[i].upTo.value by { BoundsNotNegative(tiers); }
    AscendingIsOrdered(tiers, 0.0, q);
    AscendingIsOrdered(tiers, 0.0, r);
    EndOfCharge(tiers, 0.0, m);
    AllSharesPriced(tiers, 0.0, q, m);
    AllSharesPriced(tiers, 0.0, r, m);
    assert q - 0.0 == q && r - 0.0 == r;
    ChargeIsSum(tiers, 0.0, q, m);
    ChargeIsSum(tiers, 0.0, r, m);
    SumGrows(tiers, 0.0, k, q, r, m);
  }

  lemma BoundsNotNegative(tiers: seq<Tier>)
    requires AreAscending(tiers)
    ensures forall i | 0 <= i < |tiers| && tiers[i].upTo.Some? :: 0.0 <= tiers[i].upTo.value
  {
  }

  // ---------- blocks ----------

  /** The band reaches up to the quantity and no earlier one does. */
  predicate Reaches(bands: seq<Tier>, k: nat, q: real) {
    && k < |bands| && (bands[k].upTo.Some? ==> q <= bands[k].upTo.value)
    && forall i | 0 <= i < k :: bands[i].upTo.Some? && bands[i].upTo.value < q
  }

  /** What the block charges for a number of units: each the unit price, each the price of its
      tier, or all the price of the first band that reaches so far. */
  ghost predicate Costs(b: Block, q: real, amount: real, m: Market) {
    && (b.kind == "per_unit" ==> Resolve(b.point, m).Success? && amount == q * Resolve(b.point, m).value)
    && (b.kind == "tiered_per_unit" && IsOrdered(Bounds(b.tiers), 0.0, q) ==>
          SharesArePriced(b.tiers, 0.0, q, m) && amount == TierSum(b.tiers, 0.0, q, m))
    && (b.kind == "volume_per_unit" ==>
          exists k: nat :: Reaches(b.tiers, k, q) && Resolve(b.tiers[k].point, m).Success?
                           && amount == q * Resolve(b.tiers[k].point, m).value)
  }

  /** Whether the block has a price for a number of units. */
  ghost predicate HasPrice(b: Block, q: real, m: Market) {
    && (b.kind == "per_unit" ==> Resolve(b.point, m).Success?)
    && (b.kind == "tiered_per_unit" ==> SharesArePriced(b.tiers, 0.0, q, m))
    && (b.kind == "volume_per_unit" ==> exists k: nat :: Reaches(b.tiers, k, q) && Resolve(b.tiers[k].point, m).Success?)
  }

  predicate CountsUnits(b: Block) {
    b.kind in {"per_unit", "tiered_per_unit", "volume_per_unit"}
  }

  lemma ReachesFirst(bands: seq<Tier>, j: nat, q: real)
    requires Reaches(bands, j, q)
    ensures FirstCovering(q, bands) == j
  {
    assert Covers(bands[j], q) && forall i | 0 <= i < j :: !Covers(bands[i], q);
  }

  lemma FirstReaches(bands: seq<Tier>, q: real)
    requires FirstCovering(q, bands) < |bands|
    ensures Reaches(bands, FirstCovering(q, bands), q)
  {
  }

  lemma VolumeCosts(b: Block, q: real, ctx: Context)
    requires b.kind == "volume_per_unit"
    ensures var r := Usage(b, b.kind, q, ctx);
            && (r.Success? ==> Costs(b, q, r.value, ctx.market))
            && (r.Success? <==> HasPrice(b, q, ctx.market))
  {
    hide Resolve, Charge, TierSum, SharesArePriced, IsOrdered, Bounds, VolumeCharge, Covers;
    VolumeMeans(q, b.tiers, ctx.market);
    var k := FirstCovering(q, b.tiers);
    if k < |b.tiers| {
      FirstReaches(b.tiers, q);
    }
    forall j: nat | Reaches(b.tiers, j, q) ensures j == k {
      ReachesFirst(b.tiers, j, q);
    }
  }

  lemma TieredCosts(b: Block, q: real, ctx: Context)
    requires b.kind == "tiered_per_unit"
    ensures var r := Usage(b, b.kind, q, ctx);
            && (r.Success? ==> Costs(b, q, r.value, ctx.market))
            && (IsOrdered(Bounds(b.tiers), 0.0, q) ==> (r.Success? <==> HasPrice(b, q, ctx.market)))
  {
    hide Resolve, Charge, TierSum, SharesArePriced, IsOrdered, Bounds;
    if IsOrdered(Bounds(b.tiers), 0.0, q) {
      ChargeIsSum(b.tiers, 0.0, q, ctx.market);
      assert q - 0.0 == q;
    }
  }

  /** Tiers, if the block has them, are in order up to the quantity. */
  predicate IsMeasured(b: Block, q: real) {
    b.kind == "tiered_per_unit" ==> IsOrdered(Bounds(b.tiers), 0.0, q)
  }

  lemma UnitsCost(b: Block, q: real, ctx: Context)
    requires CountsUnits(b)
    ensures var r := Usage(b, b.kind, q, ctx);
            && (r.Success? ==> Costs(b, q, r.value, ctx.market))
            && (IsMeasured(b, q) ==> (r.Success? <==> HasPrice(b, q, ctx.market)))
  {
    hide Charge, TierSum, SharesArePriced, IsOrdered, Bounds, Resolve;
    if b.kind == "volume_per_unit" {
      VolumeCosts(b, q, ctx);
    } else if b.kind == "tiered_per_unit" {
      TieredCosts(b, q, ctx);
    }
  }

  /** The input that a block counts its units in. */
  predicate Counts(inputId: string, unit: string, id: string) {
    if inputId != "" then id == inputId else if unit != "" then id == unit else id == "users"
  }

  /** An input as a number: a missing one is zero, a flag one or zero; a negative number or a
      text that is no number is none. */
  lemma UnitsMean(inputId: string, unit: string, id: string, inputs: Inputs, ctx: Context)
    requires Counts(inputId, unit, id)
    ensures var r := Units(inputId, unit, inputs, ctx);
            && (id !in inputs ==> r == Success(0.0))
            && (forall x: real :: id in inputs && inputs[id] == Number(x) ==> r == if x < 0.0 then Failure(Negative) else Success(x))
            && (forall on: bool :: id in inputs && inputs[id] == Flag(on) ==> r == Success(if on then 1.0 else 0.0))
            && (forall s: string :: id in inputs && inputs[id] == Input.Text(s) ==>
                  r == if ctx.parse(s).None? then Failure(NotNumeric)
                       else if ctx.parse(s).value < 0.0 then Failure(Negative) else Success(ctx.parse(s).value))
  {
  }

  function IntervalOf(b: Block): string {
    if b.interval == "" then "month" else b.interval
  }

  /** A block without a kind has a fixed price; "fixed" and "addon" cost their price. */
  lemma FixedCosts(b: Block, inputId: string, inputs: Inputs, ctx: Context)
    requires b.kind in {"", "fixed", "addon"} && IsInterval(b.interval)
    ensures var r, price := Evaluate(b, inputId, inputs, ctx), Resolve(b.point, ctx.market);
            if price.Failure? then r == Failure(price.error)
            else r == Success(Evaluation(false, IntervalOf(b), price.value, price.value, 0.0))
  {
    hide Resolve;
  }

  lemma CustomCosts(b: Block, inputId: string, inputs: Inputs, ctx: Context)
    requires b.kind == "custom" && IsInterval(b.interval)
    ensures Evaluate(b, inputId, inputs, ctx) == Success(Evaluation(true, IntervalOf(b), 0.0, 0.0, 0.0))
  {
  }

  /** A block that counts units costs what they cost, all of it usage. */
  lemma UnitBlockCosts(b: Block, inputId: string, inputs: Inputs, ctx: Context, q: real)
    requires CountsUnits(b) && IsInterval(b.interval) && Units(inputId, b.unit, inputs, ctx) == Success(q)
    ensures var r := Evaluate(b, inputId, inputs, ctx);
            && (r.Success? ==> Costs(b, q, r.value.amount, ctx.market)
                               && r.value == Evaluation(false, IntervalOf(b), r.value.amount, 0.0, r.value.amount))
            && (IsMeasured(b, q) ==> (r.Success? <==> HasPrice(b, q, ctx.market)))
  {
    hide Costs, HasPrice, IsMeasured, Units, Usage;
    UnitsCost(b, q, ctx);
  }

  /** The unit of a bundle: the one its overage names, else the input its overage names, else
      the first included one, else the users. */
  predicate CountsOver(b: Block, id: string) {
    var named := b.overage.Some? && b.overage.value.unit != "";
    var read := b.overage.Some? && b.overage.value.inputId != "";
    && (named ==> id == b.overage.value.unit)
    && (!named && read ==> id == b.overage.value.inputId)
    && (!named && !read && b.included != [] ==> id == b.included[0].name)
    && (!named && !read && b.included == [] ==> id == "users")
  }

  /** The first entry of the unit says how many are included; without one none are. */
  predicate Includes(units: seq<Unit>, name: string, x: real) {
    (x == 0.0 && forall i | 0 <= i < |units| :: units[i].name != name)
    || exists i | 0 <= i < |units| :: units[i] == Unit(name, x) && forall j | 0 <= j < i :: units[j].name != name
  }

  lemma {:induction false} IncludedMeans(units: seq<Unit>, name: string, x: real)
    requires Includes(units, name, x)
    ensures Included(units, name) == x
  {
    if units != [] && units[0].name != name {
      var rest := units[1..];
      assert forall i | 0 <= i < |rest| :: rest[i] == units[i + 1];
      if !(forall i | 0 <= i < |units| :: units[i].name != name) {
        var i :| 0 <= i < |units| && units[i] == Unit(name, x) && forall j | 0 <= j < i :: units[j].name != name;
        assert rest[i - 1] == Unit(name, x);
      }
      IncludedMeans(rest, name, x);
    }
  }

  /** A bundle charges its base and, for the units beyond the included ones, what the overage
      block charges for so many units. It has a price exactly if its parts have. */
  lemma BundleCharges(b: Block, inputs: Inputs, ctx: Context, id: string, included: real)
    requires b.kind == "bundle" && IsInterval(b.interval)
    requires b.overage.Some? && IsInterval(b.overage.value.interval) && CountsUnits(b.overage.value)
    requires CountsOver(b, id) && Includes(b.included, id, included)
    ensures var r, base, o := Evaluate(b, b.inputId, inputs, ctx), Resolve(b.base, ctx.market), b.overage.value;
            var quantity := ToNumber(InputOr(inputs, id, Number(0.0)), ctx);
            if base.Failure? || quantity.Failure? || included < 0.0 then r.Failure?
            else
              var over := quantity.value - included;
              && (r.Success? ==> r.value.base == base.value && r.value.amount == base.value + r.value.usage && !r.value.custom)
              && (over <= 0.0 ==> r.Success? && r.value.usage == 0.0)
              && (over > 0.0 && r.Success? ==> Costs(o, over, r.value.usage, ctx.market))
              && (over > 0.0 && IsMeasured(o, over) ==> (r.Success? <==> HasPrice(o, over, ctx.market)))
  {
    hide Costs, HasPrice, IsMeasured, Usage, Included, ToNumber, Resolve, Includes;
    IncludedMeans(b.included, id, included);
    assert OverageUnit(b) == id;
    var quantity := ToNumber(InputOr(inputs, id, Number(0.0)), ctx);
    if quantity.Success? && quantity.value > included {
      OverageIsUsage(b.overage.value, quantity.value - included, inputs, ctx);
      UnitsCost(b.overage.value, quantity.value - included, ctx);
    }
  }

  /** With a fixed price for all units beyond the included ones a bundle adds that price once;
      an overage that is priced on request makes such a bundle fail. */
  lemma BundleWithFixedOverage(b: Block, inputs: Inputs, ctx: Context, id: string, included: real, base: real, q: real)
    requires b.kind == "bundle" && IsInterval(b.interval) && CountsOver(b, id) && Includes(b.included, id, included)
    requires b.overage.Some? && IsInterval(b.overage.value.interval) && b.overage.value.kind in {"", "fixed", "addon", "custom"}
    requires Resolve(b.base, ctx.market) == Success(base) && included >= 0.0
    requires ToNumber(InputOr(inputs, id, Number(0.0)), ctx) == Success(q)
    ensures var r, o := Evaluate(b, b.inputId, inputs, ctx), b.overage.value;
            var price := Resolve(o.point, ctx.market);
            if q <= included then r == Success(Evaluation(false, IntervalOf(b), base, base, 0.0))
            else if o.kind == "custom" then r == Failure(CustomOverage)
            else if price.Failure? then r == Failure(price.error)
            else r == Success(Evaluation(false, IntervalOf(b), base + price.value, base, price.value))
  {
    hide Included, ToNumber, Resolve, Includes, CountsOver;
    IncludedMeans(b.included, id, included);
    assert OverageUnit(b) == id by { OverageUnitIs(b, id); }
    if q > included {
      var more := inputs[OVERAGE_UNITS := Number(q - included)];
      if b.overage.value.kind == "custom" {
        CustomCosts(b.overage.value, OVERAGE_UNITS, more, ctx);
      } else {
        FixedCosts(b.overage.value, OVERAGE_UNITS, more, ctx);
      }
    }
  }

  lemma OverageUnitIs(b: Block, id: string)
    requires CountsOver(b, id)
    ensures OverageUnit(b) == id
  {
  }

  // ---------- addons ----------

  /** An addon that is not wanted costs nothing. A fixed one costs its price for each one wanted,
      and one that counts units costs what so many units cost. */
  lemma AddonCosts(a: Addon, inputs: Inputs, ctx: Context, id: string, n: real)
    requires id == (if a.inputId != "" then a.inputId else a.id)
    requires ToNumber(if id in inputs then inputs[id] else a.fallback, ctx) == Success(n) && IsInterval(a.block.interval)
    ensures var r, price := AddonAmount(a, inputs, ctx), Resolve(a.block.point, ctx.market);
            && (n <= 0.0 ==> r == Success(0.0))
            && (n > 0.0 && a.block.kind == "fixed" ==>
                  r == if price.Failure? then price else Success(price.value * n))
            && (n > 0.0 && a.block.kind == "addon" ==> r == price)
            && (n > 0.0 && CountsUnits(a.block) && r.Success? ==> Costs(a.block, n, r.value, ctx.market))
            && (n > 0.0 && CountsUnits(a.block) && IsMeasured(a.block, n) ==> (r.Success? <==> HasPrice(a.block, n, ctx.market)))
  {
    hide Resolve, Costs, HasPrice, IsMeasured, ToNumber, Units, Usage;
    if n > 0.0 {
      var more := inputs[ADDON_QTY := Number(n)];
      if a.block.kind == "addon" {
        FixedCosts(a.block, ADDON_QTY, more, ctx);
      } else if CountsUnits(a.block) {
        assert Units(ADDON_QTY, a.block.unit, more, ctx) == Success(n) by {
          UnitsMean(ADDON_QTY, a.block.unit, ADDON_QTY, more, ctx);
        }
        UnitBlockCosts(a.block, ADDON_QTY, more, ctx, n);
      }
    }
  }

  /** A factor multiplies by the number listed for its option, if that is not negative; one
      without an input does nothing. */
  lemma FactorMeans(f: Factor, inputs: Inputs, ctx: Context, option: string)
    requires option == ctx.show(if f.inputId in inputs then inputs[f.inputId] else f.fallback)
    ensures f.inputId == "" ==> Multiplier(f, inputs, ctx) == Success(1.0)
    ensures f.inputId != "" ==>
              (Multiplier(f, inputs, ctx).Success? <==> option in f.values && f.values[option] >= 0.0)
              && (Multiplier(f, inputs, ctx).Success? ==> Multiplier(f, inputs, ctx).value == f.values[option])
  {
  }

  // ---------- totals ----------

  /** The results of the items, each with a number. */
  ghost predicate AreNumbers<T(!new)>(items: seq<T>, f: T -> Result<real, PricingError>, xs: seq<real>) {
    |xs| == |items| && forall i | 0 <= i < |items| :: f(items[i]) == Success(xs[i])
  }

  /** Running sums or products over the numbers, from the last one to the first. */
  ghost predicate AreRunning(op: Op, xs: seq<real>, totals: seq<real>) {
    && |totals| == |xs| + 1
    && totals[|xs|] == (if op == Sum then 0.0 else 1.0)
    && forall i | 0 <= i < |xs| :: IsOf(op, totals[i], xs[i], totals[i + 1])
  }

  predicate IsOf(op: Op, total: real, x: real, rest: real) {
    total == if op == Sum then x + rest else x * rest
  }

  lemma CombineIs(op: Op, x: real, rest: real)
    ensures IsOf(op, Combine(op, x, rest), x, rest)
  {
  }

  /** Folding succeeds exactly if every item has a number, and gives their sum or product. */
  lemma {:induction false} FoldMeans<T(!new)>(op: Op, items: seq<T>, f: T -> Result<real, PricingError>)
      returns (xs: seq<real>, totals: seq<real>)
    ensures Fold(op, items, f).Success? <==> forall i | 0 <= i < |items| :: f(items[i]).Success?
    ensures Fold(op, items, f).Success? ==>
              AreNumbers(items, f, xs) && AreRunning(op, xs, totals) && Fold(op, items, f) == Success(totals[0])
  {
    hide Combine, Start, AreRunning;
    xs, totals := [], [Start(op)];
    RunningNone(op);
    if items != [] {
      var rest := items[1..];
      assert forall i | 0 <= i < |rest| :: rest[i] == items[i + 1];
      var ys, sums := FoldMeans(op, rest, f);
      if Fold(op, items, f).Success? {
        var x := f(items[0]).value;
        RunningMore(op, x, ys, sums);
        xs, totals := [x] + ys, [Combine(op, x, sums[0])] + sums;
      }
    }
  }

  lemma RunningNone(op: Op)
    ensures AreRunning(op, [], [Start(op)])
  {
  }

  lemma RunningMore(op: Op, x: real, xs: seq<real>, totals: seq<real>)
    requires AreRunning(op, xs, totals)
    ensures totals != [] && AreRunning(op, [x] + xs, [Combine(op, x, totals[0])] + totals)
  {
    hide IsOf, Combine;
    CombineIs(op, x, totals[0]);
    var more, all := [Combine(op, x, totals[0])] + totals, [x] + xs;
    assert forall i | 0 < i <= |xs| :: all[i] == xs[i - 1] && more[i] == totals[i - 1] && more[i + 1] == totals[i];
  }

  // ---------- rounding ----------

  /** The rounded number is the multiple of a ten-thousandth nearest to the exact one, with an
      even last digit where two are as near. */
  lemma Round4Means(x: real) returns (n: int)
    ensures Round4(x) == n as real / 10000.0
    ensures forall k: int :: AbsDistance(x, n) <= AbsDistance(x, k)
    ensures forall k: int :: k != n && AbsDistance(x, n) == AbsDistance(x, k) ==> n % 2 == 0
  {
    var scaled := x * 10000.0;
    var floor := scaled.Floor;
    var rest := scaled - floor as real;
    n := if rest > 0.5 || (rest == 0.5 && floor % 2 == 1) then floor + 1 else floor;
    forall k: int ensures AbsDistance(x, n) <= AbsDistance(x, k) && (k != n && AbsDistance(x, n) == AbsDistance(x, k) ==> n % 2 == 0) {
      Nearest(scaled, floor, n, k);
    }
  }

  lemma Nearest(scaled: real, floor: int, n: int, k: int)
    requires floor as real <= scaled < floor as real + 1.0
    requires var rest := scaled - floor as real;
             n == if rest > 0.5 || (rest == 0.5 && floor % 2 == 1) then floor + 1 else floor
    ensures Abs(scaled - n as real) <= Abs(scaled - k as real)
    ensures k != n && Abs(scaled - n as real) == Abs(scaled - k as real) ==> n % 2 == 0
  {
    assert k < n ==> k as real <= n as real - 1.0;
    assert k > n ==> k as real >= n as real + 1.0;
  }

  function Abs(x: real): real {
    if x < 0.0 then -x else x
  }

  /** How far the number is from so many ten-thousandths, in ten-thousandths. */
  function AbsDistance(x: real, n: int): real {
    Abs(x * 10000.0 - n as real)
  }

  // ---------- the quote ----------

  /** The quote that is returned shows under base and usage what the plan's main block costs:
      its price under base, or what its units cost under usage. */
  lemma QuoteShows(plan: Plan, inputs: Inputs, ctx: Context, includeSetup: bool, q: Quote, n: real)
    requires RoundedResult(Exact(plan, inputs, ctx, includeSetup)) == Success(q) && IsInterval(plan.pricing.interval)
    ensures var b := plan.pricing;
            && (b.kind == "custom" <==> q.ContactSales?)
            && (b.kind in {"", "fixed", "addon"} ==>
                  Resolve(b.point, ctx.market).Success?
                  && q.breakdown.base == Round4(Resolve(b.point, ctx.market).value) && q.breakdown.usage == 0.0)
            && (CountsUnits(b) && Units(b.inputId, b.unit, inputs, ctx) == Success(n) ==>
                  exists amount :: Costs(b, n, amount, ctx.market) && q.breakdown.base == 0.0 && q.breakdown.usage == Round4(amount))
  {
    hide Resolve, Costs, HasPrice, IsMeasured, Units, Usage, Round4, Fold, ResolveOr;
    var b := plan.pricing;
    assert Round4(0.0) == 0.0 by { RoundedZero(); }
    if b.kind in {"", "fixed", "addon"} {
      FixedCosts(b, b.inputId, inputs, ctx);
    } else if CountsUnits(b) && Units(b.inputId, b.unit, inputs, ctx) == Success(n) {
      UnitBlockCosts(b, b.inputId, inputs, ctx, n);
      var amount := Evaluate(b, b.inputId, inputs, ctx).value.amount;
      assert Costs(b, n, amount, ctx.market);
    }
  }

  /** And of a plan with a bundle it shows the base, and the overage under usage. */
  lemma QuoteShowsBundle(plan: Plan, inputs: Inputs, ctx: Context, includeSetup: bool, q: Quote, id: string, included: real)
    requires RoundedResult(Exact(plan, inputs, ctx, includeSetup)) == Success(q)
    requires var b := plan.pricing;
             && b.kind == "bundle" && IsInterval(b.interval) && CountsOver(b, id) && Includes(b.included, id, included)
             && b.overage.Some? && IsInterval(b.overage.value.interval) && CountsUnits(b.overage.value)
    ensures var b, quantity := plan.pricing, ToNumber(InputOr(inputs, id, Number(0.0)), ctx);
            && q.Priced? && Resolve(b.base, ctx.market).Success? && quantity.Success?
            && q.breakdown.base == Round4(Resolve(b.base, ctx.market).value)
            && (quantity.value <= included ==> q.breakdown.usage == 0.0)
            && (quantity.value > included ==>
                  exists amount :: Costs(b.overage.value, quantity.value - included, amount, ctx.market)
                                   && q.breakdown.usage == Round4(amount))
  {
    hide Resolve, Costs, HasPrice, IsMeasured, Units, Usage, Round4, Fold, ResolveOr, Evaluate, Includes, CountsOver, ToNumber;
    assert Round4(0.0) == 0.0 by { RoundedZero(); }
    BundleCharges(plan.pricing, inputs, ctx, id, included);
  }

  lemma RoundedZero()
    ensures Round4(0.0) == 0.0
  {
  }
}

/** Quoting a plan: the price of its main block, addons, factors, minimum commitment and setup
    fee, itemised. */
module Quote {
  import opened Sequences
  import opened TierPricing
  import opened Wrappers

  datatype Input = Number(x: real) | Flag(on: bool) | Text(s: string)

  /** How a text is read as a number and an input is shown as an option is left open. */
  datatype Context = Context(market: Market, parse: string -> Option<real>, show: Input -> string)

  type Inputs = map<string, Input>

  datatype Unit = Unit(name: string, included: real)

  datatype Block = Block(kind: string, interval: string, inputId: string, unit: string, point: Point, tiers: seq<Tier>,
                         base: Point, included: seq<Unit>, overage: Option<Block>)

  datatype Evaluation = Evaluation(custom: bool, interval: string, amount: real, base: real, usage: real)

  const OVERAGE_UNITS := "__overage_units__"
  const ADDON_QTY := "__addon_qty__"

  function ToNumber(i: Input, ctx: Context): Result<real, PricingError> {
    match i
    case Number(x) => NotNegative(x)
    case Flag(on) => Success(if on then 1.0 else 0.0)
    case Text(s) =>
      var parse := ctx.parse;
      match parse(s)
      case None => Failure(NotNumeric)
      case Some(x) => NotNegative(x)
  }

  function InputOr(inputs: Inputs, id: string, otherwise: Input): Input {
    if id in inputs then inputs[id] else otherwise
  }

  function Units(inputId: string, unit: string, inputs: Inputs, ctx: Context): Result<real, PricingError> {
    var id := if inputId != "" then inputId else if unit != "" then unit else "users";
    ToNumber(InputOr(inputs, id, Number(0.0)), ctx)
  }

  function Included(units: seq<Unit>, name: string): real {
    if units == [] then 0.0 else if units[0].name == name then units[0].included else Included(units[1..], name)
  }

  /** The unit that a bundle counts: the overage's own, or the first one that is included. */
  function OverageUnit(b: Block): string {
    if b.overage.Some? && b.overage.value.unit != "" then b.overage.value.unit
    else if b.overage.Some? && b.overage.value.inputId != "" then b.overage.value.inputId
    else if b.included != [] then b.included[0].name
    else "users"
  }

  function Used(interval: string, r: Result<real, PricingError>): Result<Evaluation, PricingError> {
    match r
    case Failure(e) => Failure(e)
    case Success(usage) => Success(Evaluation(false, interval, usage, 0.0, usage))
  }

  /** The price of a block for a quantity that the given input id names. */
  function Evaluate(b: Block, inputId: string, inputs: Inputs, ctx: Context): Result<Evaluation, PricingError>
    decreases b
  {
    var kind := if b.kind == "" then "fixed" else b.kind;
    var interval := if b.interval == "" then "month" else b.interval;
    if interval !in {"month", "year", "once"} then Failure(BadInterval)
    else if kind == "custom" then Success(Evaluation(true, interval, 0.0, 0.0, 0.0))
    else if kind in {"fixed", "addon"} then
      match Resolve(b.point, ctx.market)
      case Failure(e) => Failure(e)
      case Success(amount) => Success(Evaluation(false, interval, amount, amount, 0.0))
    else if kind in {"per_unit", "tiered_per_unit", "volume_per_unit"} then
      match Units(inputId, b.unit, inputs, ctx)
      case Failure(e) => Failure(e)
      case Success(quantity) => Used(interval, Usage(b, kind, quantity, ctx))
    else if kind == "bundle" then
      match Resolve(b.base, ctx.market)
      case Failure(e) => Failure(e)
      case Success(base) =>
        match Overage(b, inputs, ctx)
        case Failure(e) => Failure(e)
        case Success(usage) => Success(Evaluation(false, interval, base + usage, base, usage))
    else Failure(Unsupported)
  }

  function Usage(b: Block, kind: string, quantity: real, ctx: Context): Result<real, PricingError> {
    if kind == "tiered_per_unit" then Charge(b.tiers, 0.0, quantity, ctx.market)
    else if kind == "volume_per_unit" then VolumeCharge(quantity, b.tiers, ctx.market)
    else
      match Resolve(b.point, ctx.market)
      case Failure(e) => Failure(e)
      case Success(price) => Success(Cost(quantity, price))
  }

  /** What the units beyond the included ones cost. */
  function Overage(b: Block, inputs: Inputs, ctx: Context): Result<real, PricingError>
    decreases b, 0
  {
    match ToNumber(InputOr(inputs, OverageUnit(b), Number(0.0)), ctx)
    case Failure(e) => Failure(e)
    case Success(quantity) =>
      match NotNegative(Included(b.included, OverageUnit(b)))
      case Failure(e) => Failure(e)
      case Success(included) =>
        var over := Max(0.0, quantity - included);
        if over <= 0.0 then Success(0.0)
        else if b.overage.None? then Failure(NoCurrency)
        else
          match Evaluate(b.overage.value, OVERAGE_UNITS, inputs[OVERAGE_UNITS := Number(over)], ctx)
          case Failure(e) => Failure(e)
          case Success(nested) => if nested.custom then Failure(CustomOverage) else Success(nested.amount)
  }

  lemma UsageNotNegative(b: Block, kind: string, quantity: real, ctx: Context)
    requires quantity >= 0.0
    ensures Usage(b, kind, quantity, ctx).Success? ==> Usage(b, kind, quantity, ctx).value >= 0.0
  {
    hide Resolve, Charge, VolumeCharge;
    ChargeNotNegative(b.tiers, 0.0, quantity, ctx.market);
    VolumeMeans(quantity, b.tiers, ctx.market);
    var k := FirstCovering(quantity, b.tiers);
    if k < |b.tiers| { CostNotNegative(quantity, Price(b.tiers[k].point, ctx.market)); }
    if Resolve(b.point, ctx.market).Success? { CostNotNegative(quantity, Resolve(b.point, ctx.market).value); }
  }

  /** Every evaluated amount is its base plus its usage, neither of them negative. */
  lemma {:induction false} EvaluationSplits(b: Block, inputId: string, inputs: Inputs, ctx: Context)
    ensures var r := Evaluate(b, inputId, inputs, ctx);
            r.Success? ==> r.value.amount == r.value.base + r.value.usage && r.value.base >= 0.0 && r.value.usage >= 0.0
    decreases b
  {
    hide Resolve, Usage, Units, OverageUnit, Included;
    if Units(inputId, b.unit, inputs, ctx).Success? {
      var quantity := Units(inputId, b.unit, inputs, ctx).value;
      UnitsNotNegative(inputId, b.unit, inputs, ctx);
      UsageNotNegative(b, b.kind, quantity, ctx);
    }
    if b.overage.Some? {
      var id := OverageUnit(b);
      var quantity, included := ToNumber(InputOr(inputs, id, Number(0.0)), ctx), Included(b.included, id);
      if quantity.Success? {
        var over := Max(0.0, quantity.value - included);
        EvaluationSplits(b.overage.value, OVERAGE_UNITS, inputs[OVERAGE_UNITS := Number(over)], ctx);
      }
    }
  }

  lemma UnitsNotNegative(inputId: string, unit: string, inputs: Inputs, ctx: Context)
    ensures Units(inputId, unit, inputs, ctx).Success? ==> Units(inputId, unit, inputs, ctx).value >= 0.0
  {
  }

  predicate IsInterval(s: string) {
    s in {"", "month", "year", "once"}
  }

  lemma OverageIsUsage(o: Block, over: real, inputs: Inputs, ctx: Context)
    requires over > 0.0 && IsInterval(o.interval) && o.kind in {"per_unit", "tiered_per_unit", "volume_per_unit"}
    ensures var r, usage := Evaluate(o, OVERAGE_UNITS, inputs[OVERAGE_UNITS := Number(over)], ctx), Usage(o, o.kind, over, ctx);
            if usage.Failure? then r == Failure(usage.error)
            else r.Success? && !r.value.custom && r.value.amount == usage.value
  {
    hide Resolve, Usage;
    var more := inputs[OVERAGE_UNITS := Number(over)];
    assert Units(OVERAGE_UNITS, o.unit, more, ctx) == Success(over);
  }

  // ---------- addons and factors ----------

  datatype Addon = Addon(id: string, inputId: string, fallback: Input, block: Block)

  datatype Factor = Factor(inputId: string, fallback: Input, values: map<string, real>)

  datatype Plan = Plan(pricing: Block, addons: seq<Addon>, factors: seq<Factor>, minimumCommit: Option<Point>, setupFee: Option<Point>)

  function AddonAmount(a: Addon, inputs: Inputs, ctx: Context): Result<real, PricingError> {
    var raw := InputOr(inputs, if a.inputId != "" then a.inputId else a.id, a.fallback);
    match ToNumber(raw, ctx)
    case Failure(e) => Failure(e)
    case Success(quantity) =>
      if quantity <= 0.0 then Success(0.0)
      else if a.block.kind == "fixed" then
        match Resolve(a.block.point, ctx.market)
        case Failure(e) => Failure(e)
        case Success(amount) => Success(Cost(amount, quantity))
      else
        match Evaluate(a.block, ADDON_QTY, inputs[ADDON_QTY := Number(quantity)], ctx)
        case Failure(e) => Failure(e)
        case Success(evaluation) => Success(evaluation.amount)
  }

  /** A factor without an input does not apply. */
  function Multiplier(f: Factor, inputs: Inputs, ctx: Context): Result<real, PricingError> {
    if f.inputId == "" then Success(1.0)
    else
      var show := ctx.show;
      var option := show(InputOr(inputs, f.inputId, f.fallback));
      if option !in f.values then Failure(NoOption) else NotNegative(f.values[option])
  }

  /** Adding up or multiplying; the first failure counts. */
  datatype Op = Sum | Product

  function Combine(op: Op, a: real, b: real): real {
    match op
    case Sum => a + b
    case Product => a * b
  }

  function Start(op: Op): real {
    match op
    case Sum => 0.0
    case Product => 1.0
  }

  function With(op: Op, a: real, r: Result<real, PricingError>): Result<real, PricingError> {
    match r
    case Failure(e) => Failure(e)
    case Success(x) => Success(Combine(op, a, x))
  }

  function Fold<T>(op: Op, items: seq<T>, f: T -> Result<real, PricingError>): Result<real, PricingError> {
    if items == [] then Success(Start(op))
    else
      match f(items[0])
      case Failure(e) => Failure(e)
      case Success(x) => With(op, x, Fold(op, items[1..], f))
  }

  lemma CombineLaws(op: Op, a: real, b: real, c: real)
    ensures Combine(op, Start(op), a) == a == Combine(op, a, Start(op))
    ensures Combine(op, Combine(op, a, b), c) == Combine(op, a, Combine(op, b, c))
    ensures Combine(op, a, b) == Combine(op, b, a)
  {
  }

  lemma WithTwice(op: Op, a: real, b: real, r: Result<real, PricingError>)
    ensures With(op, a, With(op, b, r)) == With(op, Combine(op, a, b), r)
  {
    if r.Success? { CombineLaws(op, a, b, r.value); }
  }

  /** Taking out one item divides the result by its value. */
  lemma {:induction false} FoldWithout<T>(op: Op, items: seq<T>, f: T -> Result<real, PricingError>, j: nat)
    requires j < |items|
    ensures Fold(op, items, f).Success? <==> f(items[j]).Success? && Fold(op, Without(items, j), f).Success?
    ensures Fold(op, items, f).Success? ==> Fold(op, items, f) == With(op, f(items[j]).value, Fold(op, Without(items, j), f))
  {
    hide Combine, Start;
    if j == 0 {
      assert Without(items, 0) == items[1..];
    } else {
      var rest := items[1..];
      FoldWithout(op, rest, f, j - 1);
      assert Without(items, j)[0] == items[0] && Without(items, j)[1..] == Without(rest, j - 1);
      if Fold(op, items, f).Success? {
        var a, b, c := f(items[0]).value, f(items[j]).value, Fold(op, Without(rest, j - 1), f);
        CombineLaws(op, a, b, 0.0);
        WithTwice(op, a, b, c);
        WithTwice(op, b, a, c);
      }
    }
  }

  /** The result depends on the items only as a collection. */
  lemma {:induction false} FoldPermuted<T>(op: Op, a: seq<T>, b: seq<T>, f: T -> Result<real, PricingError>)
    requires multiset(a) == multiset(b)
    ensures Fold(op, a, f).Success? <==> Fold(op, b, f).Success?
    ensures Fold(op, a, f).Success? ==> Fold(op, a, f) == Fold(op, b, f)
    decreases |a|
  {
    hide Fold, Without, Combine, Start;
    if a == [] {
      assert |multiset(b)| == 0;
      assert b == [];
    } else {
      assert a[0] in multiset(a) && a[0] in b;
      var j :| 0 <= j < |b| && b[j] == a[0];
      FoldWithout(op, a, f, 0);
      FoldWithout(op, b, f, j);
      WithoutLess(a, 0);
      WithoutLess(b, j);
      FoldPermuted(op, Without(a, 0), Without(b, j), f);
    }
  }

  // ---------- the quote ----------

  datatype Breakdown = Breakdown(total: real, base: real, usage: real, addons: real, factors: real, setupFee: real,
                                 committed: bool, delta: real)

  datatype Quote = ContactSales(interval: string) | Priced(interval: string, breakdown: Breakdown)

  function AddonOf(inputs: Inputs, ctx: Context): Addon -> Result<real, PricingError> {
    (a: Addon) => AddonAmount(a, inputs, ctx)
  }

  function FactorOf(inputs: Inputs, ctx: Context): Factor -> Result<real, PricingError> {
    (f: Factor) => Multiplier(f, inputs, ctx)
  }

  function ResolveOr(p: Option<Point>, wanted: bool, ctx: Context): Result<Option<real>, PricingError> {
    if p.None? || !wanted then Success(None)
    else
      match Resolve(p.value, ctx.market)
      case Failure(e) => Failure(e)
      case Success(x) => Success(Some(x))
  }

  /** The whole calculation before rounding: what the plan costs with its addons, times all the
      factors, raised to the minimum commitment, plus the setup fee. */
  function Itemise(main: Evaluation, addons: real, multiplier: real, commit: Option<real>, fee: Option<real>): Breakdown {
    var amount := main.amount + addons;
    var subtotal := amount * multiplier;
    var committed := commit.Some? && subtotal < commit.value;
    var delta := if committed then commit.value - subtotal else 0.0;
    var setupFee := if fee.Some? then fee.value else 0.0;
    Breakdown(subtotal + delta + setupFee, main.base, main.usage, addons, subtotal - amount, setupFee, committed, delta)
  }

  function Exact(plan: Plan, inputs: Inputs, ctx: Context, includeSetup: bool): Result<Quote, PricingError> {
    match Evaluate(plan.pricing, plan.pricing.inputId, inputs, ctx)
    case Failure(e) => Failure(e)
    case Success(main) =>
      if main.custom then Success(ContactSales(main.interval))
      else
        match Fold(Sum, plan.addons, AddonOf(inputs, ctx))
        case Failure(e) => Failure(e)
        case Success(addons) =>
          match Fold(Product, plan.factors, FactorOf(inputs, ctx))
          case Failure(e) => Failure(e)
          case Success(multiplier) =>
            match ResolveOr(plan.minimumCommit, true, ctx)
            case Failure(e) => Failure(e)
            case Success(commit) =>
              match ResolveOr(plan.setupFee, includeSetup, ctx)
              case Failure(e) => Failure(e)
              case Success(fee) => Success(Priced(main.interval, Itemise(main, addons, multiplier, commit, fee)))
  }

  // ---------- rounding ----------

  /** To four places; a tie goes to the even digit. */
  function Round4(x: real): real {
    var scaled := x * 10000.0;
    var n := scaled.Floor;
    var rest := scaled - n as real;
    var up := rest > 0.5 || (rest == 0.5 && n % 2 == 1);
    (if up then n + 1 else n) as real / 10000.0
  }

  lemma Round4IsClose(x: real)
    ensures -0.00005 <= Round4(x) - x <= 0.00005
  {
  }

  function Rounded(q: Quote): Quote {
    match q
    case ContactSales(_) => q
    case Priced(interval, b) =>
      Priced(interval, Breakdown(Round4(b.total), Round4(b.base), Round4(b.usage), Round4(b.addons), Round4(b.factors),
                                 Round4(b.setupFee), b.committed, Round4(b.delta)))
  }

  function Items(b: Breakdown): real {
    b.base + b.usage + b.addons + b.factors + b.delta + b.setupFee
  }

  // ---------- what a quote says ----------

  /** Before rounding the items add up to the total, and the part before the commitment is the
      plan with its addons times every factor. */
  lemma ItemsAddUp(plan: Plan, inputs: Inputs, ctx: Context, includeSetup: bool, q: Quote)
    requires Exact(plan, inputs, ctx, includeSetup) == Success(q) && q.Priced?
    ensures q.breakdown.total == Items(q.breakdown)
    ensures var addons, multiplier := Fold(Sum, plan.addons, AddonOf(inputs, ctx)), Fold(Product, plan.factors, FactorOf(inputs, ctx));
            var b := q.breakdown;
            addons.Success? && multiplier.Success?
            && b.base + b.usage + b.addons + b.factors == (b.base + b.usage + addons.value) * multiplier.value
  {
    hide Evaluate, Fold, Resolve;
    EvaluationSplits(plan.pricing, plan.pricing.inputId, inputs, ctx);
  }

  /** A plan with a minimum commitment never costs less than it and the setup fee. */
  lemma AtLeastCommitment(plan: Plan, inputs: Inputs, ctx: Context, includeSetup: bool, q: Quote)
    requires Exact(plan, inputs, ctx, includeSetup) == Success(q) && q.Priced?
    ensures plan.minimumCommit.Some? ==>
              Resolve(plan.minimumCommit.value, ctx.market).Success?
              && q.breakdown.total >= Resolve(plan.minimumCommit.value, ctx.market).value + q.breakdown.setupFee
    ensures q.breakdown.committed <==> q.breakdown.delta > 0.0
    ensures plan.setupFee.Some? && includeSetup ==> Resolve(plan.setupFee.value, ctx.market) == Success(q.breakdown.setupFee)
    ensures plan.setupFee.None? || !includeSetup ==> q.breakdown.setupFee == 0.0
  {
    hide Evaluate, Fold, Resolve;
  }

  /** The order of addons and factors does not matter. */
  lemma OrderIsFree(plan: Plan, other: Plan, inputs: Inputs, ctx: Context, includeSetup: bool)
    requires multiset(other.addons) == multiset(plan.addons) && multiset(other.factors) == multiset(plan.factors)
    requires other.pricing == plan.pricing && other.minimumCommit == plan.minimumCommit && other.setupFee == plan.setupFee
    ensures Exact(plan, inputs, ctx, includeSetup).Success? <==> Exact(other, inputs, ctx, includeSetup).Success?
    ensures Exact(plan, inputs, ctx, includeSetup).Success? ==>
              Exact(other, inputs, ctx, includeSetup) == Exact(plan, inputs, ctx, includeSetup)
  {
    hide Evaluate, Fold, ResolveOr, Itemise, AddonOf, FactorOf;
    FoldPermuted(Sum, plan.addons, other.addons, AddonOf(inputs, ctx));
    FoldPermuted(Product, plan.factors, other.factors, FactorOf(inputs, ctx));
  }

  /** After rounding the items differ from the total by at most seven half units of the fourth
      place. */
  lemma RoundedItems(plan: Plan, inputs: Inputs, ctx: Context, includeSetup: bool, q: Quote)
    requires Exact(plan, inputs, ctx, includeSetup) == Success(q) && q.Priced?
    ensures var b := Rounded(q).breakdown; -0.00035 <= Items(b) - b.total <= 0.00035
  {
    hide Exact, Round4;
    ItemsAddUp(plan, inputs, ctx, includeSetup, q);
    var b := q.breakdown;
    Round4IsClose(b.total); Round4IsClose(b.base); Round4IsClose(b.usage); Round4IsClose(b.addons);
    Round4IsClose(b.factors); Round4IsClose(b.setupFee); Round4IsClose(b.delta);
  }

  // ---------- the calculation as it is performed ----------

  function RoundedResult(r: Result<Quote, PricingError>): Result<Quote, PricingError> {
    match r
    case Failure(_) => r
    case Success(q) => Success(Rounded(q))
  }

  /** Adds the addons one by one to their own total and to the subtotal. */
  method AddAddons(start: real, addons: seq<Addon>, inputs: Inputs, ctx: Context)
    returns (subtotal: real, total: real, failed: Option<PricingError>)
    ensures var sum := Fold(Sum, addons, AddonOf(inputs, ctx));
            if sum.Failure? then failed == Some(sum.error)
            else failed.None? && total == sum.value && subtotal == start + sum.value
  {
    hide AddonAmount;
    var f := AddonOf(inputs, ctx);
    subtotal, total, failed := start, 0.0, None;
    ghost var whole := Fold(Sum, addons, f);
    WithZero(whole);
    assert addons[0..] == addons;
    for i := 0 to |addons|
      invariant subtotal == start + total
      invariant whole == With(Sum, total, Fold(Sum, addons[i..], f))
    {
      assert addons[i..][1..] == addons[i + 1..];
      var amount := f(addons[i]);
      if amount.Failure? {
        failed := Some(amount.error);
        return;
      }
      WithTwice(Sum, total, amount.value, Fold(Sum, addons[i + 1..], f));
      total := total + amount.value;
      subtotal := subtotal + amount.value;
    }
  }

  lemma WithZero(r: Result<real, PricingError>)
    ensures With(Sum, 0.0, r) == r && With(Product, 1.0, r) == r
  {
  }

  /** Multiplies the subtotal factor by factor and adds up the differences. */
  method ApplyFactors(start: real, factors: seq<Factor>, inputs: Inputs, ctx: Context)
    returns (subtotal: real, delta: real, failed: Option<PricingError>)
    ensures var product := Fold(Product, factors, FactorOf(inputs, ctx));
            if product.Failure? then failed == Some(product.error)
            else failed.None? && subtotal == start * product.value && delta == subtotal - start
  {
    hide Multiplier;
    var f := FactorOf(inputs, ctx);
    subtotal, delta, failed := start, 0.0, None;
    ghost var whole := Fold(Product, factors, f);
    ghost var sofar := 1.0;
    WithZero(whole);
    assert factors[0..] == factors;
    for i := 0 to |factors|
      invariant subtotal == start * sofar && delta == subtotal - start
      invariant whole == With(Product, sofar, Fold(Product, factors[i..], f))
    {
      assert factors[i..][1..] == factors[i + 1..];
      var multiplier := f(factors[i]);
      if multiplier.Failure? {
        failed := Some(multiplier.error);
        return;
      }
      WithTwice(Product, sofar, multiplier.value, Fold(Product, factors[i + 1..], f));
      Associates(start, sofar, multiplier.value);
      ghost var further := Combine(Product, sofar, multiplier.value);
      assert further == sofar * multiplier.value;
      var next := subtotal * multiplier.value;
      delta := delta + (next - subtotal);
      subtotal := next;
      sofar := further;
    }
  }

  lemma Associates(a: real, b: real, c: real)
    ensures a * b * c == a * (b * c)
  {
  }

  method QuoteRolePricing(plan: Plan, inputs: Inputs, ctx: Context, includeSetup: bool) returns (r: Result<Quote, PricingError>)
    ensures r == RoundedResult(Exact(plan, inputs, ctx, includeSetup))
  {
    hide Evaluate, Fold, Resolve, Round4, AddonOf, FactorOf;
    var evaluated := Evaluate(plan.pricing, plan.pricing.inputId, inputs, ctx);
    if evaluated.Failure? {
      return Failure(evaluated.error);
    }
    var main := evaluated.value;
    if main.custom {
      return Success(ContactSales(main.interval));
    }
    var subtotal, addons, failed := AddAddons(main.amount, plan.addons, inputs, ctx);
    if failed.Some? {
      return Failure(failed.value);
    }
    var factors;
    subtotal, factors, failed := ApplyFactors(subtotal, plan.factors, inputs, ctx);
    if failed.Some? {
      return Failure(failed.value);
    }
    var committed, delta := false, 0.0;
    if plan.minimumCommit.Some? {
      var minimum := Resolve(plan.minimumCommit.value, ctx.market);
      if minimum.Failure? {
        return Failure(minimum.error);
      }
      if subtotal < minimum.value {
        delta := minimum.value - subtotal;
        subtotal := minimum.value;
        committed := true;
      }
    }
    var fee := 0.0;
    if includeSetup && plan.setupFee.Some? {
      var setup := Resolve(plan.setupFee.value, ctx.market);
      if setup.Failure? {
        return Failure(setup.error);
      }
      fee := setup.value;
    }
    var total := subtotal + fee;
    ghost var q := Exact(plan, inputs, ctx, includeSetup).value;
    assert q.Priced? && q.interval == main.interval;
    assert q.breakdown == Breakdown(total, main.base, main.usage, addons, factors, fee, committed, delta);
    return Success(Priced(main.interval, Breakdown(Round4(total), Round4(main.base), Round4(main.usage), Round4(addons),
                                                   Round4(factors), Round4(fee), committed, Round4(delta))));
  }
}

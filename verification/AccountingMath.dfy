/** The document-line arithmetic behind every invoice and bill (src/lib/accounting-math.ts). */
module AccountingMath {
  import opened Common
  import opened Money

  datatype TaxComputation = Exclusive | Inclusive

  datatype LineInput = LineInput(
    quantity: real, unitPrice: real, discountPct: Option<real>,
    taxRatePct: Option<real>, taxComputation: Option<TaxComputation>,
    currency: string, rounding: Option<RoundingMode>)
  {
    function Mode(): RoundingMode { rounding.GetOr(HalfUp) }

    function Gross(): real {
      quantity * unitPrice * (1.0 - discountPct.GetOr(0.0) / 100.0)
    }

    /** The tax rate as a fraction, if the line has one. */
    function TaxRate(): Option<real> {
      if taxRatePct.Some? then Some(taxRatePct.value / 100.0) else None
    }

    function Rate(): real { TaxRate().GetOr(0.0) }
  }

  /** Net and tax in minor units of the line's currency. */
  datatype Amounts = Amounts(net: int, tax: int)

  function LineAmounts(input: LineInput): Option<Amounts> {
    var scale := Scale(input.currency);
    Split(RoundAt(input.Gross(), scale, input.Mode()), input.TaxRate(), input.taxComputation, scale, input.Mode())
  }

  /** None when the arithmetic leaves the finite decimals (an inclusive rate of -100%). */
  function Split(grossR: int, rate: Option<real>, how: Option<TaxComputation>, scale: real, mode: RoundingMode): Option<Amounts>
    requires scale >= 1.0
  {
    match rate
    case None => Some(Amounts(grossR, 0))
    case Some(r) =>
      if how != Some(Inclusive) then Some(Amounts(grossR, ExclusiveTax(grossR, r, scale, mode)))
      else if 1.0 + r == 0.0 then None
      else
        var net := InclusiveNet(grossR, r, scale, mode);
        Some(Amounts(net, grossR - net))
  }

  function ExclusiveTax(net: int, rate: real, scale: real, mode: RoundingMode): int
    requires scale >= 1.0
  {
    RoundAt(AmountAt(net, scale) * rate, scale, mode)
  }

  function InclusiveNet(gross: int, rate: real, scale: real, mode: RoundingMode): int
    requires scale >= 1.0 && 1.0 + rate != 0.0
  {
    RoundAt(AmountAt(gross, scale) / (1.0 + rate), scale, mode)
  }

  // --------------------------------------------- the same sums in minor units

  function TaxOn(net: int, rate: real, mode: RoundingMode): int {
    Round(mode, net as real * rate)
  }

  function NetWithin(gross: int, rate: real, mode: RoundingMode): int
    requires 1.0 + rate != 0.0
  {
    Round(mode, gross as real / (1.0 + rate))
  }

  lemma ScaleOut(q: real, s: real, a: real, f: real)
    requires q * s == a
    ensures q * f * s == a * f
    ensures f != 0.0 ==> q / f * s == a / f
  {
    assert q * f * s == (q * s) * f;
    if f != 0.0 {
      var r := q / f;
      assert r * f == q;
      assert (r * s) * f == a;
    }
  }

  lemma TaxOnIs(net: int, rate: real, mode: RoundingMode, x: real)
    requires x == net as real * rate
    ensures TaxOn(net, rate, mode) == Round(mode, x)
  {
  }

  lemma NetWithinIs(gross: int, rate: real, mode: RoundingMode, x: real)
    requires 1.0 + rate != 0.0 && x == gross as real / (1.0 + rate)
    ensures NetWithin(gross, rate, mode) == Round(mode, x)
  {
  }

  lemma RoundTimes(units: int, factor: real, scale: real, mode: RoundingMode)
    requires scale >= 1.0
    ensures ExclusiveTax(units, factor, scale, mode) == TaxOn(units, factor, mode)
  {
    ScaleOut(AmountAt(units, scale), scale, units as real, factor);
    RoundAtIs(AmountAt(units, scale) * factor, scale, units as real * factor, mode);
    TaxOnIs(units, factor, mode, units as real * factor);
  }

  lemma RoundOver(units: int, rate: real, scale: real, mode: RoundingMode)
    requires scale >= 1.0 && 1.0 + rate != 0.0
    ensures InclusiveNet(units, rate, scale, mode) == NetWithin(units, rate, mode)
  {
    ScaleOut(AmountAt(units, scale), scale, units as real, 1.0 + rate);
    RoundAtIs(AmountAt(units, scale) / (1.0 + rate), scale, units as real / (1.0 + rate), mode);
  }

  lemma SplitInUnits(g: int, rate: Option<real>, how: Option<TaxComputation>, scale: real, mode: RoundingMode)
    requires scale >= 1.0
    ensures Split(g, rate, how, scale, mode) ==
      match rate
      case None => Some(Amounts(g, 0))
      case Some(r) =>
        if how != Some(Inclusive) then Some(Amounts(g, TaxOn(g, r, mode)))
        else if 1.0 + r == 0.0 then None
        else Some(Amounts(NetWithin(g, r, mode), g - NetWithin(g, r, mode)))
  {
    match rate
    case None =>
    case Some(r) =>
      if how != Some(Inclusive) {
        RoundTimes(g, r, scale, mode);
      } else if 1.0 + r != 0.0 {
        RoundOver(g, r, scale, mode);
      }
  }

  // --------------------------------------------------------- what a line amounts to

  /** Quantity times price less the discount, in minor units and before any rounding. */
  function Before(input: LineInput): real {
    var full := input.quantity * input.unitPrice * Scale(input.currency);
    if input.discountPct.None? then full else full * (100.0 - input.discountPct.value) / 100.0
  }

  lemma GrossInUnits(input: LineInput)
    ensures input.Gross() * Scale(input.currency) == Before(input)
  {
    var p, s, d := input.quantity * input.unitPrice, Scale(input.currency), input.discountPct.GetOr(0.0);
    Discounted(p, s, d, p * s);
  }

  lemma Discounted(p: real, s: real, d: real, full: real)
    requires full == p * s
    ensures p * (1.0 - d / 100.0) * s == full * (100.0 - d) / 100.0
    ensures d == 0.0 ==> p * (1.0 - d / 100.0) * s == full
  {
    assert p * (1.0 - d / 100.0) * s == (p * s) * (1.0 - d / 100.0);
    assert 1.0 - d / 100.0 == (100.0 - d) / 100.0;
    assert full * ((100.0 - d) / 100.0) == full * (100.0 - d) / 100.0;
  }

  /** `tax` is the rate's share of `net`, as its rounding policy promises. */
  predicate TaxPromised(mode: RoundingMode, net: int, pct: real, tax: int) {
    Rounds(mode, net as real * (pct / 100.0), tax)
  }

  /** `net` is what the rate leaves of `gross`, as its rounding policy promises. */
  predicate NetPromised(mode: RoundingMode, gross: int, pct: real, net: int) {
    1.0 + pct / 100.0 != 0.0 && Rounds(mode, gross as real / (1.0 + pct / 100.0), net)
  }

  /**
   * What a line of `before` units amounts to, by the promise of its rounding policy (half-up
   * unless it names one): without tax or with exclusive tax the net is that amount, and the tax
   * the rate's share of the net; with inclusive tax net and tax together are that amount.
   */
  predicate Promised(input: LineInput, before: real, r: Option<Amounts>) {
    var mode := if input.rounding.Some? then input.rounding.value else HalfUp;
    match input.taxRatePct
    case None => r.Some? && r.value.tax == 0 && Rounds(mode, before, r.value.net)
    case Some(pct) =>
      if input.taxComputation != Some(Inclusive) then
        r.Some? && Rounds(mode, before, r.value.net) && TaxPromised(mode, r.value.net, pct, r.value.tax)
      else if 1.0 + pct / 100.0 == 0.0 then r.None?
      else r.Some? && Rounds(mode, before, r.value.net + r.value.tax) && NetPromised(mode, r.value.net + r.value.tax, pct, r.value.net)
  }

  lemma TaxOnPromised(net: int, pct: real, mode: RoundingMode, x: real)
    requires x == net as real * (pct / 100.0)
    ensures TaxPromised(mode, net, pct, TaxOn(net, pct / 100.0, mode))
  {
    TaxOnIs(net, pct / 100.0, mode, x);
    RoundMeets(mode, x);
  }

  lemma NetWithinPromised(gross: int, pct: real, mode: RoundingMode, x: real)
    requires 1.0 + pct / 100.0 != 0.0 && x == gross as real / (1.0 + pct / 100.0)
    ensures NetPromised(mode, gross, pct, NetWithin(gross, pct / 100.0, mode))
  {
    NetWithinIs(gross, pct / 100.0, mode, x);
    RoundMeets(mode, x);
  }

  lemma LineRounds(input: LineInput, before: real)
    requires before == Before(input)
    ensures Rounds(input.Mode(), before, RoundAt(input.Gross(), Scale(input.currency), input.Mode()))
  {
    GrossInUnits(input);
    RoundAtIs(input.Gross(), Scale(input.currency), before, input.Mode());
    RoundMeets(input.Mode(), before);
  }

  lemma SplitPromised(input: LineInput, before: real, g: int)
    requires Rounds(input.Mode(), before, g)
    ensures Promised(input, before, Split(g, input.TaxRate(), input.taxComputation, Scale(input.currency), input.Mode()))
  {
    var mode := input.Mode();
    SplitInUnits(g, input.TaxRate(), input.taxComputation, Scale(input.currency), mode);
    match input.taxRatePct
    case None =>
    case Some(pct) =>
      TaxOnPromised(g, pct, mode, g as real * (pct / 100.0));
      if 1.0 + pct / 100.0 != 0.0 { NetWithinPromised(g, pct, mode, g as real / (1.0 + pct / 100.0)); }
  }

  /** Every line amounts to what its policy promises of quantity, price and discount. */
  lemma LineAmountsPromise(input: LineInput)
    ensures Promised(input, Before(input), LineAmounts(input))
  {
    LineRounds(input, Before(input));
    SplitPromised(input, Before(input), RoundAt(input.Gross(), Scale(input.currency), input.Mode()));
  }

  /** What the line charges before exclusive tax: its net, or net and tax together where tax is included. */
  function Charged(input: LineInput, a: Amounts): int {
    if input.taxRatePct.Some? && input.taxComputation == Some(Inclusive) then a.net + a.tax else a.net
  }

  lemma PromiseFixesCharge(input: LineInput, before: real, a: Amounts)
    requires Promised(input, before, Some(a))
    ensures Charged(input, a) == Round(input.Mode(), before)
  {
    RoundIsTheOne(input.Mode(), before, Charged(input, a));
  }

  /** A larger discount never charges more. */
  lemma DiscountLowers(input: LineInput, more: real)
    requires input.quantity >= 0.0 && input.unitPrice >= 0.0
    requires input.discountPct.GetOr(0.0) <= more && LineAmounts(input).Some?
    ensures var less := input.(discountPct := Some(more));
            LineAmounts(less).Some? && Charged(less, LineAmounts(less).value) <= Charged(input, LineAmounts(input).value)
  {
    var less := input.(discountPct := Some(more));
    LineAmountsPromise(input);
    LineAmountsPromise(less);
    PromiseFixesCharge(input, Before(input), LineAmounts(input).value);
    PromiseFixesCharge(less, Before(less), LineAmounts(less).value);
    BeforeLowers(input, more);
    RoundMonotone(input.Mode(), Before(less), Before(input));
  }

  lemma BeforeLowers(input: LineInput, more: real)
    requires input.quantity >= 0.0 && input.unitPrice >= 0.0 && input.discountPct.GetOr(0.0) <= more
    ensures Before(input.(discountPct := Some(more))) <= Before(input)
  {
    var full := input.quantity * input.unitPrice * Scale(input.currency);
    FullIsNonNegative(input.quantity, input.unitPrice, Scale(input.currency));
    LessRemains(full, input.discountPct.GetOr(0.0), more);
  }

  lemma FullIsNonNegative(quantity: real, price: real, scale: real)
    requires quantity >= 0.0 && price >= 0.0 && scale >= 1.0
    ensures quantity * price * scale >= 0.0
  {
    assert quantity * price >= 0.0;
  }

  lemma LessRemains(full: real, d: real, e: real)
    requires full >= 0.0 && d <= e
    ensures full * (100.0 - e) / 100.0 <= full * (100.0 - d) / 100.0
    ensures d == 0.0 ==> full * (100.0 - d) / 100.0 == full
  {
    assert full * ((100.0 - d) - (100.0 - e)) >= 0.0;
  }

  /** A full discount leaves nothing to pay and nothing to tax. */
  lemma FullDiscountIsFree(input: LineInput)
    requires input.discountPct == Some(100.0) && LineAmounts(input).Some?
    ensures LineAmounts(input) == Some(Amounts(0, 0))
  {
    LineAmountsPromise(input);
    NothingBefore(input);
    NothingPromised(input, Before(input), LineAmounts(input).value);
  }

  lemma NothingBefore(input: LineInput)
    requires input.discountPct == Some(100.0)
    ensures Before(input) == 0.0
  {
    NoShare(input.quantity * input.unitPrice * Scale(input.currency), 100.0);
  }

  lemma NoShare(full: real, d: real)
    requires d == 100.0
    ensures full * (100.0 - d) / 100.0 == 0.0
  {
  }

  lemma NoTax(mode: RoundingMode, pct: real, tax: int)
    requires TaxPromised(mode, 0, pct, tax)
    ensures tax == 0
  {
    var x := 0 as real * (pct / 100.0);
    assert x == 0.0;
    RoundIsTheOne(mode, x, tax);
    RoundWhole(mode, 0);
  }

  lemma NoQuotient(d: real)
    requires d != 0.0
    ensures 0 as real / d == 0.0
  {
    var q := 0 as real / d;
    assert q * d == 0.0;
  }

  lemma NoNet(mode: RoundingMode, pct: real, net: int)
    requires NetPromised(mode, 0, pct, net)
    ensures net == 0
  {
    var x := 0 as real / (1.0 + pct / 100.0);
    NoQuotient(1.0 + pct / 100.0);
    RoundIsTheOne(mode, x, net);
    RoundWhole(mode, 0);
  }

  lemma NothingPromised(input: LineInput, before: real, a: Amounts)
    requires before == 0.0 && Promised(input, before, Some(a))
    ensures a == Amounts(0, 0)
  {
    PromiseFixesCharge(input, before, a);
    RoundWhole(input.Mode(), 0);
    if input.taxRatePct.Some? {
      if input.taxComputation == Some(Inclusive) { NoNet(input.Mode(), input.taxRatePct.value, a.net); }
      else { NoTax(input.Mode(), input.taxRatePct.value, a.tax); }
    }
  }

  // ------------------------------------------------------------ tax inversion

  /** The document of an exclusive line's total, as one tax-inclusive unit. */
  function FedBack(input: LineInput, a: Amounts): LineInput {
    input.(quantity := 1.0, unitPrice := Amount(a.net + a.tax, input.currency), discountPct := None,
           taxComputation := Some(Inclusive))
  }

  /** The tax on the rounded net needs no rounding. */
  predicate TaxIsWhole(net: int, rate: real) {
    (net as real * rate).Floor as real == net as real * rate
  }

  lemma Undo(gross: real, n: int, rate: real, e: real)
    requires rate >= 0.0 && gross == n as real * (1.0 + rate) + e
    ensures gross / (1.0 + rate) == n as real + e / (1.0 + rate)
    ensures AbsR(e / (1.0 + rate)) <= AbsR(e)
    ensures n as real * rate != 0.0 && e != 0.0 ==> AbsR(e / (1.0 + rate)) < AbsR(e)
    ensures e < 0.0 ==> e / (1.0 + rate) < 0.0
    ensures e > 0.0 ==> e / (1.0 + rate) > 0.0
  {
    var d := 1.0 + rate;
    var q := e / d;
    assert q * d == e;
    assert gross / d == n as real + q by {
      assert (n as real + q) * d == gross;
    }
    assert AbsR(e) == AbsR(q) * d;
    assert AbsR(q) * d >= AbsR(q);
  }

  lemma TaxRounding(n: int, rate: real, mode: RoundingMode)
    ensures var e := TaxOn(n, rate, mode) as real - n as real * rate;
            && AbsR(e) < 1.0
            && (Nearest(mode) ==> AbsR(e) <= 0.5)
            && (TaxIsWhole(n, rate) <==> e == 0.0)
            && (n as real * rate == 0.0 ==> e == 0.0)
            && (mode == Down ==> if n as real * rate >= 0.0 then e <= 0.0 else e >= 0.0)
            && (mode == Up ==> if n as real * rate >= 0.0 then e >= 0.0 else e <= 0.0)
  {
    RoundNear(mode, n as real * rate);
    RoundMeets(mode, n as real * rate);
    if TaxIsWhole(n, rate) { RoundWhole(mode, (n as real * rate).Floor); }
  }

  /** In minor units: adding the tax and taking it out again. */
  lemma UndoTax(n: int, rate: real, mode: RoundingMode)
    requires rate >= 0.0
    ensures NetWithin(n + TaxOn(n, rate, mode), rate, mode) == n <==> Nearest(mode) || TaxIsWhole(n, rate)
  {
    var t := TaxOn(n, rate, mode);
    var x := n as real * rate;
    TaxRounding(n, rate, mode);
    ProductSign(n, rate);
    var back := (n + t) as real / (1.0 + rate);
    Undo((n + t) as real, n, rate, t as real - x);
    UndoAt(n, x, t as real - x, back, mode);
    NetWithinIs(n + t, rate, mode, back);
  }

  lemma ProductSign(n: int, rate: real)
    requires rate >= 0.0
    ensures n >= 0 ==> n as real * rate >= 0.0
    ensures n <= 0 ==> n as real * rate <= 0.0
    ensures n as real * (1.0 + rate) == n as real + n as real * rate
  {
  }

  /** `e` is the tax's rounding error and `back` the net recomputed from it. */
  lemma UndoAt(n: int, x: real, e: real, back: real, mode: RoundingMode)
    requires AbsR(back - n as real) <= AbsR(e) < 1.0
    requires e != 0.0 && x != 0.0 ==> AbsR(back - n as real) < AbsR(e)
    requires (e < 0.0 ==> back < n as real) && (e > 0.0 ==> back > n as real)
    requires (n >= 0 ==> x >= 0.0) && (n <= 0 ==> x <= 0.0) && (x == 0.0 ==> e == 0.0)
    requires Nearest(mode) ==> AbsR(e) <= 0.5
    requires mode == Down ==> if x >= 0.0 then e <= 0.0 else e >= 0.0
    requires mode == Up ==> if x >= 0.0 then e >= 0.0 else e <= 0.0
    ensures Round(mode, back) == n <==> Nearest(mode) || e == 0.0
  {
    if e == 0.0 {
      RoundWhole(mode, n);
    } else if Nearest(mode) {
      RoundWithinHalf(mode, back, n);
    } else {
      OffTheUnit(mode, back, n);
    }
  }

  /** Down from below, or up from above, never comes back to the integer. */
  lemma OffTheUnit(mode: RoundingMode, back: real, n: int)
    requires !Nearest(mode) && n != 0 && AbsR(back - n as real) < 1.0
    requires n > 0 ==> if mode == Down then back < n as real else back > n as real
    requires n < 0 ==> if mode == Down then back > n as real else back < n as real
    ensures Round(mode, back) != n
  {
    RoundMeets(mode, back);
  }

  /**
   * Feeding an exclusive line's net + tax back as one tax-inclusive unit returns exactly
   * the same net and tax under the nearest modes, for any quantity, price, discount and
   * rate >= 0. Under down and up it does so exactly when the tax needed no rounding.
   */
  lemma TaxInversion(input: LineInput)
    requires input.taxComputation != Some(Inclusive) && input.Rate() >= 0.0
    ensures LineAmounts(input).Some?
    ensures var a := LineAmounts(input).value;
            LineAmounts(FedBack(input, a)) == Some(a)
            <==> Nearest(input.Mode()) || TaxIsWhole(a.net, input.Rate())
  {
    var scale := Scale(input.currency);
    SplitInUnits(RoundAt(input.Gross(), scale, input.Mode()), input.TaxRate(), input.taxComputation, scale, input.Mode());
    var a := LineAmounts(input).value;
    var back := FedBack(input, a);
    assert back.Gross() == AmountAt(a.net + a.tax, scale);
    RoundAtFixed(a.net + a.tax, scale, input.Mode());
    SplitInUnits(a.net + a.tax, input.TaxRate(), Some(Inclusive), scale, input.Mode());
    if input.taxRatePct.Some? {
      UndoTax(a.net, input.Rate(), input.Mode());
    } else {
      assert a.net as real * 0.0 == 0.0;
      assert TaxIsWhole(a.net, 0.0);
    }
  }

  /** A line of one minor unit at 50%, in any currency. */
  function OneUnitLine(currency: string, mode: RoundingMode): LineInput {
    LineInput(1.0, Amount(1, currency), None, Some(50.0), Some(Exclusive), currency, Some(mode))
  }

  /** Fed back, the line of one minor unit loses its net under down and doubles it under up. */
  lemma DirectedModesLoseTax(currency: string, mode: RoundingMode)
    requires !Nearest(mode)
    ensures LineAmounts(OneUnitLine(currency, mode)) == Some(if mode == Down then Amounts(1, 0) else Amounts(1, 1))
    ensures var a := LineAmounts(OneUnitLine(currency, mode)).value;
            LineAmounts(FedBack(OneUnitLine(currency, mode), a)) == Some(if mode == Down then Amounts(0, 1) else Amounts(2, 0))
  {
    var input, scale := OneUnitLine(currency, mode), Scale(currency);
    assert input.Gross() == AmountAt(1, scale) && input.TaxRate() == Some(0.5);
    RoundAtFixed(1, scale, mode);
    SplitInUnits(1, Some(0.5), Some(Exclusive), scale, mode);
    RoundIsTheOne(mode, 0.5, if mode == Down then 0 else 1);
    var t := if mode == Down then 0 else 1;
    var back := FedBack(input, Amounts(1, t));
    assert back.Gross() == AmountAt(1 + t, scale);
    RoundAtFixed(1 + t, scale, mode);
    SplitInUnits(1 + t, Some(0.5), Some(Inclusive), scale, mode);
    RoundIsTheOne(mode, (1 + t) as real / 1.5, if mode == Down then 0 else 2);
  }

  // --------------------------------------------------------- inclusive lines

  /** Part of a gross: dividing by 1 + rate keeps it between nothing and the whole. */
  lemma ShareBounds(g: real, rate: real)
    requires g >= 0.0 && rate >= 0.0
    ensures 0.0 <= g / (1.0 + rate) <= g
  {
    var share := g / (1.0 + rate);
    assert share * (1.0 + rate) == g;
  }

  lemma RoundNonNegative(amount: real, currency: string, mode: RoundingMode)
    requires amount >= 0.0
    ensures RoundMoney(amount, currency, mode) >= 0
  {
    assert amount * Scale(currency) >= 0.0;
  }

  lemma NetBounds(g: int, rate: real, mode: RoundingMode)
    requires g >= 0 && rate >= 0.0
    ensures 0 <= NetWithin(g, rate, mode) <= g
  {
    var share := g as real / (1.0 + rate);
    ShareBounds(g as real, rate);
    RoundMonotone(mode, share, g as real);
    RoundWhole(mode, g);
  }

  /** An inclusive line splits its rounded gross without loss, and within bounds. */
  lemma InclusiveConserves(input: LineInput)
    requires input.taxRatePct.Some? && input.taxComputation == Some(Inclusive) && 1.0 + input.Rate() != 0.0
    ensures LineAmounts(input).Some?
    ensures var a, g := LineAmounts(input).value, RoundMoney(input.Gross(), input.currency, input.Mode());
            && a.net + a.tax == g
            && (input.Gross() >= 0.0 && input.Rate() >= 0.0 ==> 0 <= a.net <= g && 0 <= a.tax)
  {
    var gross := input.Gross();
    var g := RoundMoney(gross, input.currency, input.Mode());
    SplitInUnits(g, input.TaxRate(), input.taxComputation, Scale(input.currency), input.Mode());
    if gross >= 0.0 && input.Rate() >= 0.0 {
      RoundNonNegative(gross, input.currency, input.Mode());
      NetBounds(g, input.Rate(), input.Mode());
    }
  }

  lemma GrossIsNonNegative(input: LineInput)
    requires input.quantity >= 0.0 && input.unitPrice >= 0.0 && 0.0 <= input.discountPct.GetOr(0.0) <= 100.0
    ensures input.Gross() >= 0.0
  {
    assert input.quantity * input.unitPrice >= 0.0;
  }

  lemma NetNear(g: int, rate: real, mode: RoundingMode)
    requires rate >= 0.0 && Nearest(mode)
    ensures AbsR(NetWithin(g, rate, mode) as real - g as real / (1.0 + rate)) <= 0.5
  {
    RoundNear(mode, g as real / (1.0 + rate));
  }

  lemma TaxNear(net: int, rate: real, mode: RoundingMode)
    requires Nearest(mode)
    ensures AbsR(TaxOn(net, rate, mode) as real - net as real * rate) <= 0.5
  {
    RoundNear(mode, net as real * rate);
  }

  /** The two half-unit errors, the first one magnified by the rate. */
  lemma ErrorsCombine(g: int, rate: real, net: int, tax: int)
    requires rate >= 0.0
    requires AbsR(net as real - g as real / (1.0 + rate)) <= 0.5
    requires AbsR(tax as real - net as real * rate) <= 0.5
    ensures AbsR(tax as real - (g - net) as real) <= 1.0 + rate / 2.0
  {
    var share := g as real / (1.0 + rate);
    SplitProduct(g as real, rate, net as real, share);
    HalfOf(net as real - share, 1.0 + rate);
    Triangle(tax as real, net as real * rate, g as real - net as real, rate);
  }

  lemma Triangle(a: real, b: real, c: real, rate: real)
    requires AbsR(a - b) <= 0.5 && AbsR(b - c) <= 0.5 * (1.0 + rate)
    ensures AbsR(a - c) <= 1.0 + rate / 2.0
  {
  }

  lemma SplitProduct(g: real, rate: real, net: real, share: real)
    requires share * (1.0 + rate) == g
    ensures net * rate - (g - net) == (net - share) * (1.0 + rate)
  {
    assert (net - share) * (1.0 + rate) == net * (1.0 + rate) - share * (1.0 + rate);
  }

  lemma HalfOf(e: real, d: real)
    requires AbsR(e) <= 0.5 && d >= 0.0
    ensures AbsR(e * d) <= 0.5 * d
  {
    assert (0.5 - e) * d >= 0.0 && (0.5 + e) * d >= 0.0;
  }

  lemma RetaxError(g: int, rate: real, mode: RoundingMode)
    requires rate >= 0.0 && Nearest(mode)
    ensures var net := NetWithin(g, rate, mode);
            AbsR(TaxOn(net, rate, mode) as real - (g - net) as real) <= 1.0 + rate / 2.0
  {
    var net := NetWithin(g, rate, mode);
    NetNear(g, rate, mode);
    TaxNear(net, rate, mode);
    ErrorsCombine(g, rate, net, TaxOn(net, rate, mode));
  }

  /** At 200% exactly the tax is whole, so only the net's own rounding is missed. */
  lemma RetaxDoubled(g: int, mode: RoundingMode)
    requires Nearest(mode)
    ensures var net := NetWithin(g, 2.0, mode);
            TaxOn(net, 2.0, mode) == 2 * net && Abs(3 * net - g) <= 1
  {
    var net := NetWithin(g, 2.0, mode);
    NetNear(g, 2.0, mode);
    RoundWhole(mode, 2 * net);
    TaxOnIs(net, 2.0, mode, (2 * net) as real);
  }

  /**
   * Taxing an inclusive line's net again misses the stored tax by at most 1 + rate/2 minor
   * units under the nearest modes: by at most one unit for every rate up to 200%.
   */
  lemma RetaxBound(input: LineInput)
    requires input.taxRatePct.Some? && input.taxComputation == Some(Inclusive)
    requires input.Rate() >= 0.0 && Nearest(input.Mode())
    ensures LineAmounts(input).Some?
    ensures Miss(input) as real <= 1.0 + input.Rate() / 2.0 && (input.Rate() <= 2.0 ==> Miss(input) <= 1)
  {
    var g := RoundMoney(input.Gross(), input.currency, input.Mode());
    SplitInUnits(g, input.TaxRate(), input.taxComputation, Scale(input.currency), input.Mode());
    RetaxError(g, input.Rate(), input.Mode());
    if input.Rate() == 2.0 { RetaxDoubled(g, input.Mode()); }
  }

  /** By how many minor units the tax computed forward from a line's net misses its stored tax. */
  function Miss(input: LineInput): int
    requires LineAmounts(input).Some?
  {
    var a := LineAmounts(input).value;
    Abs(TaxOn(a.net, input.Rate(), input.Mode()) - a.tax)
  }

  function Odd(k: nat): real {
    2.0 * k as real + 1.0
  }

  /** Some odd multiple of a number up to a quarter lies in the upper half of the unit: the first to pass one half. */
  lemma {:induction false} OddMultiple(x: real, j: nat) returns (k: nat)
    requires 0.0 < x <= 0.25 && (j == 0 || (Odd(j) - 2.0) * x < 0.5)
    ensures 0.5 <= Odd(k) * x <= 1.0
    decreases (1.0 / x).Floor + 1 - j
  {
    assert (Odd(j) - 2.0) * x == Odd(j) * x - 2.0 * x;
    if Odd(j) * x >= 0.5 { return j; }
    assert 1.0 / x * x == 1.0;
    Below(j as real, 1.0 / x, x);
    assert Odd(j + 1) == Odd(j) + 2.0;
    k := OddMultiple(x, j + 1);
  }

  lemma SameSign(a: real, d: real)
    requires d > 0.0
    ensures (a > 0.0 <==> a * d > 0.0) && (a < 0.0 <==> a * d < 0.0)
  {
  }

  lemma Below(j: real, inverse: real, x: real)
    requires x > 0.0 && inverse * x == 1.0 && (2.0 * j + 1.0) * x < 0.5 && j >= 0.0
    ensures j <= inverse
  {
    assert (2.0 * j + 1.0) * x == 2.0 * (j * x) + x;
    assert (j - inverse) * x == j * x - 1.0;
    SameSign(j - inverse, x);
  }

  /** Some odd multiple of any positive number lies at most half below an integer. */
  lemma OddMultipleBelow(theta: real) returns (k: nat, n: nat)
    requires theta > 0.0
    ensures n > 0 && 0.0 <= n as real - Odd(k) * theta <= 0.5
  {
    var f := theta.Floor;
    var phi := theta - f as real;
    if phi == 0.0 {
      k, n := 0, f;
    } else if phi >= 0.5 {
      k, n := 0, f + 1;
    } else if phi <= 0.25 {
      k, n := QuarterBelow(f, phi, theta);
    } else {
      k, n := HalfBelow(f, phi, theta);
    }
  }

  lemma QuarterBelow(f: nat, phi: real, theta: real) returns (k: nat, n: nat)
    requires 0.0 < phi <= 0.25 && theta == f as real + phi
    ensures n > 0 && 0.0 <= n as real - Odd(k) * theta <= 0.5
  {
    k := OddMultiple(phi, 0);
    n := (2 * k + 1) * f + 1;
    OddCast(k, f);
    Spread(Odd(k), f as real, phi);
  }

  lemma HalfBelow(f: nat, phi: real, theta: real) returns (k: nat, n: nat)
    requires 0.25 < phi < 0.5 && theta == f as real + phi
    ensures n > 0 && 0.0 <= n as real - Odd(k) * theta <= 0.5
  {
    var psi := 0.5 - phi;
    k := OddMultiple(psi, 0);
    n := (2 * k + 1) * f + k;
    OddCast(k, f);
    Spread(Odd(k), f as real, phi);
    Spread(Odd(k), phi, psi);
    assert k > 0 by { assert Odd(0) * psi < 0.5; }
  }

  lemma OddCast(k: nat, f: nat)
    ensures ((2 * k + 1) * f) as real == Odd(k) * f as real
    ensures (2 * k + 1) * f >= 0
  {
    assert (2 * k + 1) as real == Odd(k);
  }

  lemma Spread(m: real, a: real, b: real)
    ensures m * (a + b) == m * a + m * b
  {
  }

  /**
   * 200% is the exact threshold: for every rate above it some gross, in every currency, has a
   * miss of two units or more under half-up.
   */
  lemma RetaxThresholdSharp(ratePct: real, currency: string) returns (input: LineInput)
    requires ratePct > 200.0
    ensures input.taxRatePct == Some(ratePct) && input.taxComputation == Some(Inclusive)
    ensures input.currency == currency && input.Mode() == HalfUp && input.Gross() >= 0.0
    ensures LineAmounts(input).Some? && Miss(input) >= 2
  {
    var rate := ratePct / 100.0;
    var scale := Scale(currency);
    var g := SharpGross(rate);
    input := LineInput(1.0, AmountAt(g, scale), None, Some(ratePct), Some(Inclusive), currency, None);
    assert input.Gross() == AmountAt(g, scale);
    RoundAtFixed(g, scale, HalfUp);
    SplitInUnits(g, Some(rate), Some(Inclusive), scale, HalfUp);
  }

  /** With rate 2 + 2e, the multiple found for 1 / 4e gives the net and the gross. */
  lemma SharpGross(rate: real) returns (g: nat)
    requires rate > 2.0
    ensures var net := NetWithin(g, rate, HalfUp);
            TaxOn(net, rate, HalfUp) - (g - net) >= 2
  {
    var e := (rate - 2.0) / 2.0;
    var theta := 1.0 / (4.0 * e);
    assert theta * (4.0 * e) == 1.0 && theta > 0.0;
    var j, n := OddMultipleBelow(theta);
    g := 3 * n - 1 + j;
    var u := 2.0 * n as real * e - j as real - 0.5;
    OvershootBounds(n as real, j as real, e, theta, u);
    Products(n as real, e, u, j as real);
    SharpAt(n, g, rate, e, u);
  }

  lemma OvershootBounds(n: real, j: real, e: real, theta: real, u: real)
    requires e > 0.0 && theta * (4.0 * e) == 1.0
    requires 0.0 <= n - (2.0 * j + 1.0) * theta <= 0.5
    requires u == 2.0 * n * e - j - 0.5
    ensures 0.0 <= u <= e
  {
    var gap := n - (2.0 * j + 1.0) * theta;
    assert 2.0 * e * ((2.0 * j + 1.0) * theta) == (2.0 * j + 1.0) * (2.0 * e * theta);
    assert 2.0 * e * theta == 0.5;
    assert 2.0 * e * gap == 2.0 * n * e - (2.0 * j + 1.0) * 0.5;
    assert u == 2.0 * e * gap;
    assert 0.0 <= 2.0 * e * gap <= 2.0 * e * 0.5;
  }

  lemma Products(n: real, e: real, u: real, j: real)
    requires u == 2.0 * n * e - j - 0.5
    ensures (n - 0.5) * (3.0 + 2.0 * e) == 3.0 * n - 1.0 + j + u - e
    ensures n * (2.0 + 2.0 * e) == 2.0 * n + j + 0.5 + u
  {
  }

  lemma SharpAt(n: nat, g: int, rate: real, e: real, u: real)
    requires n > 0 && g >= n && e > 0.0 && rate == 2.0 + 2.0 * e && 0.0 <= u <= e
    requires (n as real - 0.5) * (3.0 + 2.0 * e) == g as real + u - e
    requires n as real * rate == (g - n) as real + 1.5 + u
    ensures NetWithin(g, rate, HalfUp) == n && TaxOn(n, rate, HalfUp) >= g - n + 2
  {
    SharpNet(n, g, rate, 3.0 + 2.0 * e, g as real / (1.0 + rate), e - u);
    SharpTax(n, g, rate, n as real * rate);
  }

  lemma SharpNet(n: nat, g: int, rate: real, d: real, share: real, gap: real)
    requires n > 0 && d == 1.0 + rate && d > 0.0 && share == g as real / (1.0 + rate)
    requires (n as real - 0.5) * d == g as real - gap && 0.0 <= gap < d
    ensures NetWithin(g, rate, HalfUp) == n
  {
    assert share * d == g as real;
    ShareNear(n as real, share, d, g as real);
    RoundIsTheOne(HalfUp, share, n);
    NetWithinIs(g, rate, HalfUp, share);
  }

  lemma SharpTax(n: nat, g: int, rate: real, x: real)
    requires x == n as real * rate && x >= (g - n) as real + 1.5 && g - n >= 0
    ensures TaxOn(n, rate, HalfUp) >= g - n + 2
  {
    RoundIsTheOne(HalfUp, (g - n) as real + 1.5, g - n + 2);
    RoundMonotone(HalfUp, (g - n) as real + 1.5, x);
    TaxOnIs(n, rate, HalfUp, x);
  }

  lemma ShareNear(n: real, share: real, d: real, g: real)
    requires d > 0.0 && share * d == g && 0.0 <= g - (n - 0.5) * d < d
    ensures -0.5 <= share - n < 0.5
  {
    var z := share - n + 0.5;
    assert z * d == g - (n - 0.5) * d;
    UnitPart(z, d, z * d);
  }

  lemma UnitPart(z: real, d: real, w: real)
    requires d > 0.0 && z * d == w && 0.0 <= w < d
    ensures 0.0 <= z < 1.0
  {
    SameSign(z, d);
    SameSign(z - 1.0, d);
    assert (z - 1.0) * d == w - d;
  }

  // ------------------------------------------------------------- FX residual

  datatype FxKind = Loss | Gain | NoResidual
  datatype Residual = Residual(kind: FxKind, amount: real)

  /** The plug that balances a cross-currency transfer: a loss is debited, a gain credited. */
  function FxResidual(fromBase: real, toBase: real): (r: Residual)
    ensures r.amount >= 0.0 && (r.kind == NoResidual <==> r.amount == 0.0)
    ensures toBase + (if r.kind == Loss then r.amount else 0.0) == fromBase + (if r.kind == Gain then r.amount else 0.0)
  {
    var residual := fromBase - toBase;
    if residual == 0.0 then Residual(NoResidual, 0.0)
    else if residual > 0.0 then Residual(Loss, residual)
    else Residual(Gain, -residual)
  }
}

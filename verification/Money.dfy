/**
 * Currency rounding, base conversion and the balancing tolerance (src/lib/money.ts).
 *
 * Decimals are exact reals. A rounded amount is the integer number of minor units it holds.
 */
module Money {
  import opened Common

  datatype RoundingMode = HalfUp | HalfEven | Down | Up

  predicate Nearest(mode: RoundingMode) {
    mode == HalfUp || mode == HalfEven
  }

  // ------------------------------------------------------------------ rounding

  /** decimal.js rounding to an integer: ties and directions are symmetric about zero. */
  function Round(mode: RoundingMode, x: real): int {
    if x < 0.0 then -RoundAbs(mode, -x) else RoundAbs(mode, x)
  }

  function RoundAbs(mode: RoundingMode, x: real): (n: int)
    requires x >= 0.0
    ensures n >= 0
  {
    var low := x.Floor;
    var frac := x - low as real;
    match mode
    case Down => low
    case Up => if frac > 0.0 then low + 1 else low
    case HalfUp => if frac >= 0.5 then low + 1 else low
    case HalfEven => if frac > 0.5 || (frac == 0.5 && low % 2 == 1) then low + 1 else low
  }

  /** What each policy promises, without saying how the integer is found. */
  predicate Rounds(mode: RoundingMode, x: real, n: int) {
    var e := n as real - x;
    match mode
    case Down => AbsR(n as real) <= AbsR(x) < AbsR(n as real) + 1.0 && (n != 0 ==> (n > 0 <==> x > 0.0))
    case Up => AbsR(n as real) - 1.0 < AbsR(x) <= AbsR(n as real) && (n != 0 ==> (n > 0 <==> x > 0.0))
    case HalfUp => AbsR(e) <= 0.5 && (AbsR(e) == 0.5 ==> AbsR(n as real) > AbsR(x))
    case HalfEven => AbsR(e) <= 0.5 && (AbsR(e) == 0.5 ==> n % 2 == 0)
  }

  /** Each policy determines one integer, and `Round` is it. */
  lemma RoundIsTheOne(mode: RoundingMode, x: real, n: int)
    ensures Rounds(mode, x, n) <==> n == Round(mode, x)
  {
    RoundMeets(mode, x);
    if Rounds(mode, x, n) { RoundsUnique(mode, x, n, Round(mode, x)); }
  }

  lemma RoundAbsMeets(mode: RoundingMode, x: real)
    requires x >= 0.0
    ensures Rounds(mode, x, RoundAbs(mode, x))
  {
    var low := x.Floor;
    assert low as real <= x < (low + 1) as real;
    match mode
    case Down =>
    case Up =>
    case HalfUp =>
    case HalfEven =>
      assert low % 2 == 1 ==> (low + 1) % 2 == 0;
  }

  lemma RoundsMirror(mode: RoundingMode, x: real, n: int)
    requires Rounds(mode, x, n)
    ensures Rounds(mode, -x, -n)
  {
    assert AbsR((-n) as real - (-x)) == AbsR(n as real - x);
  }

  lemma RoundMeets(mode: RoundingMode, x: real)
    ensures Rounds(mode, x, Round(mode, x))
  {
    if x < 0.0 {
      RoundAbsMeets(mode, -x);
      RoundsMirror(mode, -x, RoundAbs(mode, -x));
    } else {
      RoundAbsMeets(mode, x);
    }
  }

  lemma RoundsUnique(mode: RoundingMode, x: real, n: int, m: int)
    requires Rounds(mode, x, n) && Rounds(mode, x, m)
    ensures n == m
  {
    assert -2.0 < (n - m) as real < 2.0;
    match mode
    case Down => case Up => case HalfUp => case HalfEven =>
  }

  lemma RoundWhole(mode: RoundingMode, n: int)
    ensures Round(mode, n as real) == n
  {
    RoundIsTheOne(mode, n as real, n);
  }

  lemma RoundNear(mode: RoundingMode, x: real)
    ensures AbsR(Round(mode, x) as real - x) < 1.0
    ensures Nearest(mode) ==> AbsR(Round(mode, x) as real - x) <= 0.5
    ensures mode == HalfUp && x >= 0.0 ==> -0.5 < Round(mode, x) as real - x
  {
    RoundMeets(mode, x);
  }

  /** An integer strictly within half a unit is the nearest one. */
  lemma RoundWithinHalf(mode: RoundingMode, x: real, n: int)
    requires Nearest(mode) && AbsR(n as real - x) < 0.5
    ensures Round(mode, x) == n
  {
    RoundIsTheOne(mode, x, n);
  }

  lemma RoundMonotone(mode: RoundingMode, x: real, y: real)
    requires x <= y
    ensures Round(mode, x) <= Round(mode, y)
  {
    RoundMeets(mode, x);
    RoundMeets(mode, y);
    var n, m := Round(mode, x), Round(mode, y);
    if n > m {
      assert (n - m) as real >= 1.0;
      RoundNear(mode, x);
      RoundNear(mode, y);
      match mode
      case Down => case Up => case HalfUp => case HalfEven =>
    }
  }

  // ------------------------------------------------------------- minor units

  function ToUpper(s: string): string {
    seq(|s|, i requires 0 <= i < |s| => if 'a' <= s[i] <= 'z' then s[i] - 32 as char else s[i])
  }

  function MinorUnits(currency: string): nat {
    var c := ToUpper(currency);
    if c in {"KWD", "BHD", "OMR", "TND", "JOD", "LYD"} then 3
    else if c in {"JPY", "KRW", "VND", "CLP", "ISK"} then 0
    else 2
  }

  /** Minor units in one major unit. */
  function Scale(currency: string): (s: real)
    ensures s >= 1.0
  {
    match MinorUnits(currency)
    case 0 => 1.0
    case 2 => 100.0
    case _ => 1000.0
  }

  function AmountAt(units: int, scale: real): real
    requires scale >= 1.0
  {
    units as real / scale
  }

  function Amount(units: int, currency: string): real {
    AmountAt(units, Scale(currency))
  }

  /** Rounded amount, counted in units of which `scale` make one. */
  function RoundAt(amount: real, scale: real, mode: RoundingMode): int {
    Round(mode, amount * scale)
  }

  function RoundMoney(amount: real, currency: string, mode: RoundingMode): int {
    RoundAt(amount, Scale(currency), mode)
  }

  /** Kuwait and its like have three decimal places, Japan and its like none, all others two. */
  lemma MinorUnitsTable(currency: string)
    ensures ToUpper(currency) in {"KWD", "BHD", "OMR", "TND", "JOD", "LYD"} <==> MinorUnits(currency) == 3 && Scale(currency) == 1000.0
    ensures ToUpper(currency) in {"JPY", "KRW", "VND", "CLP", "ISK"} <==> MinorUnits(currency) == 0 && Scale(currency) == 1.0
    ensures MinorUnits(currency) in {0, 2, 3} && (MinorUnits(currency) == 2 <==> Scale(currency) == 100.0)
  {
    var three := {"KWD", "BHD", "OMR", "TND", "JOD", "LYD"};
    var none := {"JPY", "KRW", "VND", "CLP", "ISK"};
    forall c | c in three ensures c !in none { assert c[0] in {'K', 'B', 'O', 'T', 'J', 'L'} && c[1] in {'W', 'H', 'M', 'N', 'O', 'Y'}; }
  }

  lemma UpperOnce(currency: string)
    ensures ToUpper(ToUpper(currency)) == ToUpper(currency)
  {
  }

  /** The case in which a currency is written does not matter. */
  lemma CaseIsIgnored(a: string, b: string)
    requires |a| == |b| && forall i :: 0 <= i < |a| ==> a[i] == b[i] || ('a' <= a[i] <= 'z' && b[i] as int == a[i] as int - 32)
    ensures MinorUnits(a) == MinorUnits(b)
  {
    assert ToUpper(a) == ToUpper(b);
  }

  /** Rounding at a scale, read as rounding the amount counted in units. */
  lemma RoundAtIs(amount: real, scale: real, units: real, mode: RoundingMode)
    requires amount * scale == units
    ensures RoundAt(amount, scale, mode) == Round(mode, units)
  {
  }

  /** A rounded amount is what its policy promises of the amount counted in minor units. */
  lemma RoundedAmount(amount: real, currency: string, mode: RoundingMode, units: real)
    requires units == amount * Scale(currency)
    ensures Rounds(mode, units, RoundMoney(amount, currency, mode))
  {
    RoundAtIs(amount, Scale(currency), units, mode);
    RoundMeets(mode, units);
  }

  /** And a conversion, what it promises of amount times rate. */
  lemma ConvertedAmount(amount: real, rate: real, currency: string, mode: RoundingMode, units: real)
    requires units == amount * rate * Scale(currency)
    ensures Rounds(mode, units, ToBase(amount, rate, currency, mode))
  {
    RoundedAmount(amount * rate, currency, mode, units);
  }

  /** Rounding an amount that is already whole in its currency changes nothing. */
  lemma RoundAtFixed(units: int, scale: real, mode: RoundingMode)
    requires scale >= 1.0
    ensures RoundAt(AmountAt(units, scale), scale, mode) == units
  {
    assert AmountAt(units, scale) * scale == units as real;
    RoundWhole(mode, units);
  }

  function ToBase(amount: real, rate: real, baseCurrency: string, mode: RoundingMode): int {
    RoundMoney(amount * rate, baseCurrency, mode)
  }

  /** One minor unit (the source's comment says half of one). */
  function BalancingTolerance(baseCurrency: string): real {
    1.0 / Scale(baseCurrency)
  }

  predicate Balances(totalDebit: real, totalCredit: real, baseCurrency: string) {
    AbsR(totalDebit - totalCredit) <= BalancingTolerance(baseCurrency)
  }

  lemma BalancesInUnits(debit: int, credit: int, baseCurrency: string)
    ensures Balances(Amount(debit, baseCurrency), Amount(credit, baseCurrency), baseCurrency)
            <==> Abs(debit - credit) <= 1
  {
    var s := Scale(baseCurrency);
    var d := Amount(debit, baseCurrency) - Amount(credit, baseCurrency);
    assert d * s == (debit - credit) as real;
    assert AbsR(d) * s == AbsR((debit - credit) as real);
    assert AbsR(d) <= 1.0 / s <==> AbsR(d) * s <= 1.0;
  }

  // -------------------------------------------------- drift of a converted journal

  datatype Line = Line(amount: real, debit: bool)

  /** Debits minus credits in transaction currency. */
  function Net(lines: seq<Line>): real {
    if lines == [] then 0.0
    else (if lines[0].debit then lines[0].amount else -lines[0].amount) + Net(lines[1..])
  }

  /** How one line is converted to base minor units. */
  function Conversion(rate: real, base: string, mode: RoundingMode): real -> int {
    amount => ToBase(amount, rate, base, mode)
  }

  /** Total of one side, each line converted and rounded on its own, in minor units. */
  function BaseTotal(lines: seq<Line>, debit: bool, conv: real -> int): int {
    if lines == [] then 0
    else (if lines[0].debit == debit then conv(lines[0].amount) else 0) + BaseTotal(lines[1..], debit, conv)
  }

  function Drift(lines: seq<Line>, conv: real -> int): int {
    BaseTotal(lines, true, conv) - BaseTotal(lines, false, conv)
  }

  function SideCount(lines: seq<Line>, debit: bool): nat {
    if lines == [] then 0 else (if lines[0].debit == debit then 1 else 0) + SideCount(lines[1..], debit)
  }

  predicate NonNegative(lines: seq<Line>) {
    forall l :: l in lines ==> l.amount >= 0.0
  }

  lemma {:induction false} SidesAddUp(lines: seq<Line>)
    ensures SideCount(lines, true) + SideCount(lines, false) == |lines|
  {
    if lines != [] { SidesAddUp(lines[1..]); }
  }

  function Signed(l: Line, x: real): real {
    if l.debit then x else -x
  }

  /** The drift before any rounding, in minor units. */
  function ExactDrift(lines: seq<Line>, factor: real): real {
    if lines == [] then 0.0 else Signed(lines[0], lines[0].amount * factor) + ExactDrift(lines[1..], factor)
  }

  lemma {:induction false} ExactDriftIsNet(lines: seq<Line>, factor: real)
    ensures ExactDrift(lines, factor) == Net(lines) * factor
  {
    if lines != [] {
      ExactDriftIsNet(lines[1..], factor);
      var a, rest := lines[0].amount, Net(lines[1..]);
      assert (a + rest) * factor == a * factor + rest * factor;
      assert (-a + rest) * factor == -(a * factor) + rest * factor;
    }
  }

  /** The conversion misses `amount` times the factor by at most half a unit. */
  predicate Near(conv: real -> int, factor: real, amount: real) {
    AbsR(conv(amount) as real - amount * factor) <= 0.5
  }

  /** A non-negative amount loses less than half a unit, and nothing stays nothing. */
  predicate NeverHalfDown(conv: real -> int, factor: real, amount: real) {
    amount >= 0.0 ==> -0.5 < conv(amount) as real - amount * factor
  }

  lemma ConversionNear(rate: real, base: string, mode: RoundingMode, amount: real, factor: real)
    requires Nearest(mode) && factor == rate * Scale(base)
    ensures Near(Conversion(rate, base, mode), factor, amount)
    ensures mode == HalfUp && rate >= 0.0 ==> NeverHalfDown(Conversion(rate, base, mode), factor, amount)
  {
    ToBaseNear(amount, rate, base, mode, factor);
  }

  lemma ToBaseNear(amount: real, rate: real, base: string, mode: RoundingMode, factor: real)
    requires Nearest(mode) && factor == rate * Scale(base)
    ensures AbsR(ToBase(amount, rate, base, mode) as real - amount * factor) <= 0.5
    ensures mode == HalfUp && amount >= 0.0 && rate >= 0.0 ==>
              -0.5 < ToBase(amount, rate, base, mode) as real - amount * factor
  {
    ConvertedUnits(amount, rate, Scale(base));
    RoundAtIs(amount * rate, Scale(base), amount * factor, mode);
    RoundNear(mode, amount * factor);
  }

  lemma ConvertedUnits(amount: real, rate: real, scale: real)
    requires scale >= 1.0
    ensures amount * rate * scale == amount * (rate * scale)
    ensures amount >= 0.0 && rate >= 0.0 ==> amount * (rate * scale) >= 0.0
  {
    if amount >= 0.0 && rate >= 0.0 {
      assert rate * scale >= 0.0;
    }
  }

  /** One more line: its own error joins the error of the rest. */
  lemma ErrorsAdd(debit: bool, b: int, x: real, rest: int, exact: real, n: nat)
    requires AbsR(b as real - x) <= 0.5
    requires -0.5 * n as real <= rest as real - exact <= 0.5 * n as real
    ensures var e := (rest + if debit then b else -b) as real - (exact + if debit then x else -x);
            var m := 0.5 * (n + 1) as real;
            && -m <= e <= m
            && (-0.5 < b as real - x && e == m ==> debit && rest as real - exact == 0.5 * n as real)
            && (-0.5 < b as real - x && e == -m ==> !debit && rest as real - exact == -0.5 * n as real)
  {
  }

  /** What the first line adds: `b` units after rounding, `x` before. */
  lemma FirstLine(lines: seq<Line>, conv: real -> int, factor: real, b: int, x: real)
    requires lines != [] && b == conv(lines[0].amount) && x == lines[0].amount * factor
    ensures Drift(lines, conv) == Drift(lines[1..], conv) + if lines[0].debit then b else -b
    ensures ExactDrift(lines, factor) == ExactDrift(lines[1..], factor) + if lines[0].debit then x else -x
  {
  }

  /** The drift misses the exact conversion by at most half a unit a line. */
  lemma {:induction false} DriftNear(lines: seq<Line>, conv: real -> int, factor: real)
    requires forall x :: Near(conv, factor, x)
    ensures var d := Drift(lines, conv) as real - ExactDrift(lines, factor);
            -0.5 * |lines| as real <= d <= 0.5 * |lines| as real
  {
    if lines != [] {
      var rest, b, x := lines[1..], conv(lines[0].amount), lines[0].amount * factor;
      DriftNear(rest, conv, factor);
      assert Near(conv, factor, lines[0].amount);
      FirstLine(lines, conv, factor, b, x);
      ErrorsAdd(lines[0].debit, b, x, Drift(rest, conv), ExactDrift(rest, factor), |rest|);
    }
  }

  /** `d` is at most half a unit a line off, and fully so only when all lines are on one side. */
  predicate StrictlyNear(d: real, n: nat, debits: nat, credits: nat) {
    && -0.5 * n as real <= d <= 0.5 * n as real
    && (d == 0.5 * n as real ==> credits == 0)
    && (d == -0.5 * n as real ==> debits == 0)
  }

  lemma StrictErrorsAdd(debit: bool, b: int, x: real, rest: int, exact: real, n: nat, debits: nat, credits: nat)
    requires AbsR(b as real - x) <= 0.5 && -0.5 < b as real - x
    requires StrictlyNear(rest as real - exact, n, debits, credits)
    ensures StrictlyNear((rest + if debit then b else -b) as real - (exact + if debit then x else -x), n + 1,
                         debits + (if debit then 1 else 0), credits + (if debit then 0 else 1))
  {
    ErrorsAdd(debit, b, x, rest, exact, n);
  }

  /** When no line rounds down by a full half, the bound is met on one-sided journals only. */
  lemma {:induction false} DriftStrict(lines: seq<Line>, conv: real -> int, factor: real)
    requires NonNegative(lines) && forall x :: Near(conv, factor, x) && NeverHalfDown(conv, factor, x)
    ensures StrictlyNear(Drift(lines, conv) as real - ExactDrift(lines, factor), |lines|, SideCount(lines, true), SideCount(lines, false))
  {
    if lines != [] {
      var rest, b, x := lines[1..], conv(lines[0].amount), lines[0].amount * factor;
      assert lines[0] in lines && forall k :: k in rest ==> k in lines;
      DriftStrict(rest, conv, factor);
      assert Near(conv, factor, lines[0].amount) && NeverHalfDown(conv, factor, lines[0].amount);
      FirstLine(lines, conv, factor, b, x);
      StrictErrorsAdd(lines[0].debit, b, x, Drift(rest, conv), ExactDrift(rest, factor), |rest|,
                      SideCount(rest, true), SideCount(rest, false));
    }
  }

  lemma {:induction false} OneSided(lines: seq<Line>, debit: bool, conv: real -> int)
    requires NonNegative(lines) && SideCount(lines, !debit) == 0 && conv(0.0) == 0
    ensures if debit then Net(lines) >= 0.0 else Net(lines) <= 0.0
    ensures Net(lines) == 0.0 ==> Drift(lines, conv) == 0
  {
    if lines != [] {
      assert lines[0] in lines && forall k :: k in lines[1..] ==> k in lines;
      OneSided(lines[1..], debit, conv);
    }
  }

  predicate BaseBalances(lines: seq<Line>, rate: real, base: string, mode: RoundingMode) {
    var conv := Conversion(rate, base, mode);
    Balances(Amount(BaseTotal(lines, true, conv), base), Amount(BaseTotal(lines, false, conv), base), base)
  }

  lemma HalfBound(d: int, n: nat)
    requires -0.5 * n as real <= d as real <= 0.5 * n as real
    ensures Abs(d) <= n / 2
    ensures Abs(d) == n / 2 && n % 2 == 0 ==> d as real == 0.5 * n as real || d as real == -0.5 * n as real
  {
    assert (2 * Abs(d)) as real <= n as real;
  }

  lemma DriftBound(lines: seq<Line>, conv: real -> int, factor: real)
    requires Net(lines) == 0.0 && forall x :: Near(conv, factor, x)
    ensures Abs(Drift(lines, conv)) <= |lines| / 2
  {
    DriftNear(lines, conv, factor);
    ExactDriftIsNet(lines, factor);
    HalfBound(Drift(lines, conv), |lines|);
  }

  lemma FourLines(lines: seq<Line>, conv: real -> int, factor: real)
    requires NonNegative(lines) && Net(lines) == 0.0 && |lines| == 4
    requires conv(0.0) == 0 && forall x :: Near(conv, factor, x) && NeverHalfDown(conv, factor, x)
    ensures Abs(Drift(lines, conv)) <= 1
  {
    DriftBound(lines, conv, factor);
    ExactDriftIsNet(lines, factor);
    DriftStrict(lines, conv, factor);
    HalfBound(Drift(lines, conv), 4);
    if SideCount(lines, false) == 0 { OneSided(lines, true, conv); }
    if SideCount(lines, true) == 0 { OneSided(lines, false, conv); }
  }

  lemma NothingConverts(rate: real, base: string, mode: RoundingMode)
    ensures Conversion(rate, base, mode)(0.0) == 0
  {
    RoundAtIs(0.0 * rate, Scale(base), 0.0, mode);
    RoundWhole(mode, 0);
  }

  /**
   * A journal that balances in transaction currency, converted line by line at one rate:
   * the two base totals differ by at most floor(n/2) minor units, so the balance check
   * accepts every journal of at most 3 lines, or of at most 4 under half-up.
   */
  lemma ConversionDrift(lines: seq<Line>, rate: real, base: string, mode: RoundingMode)
    requires Nearest(mode) && NonNegative(lines) && rate >= 0.0 && Net(lines) == 0.0
    ensures Abs(Drift(lines, Conversion(rate, base, mode))) <= |lines| / 2
    ensures |lines| <= 3 || (mode == HalfUp && |lines| <= 4) ==> BaseBalances(lines, rate, base, mode)
  {
    var conv, factor := Conversion(rate, base, mode), rate * Scale(base);
    forall x
      ensures Near(conv, factor, x) && (mode == HalfUp ==> NeverHalfDown(conv, factor, x))
    {
      ConversionNear(rate, base, mode, x, factor);
    }
    DriftBound(lines, conv, factor);
    BalancesInUnits(BaseTotal(lines, true, conv), BaseTotal(lines, false, conv), base);
    if mode == HalfUp && |lines| == 4 {
      NothingConverts(rate, base, mode);
      FourLines(lines, conv, factor);
    }
  }

  lemma YenBase(x: real, mode: RoundingMode, n: int)
    requires Rounds(mode, x, n)
    ensures Conversion(1.0, "JPY", mode)(x) == n
  {
    assert ToUpper("JPY") == "JPY";
    RoundAtIs(x * 1.0, Scale("JPY"), x, mode);
    RoundIsTheOne(mode, x, n);
  }

  /** The line counts are sharp: under half-even four lines can fail. */
  lemma FourLinesFailHalfEven() returns (lines: seq<Line>)
    ensures |lines| == 4 && Net(lines) == 0.0 && NonNegative(lines)
    ensures !BaseBalances(lines, 1.0, "JPY", HalfEven)
  {
    var conv := Conversion(1.0, "JPY", HalfEven);
    YenBase(1.5, HalfEven, 2);
    YenBase(0.5, HalfEven, 0);
    YenBase(2.5, HalfEven, 2);
    var t3 := [Line(2.5, false)];
    var t2 := [Line(0.5, false)] + t3;
    var t1 := [Line(1.5, true)] + t2;
    lines := [Line(1.5, true)] + t1;
    assert t2[1..] == t3 && t1[1..] == t2 && lines[1..] == t1;
    assert Net(t3) == -2.5 && Net(t2) == -3.0 && Net(t1) == -1.5;
    assert BaseTotal(t3, true, conv) == 0 && BaseTotal(t3, false, conv) == 2;
    assert BaseTotal(t2, true, conv) == 0 && BaseTotal(t2, false, conv) == 2;
    assert BaseTotal(t1, true, conv) == 2 && BaseTotal(t1, false, conv) == 2;
    BalancesInUnits(4, 2, "JPY");
  }

  /** Under half-up five lines can. */
  lemma FiveLinesFailHalfUp() returns (lines: seq<Line>)
    ensures |lines| == 5 && Net(lines) == 0.0 && NonNegative(lines)
    ensures !BaseBalances(lines, 1.0, "JPY", HalfUp)
  {
    var conv := Conversion(1.0, "JPY", HalfUp);
    var t4 := [Line(1.25, false)];
    var t3 := [Line(0.25, false)] + t4;
    var t2 := [Line(0.5, true)] + t3;
    var t1 := [Line(0.5, true)] + t2;
    lines := [Line(0.5, true)] + t1;
    YenBase(0.5, HalfUp, 1);
    YenBase(0.25, HalfUp, 0);
    YenBase(1.25, HalfUp, 1);
    assert t3[1..] == t4 && t2[1..] == t3 && t1[1..] == t2 && lines[1..] == t1;
    assert Net(t4) == -1.25 && Net(t3) == -1.5 && Net(t2) == -1.0 && Net(t1) == -0.5;
    assert BaseTotal(t4, true, conv) == 0 && BaseTotal(t4, false, conv) == 1;
    assert BaseTotal(t3, true, conv) == 0 && BaseTotal(t3, false, conv) == 1;
    assert BaseTotal(t2, true, conv) == 1 && BaseTotal(t2, false, conv) == 1;
    assert BaseTotal(t1, true, conv) == 2 && BaseTotal(t1, false, conv) == 1;
    BalancesInUnits(3, 1, "JPY");
  }
}

/** decimal.ts: the admin form's decimal strings, checked against the arithmetic the server does. */
module DecimalForm {
  import opened Text
  import opened LoyaltyRules
  import Money

  const SCALE: nat := 4
  const ONE: nat := 10_000

  function Pow10(n: nat): (p: nat)
    ensures p > 0
  {
    if n == 0 then 1 else 10 * Pow10(n - 1)
  }

  function Zeros(n: nat): (s: string)
    ensures |s| == n && AllDigits(s)
  {
    if n == 0 then "" else Zeros(n - 1) + "0"
  }

  // ---- Reading the input ----

  /** White space and line terminators as String.prototype.trim removes them. */
  predicate IsSpace(c: char) {
    || '\U{0009}' <= c <= '\U{000D}' || c == ' ' || c == '\U{00A0}' || c == '\U{1680}'
    || '\U{2000}' <= c <= '\U{200A}' || c == '\U{2028}' || c == '\U{2029}' || c == '\U{202F}'
    || c == '\U{205F}' || c == '\U{3000}' || c == '\U{FEFF}'
  }

  function Trim(s: string): string {
    if s != "" && IsSpace(s[0]) then Trim(s[1..])
    else if s != "" && IsSpace(s[|s| - 1]) then Trim(s[..|s| - 1])
    else s
  }

  /** Index of the first c in s, or |s|. */
  function Find(s: string, c: char): (i: nat)
    ensures i <= |s| && c !in s[..i] && (i < |s| ==> s[i] == c)
  {
    if s == "" || s[0] == c then 0
    else
      var i := 1 + Find(s[1..], c);
      assert s[..i] == [s[0]] + s[1..][..i - 1];
      i
  }

  function NormalizeDecimal(input: string): string {
    var s := Trim(input);
    var i := Find(s, ',');
    if i < |s| then s[..i] + "." + s[i + 1..] else s
  }

  /** The first two parts of value.split('.'), a missing one being "". */
  function IntPart(value: string): string {
    value[..Find(value, '.')]
  }

  function FracPart(value: string): string {
    var i := Find(value, '.');
    if i < |value| then value[i + 1..][..Find(value[i + 1..], '.')] else ""
  }

  /** The pattern of one or more digits, optionally a dot and one or more digits. */
  predicate IsDecimal(value: string) {
    var i := Find(value, '.');
    && 0 < i && AllDigits(value[..i])
    && (i < |value| ==> i + 1 < |value| && AllDigits(value[i + 1..]))
  }

  /** What toScaled is meant for: a canonical non-negative decimal, up to surrounding spaces and a comma. */
  predicate Readable(input: string) {
    IsDecimal(NormalizeDecimal(input))
  }

  lemma DecimalParts(value: string)
    requires IsDecimal(value)
    ensures IntPart(value) != "" && AllDigits(IntPart(value)) && AllDigits(FracPart(value))
    ensures value == IntPart(value) + (if FracPart(value) == "" then "" else "." + FracPart(value))
  {
    var i := Find(value, '.');
    if i < |value| {
      var tail := value[i + 1..];
      assert forall k | 0 <= k < |tail| :: IsDigit(tail[k]) && tail[k] != '.';
      assert FracPart(value) == tail;
    }
  }

  // ---- Scaled integers ----

  function PadEnd(s: string, n: nat): string {
    if |s| < n then s + Zeros(n - |s|) else s
  }

  function ToScaled(input: string): nat
    requires Readable(input)
  {
    var value := NormalizeDecimal(input);
    DecimalParts(value);
    Value(IntPart(value)) * ONE + Value(PadEnd(FracPart(value), SCALE)[..SCALE])
  }

  datatype Cap = Uncapped | Capped(points: int)

  function ScaledAccrual(amount: nat, percent: nat, minPurchase: nat): nat {
    if amount < minPurchase then 0 else amount * percent / (100 * ONE * ONE)
  }

  function ScaledCap(amount: nat, percent: nat, rate: nat): Cap {
    if percent == 0 || rate == 0 then Uncapped else Capped(amount * percent / (100 * ONE * rate))
  }

  function AccruedPoints(amount: string, percent: string, minPurchase: string): nat
    requires Readable(amount) && Readable(percent) && Readable(minPurchase)
  {
    ScaledAccrual(ToScaled(amount), ToScaled(percent), ToScaled(minPurchase))
  }

  function MaxRedeemablePoints(amount: string, percent: string, rate: string): Cap
    requires Readable(amount) && Readable(percent) && Readable(rate)
  {
    ScaledCap(ToScaled(amount), ToScaled(percent), ToScaled(rate))
  }

  lemma ScaledCapIsRedeemCap(a: nat, q: nat, r: nat)
    requires q > 0 && 0 < r < 10_000_000_000
    ensures a * q / (100 * r) < Money.INT64_LIMIT
       <==> ScaledCap(100 * a, 100 * q, r) == Capped(Money.RedeemCap(a, q, r))
  {
    Money.RedeemCapExact(a, q, r);
    var x := a * q;
    assert 100 * a * (100 * q) == x * 10_000;
    Money.ScaledDivision(x, 100 * r, 10_000);
    assert ScaledCap(100 * a, 100 * q, r) == Capped(x / (100 * r));
  }

  lemma ScaledAccrualIsMechanic(a: nat, q: nat, m: nat)
    requires a < 100_000_000_000_000_000_000 && q <= 10_000
    ensures ScaledAccrual(100 * a, 100 * q, 100 * m) == Money.Accrued(a, q, m)
  {
    Money.AccruedExact(a, q, m);
    var x := a * q;
    assert 100 * a * (100 * q) == x * 10_000;
    Money.ScaledDivision(x, 1_000_000, 10_000);
  }

  /**
   The preview's cap is the cap Redeem applies for every rate the column admits, as long as the cap
   fits the server's int64 and never beyond that.
   */
  lemma PreviewMatchesRedeem(amount: string, percent: string, rate: string, a: nat, q: nat, r: nat)
    requires Readable(amount) && Readable(percent) && Readable(rate)
    requires ToScaled(amount) == 100 * a && ToScaled(percent) == 100 * q && ToScaled(rate) == r
    requires q > 0 && 0 < r < 10_000_000_000
    ensures MaxRedeemablePoints(amount, percent, rate) == Capped(Money.RedeemCap(a, q, r))
       <==> a * q / (100 * r) < Money.INT64_LIMIT
  {
    ScaledCapIsRedeemCap(a, q, r);
  }

  /** The preview's accrual is the mechanic's, for every amount and percent the columns admit. */
  lemma PreviewMatchesMechanic(amount: string, percent: string, minPurchase: string, a: nat, q: nat, m: nat)
    requires Readable(amount) && Readable(percent) && Readable(minPurchase)
    requires ToScaled(amount) == 100 * a && ToScaled(percent) == 100 * q && ToScaled(minPurchase) == 100 * m
    requires a < 100_000_000_000_000_000_000 && q <= 10_000
    ensures AccruedPoints(amount, percent, minPurchase) == Money.Accrued(a, q, m)
  {
    ScaledAccrualIsMechanic(a, q, m);
  }

  // ---- Column checks ----

  function StripLeadingZeros(s: string): (r: string)
    requires AllDigits(s)
    ensures AllDigits(r) && Value(r) == Value(s) && (s != "" ==> r != "")
    ensures |r| > 1 ==> r[0] != '0'
  {
    if |s| > 1 && s[0] == '0' then
      ValueConcat("0", s[1..]);
      assert s == "0" + s[1..];
      assert Value("0") == 0;
      StripLeadingZeros(s[1..])
    else s
  }

  predicate FitsNumeric(input: string, precision: nat, scale: nat) {
    var value := NormalizeDecimal(input);
    && IsDecimal(value)
    && (DecimalParts(value);
        |FracPart(value)| <= scale && |StripLeadingZeros(IntPart(value))| <= precision - scale)
  }

  /** A decimal coef / 10^places, as the server parses a decimal string. */
  datatype Decimal = Decimal(coef: nat, places: nat)

  function Parse(value: string): Decimal
    requires IsDecimal(value)
  {
    DecimalParts(value);
    AllDigitsConcat(IntPart(value), FracPart(value));
    Decimal(Value(IntPart(value) + FracPart(value)), |FracPart(value)|)
  }

  /** The server's fitsNumeric: truncating to scale changes nothing, and the value is below 10^(precision-scale). */
  predicate ServerFitsNumeric(d: Decimal, precision: nat, scale: nat)
    requires scale <= precision
  {
    && (d.places <= scale || d.coef % Pow10(d.places - scale) == 0)
    && d.coef < Pow10(precision - scale) * Pow10(d.places)
  }

  lemma AllDigitsConcat(s: string, t: string)
    requires AllDigits(s) && AllDigits(t)
    ensures AllDigits(s + t)
  {
  }

  lemma {:induction false} ValueConcat(s: string, t: string)
    requires AllDigits(s) && AllDigits(t)
    ensures AllDigits(s + t) && Value(s + t) == Value(s) * Pow10(|t|) + Value(t)
  {
    if t == "" {
      assert s + t == s;
    } else {
      var init, last := t[..|t| - 1], t[|t| - 1];
      ValueConcat(s, init);
      assert (s + t)[..|s + t| - 1] == s + init;
      assert (s + t)[|s + t| - 1] == last;
      assert Value(s) * Pow10(|init|) * 10 == Value(s) * Pow10(|t|);
    }
  }

  /** A digit string without leading zeros is below 10^n exactly when it has at most n digits. */
  lemma {:induction false} ValueBounds(s: string)
    requires AllDigits(s) && s != ""
    ensures Value(s) < Pow10(|s|)
    ensures s[0] != '0' ==> Pow10(|s| - 1) <= Value(s)
  {
    var init := s[..|s| - 1];
    if |s| == 1 {
      assert init == "" && Value(init) == 0;
    } else {
      ValueBounds(init);
      assert init[0] == s[0];
    }
  }

  lemma {:induction false} Pow10Monotone(m: nat, n: nat)
    requires m <= n
    ensures Pow10(m) <= Pow10(n)
  {
    if m < n {
      Pow10Monotone(m, n - 1);
    }
  }

  lemma DigitsFit(s: string, n: nat)
    requires AllDigits(s) && s != "" && n > 0
    ensures |StripLeadingZeros(s)| <= n <==> Value(s) < Pow10(n)
  {
    var r := StripLeadingZeros(s);
    ValueBounds(r);
    if |r| <= n {
      Pow10Monotone(|r|, n);
    } else {
      Pow10Monotone(n, |r| - 1);
    }
  }

  /** The form accepts a string exactly when it is a decimal of at most `scale` places that the server accepts. */
  lemma FormAcceptsWhatServerAccepts(input: string, precision: nat, scale: nat)
    requires scale < precision
    ensures FitsNumeric(input, precision, scale)
       <==> && Readable(input)
            && Parse(NormalizeDecimal(input)).places <= scale
            && ServerFitsNumeric(Parse(NormalizeDecimal(input)), precision, scale)
  {
    var value := NormalizeDecimal(input);
    if IsDecimal(value) {
      DecimalParts(value);
      var whole, frac := IntPart(value), FracPart(value);
      ValueConcat(whole, frac);
      FracBelow(frac);
      DigitsFit(whole, precision - scale);
      WholeBelow(Value(whole), Value(frac), Pow10(|frac|), Pow10(precision - scale));
    }
  }

  lemma FracBelow(frac: string)
    requires AllDigits(frac)
    ensures Value(frac) < Pow10(|frac|)
  {
    if frac != "" {
      ValueBounds(frac);
    }
  }

  lemma WholeBelow(w: nat, f: nat, unit: nat, limit: nat)
    requires f < unit
    ensures w * unit + f < limit * unit <==> w < limit
  {
    if w < limit {
      Money.MulLe(w + 1, limit, unit);
    } else {
      Money.MulLe(limit, w, unit);
    }
  }

  // ---- pointsValue ----

  function PadStart(s: string, n: nat): string {
    if |s| < n then Zeros(n - |s|) + s else s
  }

  function StripTrailingZeros(s: string): (r: string)
    requires AllDigits(s)
    ensures AllDigits(r) && |r| <= |s|
    ensures r == s[..|r|]
  {
    if s != "" && s[|s| - 1] == '0' then StripTrailingZeros(s[..|s| - 1]) else s
  }

  /** A scaled integer as a decimal string without trailing zeros. */
  function ScaledText(scaled: nat): string {
    FourDigits(scaled % ONE);
    Joined(Nat(scaled / ONE), StripTrailingZeros(PadStart(Nat(scaled % ONE), SCALE)))
  }

  function PointsValue(points: nat, rate: string): string
    requires Readable(rate)
  {
    Money.MulLe(0, points, ToScaled(rate));
    ScaledText(points * ToScaled(rate))
  }

  lemma {:induction false} ZerosValue(n: nat)
    ensures Value(Zeros(n)) == 0
  {
    if n > 0 {
      assert Zeros(n)[..n - 1] == Zeros(n - 1);
      ZerosValue(n - 1);
    }
  }

  lemma ZeroTimes(x: int, y: int)
    requires x == 0
    ensures x * y == 0
  {
  }

  lemma PadStartKeepsValue(s: string, n: nat)
    requires AllDigits(s) && |s| <= n
    ensures AllDigits(PadStart(s, n)) && |PadStart(s, n)| == n && Value(PadStart(s, n)) == Value(s)
  {
    if |s| < n {
      var zeros := Zeros(n - |s|);
      ZerosValue(n - |s|);
      ValueConcat(zeros, s);
      ZeroTimes(Value(zeros), Pow10(|s|));
    }
  }

  lemma FourDigits(n: nat)
    requires n < ONE
    ensures AllDigits(PadStart(Nat(n), SCALE)) && |PadStart(Nat(n), SCALE)| == SCALE
    ensures Value(PadStart(Nat(n), SCALE)) == n
  {
    assert Pow10(1) == 10 && Pow10(2) == 100 && Pow10(3) == 1_000 && Pow10(4) == ONE;
    NatLength(n, SCALE);
    NatDenotes(n);
    PadStartKeepsValue(Nat(n), SCALE);
  }

  lemma {:induction false} NatLength(n: nat, k: nat)
    requires k > 0 && n < Pow10(k)
    ensures |Nat(n)| <= k
  {
    if n >= 10 {
      TenthBelow(n, Pow10(k - 1));
      NatLength(n / 10, k - 1);
    }
  }

  lemma TenthBelow(n: nat, p: nat)
    requires n < 10 * p
    ensures n / 10 < p
  {
  }

  lemma {:induction false} StrippedPadsBack(s: string)
    requires AllDigits(s)
    ensures PadEnd(StripTrailingZeros(s), |s|) == s
  {
    if s != "" && s[|s| - 1] == '0' {
      var init := s[..|s| - 1];
      StrippedPadsBack(init);
      var r := StripTrailingZeros(init);
      assert s == init + "0";
      if |r| < |init| {
        assert r + Zeros(|s| - |r|) == r + Zeros(|init| - |r|) + "0";
      } else {
        assert Zeros(1) == Zeros(0) + "0" == "0";
      }
    }
  }

  function Joined(whole: string, frac: string): string {
    if frac != "" then whole + "." + frac else whole
  }

  lemma JoinedIsNormal(whole: string, frac: string)
    requires whole != "" && AllDigits(whole) && AllDigits(frac)
    ensures NormalizeDecimal(Joined(whole, frac)) == Joined(whole, frac)
  {
    var value := Joined(whole, frac);
    assert forall i | 0 <= i < |value| :: IsDigit(value[i]) || value[i] == '.';
    assert !IsSpace(value[0]) && !IsSpace(value[|value| - 1]);
    assert Find(value, ',') == |value|;
  }

  lemma FindAfter(whole: string, c: char, rest: string)
    requires c !in whole
    ensures Find(whole + [c] + rest, c) == |whole|
  {
    var s := whole + [c] + rest;
    var i := Find(s, c);
    assert s[|whole|] == c;
    assert forall k | 0 <= k < |whole| :: s[k] == whole[k];
    assert i <= |whole| by {
      assert forall k | 0 <= k < i :: s[..i][k] == s[k] && s[..i][k] != c;
    }
  }

  lemma JoinedSplits(whole: string, frac: string)
    requires whole != "" && AllDigits(whole) && AllDigits(frac)
    ensures IsDecimal(Joined(whole, frac))
    ensures IntPart(Joined(whole, frac)) == whole && FracPart(Joined(whole, frac)) == frac
  {
    var value := Joined(whole, frac);
    if frac == "" {
      assert Find(value, '.') == |value|;
      assert value[..|value|] == value;
    } else {
      FindAfter(whole, '.', frac);
      assert value[..|whole|] == whole && value[|whole| + 1..] == frac;
      assert Find(frac, '.') == |frac|;
      assert frac[..|frac|] == frac;
    }
  }

  /** Writing the value of `points` points and reading it back loses nothing. */
  lemma PointsValueRoundTrip(points: nat, rate: string)
    requires Readable(rate)
    ensures Readable(PointsValue(points, rate))
    ensures ToScaled(PointsValue(points, rate)) == points * ToScaled(rate)
  {
    ScaledRoundTrip(points * ToScaled(rate));
  }

  lemma ScaledOfJoined(whole: string, frac: string)
    requires whole != "" && AllDigits(whole) && AllDigits(frac) && |frac| <= SCALE
    ensures Readable(Joined(whole, frac)) && AllDigits(PadEnd(frac, SCALE))
    ensures ToScaled(Joined(whole, frac)) == Value(whole) * ONE + Value(PadEnd(frac, SCALE))
  {
    JoinedIsNormal(whole, frac);
    JoinedSplits(whole, frac);
    var padded := PadEnd(frac, SCALE);
    assert padded[..SCALE] == padded;
  }

  lemma ScaledRoundTrip(scaled: nat)
    ensures Readable(ScaledText(scaled)) && ToScaled(ScaledText(scaled)) == scaled
  {
    var whole, rest := scaled / ONE, scaled % ONE;
    FourDigits(rest);
    var padded := PadStart(Nat(rest), SCALE);
    NatDenotes(whole);
    StrippedPadsBack(padded);
    ScaledOfJoined(Nat(whole), StripTrailingZeros(padded));
  }

  // ---- The rules a form sends ----

  lemma PaddedFraction(frac: string)
    requires AllDigits(frac) && |frac| <= SCALE
    ensures var padded := PadEnd(frac, SCALE);
            && |padded| == SCALE && AllDigits(padded) && padded[..SCALE] == padded
            && Value(padded) == Value(frac) * Pow10(SCALE - |frac|) < ONE
  {
    var zeros := Zeros(SCALE - |frac|);
    ValueConcat(frac, zeros);
    ZerosValue(SCALE - |frac|);
    assert frac + "" == frac;
    assert PadEnd(frac, SCALE) == frac + zeros;
    FracBelow(frac + zeros);
    assert Pow10(1) == 10 && Pow10(2) == 100 && Pow10(3) == 1_000 && Pow10(4) == ONE;
  }

  lemma TwoDecimals(frac: string)
    requires AllDigits(frac) && |frac| <= 2
    ensures Value(frac) * Pow10(SCALE - |frac|) % 100 == 0
  {
    var k := 2 - |frac|;
    assert Pow10(1) == 10 && Pow10(2) == 100 && Pow10(3) == 1_000 && Pow10(4) == 10_000;
    assert Pow10(SCALE - |frac|) == Pow10(k) * 100;
    assert Value(frac) * (Pow10(k) * 100) == Value(frac) * Pow10(k) * 100;
  }

  lemma ScaledParts(input: string)
    requires Readable(input) && |FracPart(NormalizeDecimal(input))| <= SCALE
    ensures var value := NormalizeDecimal(input);
            && AllDigits(IntPart(value)) && AllDigits(FracPart(value))
            && ToScaled(input) == Value(IntPart(value)) * ONE
                                  + Value(FracPart(value)) * Pow10(SCALE - |FracPart(value)|)
            && Value(FracPart(value)) * Pow10(SCALE - |FracPart(value)|) < ONE
  {
    DecimalParts(NormalizeDecimal(input));
    PaddedFraction(FracPart(NormalizeDecimal(input)));
  }

  lemma InHundredths(whole: nat, part: nat)
    requires part % 100 == 0
    ensures (whole * ONE + part) % 100 == 0
  {
  }

  /** What fits a column is below its limit, and in hundredths if it has two decimals. */
  lemma FitsScaled(input: string, precision: nat, scale: nat)
    requires scale < precision && scale <= SCALE && FitsNumeric(input, precision, scale)
    ensures Readable(input) && ToScaled(input) < Pow10(precision - scale) * ONE
    ensures scale <= 2 ==> ToScaled(input) % 100 == 0
  {
    var value := NormalizeDecimal(input);
    DecimalParts(value);
    ScaledParts(input);
    var whole, frac := IntPart(value), FracPart(value);
    var part := Value(frac) * Pow10(SCALE - |frac|);
    DigitsFit(whole, precision - scale);
    WholeBelow(Value(whole), part, ONE, Pow10(precision - scale));
    if scale <= 2 {
      TwoDecimals(frac);
      InHundredths(Value(whole), part);
    }
  }

  /** The rules that strings accepted by the form mean, in the units of their columns. */
  function RulesOf(mechanic: string, accrual: string, minPurchase: string, minBalance: int, maxRedeem: string,
                   rate: string): Rules
    requires Readable(accrual) && Readable(minPurchase) && Readable(maxRedeem) && Readable(rate)
  {
    Rules(mechanic, ToScaled(accrual) / 100, ToScaled(minPurchase) / 100, minBalance, ToScaled(maxRedeem) / 100,
          ToScaled(rate))
  }

  /** Rules whose strings fit are valid exactly with percents up to 100, a positive rate and the known mechanic. */
  lemma FormRulesAreValid(mechanic: string, accrual: string, minPurchase: string, minBalance: int, maxRedeem: string,
                          rate: string)
    requires FitsNumeric(accrual, 5, 2) && FitsNumeric(minPurchase, 20, 2) && FitsNumeric(maxRedeem, 5, 2)
    requires FitsNumeric(rate, 10, 4)
    ensures Readable(accrual) && Readable(minPurchase) && Readable(maxRedeem) && Readable(rate)
    ensures var rules := RulesOf(mechanic, accrual, minPurchase, minBalance, maxRedeem, rate);
            && (InRange(rules) <==>
                  && mechanic != "" && ToScaled(accrual) <= 100 * ONE && ToScaled(maxRedeem) <= 100 * ONE
                  && minBalance >= 0 && ToScaled(rate) > 0)
            && (ValidRules(rules) <==> InRange(rules) && mechanic == "points")
  {
    FitsScaled(accrual, 5, 2);
    FitsScaled(minPurchase, 20, 2);
    FitsScaled(maxRedeem, 5, 2);
    FitsScaled(rate, 10, 4);
    TenPowers();
    ColumnsAreValid(mechanic, ToScaled(accrual), ToScaled(minPurchase), minBalance, ToScaled(maxRedeem),
                    ToScaled(rate));
  }

  lemma ColumnsAreValid(mechanic: string, accrual: nat, minPurchase: nat, minBalance: int, maxRedeem: nat, rate: nat)
    requires minPurchase < 1_000_000_000_000_000_000 * ONE && rate < 1_000_000 * ONE
    requires accrual % 100 == 0 && maxRedeem % 100 == 0
    ensures var rules := Rules(mechanic, accrual / 100, minPurchase / 100, minBalance, maxRedeem / 100, rate);
            && (InRange(rules) <==>
                  && mechanic != "" && accrual <= 100 * ONE && maxRedeem <= 100 * ONE && minBalance >= 0 && rate > 0)
            && (ValidRules(rules) <==> InRange(rules) && mechanic == "points")
  {
  }

  lemma TenPowers()
    ensures Pow10(3) == 1_000 && Pow10(6) == 1_000_000 && Pow10(18) == 1_000_000_000_000_000_000
  {
    assert Pow10(2) == 100 && Pow10(4) == 10_000 && Pow10(5) == 100_000;
    assert Pow10(8) == 100_000_000 && Pow10(10) == 10_000_000_000 && Pow10(12) == 1_000_000_000_000;
    assert Pow10(14) == 100_000_000_000_000 && Pow10(16) == 10_000_000_000_000_000;
  }
}

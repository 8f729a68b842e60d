/** ethers `parseUnits(value, decimals)` (its `parseFixed`): an exact
    decimal-string to integer scaler, value × 10^decimals, refusing what
    cannot be represented without loss. */
module Units {
  import opened Wrappers
  import opened Errors
  import opened Text

  function Pow10(n: nat): (p: nat)
    ensures p >= 1
  {
    if n == 0 then 1 else 10 * Pow10(n - 1)
  }

  /** A fraction without its trailing zeros. */
  function TrimTrailingZeros(s: string): (r: string)
    ensures |r| <= |s| && r == s[..|r|]
    ensures r == [] || r[|r| - 1] != '0'
    ensures forall i :: |r| <= i < |s| ==> s[i] == '0'
    decreases |s|
  {
    if s != [] && s[|s| - 1] == '0' then TrimTrailingZeros(s[..|s| - 1]) else s
  }

  /** The text after an optional leading '-'. */
  function Unsigned(s: string): string {
    if s != [] && s[0] == '-' then s[1..] else s
  }

  /** `/^-?[0-9.]+$/` */
  predicate DecimalSyntax(s: string) {
    Unsigned(s) != [] && DigitsAndDots(Unsigned(s))
  }

  predicate DigitsAndDots(s: string) {
    forall i :: 0 <= i < |s| ==> IsDigit(s[i]) || s[i] == '.'
  }

  /** `parseUnits(value, decimals)`. */
  function ParseUnits(value: string, decimals: int): (r: Result<int, Error>)
  {
    if !(0 <= decimals <= 256) then Failure(InvalidDecimalSize(decimals))
    else if !DecimalSyntax(value) then Failure(InvalidDecimalValue(value))
    else
      var negative := value[0] == '-';
      var v := Unsigned(value);
      if v == "." then Failure(InvalidDecimalValue(value))
      else
        var comps := Split(v, '.');
        if |comps| > 2 then Failure(TooManyDecimalPoints(value))
        else
          SplitPartsDigits(v);
          assert comps[0] in comps && (|comps| == 2 ==> comps[1] in comps);
          var whole := if comps[0] == "" then "0" else comps[0];
          var fraction := if |comps| < 2 || comps[1] == "" then "0" else comps[1];
          match Scale(whole, fraction, decimals)
          case None => Failure(FractionExceedsDecimals(value))
          case Some(wei) => var w: int := wei; Success(if negative then -w else w)
  }

  /** Whole and fractional digits to base units: trailing zeros of the
      fraction are dropped, a fraction still longer than `decimals` is
      refused, and the significant digits are shifted into place (ethers pads
      them with zeros to `decimals` digits). */
  function Scale(whole: string, fraction: string, decimals: nat): (r: Option<nat>)
    requires AllDigits(whole) && AllDigits(fraction)
  {
    var trimmed := TrimTrailingZeros(fraction);
    if |trimmed| > decimals then None
    else Some(DigitsValue(whole) * Pow10(decimals) + DigitsValue(trimmed) * Pow10(decimals - |trimmed|))
  }

  /** The parts a digits-and-dots string splits into at '.' are digits. */
  lemma {:induction false} SplitPartsDigits(s: string)
    requires DigitsAndDots(s)
    ensures forall p :: p in Split(s, '.') ==> AllDigits(p)
    decreases |s|
  {
    if s != [] {
      SplitPartsDigits(s[1..]);
      var rest := Split(s[1..], '.');
      assert rest[0] in rest;
      assert forall p :: p in rest[1..] ==> p in rest;
    }
  }

  lemma {:induction false} Pow10Add(a: nat, b: nat)
    ensures Pow10(a) * Pow10(b) == Pow10(a + b)
    decreases a
  {
    if a > 0 {
      Pow10Add(a - 1, b);
      calc {
        Pow10(a) * Pow10(b);
        (10 * Pow10(a - 1)) * Pow10(b);
        10 * (Pow10(a - 1) * Pow10(b));
        10 * Pow10(a - 1 + b);
      }
    }
  }

  /** Dropping trailing zeros divides by the matching power of ten. */
  lemma {:induction false} TrimmedValue(s: string)
    requires AllDigits(s)
    ensures DigitsValue(s) == DigitsValue(TrimTrailingZeros(s)) * Pow10(|s| - |TrimTrailingZeros(s)|)
    decreases |s|
  {
    if s != [] && s[|s| - 1] == '0' {
      var init := s[..|s| - 1];
      var t := TrimTrailingZeros(init);
      TrimmedValue(init);
      assert TrimTrailingZeros(s) == t;
      var k := |init| - |t|;
      assert DigitValue('0') == 0;
      assert DigitsValue(s) == DigitsValue(init) * 10;
      assert Pow10(k + 1) == 10 * Pow10(k);
      MulShift(DigitsValue(init), DigitsValue(t), Pow10(k), 10, Pow10(k + 1));
    } else {
      assert TrimTrailingZeros(s) == s;
    }
  }

  /** A fraction that fits scales exactly, trailing zeros or not. */
  lemma ScaleExact(whole: string, fraction: string, decimals: nat)
    requires AllDigits(whole) && AllDigits(fraction) && |fraction| <= decimals
    ensures Scale(whole, fraction, decimals) ==
              Some(DigitsValue(whole) * Pow10(decimals) + DigitsValue(fraction) * Pow10(decimals - |fraction|))
  {
    var t := TrimTrailingZeros(fraction);
    var k := |fraction| - |t|;
    var rest := decimals - |fraction|;
    TrimmedValue(fraction);
    Pow10Add(k, rest);
    assert k + rest == decimals - |t|;
    MulShift(DigitsValue(fraction), DigitsValue(t), Pow10(k), Pow10(rest), Pow10(decimals - |t|));
  }

  /** v = t·a and a·b = c give v·b = t·c. */
  lemma MulShift(v: int, t: int, a: int, b: int, c: int)
    requires v == t * a && a * b == c
    ensures v * b == t * c
  {
    calc {
      v * b;
      (t * a) * b;
      t * (a * b);
    }
  }

  /** ParseUnits on a well-formed number string, once the parts it splits
      into and their scaled value are known. */
  lemma ParseUnitsOfParts(value: string, decimals: nat, whole: string, fraction: string, wei: nat)
    requires decimals <= 256 && DecimalSyntax(value) && Unsigned(value) != "."
    requires whole != [] && AllDigits(whole) && AllDigits(fraction)
    requires Split(Unsigned(value), '.') == [whole, fraction] || (Split(Unsigned(value), '.') == [whole] && fraction == "")
    requires Scale(whole, if fraction == "" then "0" else fraction, decimals) == Some(wei)
    ensures ParseUnits(value, decimals) == Success(if value[0] == '-' then -(wei as int) else wei)
  {
  }

  /** A string of digits, possibly after a '-', scales to its value times
      10^decimals. */
  lemma ParseUnitsOfDigits(value: string, ds: string, decimals: nat)
    requires decimals <= 256 && ds != [] && AllDigits(ds) && Unsigned(value) == ds
    ensures ParseUnits(value, decimals) ==
              Success(if value[0] == '-' then -(DigitsValue(ds) * Pow10(decimals)) else DigitsValue(ds) * Pow10(decimals))
  {
    assert DigitsAndDots(ds);
    assert IsDigit(ds[0]);
    SplitWithout(ds, '.');
    assert TrimTrailingZeros("0") == "" && DigitsValue("") == 0;
    var scaled := DigitsValue(ds) * Pow10(decimals);
    assert Scale(ds, "0", decimals) == Some(scaled);
    ParseUnitsOfParts(value, decimals, ds, "", scaled);
  }

  /** The decimal rendering of an integer scales exactly: this is the value
      the merkle generator gets from `parseUnits(tokens.toString(), decimals)`. */
  lemma ParseUnitsOfInteger(n: int, decimals: int)
    requires 0 <= decimals <= 256
    ensures ParseUnits(IntToString(n), decimals) == Success(n * Pow10(decimals))
  {
    var m: nat := if n < 0 then -n else n;
    SignedProduct(n, m, Pow10(decimals));
    IntegerScaled(n, m, decimals);
  }

  /** The same with the sign and the magnitude apart. */
  lemma IntegerScaled(n: int, m: nat, decimals: int)
    requires 0 <= decimals <= 256 && m == if n < 0 then -n else n
    ensures ParseUnits(IntToString(n), decimals) == Success(if n < 0 then -(m * Pow10(decimals)) else m * Pow10(decimals))
  {
    var ds := NatToString(m);
    var s := IntToString(n);
    UnsignedOfIntToString(n);
    assert DigitsValue(ds) == m && ds != [] && AllDigits(ds);
    ParseUnitsOfDigits(s, ds, decimals);
  }

  /** The digits of `IntToString(n)` after its sign are those of |n|. */
  lemma UnsignedOfIntToString(n: int)
    ensures var m: nat := if n < 0 then -n else n;
            Unsigned(IntToString(n)) == NatToString(m) &&
            (IntToString(n)[0] == '-' <==> n < 0)
  {
    IntToStringSign(n);
    if n < 0 {
      assert IntToString(n)[1..] == NatToString(-n);
    }
  }

  lemma SignedProduct(n: int, m: nat, p: nat)
    requires m == if n < 0 then -n else n
    ensures n * p == if n < 0 then -(m * p) else m * p
  {
    if n < 0 {
      assert n * p == -((-n) * p);
    }
  }

  /** Exact scaling of a decimal fraction: `whole.fraction` with no more
      fractional digits than `decimals` gives
      whole × 10^decimals + fraction × 10^(decimals - |fraction|). */
  lemma ParseUnitsOfFraction(whole: string, fraction: string, decimals: int)
    requires whole != [] && AllDigits(whole) && AllDigits(fraction)
    requires 0 <= decimals <= 256 && |fraction| <= decimals
    ensures ParseUnits(whole + "." + fraction, decimals) ==
              Success(DigitsValue(whole) * Pow10(decimals) + DigitsValue(fraction) * Pow10(decimals - |fraction|))
  {
    var s := whole + "." + fraction;
    SplitDecimal(whole, fraction);
    assert s[|whole|] == '.' && |s| >= 2;
    var raw := if fraction == "" then "0" else fraction;
    var wei := DigitsValue(whole) * Pow10(decimals) + DigitsValue(fraction) * Pow10(decimals - |fraction|);
    if fraction == "" {
      assert TrimTrailingZeros("0") == "" && DigitsValue("") == 0;
    } else {
      ScaleExact(whole, fraction, decimals);
    }
    assert Scale(whole, raw, decimals) == Some(wei);
    ParseUnitsOfParts(s, decimals, whole, fraction, wei);
  }

  /** `whole.fraction` passes the syntax check and splits into its two parts. */
  lemma SplitDecimal(whole: string, fraction: string)
    requires AllDigits(whole) && AllDigits(fraction)
    ensures var s := whole + "." + fraction;
            DecimalSyntax(s) &&
            (whole != [] ==> s[0] != '-' && Split(Unsigned(s), '.') == [whole, fraction])
  {
    var s := whole + "." + fraction;
    assert DigitsAndDots(s) by {
      forall i | 0 <= i < |s| ensures IsDigit(s[i]) || s[i] == '.' {
        if i < |whole| { assert s[i] == whole[i]; }
        else if i > |whole| { assert s[i] == fraction[i - |whole| - 1]; }
      }
    }
    if whole != [] {
      assert s[0] == whole[0];
      assert '.' !in whole;
      assert '.' !in fraction;
      SplitFirst(whole, '.', fraction);
      SplitWithout(fraction, '.');
    }
  }

  /** More significant fractional digits than `decimals` is an error, never a
      silent truncation. */
  lemma ParseUnitsRejectsExcessPrecision(whole: string, fraction: string, decimals: int)
    requires whole != [] && AllDigits(whole) && AllDigits(fraction)
    requires 0 <= decimals <= 256 && |TrimTrailingZeros(fraction)| > decimals
    ensures ParseUnits(whole + "." + fraction, decimals) == Failure(FractionExceedsDecimals(whole + "." + fraction))
  {
    SplitDecimal(whole, fraction);
    assert fraction != "";
  }
}

/**
 * The amount printers and parsers: rpc.ParseAmount, wallet.FormatBalance, chains.HumanToBaseUnits,
 * ledger.atomicToHumanStr, humanSupplyToRaw and bridge.formatUint.
 */
module Amounts {
  import opened Numbers
  import opened Results
  import opened Text
  import opened Decimal

  const UNIT: nat := 100_000_000

  lemma UnitIsPow10()
    ensures Pow10(8) == UNIT
  {
    assert Pow10(4) == 10_000;
  }

  // ----- printers -----

  /** fmt's %0nd, and the loop that prepends zeros. */
  function PadLeft(s: string, n: nat): string {
    if |s| < n then Repeat('0', n - |s|) + s else s
  }

  const SYMBOL := " ONEX"

  function FormatBalance(atomic: u64): string {
    NumericPart(atomic) + SYMBOL
  }

  function NumericPart(atomic: u64): string {
    Dec(atomic / UNIT) + "." + PadLeft(Dec(atomic % UNIT), 8)
  }

  /** Fills a buffer from its end, a digit a step; the text is the decimal of n. */
  method FormatUint(n: u64) returns (s: string)
    ensures s == Dec(n)
  {
    if n == 0 {
      return "0";
    }
    assert |Dec(n)| <= 20 by {
      assert Pow10(10) == 10_000_000_000;
      assert TWO_64 <= Pow10(20);
      DecLength(n, 20);
    }
    var buf := new char[32];
    var i := buf.Length;
    var m := n;
    while 0 < m
      invariant 0 <= i <= 32
      invariant Dec(n) == (if m == 0 then "" else Dec(m)) + buf[i..]
    {
      ghost var rest := buf[i..];
      i := i - 1;
      buf[i] := Digit(m % 10);
      assert buf[i..] == [Digit(m % 10)] + rest;
      m := m / 10;
    }
    s := buf[i..];
  }

  /** The text atomicToHumanStr gives for an integer; its quotient and remainder are Euclidean. */
  function HumanString(n: int, decimals: int): string {
    if decimals <= 0 then BigString(n)
    else
      var whole, rem := n / Pow10(decimals), n % Pow10(decimals);
      if rem == 0 then BigString(whole) else FractionString(whole, rem, decimals)
  }

  function FractionString(whole: int, rem: nat, decimals: nat): string {
    BigString(whole) + "." + TrimRightZeros(PadLeft(Dec(rem), decimals))
  }

  method AtomicToHumanStr(atomic: string, decimals: int) returns (s: string)
    ensures s == match BigParse(TrimSpace(atomic))
                 case None => "0"
                 case Some(n) => HumanString(n, decimals)
  {
    var parsed := BigParse(TrimSpace(atomic));
    if parsed.None? {
      return "0";
    }
    var n := parsed.value;
    if decimals <= 0 {
      return BigString(n);
    }
    var div := Pow10(decimals);
    var whole, rem := n / div, n % div;
    if rem == 0 {
      return BigString(whole);
    }
    var frac := Dec(rem);
    while |frac| < decimals
      invariant PadLeft(frac, decimals) == PadLeft(Dec(rem), decimals)
      decreases decimals - |frac|
    {
      assert Repeat('0', decimals - |frac| - 1) + "0" == Repeat('0', decimals - |frac|);
      assert PadLeft("0" + frac, decimals) == PadLeft(frac, decimals) by {
        if |frac| + 1 < decimals {
          assert Repeat('0', decimals - |frac| - 1) + ("0" + frac) == Repeat('0', decimals - |frac|) + frac;
        } else {
          assert Repeat('0', 1) == "0";
        }
      }
      frac := "0" + frac;
    }
    PaddedFraction(rem, decimals);
    frac := TrimRightZeros(frac);
    s := if frac == "" then BigString(whole) else BigString(whole) + "." + frac;
  }

  /** f, read as the digits after a decimal point, stands for rem at d decimals. */
  predicate IsFraction(f: string, rem: nat, d: nat) {
    AllDigits(f) && |f| <= d && Val(f) * Pow10(d - |f|) == rem
  }

  /** A padded remainder has the digits it should, and trimming its zeros only divides by their weight. */
  lemma {:induction false} PaddedFraction(rem: nat, d: nat)
    requires 0 < d && 0 < rem < Pow10(d)
    ensures var f := TrimRightZeros(PadLeft(Dec(rem), d));
            f != "" && IsFraction(f, rem, d)
  {
    hide PadLeft, TrimRightZeros, Dec, Val, Pow10;
    DecLength(rem, d);
    PadLeftKeepsVal(rem, d);
    TrimRightZerosScales(PadLeft(Dec(rem), d));
    ZeroTimes(Pow10(d));
  }

  lemma ZeroTimes(p: nat)
    ensures Val("") * p == 0
  {
  }

  lemma {:induction false} PadLeftKeepsVal(n: nat, d: nat)
    ensures var s := PadLeft(Dec(n), d);
            AllDigits(s) && Val(s) == n && (|Dec(n)| <= d ==> |s| == d)
  {
    ValOfDec(n);
    if |Dec(n)| < d {
      ValOfZeros(d - |Dec(n)|);
      ValOfConcat(Repeat('0', d - |Dec(n)|), Dec(n));
    }
  }

  lemma {:induction false} TrimRightZerosScales(s: string)
    requires AllDigits(s)
    ensures var t := TrimRightZeros(s);
            && AllDigits(t) && |t| <= |s| && Val(s) == Val(t) * Pow10(|s| - |t|)
  {
    if s != [] && s[|s| - 1] == '0' {
      var init := s[..|s| - 1];
      TrimRightZerosScales(init);
      var t := TrimRightZeros(init);
      TimesTen(Val(t), |init| - |t|);
    }
  }

  // ----- rpc.ParseAmount -----

  /** The number of atomic units a text accepted by ParseAmount denotes, before it is cut to 64 bits. */
  function Amount(s: string): Option<nat> {
    var (whole, after) := SplitFirst(TrimSpace(s), '.');
    AmountOfParts(whole, if after.Some? then after.value else "")
  }

  function AmountOfParts(whole: string, frac: string): Option<nat> {
    if !ParseUint(whole).Number? || 8 < |frac| || !AllDigits(frac) then None
    else Some(Val(whole) * UNIT + Val(frac) * Pow10(8 - |frac|))
  }

  /** What ParseAmount returns: the product and sum are uint64. */
  function ParsedAmount(s: string): Option<u64> {
    match Amount(s)
    case None => None
    case Some(n) => Some(Low64(n))
  }

  method ParseAmount(text: string) returns (r: Option<u64>)
    ensures r == ParsedAmount(text)
  {
    hide Val, Pow10, TrimSpace, LeadingDigits, AllDigits;
    var s := TrimSpace(text);
    if s == "" {
      return None;
    }
    var (first, second) := SplitFirst(s, '.');
    var whole := ParseUint(first);
    if !whole.Number? {
      return None;
    }
    var frac: u64 := 0;
    AmountOfWhole(first);
    if second.Some? {
      var fracStr := second.value;
      if 8 < |fracStr| {
        return None;
      }
      while |fracStr| < 8
        invariant |second.value| <= |fracStr| <= 8
        invariant fracStr == second.value + Repeat('0', |fracStr| - |second.value|)
        decreases 8 - |fracStr|
      {
        assert Repeat('0', |fracStr| - |second.value|) + "0" == Repeat('0', |fracStr| + 1 - |second.value|);
        fracStr := fracStr + "0";
      }
      AmountViaPadding(first, second.value);
      var f := ParseUint(fracStr);
      if !f.Number? {
        return None;
      }
      frac := f.n;
    }
    r := Some(Low64(whole.n * UNIT + frac));
  }

  lemma AmountOfWhole(whole: string)
    requires ParseUint(whole).Number?
    ensures AmountOfParts(whole, "") == Some(ParseUint(whole).n * UNIT)
  {
    ZeroTimes(Pow10(8));
  }

  lemma AmountViaPadding(whole: string, f: string)
    requires ParseUint(whole).Number? && |f| <= 8
    ensures AmountOfParts(whole, f) ==
            match ParseUint(f + Repeat('0', 8 - |f|))
            case Number(m) => Some(ParseUint(whole).n * UNIT + m)
            case _ => None
  {
    PaddedRight(f, 8);
  }

  /** Padding a fraction on the right to d digits: same digits first, zeros after. */
  lemma PaddedRight(f: string, d: nat)
    requires |f| <= d
    ensures var padded := f + Repeat('0', d - |f|);
            && |padded| == d
            && (AllDigits(padded) <==> AllDigits(f))
            && (AllDigits(f) ==> Val(padded) == Val(f) * Pow10(d - |f|) && Val(padded) < Pow10(d))
            && (d <= 8 ==> ParseUint(padded).Number? == (AllDigits(f) && 0 < d))
  {
    var padded := f + Repeat('0', d - |f|);
    assert AllDigits(padded) ==> AllDigits(f) by {
      assert forall i :: 0 <= i < |f| ==> f[i] == padded[i];
    }
    if AllDigits(f) {
      ValOfZeros(d - |f|);
      ValOfConcat(f, Repeat('0', d - |f|));
      ValBelowPow10(padded);
    }
    if d <= 8 {
      Pow10Monotone(d, 8);
      UnitIsPow10();
    }
  }

  lemma {:induction false} Pow10Monotone(a: nat, b: nat)
    requires a <= b
    ensures Pow10(a) <= Pow10(b)
  {
    if a < b {
      Pow10Monotone(a, b - 1);
    }
  }

  // ----- chains.HumanToBaseUnits -----

  function OrZero(s: string): string {
    if s == "" then "0" else s
  }

  /** What HumanToBaseUnits returns, and None for its errors. */
  function BaseUnits(human: string, decimals: int): Option<int> {
    var h := Without(TrimSpace(human), ',');
    if h == "" then None
    else
      var (whole, after) := SplitFirst(h, '.');
      UnitsOfParts(whole, if after.Some? then after.value else "", decimals)
  }

  function UnitsOfParts(whole: string, frac: string, decimals: int): Option<int> {
    if decimals < |frac| then None
    else BigParse(OrZero(TrimLeftZeros(OrZero(whole) + frac + Repeat('0', decimals - |frac|))))
  }

  method HumanToBaseUnits(text: string, decimals: int) returns (r: Option<int>)
    ensures r == BaseUnits(text, decimals)
  {
    hide TrimSpace, TrimLeftZeros, BigParse, Without;
    var human := Without(TrimSpace(text), ',');
    if human == "" {
      return None;
    }
    var (whole, after) := SplitFirst(human, '.');
    if whole == "" {
      whole := "0";
    }
    ghost var f := if after.Some? then after.value else "";
    var frac := "";
    if after.Some? {
      frac := after.value;
    }
    if decimals < |frac| {
      return None;
    }
    while |frac| < decimals
      invariant |f| <= |frac| <= decimals
      invariant frac == f + Repeat('0', |frac| - |f|)
      decreases decimals - |frac|
    {
      assert Repeat('0', |frac| - |f|) + "0" == Repeat('0', |frac| + 1 - |f|);
      frac := frac + "0";
    }
    var raw := whole + frac;
    assert raw == whole + f + Repeat('0', decimals - |f|);
    raw := TrimLeftZeros(raw);
    if raw == "" {
      raw := "0";
    }
    r := BigParse(raw);
  }

  /** The number that whole and fraction digits stand for at d decimals: their digits, padded, as one number. */
  function Scaled(whole: string, frac: string, d: nat): nat
    requires AllDigits(whole) && AllDigits(frac) && |frac| <= d
  {
    Val(whole + (frac + Repeat('0', d - |frac|)))
  }

  lemma ScaledIsSum(whole: string, frac: string, d: nat)
    requires AllDigits(whole) && AllDigits(frac) && |frac| <= d
    ensures Scaled(whole, frac, d) == Val(whole) * Pow10(d) + Val(frac) * Pow10(d - |frac|)
  {
    PaddedRight(frac, d);
    ValOfConcat(whole, frac + Repeat('0', d - |frac|));
  }

  lemma ScaledIsVal(whole: string, frac: string, d: nat)
    requires AllDigits(whole) && AllDigits(frac) && |frac| <= d
    ensures var raw := whole + frac + Repeat('0', d - |frac|);
            AllDigits(raw) && Val(raw) == Scaled(whole, frac, d)
  {
    PaddedRight(frac, d);
    assert whole + (frac + Repeat('0', d - |frac|)) == whole + frac + Repeat('0', d - |frac|);
  }

  /** Plain unsigned text, with or without a decimal point. */
  predicate IsPlain(t: string, whole: string, frac: string) {
    && whole != "" && AllDigits(whole) && AllDigits(frac)
    && (t == whole + "." + frac || (t == whole && frac == ""))
  }

  lemma PlainHasNoSpaces(t: string, whole: string, frac: string)
    requires IsPlain(t, whole, frac)
    ensures NoSpaces(t) && NoSpaces("-" + t) && ',' !in t
  {
  }

  lemma {:induction false} PlainSplits(t: string, whole: string, frac: string)
    requires IsPlain(t, whole, frac)
    ensures t != "" && TrimSpace(t) == t && Without(t, ',') == t
    ensures var (w, after) := SplitFirst(t, '.');
            w == whole && frac == (if after.Some? then after.value else "")
  {
    hide TrimSpace, Without, IsSpace;
    PlainHasNoSpaces(t, whole, frac);
    TrimSpaceOfNoSpaces(t);
    WithoutAbsent(t, ',');
    if t == whole + "." + frac {
      SplitFirstIs(whole, frac, '.');
    }
  }

  lemma UnitsOfDigits(whole: string, frac: string, d: nat)
    requires whole != "" && AllDigits(whole) && AllDigits(frac) && |frac| <= d
    ensures UnitsOfParts(whole, frac, d) == Some(Scaled(whole, frac, d))
    ensures UnitsOfParts("-" + whole, frac, d) == Some(-(Scaled(whole, frac, d) as int))
  {
    hide Val, TrimLeftZeros, BigParse, Scaled;
    ScaledIsVal(whole, frac, d);
    var raw := whole + frac + Repeat('0', d - |frac|);
    assert ("-" + whole) + frac + Repeat('0', d - |frac|) == "-" + raw;
    TrimmedParses(raw);
  }

  lemma {:induction false} TrimmedParses(raw: string)
    requires AllDigits(raw) && raw != ""
    ensures BigParse(OrZero(TrimLeftZeros(raw))) == Some(Val(raw))
    ensures BigParse(OrZero(TrimLeftZeros("-" + raw))) == Some(-(Val(raw) as int))
  {
    TrimmedIsDec(raw);
    BigParseOfBigString(Val(raw));
    assert TrimLeftZeros("-" + raw) == "-" + raw;
    BigParseOfDigits(raw);
  }

  lemma BaseUnitsOfPlain(t: string, whole: string, frac: string, d: nat)
    requires IsPlain(t, whole, frac) && |frac| <= d
    ensures BaseUnits(t, d) == Some(Scaled(whole, frac, d))
  {
    PlainSplits(t, whole, frac);
    UnitsOfDigits(whole, frac, d);
  }

  lemma {:induction false} MinusSplits(t: string, whole: string, frac: string)
    requires IsPlain(t, whole, frac)
    ensures TrimSpace("-" + t) == "-" + t && Without("-" + t, ',') == "-" + t
    ensures var (w, after) := SplitFirst("-" + t, '.');
            w == "-" + whole && frac == (if after.Some? then after.value else "")
  {
    hide TrimSpace, Without, IsSpace;
    var m := "-" + t;
    PlainHasNoSpaces(t, whole, frac);
    TrimSpaceOfNoSpaces(m);
    WithoutAbsent(m, ',');
    if t == whole + "." + frac {
      SplitFirstIs("-" + whole, frac, '.');
      assert m == ("-" + whole) + "." + frac;
    }
  }

  lemma BaseUnitsOfMinus(t: string, whole: string, frac: string, d: nat)
    requires IsPlain(t, whole, frac) && |frac| <= d
    ensures BaseUnits("-" + t, d) == Some(-(Scaled(whole, frac, d) as int))
  {
    MinusSplits(t, whole, frac);
    UnitsOfDigits(whole, frac, d);
  }

  // ----- round trips -----

  /** ParseAmount reads back the numeric part of FormatBalance, for every balance. */
  lemma ParseInvertsFormat(n: u64)
    ensures ParsedAmount(NumericPart(n)) == Some(n)
    ensures FormatBalance(n)[..|FormatBalance(n)| - |SYMBOL|] == NumericPart(n)
  {
    hide Val, Dec, Pow10, TrimSpace, SplitFirst, PadLeft, AmountOfParts;
    var whole, frac := Dec(n / UNIT), PadLeft(Dec(n % UNIT), 8);
    UnitIsPow10();
    DecLength(n % UNIT, 8);
    PadLeftKeepsVal(n % UNIT, 8);
    PlainSplits(NumericPart(n), whole, frac);
    AmountOfDec(n / UNIT, frac);
    assert n / UNIT * UNIT + n % UNIT == n;
  }

  /** A whole number of units is accepted whatever it comes to; only its low 64 bits are returned. */
  lemma {:induction false} WholeAmount(n: u64)
    ensures Amount(Dec(n)) == Some(n * UNIT) && ParsedAmount(Dec(n)) == Some(Low64(n * UNIT))
  {
    hide Val, Dec, Pow10, TrimSpace, SplitFirst, AmountOfParts;
    PlainSplits(Dec(n), Dec(n), "");
    ParseUintOfDec(n);
    AmountOfWhole(Dec(n));
  }

  /** The smallest such amount that does not fit: it is accepted as less than one unit. */
  lemma {:induction false} LargeAmountIsCut()
    ensures Amount("184467440738") == Some(18446744073800000000)
    ensures ParsedAmount("184467440738") == Some(90448384)
  {
    hide Amount, ParsedAmount, Val;
    WholeAmount(184467440738);
    DigitsOfLarge();
  }

  lemma {:induction false} DigitsOfLarge()
    ensures Dec(184467440738) == "184467440738"
  {
    assert Dec(1) == "1" && Digit(8) == '8' && Digit(4) == '4' && Digit(6) == '6' && Digit(7) == '7' && Digit(0) == '0'
           && Digit(3) == '3';
    hide Dec, Digit;
    DecOfTen(1, 8);
    DecOfTen(18, 4);
    DecOfTen(184, 4);
    DecOfTen(1844, 6);
    DecOfTen(18446, 7);
    DecOfTen(184467, 4);
    DecOfTen(1844674, 4);
    DecOfTen(18446744, 0);
    DecOfTen(184467440, 7);
    DecOfTen(1844674407, 3);
    DecOfTen(18446744073, 8);
  }

  lemma {:induction false} AmountOfDec(w: u64, frac: string)
    requires AllDigits(frac) && |frac| == 8
    ensures AmountOfParts(Dec(w), frac) == Some(w * UNIT + Val(frac))
  {
    ParseUintOfDec(w);
    ValOfDec(w);
    assert Pow10(0) == 1;
  }

  /**
   * HumanToBaseUnits inverts atomicToHumanStr exactly when the decimals are not negative and the
   * amount is non-negative or whole: a negative fraction is printed from a Euclidean remainder, as
   * in -5 at one decimal, which prints "-1.5".
   */
  lemma {:induction false} BaseUnitsInvertHumanString(n: int, d: int)
    ensures BaseUnits(HumanString(n, d), d) == Some(n)
       <==> 0 <= d && (0 <= n || n % Pow10(d) == 0)
  {
    hide BaseUnits;
    if d < 0 {
      NegativeDecimalsRefuse(n, d);
    } else if n % Pow10(d) == 0 {
      WholeRoundTrip(n, d);
    } else {
      FractionRoundTrip(n, d);
    }
  }

  lemma MulMinus(a: int, p: nat)
    ensures -a * p == -(a * p)
  {
  }

  lemma DivMod(n: int, p: nat)
    requires 0 < p
    ensures n == n / p * p + n % p && 0 <= n % p < p
    ensures 0 <= n <==> 0 <= n / p
  {
  }

  lemma {:induction false} FractionRoundTrip(n: int, d: nat)
    requires n % Pow10(d) != 0
    ensures BaseUnits(HumanString(n, d), d) == Some(if 0 <= n then n else n - 2 * (n % Pow10(d)))
  {
    hide BaseUnits;
    DivMod(n, Pow10(d));
    assert d != 0;
    FractionParses(n, n / Pow10(d), n % Pow10(d), d);
  }

  lemma NegativeDecimalsRefuse(n: int, d: int)
    requires d < 0
    ensures BaseUnits(HumanString(n, d), d) == None
  {
  }

  /** A negative fraction is read as its whole part minus, not plus, its remainder. */
  lemma {:induction false} FractionParses(n: int, whole: int, rem: nat, d: nat)
    requires 0 < d && 0 < rem < Pow10(d) && n == whole * Pow10(d) + rem
    ensures BaseUnits(FractionString(whole, rem, d), d) == Some(if 0 <= whole then n else n - 2 * rem)
  {
    hide BaseUnits, Pow10, Dec, PadLeft, TrimRightZeros, IsFraction;
    PaddedFraction(rem, d);
    var f := TrimRightZeros(PadLeft(Dec(rem), d));
    FractionDigitsParse(if 0 <= whole then whole else -whole, f, rem, d);
    if whole < 0 {
      assert "-" + (Dec(-whole) + "." + f) == FractionString(whole, rem, d);
      MulMinus(whole, Pow10(d));
    }
  }

  lemma {:induction false} FractionDigitsParse(w: nat, f: string, rem: nat, d: nat)
    requires IsFraction(f, rem, d)
    ensures BaseUnits(Dec(w) + "." + f, d) == Some(w * Pow10(d) + rem)
    ensures BaseUnits("-" + (Dec(w) + "." + f), d) == Some(-(w * Pow10(d) + rem))
  {
    hide BaseUnits;
    ScaledOfDec(w, f, rem, d);
    BaseUnitsOfPlain(Dec(w) + "." + f, Dec(w), f, d);
    BaseUnitsOfMinus(Dec(w) + "." + f, Dec(w), f, d);
  }

  lemma {:induction false} ScaledOfDec(w: nat, f: string, rem: nat, d: nat)
    requires IsFraction(f, rem, d)
    ensures Scaled(Dec(w), f, d) == w * Pow10(d) + rem
  {
    ValOfDec(w);
    ScaledIsSum(Dec(w), f, d);
  }

  lemma {:induction false} WholeRoundTrip(n: int, d: nat)
    requires n % Pow10(d) == 0
    ensures BaseUnits(HumanString(n, d), d) == Some(n)
  {
    hide BaseUnits;
    DivMod(n, Pow10(d));
    assert HumanString(n, d) == BigString(n / Pow10(d));
    WholeParses(n / Pow10(d), d);
  }

  lemma {:induction false} WholeParses(whole: int, d: nat)
    ensures BaseUnits(BigString(whole), d) == Some(whole * Pow10(d))
  {
    hide BaseUnits;
    if 0 <= whole {
      DigitsParse(whole, d);
    } else {
      DigitsParse(-whole, d);
      MulMinus(whole, Pow10(d));
    }
  }

  lemma {:induction false} DigitsParse(w: nat, d: nat)
    ensures BaseUnits(Dec(w), d) == Some(w * Pow10(d))
    ensures BaseUnits("-" + Dec(w), d) == Some(-(w * Pow10(d)))
  {
    hide BaseUnits;
    ScaledOfDec(w, "", 0, d);
    BaseUnitsOfPlain(Dec(w), Dec(w), "", d);
    BaseUnitsOfMinus(Dec(w), Dec(w), "", d);
  }

  // ----- humanSupplyToRaw -----

  /** What humanSupplyToRaw returns: extra fraction digits are cut, not refused. */
  function SupplyRaw(text: string, decimals: int): string {
    var human := TrimSpace(text);
    if human == "" || decimals < 0 then ""
    else
      var (whole, after) := SplitFirst(human, '.');
      RawOfParts(whole, if after.Some? then after.value else "", decimals)
  }

  function RawOfParts(w: string, f: string, decimals: nat): string {
    var cut := if decimals < |f| then f[..decimals] else f;
    var whole := OrZero(TrimLeftZeros(w));
    if decimals == 0 then whole
    else OrZero(TrimLeftZeros(whole + cut + Repeat('0', decimals - |cut|)))
  }

  method HumanSupplyToRaw(text: string, decimals: int) returns (s: string)
    ensures s == SupplyRaw(text, decimals)
  {
    hide TrimSpace, TrimLeftZeros;
    var human := TrimSpace(text);
    if human == "" || decimals < 0 {
      return "";
    }
    var (whole, after) := SplitFirst(human, '.');
    var frac := "";
    if after.Some? {
      frac := after.value;
    }
    if decimals < |frac| {
      frac := frac[..decimals];
    }
    ghost var cut := frac;
    while |frac| < decimals
      invariant |cut| <= |frac| <= decimals
      invariant frac == cut + Repeat('0', |frac| - |cut|)
      decreases decimals - |frac|
    {
      assert Repeat('0', |frac| - |cut|) + "0" == Repeat('0', |frac| + 1 - |cut|);
      frac := frac + "0";
    }
    whole := TrimLeftZeros(whole);
    if whole == "" {
      whole := "0";
    }
    if frac == "" {
      return whole;
    }
    var raw := whole + frac;
    assert raw == whole + cut + Repeat('0', decimals - |cut|);
    raw := TrimLeftZeros(raw);
    if raw == "" {
      return "0";
    }
    s := raw;
  }

  lemma RawOfDigits(whole: string, frac: string, d: nat)
    requires AllDigits(whole) && AllDigits(frac) && |frac| <= d && 0 < d
    ensures RawOfParts(whole, frac, d) == Dec(Scaled(whole, frac, d))
  {
    hide TrimLeftZeros, Val, Dec, Pow10;
    var w := OrZero(TrimLeftZeros(whole));
    TrimmedIsDec(whole);
    ValOfDec(Val(whole));
    ScaledIsSum(w, frac, d);
    ScaledIsSum(whole, frac, d);
    ScaledIsVal(w, frac, d);
    TrimmedIsDec(w + frac + Repeat('0', d - |frac|));
  }

  /**
   * On a text ParseAmount accepts, the other two parsers return its exact value at 8 decimals; so all
   * three agree exactly when that value fits a uint64.
   */
  lemma ParsersAgree(s: string)
    requires Amount(s).Some?
    ensures var v := Amount(s).value;
            && BaseUnits(s, 8) == Some(v)
            && SupplyRaw(s, 8) == Dec(v)
            && (SupplyRaw(s, 8) == Dec(ParsedAmount(s).value) <==> v < TWO_64)
            && (BaseUnits(s, 8) == Some(ParsedAmount(s).value) <==> v < TWO_64)
  {
    hide BaseUnits, SupplyRaw, Dec;
    ExactValueOfOthers(s);
    var v: nat := Amount(s).value;
    Low64Fixes(v);
    if Dec(v) == Dec(Low64(v)) {
      DecIsInjective(v, Low64(v));
    }
  }

  lemma ExactValueOfOthers(s: string)
    requires Amount(s).Some?
    ensures BaseUnits(s, 8) == Some(Amount(s).value)
    ensures SupplyRaw(s, 8) == Dec(Amount(s).value)
  {
    var t := TrimSpace(s);
    var (whole, after) := SplitFirst(t, '.');
    var frac := if after.Some? then after.value else "";
    PlainSplits(t, whole, frac);
    UnitsOfDigits(whole, frac, 8);
    RawOfDigits(whole, frac, 8);
    AmountIsScaled(whole, frac);
  }

  lemma AmountIsScaled(whole: string, frac: string)
    requires AmountOfParts(whole, frac).Some?
    ensures AllDigits(whole) && AllDigits(frac) && |frac| <= 8
    ensures AmountOfParts(whole, frac).value == Scaled(whole, frac, 8)
  {
    UnitIsPow10();
    ScaledIsSum(whole, frac, 8);
  }
}

/** Which texts the amount parsers read and which they refuse, and how the printers' texts look. */
module AmountTexts {
  import opened Numbers
  import opened Results
  import opened Text
  import opened Decimal
  import opened Amounts

  // ----- spaces and commas -----

  predicate AllSpaces(s: string) {
    forall i :: 0 <= i < |s| ==> IsSpace(s[i])
  }

  /** No space at either end. */
  predicate Tight(s: string) {
    s != "" && !IsSpace(s[0]) && !IsSpace(s[|s| - 1])
  }

  lemma {:induction false} TrimLeftIs(l: string, m: string)
    requires AllSpaces(l) && (m == "" || !IsSpace(m[0]))
    ensures TrimLeftSpace(l + m) == m
  {
    hide IsSpace;
    if l == "" {
      assert l + m == m;
    } else {
      assert (l + m)[0] == l[0] && (l + m)[1..] == l[1..] + m;
      TrimLeftIs(l[1..], m);
    }
  }

  lemma {:induction false} TrimRightIs(m: string, r: string)
    requires AllSpaces(r) && (m == "" || !IsSpace(m[|m| - 1]))
    ensures TrimRightSpace(m + r) == m
  {
    hide IsSpace;
    if r == "" {
      assert m + r == m;
    } else {
      assert (m + r)[|m + r| - 1] == r[|r| - 1] && (m + r)[..|m + r| - 1] == m + r[..|r| - 1];
      TrimRightIs(m, r[..|r| - 1]);
    }
  }

  /** Trimming takes the spaces around a text and nothing else. */
  lemma {:induction false} TrimSpaceIs(l: string, m: string, r: string)
    requires AllSpaces(l) && AllSpaces(r) && Tight(m)
    ensures TrimSpace(l + m + r) == m
  {
    hide IsSpace, TrimLeftSpace, TrimRightSpace;
    assert l + m + r == l + (m + r) && (m + r)[0] == m[0];
    TrimLeftIs(l, m + r);
    TrimRightIs(m, r);
  }

  lemma WithoutHead(s: string, c: char)
    ensures s != "" ==> Without(s, c) == (if s[0] == c then "" else [s[0]]) + Without(s[1..], c)
    ensures s == "" ==> Without(s, c) == ""
  {
  }

  /** Removing a character keeps the rest of a text in order. */
  lemma {:induction false} WithoutIs(a: string, c: char, b: string)
    ensures Without(a + [c] + b, c) == Without(a, c) + Without(b, c)
    ensures c !in Without(a, c)
  {
    hide Without;
    WithoutHead(a, c);
    WithoutHead(a + [c] + b, c);
    if a == "" {
      assert a + [c] + b == [c] + b && ([c] + b)[1..] == b;
    } else {
      assert (a + [c] + b)[0] == a[0] && (a + [c] + b)[1..] == a[1..] + [c] + b;
      WithoutIs(a[1..], c, b);
    }
  }

  lemma {:induction false} WithoutCommas()
    ensures Without("1,000", ',') == "1000" && Without("1,234,567.5", ',') == "1234567.5"
  {
    hide Without;
    WithoutAbsent("1", ',');
    WithoutAbsent("000", ',');
    WithoutAbsent("234", ',');
    WithoutAbsent("567.5", ',');
    WithoutIs("1", ',', "000");
    assert "1" + [','] + "000" == "1,000" && "1" + "000" == "1000";
    WithoutIs("1", ',', "234,567.5");
    WithoutIs("234", ',', "567.5");
    assert "234" + [','] + "567.5" == "234,567.5" && "1" + [','] + "234,567.5" == "1,234,567.5";
    assert "1" + ("234" + "567.5") == "1234567.5";
  }

  // ----- parsers -----

  /** The number of base units of whole and fraction digits, at d decimals. */
  function Units(whole: string, frac: string, d: nat): nat
    requires AllDigits(whole) && AllDigits(frac) && |frac| <= d
  {
    Val(whole) * Pow10(d) + Val(frac) * Pow10(d - |frac|)
  }

  /**
   * HumanToBaseUnits reads decimal text with commas anywhere and spaces around it, at any decimals; a
   * fraction longer than the decimals is refused.
   */
  lemma {:induction false} BaseUnitsReads(l: string, t: string, r: string, whole: string, frac: string, d: nat)
    requires AllSpaces(l) && AllSpaces(r) && Tight(t) && IsPlain(Without(t, ','), whole, frac)
    ensures BaseUnits(l + t + r, d) == if |frac| <= d then Some(Units(whole, frac, d)) else None
  {
    hide TrimSpace, Without, Val, Pow10, IsSpace, SplitFirst, UnitsOfParts, AllDigits;
    TrimSpaceIs(l, t, r);
    PlainSplits(Without(t, ','), whole, frac);
    UnitsRead(whole, frac, d);
  }

  lemma {:induction false} UnitsRead(whole: string, frac: string, d: nat)
    requires whole != "" && AllDigits(whole) && AllDigits(frac)
    ensures UnitsOfParts(whole, frac, d) == if |frac| <= d then Some(Units(whole, frac, d)) else None
  {
    hide Val, Pow10, Scaled, TrimLeftZeros, BigParse, AllDigits;
    if |frac| <= d {
      UnitsOfDigits(whole, frac, d);
      ScaledIsSum(whole, frac, d);
    }
  }

  /**
   * humanSupplyToRaw reads decimal text with spaces around it, at any decimals, and cuts a fraction longer
   * than the decimals; for negative decimals it gives the empty text.
   */
  lemma {:induction false} SupplyReads(l: string, t: string, r: string, whole: string, frac: string, d: int)
    requires AllSpaces(l) && AllSpaces(r) && IsPlain(t, whole, frac)
    ensures d < 0 ==> SupplyRaw(l + t + r, d) == ""
    ensures 0 <= d ==>
              var cut := if d < |frac| then frac[..d] else frac;
              SupplyRaw(l + t + r, d) == Dec(Units(whole, cut, d))
  {
    hide TrimSpace, Val, Pow10, IsSpace, Dec, SplitFirst, RawOfParts;
    PlainIsTight(t, whole, frac);
    TrimSpaceIs(l, t, r);
    PlainSplits(t, whole, frac);
    if 0 <= d {
      RawReads(whole, frac, d);
    }
  }

  lemma {:induction false} RawReads(whole: string, frac: string, d: nat)
    requires AllDigits(whole) && AllDigits(frac)
    ensures var cut := if d < |frac| then frac[..d] else frac;
            RawOfParts(whole, frac, d) == Dec(Units(whole, cut, d))
  {
    hide Val, Pow10, TrimLeftZeros, Dec;
    var cut := if d < |frac| then frac[..d] else frac;
    if d == 0 {
      TrimmedIsDec(whole);
      AtNoDecimals(whole);
      assert cut == "";
    } else {
      RawOfDigits(whole, cut, d);
      ScaledIsSum(whole, cut, d);
      assert RawOfParts(whole, frac, d) == RawOfParts(whole, cut, d);
    }
  }

  lemma AtNoDecimals(whole: string)
    requires AllDigits(whole)
    ensures Units(whole, "", 0) == Val(whole)
  {
  }

  lemma PlainIsTight(t: string, whole: string, frac: string)
    requires IsPlain(t, whole, frac)
    ensures Tight(t)
  {
    PlainHasNoSpaces(t, whole, frac);
  }

  predicate IsAmountText(t: string, whole: string, frac: string) {
    IsPlain(t, whole, frac) && Val(whole) < TWO_64 && |frac| <= 8
  }

  lemma WholeParsesHere(whole: string)
    requires whole != "" && AllDigits(whole) && Val(whole) < TWO_64
    ensures ParseUint(whole) == Number(Val(whole))
  {
    hide Val;
  }

  lemma {:induction false} AcceptedIsAmountText(s: string)
    requires Amount(s).Some?
    ensures exists whole, frac :: IsAmountText(TrimSpace(s), whole, frac)
  {
    hide TrimSpace, Val, Pow10;
    var (whole, after) := SplitFirst(TrimSpace(s), '.');
    assert IsAmountText(TrimSpace(s), whole, if after.Some? then after.value else "");
  }

  lemma {:induction false} AmountTextIsAccepted(s: string, whole: string, frac: string)
    requires IsAmountText(TrimSpace(s), whole, frac)
    ensures Amount(s) == Some(Val(whole) * 100_000_000 + Val(frac) * Pow10(8 - |frac|))
  {
    hide TrimSpace, Val, Pow10, SplitFirst, ParseUint, AllDigits;
    PlainSplits(TrimSpace(s), whole, frac);
    WholeParsesHere(whole);
  }

  /**
   * ParseAmount accepts exactly decimal text of a whole part below 2^64 and at most eight fraction digits,
   * with spaces around it; and returns the low 64 bits of its value at 8 decimals.
   */
  lemma {:induction false} AmountAcceptsExactly(s: string)
    ensures ParsedAmount(s).Some? <==> exists whole, frac :: IsAmountText(TrimSpace(s), whole, frac)
    ensures forall whole, frac :: IsAmountText(TrimSpace(s), whole, frac) ==>
              ParsedAmount(s) == Some((Val(whole) * 100_000_000 + Val(frac) * Pow10(8 - |frac|)) % TWO_64)
  {
    hide TrimSpace, Val, Pow10, Amount, IsAmountText;
    if ParsedAmount(s).Some? {
      AcceptedIsAmountText(s);
    }
    forall whole, frac | IsAmountText(TrimSpace(s), whole, frac)
      ensures |frac| <= 8 && AllDigits(whole) && AllDigits(frac)
      ensures ParsedAmount(s) == Some((Val(whole) * 100_000_000 + Val(frac) * Pow10(8 - |frac|)) % TWO_64)
    {
      AmountTextParts(TrimSpace(s), whole, frac);
      AmountTextIsAccepted(s, whole, frac);
    }
  }

  lemma AmountTextParts(t: string, whole: string, frac: string)
    requires IsAmountText(t, whole, frac)
    ensures |frac| <= 8 && AllDigits(whole) && AllDigits(frac)
  {
  }

  // ----- printers -----

  lemma {:induction false} TrimmedEnd(s: string)
    ensures TrimRightZeros(s) != "" ==> TrimRightZeros(s)[|TrimRightZeros(s)| - 1] != '0'
  {
    if s != "" && s[|s| - 1] == '0' {
      TrimmedEnd(s[..|s| - 1]);
    }
  }

  /**
   * The shape of atomicToHumanStr's text: the integer itself at no decimals; else its whole part, and if
   * anything is left, a point and the digits of what is left, without a zero at their end.
   */
  lemma {:induction false} HumanStringIs(n: int, decimals: int)
    ensures decimals <= 0 ==> HumanString(n, decimals) == BigString(n)
    ensures 0 < decimals ==>
              var whole, rem := n / Pow10(decimals), n % Pow10(decimals);
              && (rem == 0 ==> HumanString(n, decimals) == BigString(whole))
              && (rem != 0 ==> exists f :: HumanString(n, decimals) == BigString(whole) + "." + f
                                           && IsFraction(f, rem, decimals) && f != "" && f[|f| - 1] != '0')
  {
    hide TrimRightZeros, PadLeft, IsFraction, Dec, Pow10;
    if 0 < decimals && n % Pow10(decimals) != 0 {
      var rem := n % Pow10(decimals);
      PaddedFraction(rem, decimals);
      TrimmedEnd(PadLeft(Dec(rem), decimals));
      var f := TrimRightZeros(PadLeft(Dec(rem), decimals));
      assert HumanString(n, decimals) == BigString(n / Pow10(decimals)) + "." + f;
    }
  }

  /** FormatBalance always writes eight fraction digits, and the symbol. */
  lemma {:induction false} FormatBalanceIs(n: u64)
    ensures exists f :: |f| == 8 && AllDigits(f) && Val(f) == n % 100_000_000
                        && FormatBalance(n) == Dec(n / 100_000_000) + "." + f + " ONEX"
  {
    hide PadLeft, Dec, Val;
    UnitIsPow10();
    DecLength(n % UNIT, 8);
    PadLeftKeepsVal(n % UNIT, 8);
    var f := PadLeft(Dec(n % UNIT), 8);
    assert FormatBalance(n) == Dec(n / 100_000_000) + "." + f + " ONEX";
  }
}

/** Decimal text: fmt's %d, strconv.ParseUint and big.Int.SetString in base 10. */
module Decimal {
  import opened Numbers
  import opened Results
  import opened Text

  predicate IsDigit(c: char) {
    '0' <= c <= '9'
  }

  function Digit(d: nat): (c: char)
    requires d < 10
    ensures IsDigit(c)
  {
    ('0' as int + d) as char
  }

  function DigitVal(c: char): (d: nat)
    requires IsDigit(c)
    ensures d < 10
  {
    c as int - '0' as int
  }

  predicate AllDigits(s: string) {
    forall i :: 0 <= i < |s| ==> IsDigit(s[i])
  }

  function Dec(n: nat): (s: string)
    ensures AllDigits(s) && 0 < |s|
    ensures 0 < n ==> s[0] != '0'
  {
    if n < 10 then [Digit(n)] else Dec(n / 10) + [Digit(n % 10)]
  }

  function Val(s: string): nat
    requires AllDigits(s)
  {
    if s == [] then 0 else Val(s[..|s| - 1]) * 10 + DigitVal(s[|s| - 1])
  }

  function Pow10(k: nat): (p: nat)
    ensures 0 < p
  {
    if k == 0 then 1 else 10 * Pow10(k - 1)
  }

  lemma {:induction false} ValOfDec(n: nat)
    ensures Val(Dec(n)) == n
  {
    if n < 10 {
      assert Dec(n)[..0] == [];
    } else {
      ValOfDec(n / 10);
      assert Dec(n)[..|Dec(n)| - 1] == Dec(n / 10);
    }
  }

  lemma {:induction false} DecIsInjective(m: nat, n: nat)
    requires Dec(m) == Dec(n)
    ensures m == n
  {
    ValOfDec(m);
    ValOfDec(n);
  }

  lemma TimesTen(n: nat, k: nat)
    ensures (n * Pow10(k)) * 10 == n * Pow10(k + 1)
  {
  }

  lemma {:induction false} ValOfConcat(a: string, b: string)
    requires AllDigits(a) && AllDigits(b)
    ensures AllDigits(a + b) && Val(a + b) == Val(a) * Pow10(|b|) + Val(b)
  {
    if b == [] {
      assert a + b == a;
    } else {
      var b' := b[..|b| - 1];
      ValOfConcat(a, b');
      assert (a + b)[..|a + b| - 1] == a + b';
      TimesTen(Val(a), |b'|);
    }
  }

  lemma {:induction false} ValBelowPow10(s: string)
    requires AllDigits(s)
    ensures Val(s) < Pow10(|s|)
  {
    if s != [] {
      ValBelowPow10(s[..|s| - 1]);
    }
  }

  lemma {:induction false} ValOfZeros(k: nat)
    ensures AllDigits(Repeat('0', k)) && Val(Repeat('0', k)) == 0
  {
    if k != 0 {
      ValOfZeros(k - 1);
      assert Repeat('0', k)[..k - 1] == Repeat('0', k - 1);
    }
  }

  lemma {:induction false} DecOfTen(n: nat, d: nat)
    requires 0 < n && d < 10
    ensures Dec(n * 10 + d) == Dec(n) + [Digit(d)]
  {
  }

  /** Decimal text without a leading zero is its own canonical form. */
  lemma {:induction false} DecOfVal(s: string)
    requires AllDigits(s) && s != [] && s[0] != '0'
    ensures 0 < Val(s) && Dec(Val(s)) == s
  {
    var init, last := s[..|s| - 1], s[|s| - 1];
    if init == [] {
      assert s == [last];
    } else {
      DecOfVal(init);
      assert s == init + [last];
      DecOfTen(Val(init), DigitVal(last));
    }
  }

  lemma {:induction false} TrimLeftZerosKeepsVal(s: string)
    requires AllDigits(s)
    ensures AllDigits(TrimLeftZeros(s)) && Val(TrimLeftZeros(s)) == Val(s)
    ensures TrimLeftZeros(s) != [] ==> TrimLeftZeros(s)[0] != '0'
  {
    if s != [] && s[0] == '0' {
      TrimLeftZerosKeepsVal(s[1..]);
      ValOfConcat([s[0]], s[1..]);
      assert s == [s[0]] + s[1..];
      assert [s[0]][..0] == [];
    }
  }

  /** Trimming leading zeros and writing "0" for nothing is canonical printing. */
  lemma {:induction false} TrimmedIsDec(s: string)
    requires AllDigits(s)
    ensures (if TrimLeftZeros(s) == [] then "0" else TrimLeftZeros(s)) == Dec(Val(s))
  {
    TrimLeftZerosKeepsVal(s);
    if TrimLeftZeros(s) != [] {
      DecOfVal(TrimLeftZeros(s));
    }
  }

  /** A number below 10^k has at most k digits. */
  lemma {:induction false} DecLength(n: nat, k: nat)
    requires 0 < k && n < Pow10(k)
    ensures |Dec(n)| <= k
  {
    if 10 <= n {
      DecLength(n / 10, k - 1);
    }
  }

  // ----- strconv.ParseUint(s, 10, 64) -----

  datatype Parsed = Number(n: u64) | SyntaxError | RangeError

  /** The digits before the first character that is not one. */
  function LeadingDigits(s: string): (p: string)
    ensures AllDigits(p) && p <= s && (p == s <==> AllDigits(s))
  {
    if s == [] || !IsDigit(s[0]) then [] else
      var rest := LeadingDigits(s[1..]);
      assert rest == s[1..] ==> [s[0]] + rest == s;
      [s[0]] + rest
  }

  /** Overflow is reported as soon as it is reached, before a later character is looked at. */
  function ParseUint(s: string): Parsed {
    var digits := LeadingDigits(s);
    if TWO_64 <= Val(digits) then RangeError
    else if s == [] || digits != s then SyntaxError
    else Number(Val(s))
  }

  lemma {:induction false} ParseUintOfDec(n: u64)
    ensures ParseUint(Dec(n)) == Number(n)
  {
    ValOfDec(n);
  }

  // ----- big.Int: String and SetString(s, 10) -----

  function BigString(n: int): string {
    if n < 0 then "-" + Dec(-n) else Dec(n)
  }

  function BigParse(s: string): Option<int> {
    var signed := s != [] && (s[0] == '-' || s[0] == '+');
    var digits := if signed then s[1..] else s;
    if digits == [] || !AllDigits(digits) then None
    else
      var magnitude: int := Val(digits);
      Some(if signed && s[0] == '-' then -magnitude else magnitude)
  }

  lemma {:induction false} BigParseOfDigits(s: string)
    requires AllDigits(s) && s != []
    ensures BigParse(s) == Some(Val(s))
    ensures BigParse("-" + s) == Some(-(Val(s) as int))
  {
    assert IsDigit(s[0]);
    assert ("-" + s)[1..] == s;
  }

  lemma BigParseOfBigString(n: int)
    ensures BigParse(BigString(n)) == Some(n)
  {
    var magnitude := if n < 0 then -n else n;
    ValOfDec(magnitude);
    BigParseOfDigits(Dec(magnitude));
  }
}

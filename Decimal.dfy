/**
 * Decimal numerals as the file service stores them: the `size` column is
 * written with `usize::to_string` and read back with `str::parse::<u64>`.
 */
module Decimal {
  import opened Wrappers

  /** One past the largest `u64`. */
  const U64_LIMIT: nat := 0x1_0000_0000_0000_0000

  predicate IsDigit(c: char) {
    '0' <= c <= '9'
  }

  predicate AllDigits(s: string) {
    forall i :: 0 <= i < |s| ==> IsDigit(s[i])
  }

  function DigitChar(d: nat): (c: char)
    requires d < 10
    ensures IsDigit(c) && c as int - '0' as int == d
  {
    ('0' as int + d) as char
  }

  /** `to_string` of an unsigned integer: its shortest decimal numeral. */
  function ToDecimal(n: nat): (s: string)
    ensures |s| >= 1 && AllDigits(s)
    ensures |s| > 1 ==> s[0] != '0'
    decreases n
  {
    if n < 10 then [DigitChar(n)] else ToDecimal(n / 10) + [DigitChar(n % 10)]
  }

  /** The value of a string of decimal digits, most significant digit first. */
  function DigitsValue(s: string): nat
    requires AllDigits(s)
  {
    if |s| == 0 then 0
    else DigitsValue(s[..|s| - 1]) * 10 + (s[|s| - 1] as int - '0' as int)
  }

  /** The text after an optional leading '+'. */
  function Unsigned(s: string): (d: string)
    ensures |d| <= |s|
  {
    if |s| > 0 && s[0] == '+' then s[1..] else s
  }

  /**
   * `str::parse::<u64>`: an optional leading '+', then at least one digit
   * and nothing else, with a value that fits in 64 bits; anything else
   * (empty, a sign alone, '-', whitespace, overflow) is an error.
   */
  function ParseU64(s: string): (r: Option<nat>)
    ensures r.Some? <==> |Unsigned(s)| > 0 && AllDigits(Unsigned(s)) && DigitsValue(Unsigned(s)) < U64_LIMIT
    ensures r.Some? ==> r.value == DigitsValue(Unsigned(s)) && r.value < U64_LIMIT
    ensures r.Some? ==> |s| > 0 && (IsDigit(s[0]) || s[0] == '+')
  {
    var digits := Unsigned(s);
    if |digits| == 0 || !AllDigits(digits) then None
    else if DigitsValue(digits) >= U64_LIMIT then None
    else Some(DigitsValue(digits))
  }

  /** Each numeral value is at least 10^(n-1) when it has n digits and no leading zero. */
  lemma {:induction false} DigitsValueAtLeast(s: string, p: nat)
    requires AllDigits(s) && |s| >= 1 && s[0] != '0' && p == |s| - 1
    ensures DigitsValue(s) >= Pow10(p)
    decreases |s|
  {
    if |s| > 1 {
      var init := s[..|s| - 1];
      assert init[0] == s[0];
      DigitsValueAtLeast(init, p - 1);
    }
  }

  lemma {:induction false} Pow10Grows(p: nat, q: nat)
    requires p <= q
    ensures Pow10(p) <= Pow10(q)
    decreases q
  {
    if p < q {
      Pow10Grows(p, q - 1);
    }
  }

  lemma Pow10Twenty()
    ensures Pow10(20) == 100_000_000_000_000_000_000 && Pow10(20) >= U64_LIMIT
  {
    assert Pow10(1) == 10;
    assert Pow10(2) == 100;
    assert Pow10(3) == 1000;
    assert Pow10(4) == 10000;
    assert Pow10(5) == 100000;
    assert Pow10(6) == 1000000;
    assert Pow10(7) == 10000000;
    assert Pow10(8) == 100000000;
    assert Pow10(9) == 1000000000;
    assert Pow10(10) == 10000000000;
    assert Pow10(11) == 100000000000;
    assert Pow10(12) == 1000000000000;
    assert Pow10(13) == 10000000000000;
    assert Pow10(14) == 100000000000000;
    assert Pow10(15) == 1000000000000000;
    assert Pow10(16) == 10000000000000000;
    assert Pow10(17) == 100000000000000000;
    assert Pow10(18) == 1000000000000000000;
    assert Pow10(19) == 10000000000000000000;
    assert Pow10(20) == 100000000000000000000;
  }

  /** Appending a digit multiplies the value by ten and adds the digit. */
  lemma AppendDigit(s: string, c: char)
    requires AllDigits(s) && IsDigit(c)
    ensures AllDigits(s + [c]) && DigitsValue(s + [c]) == DigitsValue(s) * 10 + (c as int - '0' as int)
  {
    assert (s + [c])[..|s|] == s;
  }

  function Pow10(p: nat): (r: nat)
    ensures r >= 1
  {
    if p == 0 then 1 else 10 * Pow10(p - 1)
  }

  /** What `parse::<u64>` refuses: the empty string, a sign alone, a minus sign, a trailing non-digit. */
  lemma ParseRejectsMalformed()
    ensures ParseU64("") == None && ParseU64("+") == None
    ensures ParseU64("-1") == None && ParseU64("1a") == None && ParseU64(" 1") == None
  {
    assert !AllDigits("-1") by { assert !IsDigit("-1"[0]); }
    assert !AllDigits("1a") by { assert !IsDigit("1a"[1]); }
    assert !AllDigits(" 1") by { assert !IsDigit(" 1"[0]); }
  }

  /** Every numeral of 21 digits or more without a leading zero is at least 10^20, past the limit. */
  lemma ParseRejectsLong(s: string)
    requires AllDigits(s) && |s| >= 21 && s[0] != '0'
    ensures ParseU64(s) == None
  {
    DigitsValueAtLeast(s, |s| - 1);
    Pow10Grows(20, |s| - 1);
    Pow10Twenty();
  }

  /** The boundary: 2^64 - 1 is accepted, 2^64 is refused. */
  lemma ParseBoundary()
    ensures ParseU64("18446744073709551615") == Some(U64_LIMIT - 1)
    ensures ParseU64("18446744073709551616") == None
  {
    LimitPrefix19();
    LimitDigits();
    AppendDigit("1844674407370955161", '5');
    assert "1844674407370955161" + ['5'] == "18446744073709551615";
  }

  /** The decimal numeral of 2^64, read one digit at a time (the value after the first n digits). */
  lemma LimitPrefix5()
    ensures DigitsValue("18446") == 18446
  {
    assert DigitsValue("1") == 1;
    AppendDigit("1", '8');
    assert "1" + ['8'] == "18";
    AppendDigit("18", '4');
    assert "18" + ['4'] == "184";
    AppendDigit("184", '4');
    assert "184" + ['4'] == "1844";
    AppendDigit("1844", '6');
    assert "1844" + ['6'] == "18446";
  }

  lemma LimitPrefix10()
    ensures DigitsValue("1844674407") == 1844674407
  {
    LimitPrefix5();
    AppendDigit("18446", '7');
    assert "18446" + ['7'] == "184467";
    AppendDigit("184467", '4');
    assert "184467" + ['4'] == "1844674";
    AppendDigit("1844674", '4');
    assert "1844674" + ['4'] == "18446744";
    AppendDigit("18446744", '0');
    assert "18446744" + ['0'] == "184467440";
    AppendDigit("184467440", '7');
    assert "184467440" + ['7'] == "1844674407";
  }

  lemma LimitPrefix15()
    ensures DigitsValue("184467440737095") == 184467440737095
  {
    LimitPrefix10();
    AppendDigit("1844674407", '3');
    assert "1844674407" + ['3'] == "18446744073";
    AppendDigit("18446744073", '7');
    assert "18446744073" + ['7'] == "184467440737";
    AppendDigit("184467440737", '0');
    assert "184467440737" + ['0'] == "1844674407370";
    AppendDigit("1844674407370", '9');
    assert "1844674407370" + ['9'] == "18446744073709";
    AppendDigit("18446744073709", '5');
    assert "18446744073709" + ['5'] == "184467440737095";
  }

  lemma LimitPrefix19()
    ensures DigitsValue("1844674407370955161") == 1844674407370955161
  {
    LimitPrefix15();
    AppendDigit("184467440737095", '5');
    assert "184467440737095" + ['5'] == "1844674407370955";
    AppendDigit("1844674407370955", '1');
    assert "1844674407370955" + ['1'] == "18446744073709551";
    AppendDigit("18446744073709551", '6');
    assert "18446744073709551" + ['6'] == "184467440737095516";
    AppendDigit("184467440737095516", '1');
    assert "184467440737095516" + ['1'] == "1844674407370955161";
  }

  lemma LimitDigits()
    ensures DigitsValue("18446744073709551616") == 18446744073709551616
  {
    LimitPrefix19();
    AppendDigit("1844674407370955161", '6');
    assert "1844674407370955161" + ['6'] == "18446744073709551616";
  }

  /** Reading back a numeral written by `ToDecimal` gives the number. */
  lemma {:induction false} ValueOfDecimal(n: nat)
    ensures DigitsValue(ToDecimal(n)) == n
  {
    if n >= 10 {
      var s := ToDecimal(n);
      assert s[..|s| - 1] == ToDecimal(n / 10);
      ValueOfDecimal(n / 10);
    }
  }

  /** `size.to_string()` followed by `parse::<u64>()` is lossless below 2^64. */
  lemma ParseDecimal(n: nat)
    requires n < U64_LIMIT
    ensures ParseU64(ToDecimal(n)) == Some(n)
  {
    ValueOfDecimal(n);
  }
}

/**
  Money amounts as the receipt carries them: text matching `^\d+\.\d{2}$`
  (one or more digits, a dot, exactly two digits), read as a whole number
  of cents.
 */
module Money {
  import opened JsText

  /** `^\d+\.\d{2}$` */
  predicate IsMoneyText(s: string) {
    |s| >= 4 && s[|s| - 3] == '.' && AllDigits(s[..|s| - 3]) && AllDigits(s[|s| - 2..])
  }

  /** The amount in cents: the dollars times 100 plus the two decimals. */
  function Cents(s: string): (c: nat)
    requires IsMoneyText(s)
    ensures c / 100 == DigitsValue(s[..|s| - 3])
    ensures c % 100 == DigitsValue(s[|s| - 2..])
  {
    DigitsValueTwo(s[|s| - 2..]);
    DigitsValue(s[..|s| - 3]) * 100 + DigitsValue(s[|s| - 2..])
  }

  /** Canonical money text for an amount in cents. */
  function FormatCents(c: nat): (s: string)
    ensures IsMoneyText(s)
  {
    Decimal(c / 100) + ['.'] + TwoDigits(c % 100)
  }

  /** Reading back formatted money gives the amount that was formatted. */
  lemma CentsOfFormat(c: nat)
    ensures Cents(FormatCents(c)) == c
  {
    var s := FormatCents(c);
    var d := Decimal(c / 100);
    assert s[..|s| - 3] == d;
    assert s[|s| - 2..] == TwoDigits(c % 100);
    DigitsValueOfDecimal(c / 100);
    DigitsValueTwo(s[|s| - 2..]);
  }

  /** The cents are a multiple of 100 exactly when the text ends in ".00";
      money text never ends in ".0". */
  lemma RoundIffZeroCents(s: string)
    requires IsMoneyText(s)
    ensures !EndsWith(s, ".0")
    ensures EndsWith(s, ".00") <==> Cents(s) % 100 == 0
  {
    var f := s[|s| - 2..];
    assert IsDigit(f[0]);
    DigitsValueTwo(f);
    if EndsWith(s, ".00") {
      assert f == "00";
    }
    if Cents(s) % 100 == 0 {
      assert f[0] == '0' && f[1] == '0';
      assert s[|s| - 3..] == [s[|s| - 3]] + f;
    }
  }
}

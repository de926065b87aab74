/** Token labels: the `formatToken` helper both pages share, and the number a label
    stands for. */
module Token {
  import opened Wrappers
  import opened Text

  /** Labels are at least this many digits wide after the prefix. */
  const MIN_DIGITS: nat := 3

  /** `formatToken(n)`: `T-` and the decimal digits of `n`, zero-padded at the front
      to at least three digits and never cut short. */
  function FormatToken(n: nat): (r: string)
    ensures var d := NatToString(n);
            && |r| == 2 + (if |d| >= MIN_DIGITS then |d| else MIN_DIGITS)
            && r[..2] == "T-"
            && r[|r| - |d|..] == d
            && forall i :: 2 <= i < |r| - |d| ==> r[i] == '0'
  {
    "T-" + PadStart(NatToString(n), MIN_DIGITS, '0')
  }

  /** The token number a label stands for: the value of the digits after `T-`, or
      nothing when the label is not of that shape. */
  function LabelNumber(s: string): Option<nat> {
    if |s| > 2 && s[..2] == "T-" && AllDigits(s[2..])
    then Some(DecimalValue(s[2..]))
    else None
  }

  /** A formatted label reads back as the number it was made from. */
  lemma LabelNumberOfFormatToken(n: nat)
    ensures LabelNumber(FormatToken(n)) == Some(n)
  {
    var d := NatToString(n);
    var t := FormatToken(n);
    var zeros := t[2..|t| - |d|];
    assert t[2..] == zeros + d;
    DecimalValueLeadingZeros(zeros, d);
    DecimalValueOfNatToString(n);
  }

  /** Distinct token numbers get distinct labels. */
  lemma FormatTokenInjective(m: nat, n: nat)
    requires FormatToken(m) == FormatToken(n)
    ensures m == n
  {
    LabelNumberOfFormatToken(m);
    LabelNumberOfFormatToken(n);
  }

  /** A one-digit number is padded to three digits. */
  lemma FormatTokenSeven()
    ensures FormatToken(7) == "T-007"
  {
    assert NatToString(7) == "7";
    assert PadStart("7", MIN_DIGITS, '0') == "00" + "7";
  }

  /** A three-digit number is not padded. */
  lemma FormatTokenOneTwoThree()
    ensures FormatToken(123) == "T-123"
  {
    assert NatToString(1) == "1";
    assert NatToString(12) == NatToString(1) + "2";
    assert NatToString(123) == NatToString(12) + "3";
  }

  /** A four-digit number is kept whole, not truncated to three digits. */
  lemma FormatTokenThousand()
    ensures FormatToken(1000) == "T-1000"
  {
    assert NatToString(1) == "1";
    assert NatToString(10) == NatToString(1) + "0";
    assert NatToString(100) == NatToString(10) + "0";
    assert NatToString(1000) == NatToString(100) + "0";
  }
}

/** Rendering of integer minor units (cents) with exactly two decimals, the
    `(cents / 100).toFixed(2)` idiom the bot uses for every amount it shows,
    and the reading that inverts it. */
module Money {
  import opened Base
  import opened Text

  /** `(cents / 100).toFixed(2)`: optional `-`, whole units, `.`, two digits. */
  function Fixed2(cents: int): string
  {
    if cents < 0 then "-" + UnsignedFixed2(-cents) else UnsignedFixed2(cents)
  }

  /** Whole units, `.`, two digits. */
  function UnsignedFixed2(a: nat): (r: string)
    ensures |r| >= 4 && IsDigit(r[0])
  {
    NatToString(a / 100) + "." + TwoDigits(a % 100)
  }

  /** Reads `digits.dd` into cents. */
  function ParseUnsignedFixed2(body: string): Option<nat>
  {
    if |body| < 4 || body[|body| - 3] != '.' then None
    else
      var whole := body[..|body| - 3];
      var frac := body[|body| - 2..];
      if !AllDigits(whole) || !AllDigits(frac) then None
      else Some(DigitsValue(whole) * 100 + DigitsValue(frac))
  }

  /** Reads `[-]digits.dd` back into cents; anything else is rejected. */
  function ParseFixed2(s: string): (r: Option<int>)
    ensures r.Some? ==> |s| > 0 && (r.value < 0 <==> s[0] == '-')
  {
    if |s| > 0 && s[0] == '-' then
      match ParseUnsignedFixed2(s[1..])
      case Some(m) => if m == 0 then None else Some(0 - m as int)
      case None => None
    else
      match ParseUnsignedFixed2(s)
      case Some(m) => Some(m as int)
      case None => None
  }

  lemma ParseUnsignedParts(whole: string, frac: string)
    requires |whole| >= 1 && AllDigits(whole)
    requires |frac| == 2 && AllDigits(frac)
    ensures ParseUnsignedFixed2(whole + "." + frac) == Some(DigitsValue(whole) * 100 + DigitsValue(frac))
  {
    var body := whole + "." + frac;
    assert body[|body| - 3] == '.';
    assert body[..|body| - 3] == whole;
    assert body[|body| - 2..] == frac;
  }

  lemma UnsignedRoundTrip(a: nat)
    ensures ParseUnsignedFixed2(UnsignedFixed2(a)) == Some(a)
  {
    ParseUnsignedParts(NatToString(a / 100), TwoDigits(a % 100));
    DigitsValueOfNatToString(a / 100);
  }

  /** A minus sign in front of a positive unsigned amount negates it. */
  lemma ParseNegated(body: string, m: nat)
    requires ParseUnsignedFixed2(body) == Some(m) && m > 0
    ensures ParseFixed2("-" + body) == Some(0 - m as int)
  {
    assert ("-" + body)[1..] == body;
  }

  /** Every amount renders to text that reads back as the same amount: the
      rendering loses nothing and is unambiguous. */
  lemma Fixed2RoundTrip(cents: int)
    ensures ParseFixed2(Fixed2(cents)) == Some(cents)
  {
    if cents < 0 {
      var a: nat := -cents;
      var body := UnsignedFixed2(a);
      UnsignedRoundTrip(a);
      ParseNegated(body, a);
      assert Fixed2(cents) == "-" + body;
    } else {
      UnsignedRoundTrip(cents);
    }
  }
}

/** Concrete cases the bot's commands are expected to show, computed on the
    model: known amounts, the "today" window for one instant, the first
    options of the `/stats` menu, known weekdays, and three submissions of
    the expense modal. */
module Scenarios {
  import opened Base
  import opened Text
  import opened Money
  import opened Calendar
  import opened Stripe
  import opened StatsCommand
  import ExpenseCommand

  // ---------------------------------------------------------------------
  // Amounts

  /** Twelve thousand three hundred and forty-five cents are `$123.45`. */
  lemma FormatCurrencyExample()
    ensures FormatCurrency(12345) == "$123.45"
  {
    assert NatToString(123) == "123";
    assert TwoDigits(45) == "45";
  }

  /** Nothing is `$0.00`. */
  lemma FormatCurrencyZero()
    ensures FormatCurrency(0) == "$0.00"
  {
    assert NatToString(0) == "0";
    assert TwoDigits(0) == "00";
  }

  /** A refund of five cents keeps its sign after the dollar sign. */
  lemma FormatCurrencyNegative()
    ensures FormatCurrency(-5) == "$-0.05"
  {
    assert NatToString(0) == "0";
    assert TwoDigits(5) == "05";
  }

  // ---------------------------------------------------------------------
  // Today's window and the date menu

  /** 2025-10-10T12:00:00Z, in milliseconds. */
  const NoonOct10: int := 1760097600000

  /** At noon UTC on 2025-10-10, a host five hours behind UTC counts the
      seconds from 05:00:00Z that day to 04:59:59Z the next as today. */
  lemma DayWindowExample()
    ensures DayWindow(NoonOct10, -18000) == Window(1760072400, 1760158799)
  {
  }

  /** Day numbers of October 2025: the 10th is day 20 371 since the epoch. */
  lemma OctoberDays(d: int)
    ensures DaysFromCivil(2025, 10, d) == 20361 + d
  {
  }

  /** Five hours behind UTC, the instant `i` days before `NoonOct10` falls
      on day 20 371 - `i`, for the first three options. */
  lemma OptionDayNumber(i: nat)
    requires i <= 2
    ensures DayOf(OptionLocal(NoonOct10, -5, i)) == 20371 - i
  {
    var localMs := OptionLocal(NoonOct10, -5, i);
    assert localMs == 1760079600000 - i * MsPerDay;
    DayOfBounds(localMs, 20371 - i);
  }

  /** At noon UTC on 2025-10-10, five hours behind UTC, the first three
      options of the menu are 2025-10-10, 2025-10-09 and 2025-10-08, on days
      20 371, 20 370 and 20 369. */
  lemma OptionOnOctober(i: nat)
    requires i <= 2
    ensures var localMs := OptionLocal(NoonOct10, -5, i);
            && DayOf(localMs) == 20371 - i
            && UtcDate(localMs) == Date(2025, 10, 10 - i)
  {
    OptionDayNumber(i);
    OctoberDate(i);
  }

  /** Days 20 371, 20 370 and 20 369 are 2025-10-10, 2025-10-09 and
      2025-10-08. */
  lemma OctoberDate(i: nat)
    requires i <= 2
    ensures CivilFromDays(20371 - i) == Date(2025, 10, 10 - i)
  {
    var date := Date(2025, 10, 10 - i);
    var z := DaysFromCivil(date.year, date.month, date.day);
    OctoberDays(10 - i);
    assert z == 20371 - i;
    CivilOfDaysFromCivil(date);
    assert CivilFromDays(z) == date;
  }

  /** Days 20 371, 20 370 and 20 369 are a Friday, a Thursday and a
      Wednesday (`getUTCDay` 5, 4 and 3). */
  lemma OctoberWeekDay(i: nat)
    requires i <= 2
    ensures WeekDay(20371 - i) == 5 - i
  {
    assert 20371 - i + 4 == 7 * 2910 + (5 - i);
  }

  /** The year as the menu writes it. */
  lemma YearText()
    ensures IntToString(2025) == "2025"
  {
    assert NatToString(2025) == "2025" by {
      assert NatToString(202) == "202";
    }
  }

  /** The value the menu gives 2025-10-10. */
  lemma OctoberTenthValue()
    ensures DateValue(Date(2025, 10, 10)) == "2025-10-10"
  {
    YearText();
    assert NatToString(10) == "10";
  }

  /** The value the menu gives 2025-10-08, the day padded to two digits. */
  lemma OctoberEighthValue()
    ensures DateValue(Date(2025, 10, 8)) == "2025-10-08"
  {
    YearText();
    assert NatToString(10) == "10";
  }

  /** `Fri Oct 10`, as the first option names 2025-10-10. */
  lemma OctoberTenthLabel()
    ensures DayName(20371) + " " + MonthName(10) + " " + NatToString(10) == "Fri Oct 10"
  {
    assert NatToString(10) == "10";
  }

  /** 1970-01-01 was a Thursday and 2000-01-01 a Saturday. */
  lemma WeekDayExamples()
    ensures DayName(DaysFromCivil(1970, 1, 1)) == "Thu"
    ensures DayName(DaysFromCivil(2000, 1, 1)) == "Sat"
  {
    assert DaysFromCivil(1970, 1, 1) == 0;
    assert DaysFromCivil(2000, 1, 1) == 10957;
  }

  /** 2025-10-10 was a Friday and 2026-10-10 a Saturday. */
  lemma OctoberWeekDays()
    ensures DayName(DaysFromCivil(2025, 10, 10)) == "Fri"
    ensures DayName(DaysFromCivil(2026, 10, 10)) == "Sat"
  {
    OctoberDays(10);
    assert DaysFromCivil(2026, 10, 10) == 20736;
  }

  /** Choosing `2025-10-10` with an offset of -5 hours reads back local
      midnight, 05:00:00Z. */
  lemma SelectedInstantExample()
    ensures SelectedInstant("2025-10-10", -5) == Some(1760072400000)
  {
    OctoberTenthValue();
    OctoberDays(10);
    SelectDate(Date(2025, 10, 10), -5);
  }

  // ---------------------------------------------------------------------
  // The expense modal

  /** Text that neither starts nor ends with whitespace trims to itself. */
  lemma TrimOfUnpadded(s: string)
    requires |s| > 0 && !IsWhitespace(s[0]) && !IsWhitespace(s[|s| - 1])
    ensures Trim(s) == s
  {
    assert TrimStart(s) == s;
    assert TrimEnd(s) == s;
  }

  /** Picking `Food` in the menu and leaving the text field empty resolves
      to `Food`. */
  lemma FoodChoice()
    ensures ExpenseCommand.ResolveCategory(ExpenseCommand.SelectedOf(ExpenseCommand.ModalId("Food")), "") == Some("Food")
    ensures StartsWith(ExpenseCommand.ModalId("Food"), ExpenseCommand.ModalPrefix)
    ensures !AllWhitespace("Food")
  {
    ExpenseCommand.ModalIdRoundTrip("Food");
    assert !IsWhitespace("Food"[0]);
  }

  lemma DropDollar()
    ensures RemoveChars("$12", {'-', '$'}) == "12"
  {
    RemoveCharsAbsent("12", {'-', '$'});
    assert "$12"[0] == '$' && "$12"[1..] == "12";
  }

  lemma TrimTwelve()
    ensures Trim("12") == "12"
  {
    assert "12"[0] == '1' && "12"[1] == '2';
    TrimOfUnpadded("12");
  }

  /** Cleaning `$12` drops the dollar sign. */
  lemma CleanTwelve()
    ensures ExpenseCommand.CleanAmount("$12") == "12"
  {
    DropDollar();
    TrimTwelve();
  }

  /** The unsigned grammar reads `12` as twelve. */
  lemma UnsignedTwelve()
    ensures ExpenseCommand.ParseUnsigned("12") == ExpenseCommand.Finite(12.0)
  {
    assert ExpenseCommand.LeadingDigits("12") == 2 by {
      ExpenseCommand.LeadingDigitsOf("12", "");
      assert "12" + "" == "12";
    }
    assert "12"[..2] == "12" && "12"[2..] == "";
    assert DigitsValue("12") == 12 by { assert "12"[..1] == "1"; }
    assert ExpenseCommand.FractionOf("") == "";
    assert ExpenseCommand.ExponentOf("") == 0;
    assert ExpenseCommand.Mantissa("12", "") == 12.0 by { assert DigitsValue("") == 0; }
  }

  /** `$12` cleaned reads as twelve, and it holds no minus sign. */
  lemma TwelveAmount()
    ensures ExpenseCommand.ParseFloat(ExpenseCommand.CleanAmount("$12")) == ExpenseCommand.Finite(12.0)
    ensures '-' !in "$12"
  {
    CleanTwelve();
    ParseTwelve();
  }

  /** `12` reads as twelve. */
  lemma ParseTwelve()
    ensures ExpenseCommand.ParseFloat("12") == ExpenseCommand.Finite(12.0)
  {
    ExpenseCommand.ParseFloatOfDigitStart("12");
    UnsignedTwelve();
  }

  /** Picking `Food` in the menu and typing `$12` stores 12 under `Food`. */
  lemma StoredExpenseExample()
    ensures ExpenseCommand.HandleExpenseModal(ExpenseCommand.ModalId("Food"), "$12", "")
              == ExpenseCommand.Added(ExpenseCommand.Finite(12.0), "Food")
  {
    FoodChoice();
    TwelveAmount();
  }

  /** Cleaning `-5` drops the minus sign. */
  lemma CleanMinusFive()
    ensures ExpenseCommand.CleanAmount("-5") == "5"
  {
    assert RemoveChars("-5", {'-', '$'}) == "5" by { assert "-5"[1..] == "5"; }
    assert Trim("5") == "5" by { TrimOfUnpadded("5"); }
  }

  /** The unsigned grammar reads `5` as five. */
  lemma UnsignedFive()
    ensures ExpenseCommand.ParseUnsigned("5") == ExpenseCommand.Finite(5.0)
  {
    assert ExpenseCommand.LeadingDigits("5") == 1 by {
      ExpenseCommand.LeadingDigitsOf("5", "");
      assert "5" + "" == "5";
    }
    assert "5"[..1] == "5" && "5"[1..] == "";
    assert DigitsValue("5") == 5 by { assert "5"[..0] == ""; }
    assert ExpenseCommand.FractionOf("") == "";
    assert ExpenseCommand.ExponentOf("") == 0;
    assert ExpenseCommand.Mantissa("5", "") == 5.0 by { assert DigitsValue("") == 0; }
  }

  /** `-5` cleaned reads as the positive number 5. */
  lemma MinusFiveAmount()
    ensures ExpenseCommand.ParseFloat(ExpenseCommand.CleanAmount("-5")) == ExpenseCommand.Finite(5.0)
    ensures '-' in "-5"
  {
    CleanMinusFive();
    ExpenseCommand.ParseFloatOfDigitStart("5");
    UnsignedFive();
    assert "-5"[0] == '-';
  }

  /** `-5` reads as the positive number 5 once cleaned, and the minus check
      refuses it. */
  lemma NegativeAmountExample()
    ensures ExpenseCommand.HandleExpenseModal(ExpenseCommand.ModalId("Food"), "-5", "")
              == ExpenseCommand.Rejected(ExpenseCommand.NegativeSign)
  {
    FoodChoice();
    MinusFiveAmount();
  }

  /** Cleaning `abc` leaves it as it is. */
  lemma CleanLetters()
    ensures ExpenseCommand.CleanAmount("abc") == "abc"
  {
    RemoveCharsAbsent("abc", {'-', '$'});
    assert Trim("abc") == "abc" by { TrimOfUnpadded("abc"); }
  }

  /** Letters hold no number. */
  lemma ParseLetters()
    ensures ExpenseCommand.ParseFloat("abc") == ExpenseCommand.NaN
  {
    assert "abc"[0] == 'a' && !IsWhitespace('a');
    assert TrimStart("abc") == "abc";
    assert !StartsWith("abc", "Infinity") by {
      assert "abc"[0] != "Infinity"[0];
    }
    assert ExpenseCommand.LeadingDigits("abc") == 0;
    assert "abc"[..0] == "" && "abc"[0..] == "abc";
    assert ExpenseCommand.FractionOf("abc") == "";
  }

  /** `abc` cleaned holds no number. */
  lemma LettersAmount()
    ensures ExpenseCommand.ParseFloat(ExpenseCommand.CleanAmount("abc")) == ExpenseCommand.NaN
  {
    CleanLetters();
    ParseLetters();
  }

  /** `abc` holds no number, so it is refused as an invalid amount. */
  lemma InvalidAmountExample()
    ensures ExpenseCommand.HandleExpenseModal(ExpenseCommand.ModalId("Food"), "abc", "")
              == ExpenseCommand.Rejected(ExpenseCommand.InvalidAmount)
  {
    FoodChoice();
    LettersAmount();
  }
}

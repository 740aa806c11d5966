/** The `/expense` command's pure logic: the add-category menu, the modal
    custom id that carries the chosen category, the validation of a
    submitted expense, and the labels of the remove menu. */
module ExpenseCommand {
  import opened Base
  import opened Text
  import opened Money

  // ---------------------------------------------------------------------
  // The add-category menu

  const NewCategory: string := "__new_category__"
  const NoCategory: string := "__no_category__"

  /** A select menu holds at most 25 options; two are fixed. */
  const MenuLimit: nat := 25
  const ShownCategories: nat := 23

  datatype MenuOption = MenuOption(caption: string, value: string)

  function CategoryOption(category: string): MenuOption
  {
    MenuOption(category, category)
  }

  /** The options of `handleAddExpense`: create, none, then the first 23
      existing categories as both caption and value. */
  function CategoryMenu(categories: seq<string>): (r: seq<MenuOption>)
    ensures |r| == 2 + Min(|categories|, ShownCategories) <= MenuLimit
    ensures r[0].value == NewCategory && r[1].value == NoCategory
    ensures forall i :: 0 <= i < |r| - 2 ==> r[i + 2] == MenuOption(categories[i], categories[i])
  {
    [MenuOption("➕ Create New Category", NewCategory), MenuOption("\U{1F4DD} No Category", NoCategory)]
      + MapSeq(Take(categories, ShownCategories), CategoryOption)
  }

  /** Every existing category among the first 23 can be selected. */
  lemma MenuOffersCategory(categories: seq<string>, i: nat)
    requires i < |categories| && i < ShownCategories
    ensures exists k :: 0 <= k < |CategoryMenu(categories)| && CategoryMenu(categories)[k].value == categories[i]
  {
    assert CategoryMenu(categories)[i + 2].value == categories[i];
  }

  // ---------------------------------------------------------------------
  // The modal custom id

  const ModalPrefix: string := "expense_modal_"

  /** The custom id of the modal opened for a selected value. */
  function ModalId(selected: string): string
  {
    ModalPrefix + selected
  }

  /** `customId.replace('expense_modal_', '')`. */
  function SelectedOf(customId: string): string
  {
    ReplaceFirst(customId, ModalPrefix, "")
  }

  /** The modal id is recognised by the submit handler, and stripping the
      prefix gives back exactly the selected value. */
  lemma ModalIdRoundTrip(selected: string)
    ensures StartsWith(ModalId(selected), ModalPrefix)
    ensures SelectedOf(ModalId(selected)) == selected
  {
    assert ModalId(selected)[..|ModalPrefix|] == ModalPrefix;
    ReplacePrefix(ModalPrefix, selected);
  }

  // ---------------------------------------------------------------------
  // Category resolution

  /** The category of a submitted expense: for the two special values the
      trimmed input or nothing; otherwise the trimmed input, falling back to
      the selected category (`||` keeps an empty selected value, which the
      category check rejects later). */
  function ResolveCategory(selected: string, input: string): (r: Option<string>)
    ensures Trim(input) != "" ==> r == Some(Trim(input))
    ensures Trim(input) == "" && (selected == NewCategory || selected == NoCategory) ==> r == None
    ensures Trim(input) == "" && selected != NewCategory && selected != NoCategory ==> r == Some(selected)
  {
    var typed := Trim(input);
    if selected == NewCategory then (if typed == "" then None else Some(typed))
    else if selected == NoCategory then (if typed == "" then None else Some(typed))
    else if typed == "" then Some(selected)
    else Some(typed)
  }

  /** Submitting the pre-filled input of an existing category unchanged keeps
      that category. */
  lemma PrefilledCategoryKept(category: string)
    requires category != NewCategory && category != NoCategory
    requires Trim(category) == category
    ensures ResolveCategory(category, category) == Some(category)
  {
  }

  // ---------------------------------------------------------------------
  // parseFloat

  /** What `parseFloat` returns. */
  datatype Number = NaN | Finite(value: real) | Infinite(negative: bool)

  /** The length of the run of decimal digits that starts `s`. */
  function LeadingDigits(s: string): (n: nat)
    ensures n <= |s| && AllDigits(s[..n])
    ensures n < |s| ==> !IsDigit(s[n])
  {
    if |s| == 0 || !IsDigit(s[0]) then 0
    else
      var n := 1 + LeadingDigits(s[1..]);
      assert s[..n] == [s[0]] + s[1..][..n - 1];
      n
  }

  /** Digits followed by a non-digit (or nothing): the run is exactly the
      digits. */
  lemma {:induction false} LeadingDigitsOf(digits: string, rest: string)
    requires AllDigits(digits)
    requires |rest| == 0 || !IsDigit(rest[0])
    ensures LeadingDigits(digits + rest) == |digits|
  {
    if |digits| > 0 {
      assert (digits + rest)[1..] == digits[1..] + rest;
      LeadingDigitsOf(digits[1..], rest);
    } else {
      assert digits + rest == rest;
    }
  }

  /** `x` times ten to the power `e`, one decimal place at a time. */
  function Scaled(x: real, e: int): (r: real)
    ensures x >= 0.0 ==> r >= 0.0
    ensures e == 0 ==> r == x
    decreases if e < 0 then -e else e
  {
    if e == 0 then x
    else if e > 0 then Scaled(x * 10.0, e - 1)
    else Scaled(x / 10.0, e + 1)
  }

  /** The exponent `e[+-]digits` that may follow the digits, 0 when there is
      none (a bare `e` is ignored, as trailing text is). */
  function ExponentOf(s: string): int
  {
    if |s| == 0 || (s[0] != 'e' && s[0] != 'E') then 0
    else
      var t := s[1..];
      var u := if |t| > 0 && (t[0] == '-' || t[0] == '+') then t[1..] else t;
      var n := LeadingDigits(u);
      if n == 0 then 0
      else if t[0] == '-' then -(DigitsValue(u[..n]) as int)
      else DigitsValue(u[..n])
  }

  /** The value of `whole.frac`. */
  function Mantissa(whole: string, frac: string): (m: real)
    requires AllDigits(whole) && AllDigits(frac)
    ensures m >= 0.0
  {
    DigitsValue(whole) as real + Scaled(DigitsValue(frac) as real, -|frac|)
  }

  /** The fraction digits after the integer digits: present only after a
      dot. */
  function FractionOf(rest: string): (frac: string)
    ensures AllDigits(frac)
    ensures |frac| > 0 ==> |rest| > |frac| && rest[0] == '.'
  {
    if |rest| > 0 && rest[0] == '.' then rest[1..][..LeadingDigits(rest[1..])] else ""
  }

  /** The unsigned part of `parseFloat`: the longest prefix of the form
      `digits[.digits][e±digits]` with at least one digit, anything after it
      ignored; no digit at all is NaN. */
  function ParseUnsigned(body: string): (r: Number)
    ensures r.NaN? || (r.Finite? && r.value >= 0.0)
  {
    var whole := body[..LeadingDigits(body)];
    var rest := body[|whole|..];
    var frac := FractionOf(rest);
    if |whole| == 0 && |frac| == 0 then NaN
    else
      var after := if |rest| > 0 && rest[0] == '.' then rest[1 + |frac|..] else rest;
      Finite(Scaled(Mantissa(whole, frac), ExponentOf(after)))
  }

  /** `Infinity`, or else an unsigned decimal. */
  function ParseMagnitude(body: string): (r: Number)
    ensures r.NaN? || (r.Finite? && r.value >= 0.0) || r == Infinite(false)
  {
    if StartsWith(body, "Infinity") then Infinite(false) else ParseUnsigned(body)
  }

  /** A parsed number with a leading minus applied. */
  function Negated(n: Number): Number
  {
    match n
    case NaN => NaN
    case Finite(m) => Finite(-m)
    case Infinite(negative) => Infinite(!negative)
  }

  /** What follows the whitespace: an optional sign, then `Infinity` or an
      unsigned decimal. */
  function ParseSigned(t: string): Number
  {
    if |t| > 0 && t[0] == '-' then Negated(ParseMagnitude(t[1..]))
    else if |t| > 0 && t[0] == '+' then ParseMagnitude(t[1..])
    else ParseMagnitude(t)
  }

  /** `parseFloat` on exact decimals: leading whitespace is skipped. */
  function ParseFloat(s: string): Number
  {
    ParseSigned(TrimStart(s))
  }

  /** What passes `!(isNaN(amount) || amount <= 0)`. */
  predicate Positive(n: Number)
  {
    (n.Finite? && n.value > 0.0) || n == Infinite(false)
  }

  /** Whole units, a dot and two digits split into those parts. */
  lemma DecimalParts(whole: string, frac: string)
    requires |whole| > 0 && AllDigits(whole)
    requires |frac| == 2 && AllDigits(frac)
    ensures var body := whole + "." + frac;
            var n := LeadingDigits(body);
            && n == |whole| && body[..n] == whole
            && FractionOf(body[n..]) == frac
            && body[n..][1 + |frac|..] == ""
  {
    var body := whole + "." + frac;
    LeadingDigitsOf(whole, "." + frac);
    assert body == whole + ("." + frac);
    var rest := body[|whole|..];
    assert rest == "." + frac;
    assert rest[1..] == frac + "";
    LeadingDigitsOf(frac, "");
  }

  /** Whole units, a dot and two digits read as units plus hundredths. */
  lemma ParseUnsignedFixed(whole: string, frac: string)
    requires |whole| > 0 && AllDigits(whole)
    requires |frac| == 2 && AllDigits(frac)
    ensures ParseUnsigned(whole + "." + frac) == Finite(DigitsValue(whole) as real + DigitsValue(frac) as real / 100.0)
  {
    DecimalParts(whole, frac);
    assert ExponentOf("") == 0;
    var x := DigitsValue(frac) as real;
    assert Scaled(x, -2) == Scaled(x / 10.0, -1) == x / 100.0;
  }

  lemma TrimStartOfDigitStart(s: string)
    requires |s| > 0 && IsDigit(s[0])
    ensures TrimStart(s) == s
  {
    assert !IsWhitespace(s[0]);
  }

  lemma ParseSignedOfDigitStart(s: string)
    requires |s| > 0 && IsDigit(s[0])
    ensures ParseSigned(s) == ParseUnsigned(s)
  {
    assert !StartsWith(s, "Infinity") by {
      assert s[0] != "Infinity"[0];
    }
  }

  /** Text starting with a digit has no whitespace, sign or `Infinity` to
      skip. */
  lemma ParseFloatOfDigitStart(s: string)
    requires |s| > 0 && IsDigit(s[0])
    ensures ParseFloat(s) == ParseUnsigned(s)
  {
    TrimStartOfDigitStart(s);
    ParseSignedOfDigitStart(s);
  }

  lemma CentsAsReal(cents: nat)
    ensures (cents / 100) as real + (cents % 100) as real / 100.0 == cents as real / 100.0
  {
    var q := cents / 100;
    var r := cents % 100;
    assert cents == q * 100 + r;
    assert cents as real == q as real * 100.0 + r as real;
  }

  lemma ParseFloatOfParts(s: string, whole: string, frac: string)
    requires |whole| > 0 && AllDigits(whole)
    requires |frac| == 2 && AllDigits(frac)
    requires s == whole + "." + frac
    ensures ParseFloat(s) == Finite(DigitsValue(whole) as real + DigitsValue(frac) as real / 100.0)
  {
    assert s[0] == whole[0];
    ParseFloatOfDigitStart(s);
    ParseUnsignedFixed(whole, frac);
  }

  /** The whole and fraction digits `toFixed(2)` writes are worth the
      amount. */
  lemma Fixed2PartsValue(cents: nat)
    ensures DigitsValue(NatToString(cents / 100)) as real + DigitsValue(TwoDigits(cents % 100)) as real / 100.0
            == cents as real / 100.0
  {
    DigitsValueOfNatToString(cents / 100);
    CentsAsReal(cents);
  }

  /** The text `toFixed(2)` gives for an amount reads back as that amount. */
  lemma ParseFloatOfFixed2(cents: nat)
    ensures ParseFloat(UnsignedFixed2(cents)) == Finite(cents as real / 100.0)
  {
    var s := UnsignedFixed2(cents);
    ParseFloatOfDigitStart(s);
    assert ParseUnsigned(s) == Finite(cents as real / 100.0) by {
      ParseUnsignedFixed(NatToString(cents / 100), TwoDigits(cents % 100));
      Fixed2PartsValue(cents);
    }
  }

  // ---------------------------------------------------------------------
  // handleExpenseModal

  datatype Rejection = InvalidAmount | NegativeSign | CategoryRequired

  /** What submitting the modal does: nothing for another modal, an error
      reply, or a stored expense. */
  datatype Outcome = Ignored | Rejected(reason: Rejection) | Added(amount: Number, category: string)

  /** The amount text with every `-` and `$` removed and then trimmed. */
  function CleanAmount(amountText: string): string
  {
    Trim(RemoveChars(amountText, {'-', '$'}))
  }

  /** The checks of `handleExpenseModal`, in order, on the parsed amount:
      the amount, the minus sign, the category; the first that fails
      decides the reply. */
  function Validate(amount: Number, amountText: string, category: Option<string>): (r: Outcome)
    ensures r != Ignored
    ensures r == Rejected(InvalidAmount) <==> !Positive(amount)
    ensures r == Rejected(NegativeSign) <==> Positive(amount) && '-' in amountText
    ensures r.Added? <==> Positive(amount) && '-' !in amountText && category.Some? && !AllWhitespace(category.value)
    ensures r.Added? ==> r.amount == amount && Some(r.category) == category
  {
    if !Positive(amount) then Rejected(InvalidAmount)
    else if '-' in amountText then Rejected(NegativeSign)
    else if category.None? || Trim(category.value) == "" then Rejected(CategoryRequired)
    else Added(amount, category.value)
  }

  /** `handleExpenseModal`: another modal is ignored; this one resolves the
      category from the id and the input, reads the cleaned amount with
      `parseFloat`, then validates. */
  function HandleExpenseModal(customId: string, amountText: string, categoryInput: string): (r: Outcome)
    ensures r == Ignored <==> !StartsWith(customId, ModalPrefix)
  {
    if !StartsWith(customId, ModalPrefix) then Ignored
    else
      var category := ResolveCategory(SelectedOf(customId), categoryInput);
      Validate(ParseFloat(CleanAmount(amountText)), amountText, category)
  }

  /** No amount text containing `-` is ever stored: either what is left of it
      does not parse as a positive number, or the minus check rejects it. */
  lemma MinusNeverStored(customId: string, amountText: string, categoryInput: string)
    requires '-' in amountText
    ensures !HandleExpenseModal(customId, amountText, categoryInput).Added?
  {
  }

  /** Removing the dollar signs first leaves the cleaned amount and the
      minus check as they were. */
  lemma DollarSignsInvisible(amountText: string)
    ensures CleanAmount(RemoveChars(amountText, {'$'})) == CleanAmount(amountText)
    ensures ('-' in RemoveChars(amountText, {'$'})) == ('-' in amountText)
  {
    RemoveCharsTwice(amountText, {'$'}, {'-', '$'});
    var plain := RemoveChars(amountText, {'$'});
    if '-' in amountText {
      var i :| 0 <= i < |amountText| && amountText[i] == '-';
      assert amountText[i] in plain;
    }
  }

  /** Dollar signs anywhere in the amount make no difference to the outcome. */
  lemma DollarSignsIgnored(customId: string, amountText: string, categoryInput: string)
    ensures HandleExpenseModal(customId, RemoveChars(amountText, {'$'}), categoryInput)
            == HandleExpenseModal(customId, amountText, categoryInput)
  {
    DollarSignsInvisible(amountText);
  }

  /** A submitted menu choice reaches the handler with its category: when
      the category input is blank, an existing category is stored as
      selected, and for the two special choices the category check fails. */
  lemma SubmittedChoice(selected: string, amountText: string, categoryInput: string)
    requires Positive(ParseFloat(CleanAmount(amountText))) && '-' !in amountText
    requires AllWhitespace(categoryInput)
    ensures var r := HandleExpenseModal(ModalId(selected), amountText, categoryInput);
            && (selected == NewCategory || selected == NoCategory || AllWhitespace(selected) ==> r == Rejected(CategoryRequired))
            && (selected != NewCategory && selected != NoCategory && !AllWhitespace(selected) ==> r.Added? && r.category == selected)
  {
    ModalIdRoundTrip(selected);
  }

  // ---------------------------------------------------------------------
  // The remove menu

  /** Category text longer than this is cut. */
  const LabelCategoryLimit: nat := 50

  /** An expense as the remove menu sees it; an empty category stands for
      none. */
  datatype Expense = Expense(id: nat, amountCents: int, category: string)

  /** The category part of a remove-menu label. */
  function LabelCategory(category: string): (r: string)
    ensures |category| == 0 ==> r == "No Category"
    ensures 0 < |category| <= LabelCategoryLimit ==> r == category
    ensures |category| > LabelCategoryLimit ==> r == category[..LabelCategoryLimit] + "..."
    ensures |r| <= LabelCategoryLimit + 3
  {
    var text := if category == "" then "No Category" else category;
    Ellipsize(text, LabelCategoryLimit, LabelCategoryLimit)
  }

  /** `$<amount> - <category>`, the option label for one expense. */
  function RemoveLabel(e: Expense): (r: string)
    ensures var amount := "$" + Fixed2(e.amountCents) + " - ";
            && |amount| <= |r| <= |amount| + LabelCategoryLimit + 3
            && r[..|amount|] == amount
            && r[|amount|..] == LabelCategory(e.category)
  {
    "$" + Fixed2(e.amountCents) + " - " + LabelCategory(e.category)
  }

  /** The label's amount reads back as the expense's amount. */
  lemma RemoveLabelAmount(e: Expense)
    ensures var text := RemoveLabel(e);
            var shown := Fixed2(e.amountCents);
            && text[0] == '$'
            && ParseFixed2(text[1..1 + |shown|]) == Some(e.amountCents)
  {
    var shown := Fixed2(e.amountCents);
    var text := RemoveLabel(e);
    assert text[1..1 + |shown|] == shown;
    Fixed2RoundTrip(e.amountCents);
  }
}
